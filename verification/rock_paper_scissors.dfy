/** Rock-paper-scissors scoring with enums (`src/day2.rs`): a dominance
    table, round scores, and the second reading of the strategy guide in
    which the second column names the outcome to reach. */
module RockPaperScissors {
  import opened Results
  import opened Text

  datatype Move = Rock | Paper | Scissors

  datatype Strategy = Lose | Draw | Win

  /** The opponent's move, then mine. */
  type Round = (Move, Move)

  /** `Move::score`: the value of the shape played. */
  function Score(m: Move): (r: nat)
    ensures 1 <= r <= 3
  {
    match m
    case Rock => 1
    case Paper => 2
    case Scissors => 3
  }

  /** `move_beats_move`: Rock beats Scissors, Paper beats Rock, Scissors
      beats Paper. */
  predicate Beats(m1: Move, m2: Move)
    ensures Beats(m1, m2) <==> (Score(m1) - Score(m2)) % 3 == 1
  {
    match m1
    case Rock => m2 == Scissors
    case Paper => m2 == Rock
    case Scissors => m2 == Paper
  }

  /** For any two moves exactly one holds: the first wins, they tie, or
      the second wins. */
  lemma Trichotomy(m1: Move, m2: Move)
    ensures Beats(m1, m2) || m1 == m2 || Beats(m2, m1)
    ensures !(Beats(m1, m2) && m1 == m2)
    ensures !(Beats(m1, m2) && Beats(m2, m1))
    ensures !(m1 == m2 && Beats(m2, m1))
  {
  }

  /** Every move beats exactly one move and is beaten by exactly one, and
      dominance runs in a cycle of three. */
  lemma BeatsIsCyclic(m: Move)
    ensures exists w :: Beats(m, w)
    ensures forall w1, w2 :: Beats(m, w1) && Beats(m, w2) ==> w1 == w2
    ensures forall l1, l2 :: Beats(l1, m) && Beats(l2, m) ==> l1 == l2
    ensures forall a, b :: Beats(m, a) && Beats(a, b) ==> Beats(b, m)
  {
    match m
    case Rock => assert Beats(Rock, Scissors);
    case Paper => assert Beats(Paper, Rock);
    case Scissors => assert Beats(Scissors, Paper);
  }

  /** The outcome of a round from my side: the reference against which
      the scoring and the strategy fitting are checked. */
  function Outcome(r: Round): Strategy
  {
    if Beats(r.1, r.0) then Win else if r.0 == r.1 then Draw else Lose
  }

  /** The points an outcome earns. */
  function Bonus(s: Strategy): nat
  {
    match s
    case Lose => 0
    case Draw => 3
    case Win => 6
  }

  /** `score_round`: my shape's value plus 6 for a win, 3 for a draw and
      0 for a loss; always between 1 and 9. */
  function ScoreRound(r: Round): (s: nat)
    ensures 1 <= s <= 9
    ensures s == Score(r.1) + Bonus(Outcome(r))
  {
    Score(r.1)
      + if Beats(r.1, r.0) then 6
        else if r.0 == r.1 then 3
        else 0
  }

  /** `fit_strategy`: the move that reaches the wanted outcome against `m`. */
  function FitStrategy(m: Move, s: Strategy): (r: Move)
    ensures s == Win ==> Beats(r, m)
    ensures s == Draw ==> r == m
    ensures s == Lose ==> Beats(m, r)
  {
    match m
    case Rock => (match s case Lose => Scissors case Draw => Rock case Win => Paper)
    case Paper => (match s case Lose => Rock case Draw => Paper case Win => Scissors)
    case Scissors => (match s case Lose => Paper case Draw => Scissors case Win => Rock)
  }

  /** Fitting is the inverse of judging: the fitted move reaches exactly
      the wanted outcome, and judging a round recovers the move played. */
  lemma FitInvertsOutcome(m: Move, s: Strategy, mine: Move)
    ensures Outcome((m, FitStrategy(m, s))) == s
    ensures FitStrategy(m, Outcome((m, mine))) == mine
  {
  }

  /** Different wanted outcomes never fit the same move. */
  lemma FitInjective(m: Move, s1: Strategy, s2: Strategy)
    requires FitStrategy(m, s1) == FitStrategy(m, s2)
    ensures s1 == s2
  {
    FitInvertsOutcome(m, s1, m);
    FitInvertsOutcome(m, s2, m);
  }

  /** A fitted round scores the fitted shape plus the outcome's points. */
  lemma FittedRoundScore(m: Move, s: Strategy)
    ensures ScoreRound((m, FitStrategy(m, s))) == Score(FitStrategy(m, s)) + Bonus(s)
  {
    FitInvertsOutcome(m, s, m);
  }

  // ---------------------------------------------------------------------
  // Parsing
  // ---------------------------------------------------------------------

  /** `parse_move`: A or X is Rock, B or Y is Paper, C or Z is Scissors;
      any other token panics. */
  function ParseMove(token: string): (r: Option<Move>)
    ensures r == Some(Rock) <==> token == "A" || token == "X"
    ensures r == Some(Paper) <==> token == "B" || token == "Y"
    ensures r == Some(Scissors) <==> token == "C" || token == "Z"
  {
    if token == "A" then Some(Rock)
    else if token == "B" then Some(Paper)
    else if token == "C" then Some(Scissors)
    else if token == "X" then Some(Rock)
    else if token == "Y" then Some(Paper)
    else if token == "Z" then Some(Scissors)
    else None
  }

  /** `parse_strategy`: X is Lose, Y is Draw, Z is Win; any other token panics. */
  function ParseStrategy(token: string): (r: Option<Strategy>)
    ensures r == Some(Lose) <==> token == "X"
    ensures r == Some(Draw) <==> token == "Y"
    ensures r == Some(Win) <==> token == "Z"
  {
    if token == "X" then Some(Lose)
    else if token == "Y" then Some(Draw)
    else if token == "Z" then Some(Win)
    else None
  }

  /** `parse_round`: the first two whitespace-separated tokens, both read
      as moves; later tokens are ignored. */
  function ParseRound(line: string): (r: Option<Round>)
    ensures r.Some? <==> |Tokens(line)| >= 2 && ParseMove(Tokens(line)[0]).Some?
                                                 && ParseMove(Tokens(line)[1]).Some?
  {
    var tokens := Tokens(line);
    if |tokens| < 2 then None
    else
      match (ParseMove(tokens[0]), ParseMove(tokens[1]))
      case (Some(first), Some(second)) => Some((first, second))
      case _ => None
  }

  /** `parse_part_two`: a move, then a wanted outcome. */
  function ParsePartTwo(line: string): (r: Option<(Move, Strategy)>)
    ensures r.Some? <==> |Tokens(line)| >= 2 && ParseMove(Tokens(line)[0]).Some?
                                                 && ParseStrategy(Tokens(line)[1]).Some?
  {
    var tokens := Tokens(line);
    if |tokens| < 2 then None
    else
      match (ParseMove(tokens[0]), ParseStrategy(tokens[1]))
      case (Some(first), Some(second)) => Some((first, second))
      case _ => None
  }

  // ---------------------------------------------------------------------
  // Totals over a strategy guide
  // ---------------------------------------------------------------------

  /** The total of the first reading over the given lines; `None` when a
      line does not parse (the source panics). */
  function TotalPartOne(lines: seq<string>): (r: Option<nat>)
    ensures r.Some? <==> forall i :: 0 <= i < |lines| ==> ParseRound(lines[i]).Some?
    ensures r.Some? ==> |lines| <= r.value <= 9 * |lines|
  {
    if |lines| == 0 then Some(0)
    else
      match (ParseRound(lines[0]), TotalPartOne(lines[1..]))
      case (Some(round), Some(rest)) => Some(ScoreRound(round) + rest)
      case _ => None
  }

  /** The total of the second reading: each line's move is fitted to the
      wanted outcome before scoring. */
  function TotalPartTwo(lines: seq<string>): (r: Option<nat>)
    ensures r.Some? <==> forall i :: 0 <= i < |lines| ==> ParsePartTwo(lines[i]).Some?
    ensures r.Some? ==> |lines| <= r.value <= 9 * |lines|
  {
    if |lines| == 0 then Some(0)
    else
      match (ParsePartTwo(lines[0]), TotalPartTwo(lines[1..]))
      case (Some((m, s)), Some(rest)) => Some(ScoreRound((m, FitStrategy(m, s))) + rest)
      case _ => None
  }

  /** `part1`: the score the guide yields when both columns are moves. */
  function PartOne(input: string): (r: Option<nat>)
    ensures r.Some? <==> forall i :: 0 <= i < |Lines(input)| ==> ParseRound(Lines(input)[i]).Some?
    ensures r.Some? ==> |Lines(input)| <= r.value <= 9 * |Lines(input)|
  {
    TotalPartOne(Lines(input))
  }

  /** `part2`: the score the guide yields when the second column is the
      outcome to reach. */
  function PartTwo(input: string): (r: Option<nat>)
    ensures r.Some? <==> forall i :: 0 <= i < |Lines(input)| ==> ParsePartTwo(Lines(input)[i]).Some?
    ensures r.Some? ==> |Lines(input)| <= r.value <= 9 * |Lines(input)|
  {
    TotalPartTwo(Lines(input))
  }

  /** Totals are additive: the guide's total is the sum of its parts'
      totals, and fails exactly when one part fails. */
  lemma {:induction false} TotalPartOneAppend(xs: seq<string>, ys: seq<string>)
    ensures TotalPartOne(xs + ys).Some? <==> TotalPartOne(xs).Some? && TotalPartOne(ys).Some?
    ensures TotalPartOne(xs + ys).Some? ==>
              TotalPartOne(xs + ys).value == TotalPartOne(xs).value + TotalPartOne(ys).value
    decreases |xs|
  {
    if |xs| == 0 {
      assert xs + ys == ys;
    } else {
      assert (xs + ys)[1..] == xs[1..] + ys;
      assert (xs + ys)[0] == xs[0];
      TotalPartOneAppend(xs[1..], ys);
    }
  }

  /** The same additivity for the second reading. */
  lemma {:induction false} TotalPartTwoAppend(xs: seq<string>, ys: seq<string>)
    ensures TotalPartTwo(xs + ys).Some? <==> TotalPartTwo(xs).Some? && TotalPartTwo(ys).Some?
    ensures TotalPartTwo(xs + ys).Some? ==>
              TotalPartTwo(xs + ys).value == TotalPartTwo(xs).value + TotalPartTwo(ys).value
    decreases |xs|
  {
    if |xs| == 0 {
      assert xs + ys == ys;
    } else {
      assert (xs + ys)[1..] == xs[1..] + ys;
      assert (xs + ys)[0] == xs[0];
      TotalPartTwoAppend(xs[1..], ys);
    }
  }

  // ---------------------------------------------------------------------
  // The worked example of the puzzle: "A Y", "B X", "C Z"
  // ---------------------------------------------------------------------

  lemma ExampleLines()
    ensures Lines("A Y\nB X\nC Z") == ["A Y", "B X", "C Z"]
  {
    assert Join(["A Y", "B X", "C Z"], "\n") == "A Y\nB X\nC Z";
    LinesOfJoin(["A Y", "B X", "C Z"]);
  }

  lemma ExampleTokens()
    ensures Tokens("A Y") == ["A", "Y"] && Tokens("B X") == ["B", "X"] && Tokens("C Z") == ["C", "Z"]
  {
    TokensOfPair("A", "Y");
    TokensOfPair("B", "X");
    TokensOfPair("C", "Z");
    assert "A" + " " + "Y" == "A Y";
    assert "B" + " " + "X" == "B X";
    assert "C" + " " + "Z" == "C Z";
  }

  lemma ExampleRounds()
    ensures ParseRound("A Y") == Some((Rock, Paper))
    ensures ParseRound("B X") == Some((Paper, Rock))
    ensures ParseRound("C Z") == Some((Scissors, Scissors))
    ensures ParsePartTwo("A Y") == Some((Rock, Draw))
    ensures ParsePartTwo("B X") == Some((Paper, Lose))
    ensures ParsePartTwo("C Z") == Some((Scissors, Win))
  {
    ExampleTokens();
  }

  /** Three lines whose rounds are already known; the lines stay variables
      so that the totals are not evaluated on literals. */
  lemma ExampleTotalOne(a: string, b: string, c: string)
    requires ParseRound(a) == Some((Rock, Paper))
    requires ParseRound(b) == Some((Paper, Rock))
    requires ParseRound(c) == Some((Scissors, Scissors))
    ensures TotalPartOne([a, b, c]) == Some(15)
  {
    assert [a, b, c] == [a] + [b, c];
    assert [b, c] == [b] + [c];
    assert [c][1..] == [] && [b][1..] == [] && [a][1..] == [];
    TotalPartOneAppend([b], [c]);
    TotalPartOneAppend([a], [b, c]);
  }

  lemma ExampleTotalTwo(a: string, b: string, c: string)
    requires ParsePartTwo(a) == Some((Rock, Draw))
    requires ParsePartTwo(b) == Some((Paper, Lose))
    requires ParsePartTwo(c) == Some((Scissors, Win))
    ensures TotalPartTwo([a, b, c]) == Some(12)
  {
    assert [a, b, c] == [a] + [b, c];
    assert [b, c] == [b] + [c];
    assert [c][1..] == [] && [b][1..] == [] && [a][1..] == [];
    TotalPartTwoAppend([b], [c]);
    TotalPartTwoAppend([a], [b, c]);
  }

  /** The guide "A Y / B X / C Z" scores 15 under the first reading and 12
      under the second. */
  lemma Example()
    ensures PartOne("A Y\nB X\nC Z") == Some(15)
    ensures PartTwo("A Y\nB X\nC Z") == Some(12)
  {
    ExampleLines();
    ExampleRounds();
    ExampleTotalOne("A Y", "B X", "C Z");
    ExampleTotalTwo("A Y", "B X", "C Z");
  }
}
