/** Rock-paper-scissors scoring by modular arithmetic (`src/day2_better.rs`).

    Moves and wanted outcomes are read as codes 0, 1, 2 and the round score
    is computed with `%` instead of a dominance table. The table-driven
    model in `RockPaperScissors` is the reference: the first reading agrees
    with it on every guide, and the second reading agrees with it on every
    round except "A X", where the truncating remainder of a negative number
    yields a score of 0 instead of 3. */
module RockPaperScissorsArith {
  import opened Results
  import opened Text
  import opened RockPaperScissors

  /** Rust's `%` by 3 on signed integers: it truncates toward zero, so the
      remainder takes the sign of the dividend. */
  function TruncRem3(a: int): int
  {
    if a >= 0 then a % 3 else -((-a) % 3)
  }

  /** The truncating remainder differs from its dividend by a multiple of 3,
      is never negative for a non-negative dividend, never positive for a
      negative one, and is smaller than 3 in magnitude; these facts fix it
      uniquely, and it differs from the Euclidean remainder exactly when
      the dividend is negative and not a multiple of 3. */
  lemma TruncRem3Characterised(a: int)
    ensures (a - TruncRem3(a)) % 3 == 0
    ensures a >= 0 ==> 0 <= TruncRem3(a) < 3
    ensures a < 0 ==> -3 < TruncRem3(a) <= 0
    ensures TruncRem3(a) != a % 3 <==> a < 0 && a % 3 != 0
  {
  }

  /** `parse_move`: A and X are 0, B and Y are 1, C and Z are 2; any other
      token panics. The same letters serve for both columns and both
      readings. */
  function ParseCode(token: string): (r: Option<int>)
    ensures r.Some? ==> 0 <= r.value < 3
    ensures r.Some? <==> ParseMove(token).Some?
  {
    if token == "A" then Some(0)
    else if token == "B" then Some(1)
    else if token == "C" then Some(2)
    else if token == "X" then Some(0)
    else if token == "Y" then Some(1)
    else if token == "Z" then Some(2)
    else None
  }

  /** The code of a move: its position in `MOVES`. */
  function MoveCode(m: Move): int
  {
    match m
    case Rock => 0
    case Paper => 1
    case Scissors => 2
  }

  /** The code of a wanted outcome, as the second column spells it. */
  function StrategyCode(s: Strategy): int
  {
    match s
    case Lose => 0
    case Draw => 1
    case Win => 2
  }

  /** Codes read a token exactly as the table-driven parser reads it, and
      the wanted-outcome letters X, Y, Z give the outcome's code. */
  lemma ParseCodeAgrees(token: string)
    ensures ParseMove(token).Some? ==> ParseCode(token) == Some(MoveCode(ParseMove(token).value))
    ensures ParseStrategy(token).Some? ==>
              ParseCode(token) == Some(StrategyCode(ParseStrategy(token).value))
  {
  }

  /** `Move::score` is one more than the move's code. */
  lemma ScoreIsCodePlusOne(m: Move)
    ensures Score(m) == MoveCode(m) + 1
  {
  }

  /** The win test of `part1`: the second move is the one after the first,
      cyclically. */
  predicate SecondWins(first: int, second: int)
  {
    (first + 1) % 3 == second
  }

  /** The cyclic successor test is exactly the dominance table. */
  lemma SecondWinsIsBeats(m1: Move, m2: Move)
    ensures SecondWins(MoveCode(m1), MoveCode(m2)) <==> Beats(m2, m1)
  {
  }

  /** The closure inside `part1`: shape value plus 6, 3 or 0. */
  function LineScoreOne(first: int, second: int): (r: int)
    ensures 0 <= first <= 2 && 0 <= second <= 2 ==>
              1 <= r <= 9 &&
              (r - (second + 1) == 6 <==> (first + 1) % 3 == second) &&
              (r - (second + 1) == 3 <==> first == second) &&
              (r - (second + 1) == 0 <==> (second + 1) % 3 == first)
  {
    (second + 1) + if SecondWins(first, second) then 6 else if first == second then 3 else 0
  }

  /** On every pair of moves the arithmetic score of the first reading is
      the table-driven round score. */
  lemma LineScoreOneAgrees(m1: Move, m2: Move)
    ensures LineScoreOne(MoveCode(m1), MoveCode(m2)) == ScoreRound((m1, m2)) as int
  {
    SecondWinsIsBeats(m1, m2);
  }

  /** The closure inside `part2` as written: the outcome's points are
      `second * 3` and the move to play has code `(second - 1 + first) % 3`
      with Rust's truncating remainder. */
  function LineScoreTwoAsWritten(first: int, second: int): int
  {
    second * 3 + TruncRem3(second - 1 + first) + 1
  }

  /** The evidently intended closure: the same formula with a remainder
      that is never negative, which is Dafny's `%`. */
  function LineScoreTwo(first: int, second: int): int
  {
    second * 3 + (second - 1 + first) % 3 + 1
  }

  /** The corrected formula plays the fitted move: for every opponent move
      and wanted outcome it is the table-driven score of the fitted round. */
  lemma LineScoreTwoAgrees(m: Move, s: Strategy)
    ensures LineScoreTwo(MoveCode(m), StrategyCode(s)) == ScoreRound((m, FitStrategy(m, s))) as int
  {
    FittedRoundScore(m, s);
  }

  /** The formula as written differs from the corrected one on exactly one
      pair of codes: opponent Rock, wanted outcome Lose. */
  lemma AsWrittenDiffersOnlyAtZero(first: int, second: int)
    requires 0 <= first < 3 && 0 <= second < 3
    ensures (LineScoreTwoAsWritten(first, second) != LineScoreTwo(first, second))
            <==> first == 0 && second == 0
  {
  }

  /** The discrepancy on "A X" (opponent Rock, code 0; wanted outcome
      Lose, code 0): the source scores 0 where the intended score is 3. */
  lemma AsWrittenLosesToRock()
    ensures MoveCode(Rock) == 0 && StrategyCode(Lose) == 0
    ensures LineScoreTwoAsWritten(0, 0) == 0
    ensures LineScoreTwo(0, 0) == 3
  {
    assert TruncRem3(-1) == -1;
  }

  // ---------------------------------------------------------------------
  // Lines and totals
  // ---------------------------------------------------------------------

  /** The first two whitespace-separated tokens of a line as codes; `None`
      when a line has fewer than two tokens or either is not a move letter. */
  function ParseCodes(line: string): (r: Option<(int, int)>)
    ensures r.Some? <==> ParseRound(line).Some?
    ensures r.Some? ==> 0 <= r.value.0 < 3 && 0 <= r.value.1 < 3
  {
    var tokens := Tokens(line);
    if |tokens| < 2 then None
    else
      match (ParseCode(tokens[0]), ParseCode(tokens[1]))
      case (Some(first), Some(second)) => Some((first, second))
      case _ => None
  }

  /** A line both readers accept gives the codes of the table-driven parse. */
  lemma ParseCodesAgrees(line: string)
    ensures ParseRound(line).Some? ==>
              ParseCodes(line) == Some((MoveCode(ParseRound(line).value.0), MoveCode(ParseRound(line).value.1)))
    ensures ParsePartTwo(line).Some? ==>
              ParseCodes(line) == Some((MoveCode(ParsePartTwo(line).value.0),
                                        StrategyCode(ParsePartTwo(line).value.1)))
  {
    var tokens := Tokens(line);
    if |tokens| >= 2 {
      ParseCodeAgrees(tokens[0]);
      ParseCodeAgrees(tokens[1]);
    }
  }

  /** The sum over a guide of a per-line score of the two codes; `None`
      when some line does not read as two codes (the source panics). */
  function TotalWith(score: (int, int) -> int, lines: seq<string>): (r: Option<int>)
    ensures r.Some? <==> forall i :: 0 <= i < |lines| ==> ParseRound(lines[i]).Some?
    decreases |lines|
  {
    if |lines| == 0 then Some(0)
    else
      match (ParseCodes(lines[0]), TotalWith(score, lines[1..]))
      case (Some((first, second)), Some(rest)) => Some(score(first, second) + rest)
      case _ => None
  }

  /** Two per-line scores that agree on every line of a guide give the
      same total. */
  lemma {:induction false} TotalWithAgrees(f: (int, int) -> int, g: (int, int) -> int, lines: seq<string>)
    requires forall i :: 0 <= i < |lines| && ParseCodes(lines[i]).Some? ==>
               f(ParseCodes(lines[i]).value.0, ParseCodes(lines[i]).value.1)
               == g(ParseCodes(lines[i]).value.0, ParseCodes(lines[i]).value.1)
    ensures TotalWith(f, lines) == TotalWith(g, lines)
    decreases |lines|
  {
    if |lines| > 0 {
      var rest := lines[1..];
      forall i | 0 <= i < |rest| && ParseCodes(rest[i]).Some?
        ensures f(ParseCodes(rest[i]).value.0, ParseCodes(rest[i]).value.1)
                == g(ParseCodes(rest[i]).value.0, ParseCodes(rest[i]).value.1)
      {
        assert rest[i] == lines[i + 1];
      }
      TotalWithAgrees(f, g, rest);
    }
  }

  /** `part1` over the given lines. */
  function TotalOne(lines: seq<string>): (r: Option<int>)
    ensures r.Some? <==> forall i :: 0 <= i < |lines| ==> ParseRound(lines[i]).Some?
  {
    TotalWith(LineScoreOne, lines)
  }

  /** `part2` over the given lines, as written. */
  function TotalTwoAsWritten(lines: seq<string>): (r: Option<int>)
    ensures r.Some? <==> forall i :: 0 <= i < |lines| ==> ParseRound(lines[i]).Some?
  {
    TotalWith(LineScoreTwoAsWritten, lines)
  }

  /** `part2` over the given lines, with the corrected remainder. */
  function TotalTwo(lines: seq<string>): (r: Option<int>)
    ensures r.Some? <==> forall i :: 0 <= i < |lines| ==> ParseRound(lines[i]).Some?
  {
    TotalWith(LineScoreTwo, lines)
  }

  /** `part1`: the table-driven first reading, failures included. */
  function PartOne(input: string): (r: Option<int>)
    ensures r.Some? <==> RockPaperScissors.PartOne(input).Some?
    ensures r.Some? ==> r.value == RockPaperScissors.PartOne(input).value as int
  {
    TotalOneAgrees(Lines(input));
    TotalOne(Lines(input))
  }

  /** `part2` as written: it accepts the guides `part1` accepts, and it
      scores like the corrected reading on a guide with no "A X" line. */
  function PartTwoAsWritten(input: string): (r: Option<int>)
    ensures r.Some? <==> PartOne(input).Some?
    ensures (forall i :: 0 <= i < |Lines(input)| ==> ParseCodes(Lines(input)[i]) != Some((0, 0)))
            ==> r == PartTwo(input)
  {
    var lines := Lines(input);
    if forall i :: 0 <= i < |lines| ==> ParseCodes(lines[i]) != Some((0, 0)) then
      AsWrittenAgreesAwayFromZero(lines);
      TotalTwoAsWritten(lines)
    else
      TotalTwoAsWritten(lines)
  }

  /** `part2` with the corrected remainder: the table-driven second
      reading wherever that one is defined; it also accepts every guide
      `part1` accepts, since `parse_move` reads A, B and C in the second
      column too. */
  function PartTwo(input: string): (r: Option<int>)
    ensures r.Some? <==> RockPaperScissors.PartOne(input).Some?
    ensures RockPaperScissors.PartTwo(input).Some? ==> r == Some(RockPaperScissors.PartTwo(input).value as int)
  {
    if RockPaperScissors.PartTwo(input).Some? then
      TotalTwoAgrees(Lines(input));
      TotalTwo(Lines(input))
    else
      TotalTwo(Lines(input))
  }

  /** The arithmetic first reading is the table-driven one on every guide:
      both fail on the same guides and otherwise give the same total. */
  lemma {:induction false} TotalOneAgrees(lines: seq<string>)
    ensures TotalOne(lines).Some? <==> TotalPartOne(lines).Some?
    ensures TotalOne(lines).Some? ==> TotalOne(lines).value == TotalPartOne(lines).value as int
    decreases |lines|
  {
    if |lines| > 0 {
      TotalOneAgrees(lines[1..]);
      ParseCodesAgrees(lines[0]);
      if ParseRound(lines[0]).Some? {
        LineScoreOneAgrees(ParseRound(lines[0]).value.0, ParseRound(lines[0]).value.1);
      }
    }
  }

  /** The corrected arithmetic second reading agrees with the table-driven
      one wherever the latter accepts the guide. It accepts more: A, B and C
      are also read as outcomes in the second column. */
  lemma {:induction false} TotalTwoAgrees(lines: seq<string>)
    requires TotalPartTwo(lines).Some?
    ensures TotalTwo(lines) == Some(TotalPartTwo(lines).value as int)
    decreases |lines|
  {
    if |lines| > 0 {
      TotalTwoAgrees(lines[1..]);
      ParseCodesAgrees(lines[0]);
      var parsed := ParsePartTwo(lines[0]).value;
      LineScoreTwoAgrees(parsed.0, parsed.1);
    }
  }

  /** Lines that never read as "A X" (codes 0 and 0) are scored alike by
      the written and the corrected second reading. */
  lemma AsWrittenAgreesAwayFromZero(lines: seq<string>)
    requires forall i :: 0 <= i < |lines| ==> ParseCodes(lines[i]) != Some((0, 0))
    ensures TotalTwoAsWritten(lines) == TotalTwo(lines)
  {
    forall i | 0 <= i < |lines| && ParseCodes(lines[i]).Some?
      ensures LineScoreTwoAsWritten(ParseCodes(lines[i]).value.0, ParseCodes(lines[i]).value.1)
              == LineScoreTwo(ParseCodes(lines[i]).value.0, ParseCodes(lines[i]).value.1)
    {
      AsWrittenDiffersOnlyAtZero(ParseCodes(lines[i]).value.0, ParseCodes(lines[i]).value.1);
    }
    TotalWithAgrees(LineScoreTwoAsWritten, LineScoreTwo, lines);
  }

  // ---------------------------------------------------------------------
  // Examples
  // ---------------------------------------------------------------------

  /** The worked guide scores 15 and 12 here too; it has no "A X" line, so
      the written formula is not exposed by it. */
  lemma Example()
    ensures PartOne("A Y\nB X\nC Z") == Some(15)
    ensures PartTwoAsWritten("A Y\nB X\nC Z") == Some(12)
  {
    RockPaperScissors.Example();
    ExampleLines();
    ExampleRounds();
    ExampleAgrees("A Y", "B X", "C Z");
  }

  lemma ExampleAgrees(a: string, b: string, c: string)
    requires ParsePartTwo(a) == Some((Rock, Draw))
    requires ParsePartTwo(b) == Some((Paper, Lose))
    requires ParsePartTwo(c) == Some((Scissors, Win))
    requires TotalPartOne([a, b, c]) == Some(15) && TotalPartTwo([a, b, c]) == Some(12)
    ensures TotalOne([a, b, c]) == Some(15)
    ensures TotalTwoAsWritten([a, b, c]) == Some(12)
  {
    var ls := [a, b, c];
    TotalOneAgrees(ls);
    TotalTwoAgrees(ls);
    ParseCodesAgrees(a);
    ParseCodesAgrees(b);
    ParseCodesAgrees(c);
    forall i | 0 <= i < |ls|
      ensures ParseCodes(ls[i]) != Some((0, 0))
    {
      if i == 0 {
        assert ParseCodes(ls[i]) == Some((0, 1));
      } else if i == 1 {
        assert ParseCodes(ls[i]) == Some((1, 0));
      } else {
        assert ParseCodes(ls[i]) == Some((2, 2));
      }
    }
    AsWrittenAgreesAwayFromZero(ls);
  }

  /** The guide "A X" scores 0 under the second reading as written, and 3
      under the table-driven reading and the corrected formula. */
  lemma ExampleAX()
    ensures PartTwoAsWritten("A X") == Some(0)
    ensures PartTwo("A X") == Some(3)
    ensures RockPaperScissors.PartTwo("A X") == Some(3)
  {
    assert Join(["A X"], "\n") == "A X";
    LinesOfJoin(["A X"]);
    TokensOfPair("A", "X");
    assert "A" + " " + "X" == "A X";
    LoseToRockParses("A X");
    LoseToRock("A X");
  }

  lemma LoseToRockParses(l: string)
    requires Tokens(l) == ["A", "X"]
    ensures ParseCodes(l) == Some((0, 0))
    ensures ParsePartTwo(l) == Some((Rock, Lose))
  {
  }

  /** A guide of one line scores that line. */
  lemma SingleLineTotals(l: string)
    requires ParseCodes(l).Some?
    ensures TotalOne([l]) == Some(LineScoreOne(ParseCodes(l).value.0, ParseCodes(l).value.1))
    ensures TotalTwoAsWritten([l]) == Some(LineScoreTwoAsWritten(ParseCodes(l).value.0, ParseCodes(l).value.1))
    ensures TotalTwo([l]) == Some(LineScoreTwo(ParseCodes(l).value.0, ParseCodes(l).value.1))
  {
    assert [l][1..] == [];
    assert TotalWith(LineScoreOne, []) == Some(0);
    assert TotalWith(LineScoreTwoAsWritten, []) == Some(0);
    assert TotalWith(LineScoreTwo, []) == Some(0);
  }

  lemma LoseToRock(l: string)
    requires ParseCodes(l) == Some((0, 0))
    requires ParsePartTwo(l) == Some((Rock, Lose))
    ensures TotalTwoAsWritten([l]) == Some(0)
    ensures TotalTwo([l]) == Some(3)
    ensures TotalPartTwo([l]) == Some(3)
  {
    LoseToRockTableDriven(l);
    SingleLineTotals(l);
    AsWrittenLosesToRock();
  }

  lemma LoseToRockTableDriven(l: string)
    requires ParsePartTwo(l) == Some((Rock, Lose))
    ensures TotalPartTwo([l]) == Some(3)
  {
    assert [l][1..] == [];
    FittedRoundScore(Rock, Lose);
  }
}
