/** Camp cleanup (`src/day4.rs`): each line names two section ranges, and
    the puzzle counts the lines where one range contains the other, and
    the lines where the ranges overlap. The source's ranges are generic
    over a numeric type; only `u32` is used, so bounds are `nat`s that a
    parse keeps at or below `U32Max`. */
module Intervals {
  import opened Results
  import opened Text

  /** `Interval`: both ends inclusive. Nothing makes `min <= max`. */
  datatype Interval = Interval(min: nat, max: nat)

  predicate WellFormed(a: Interval)
  {
    a.min <= a.max
  }

  /** The point `x` lies in `a`. */
  predicate Within(x: nat, a: Interval)
  {
    a.min <= x <= a.max
  }

  /** `Interval::contains`. */
  predicate Contains(a: Interval, b: Interval)
    ensures Contains(a, b) ==> forall x :: Within(x, b) ==> Within(x, a)
  {
    a.min <= b.min && a.max >= b.max
  }

  /** `Interval::overlaps`. */
  predicate Overlaps(a: Interval, b: Interval)
    ensures (exists x :: Within(x, a) && Within(x, b)) ==> Overlaps(a, b)
  {
    a.max >= b.min && a.min <= b.max
  }

  /** For a well-formed `b`, containment is inclusion of point sets. */
  lemma ContainsIsInclusion(a: Interval, b: Interval)
    requires WellFormed(b)
    ensures Contains(a, b) <==> forall x :: Within(x, b) ==> Within(x, a)
  {
    if forall x :: Within(x, b) ==> Within(x, a) {
      assert Within(b.min, b) && Within(b.max, b);
    }
  }

  /** For well-formed ranges, overlapping is sharing a point. */
  lemma OverlapsIsSharing(a: Interval, b: Interval)
    requires WellFormed(a) && WellFormed(b)
    ensures Overlaps(a, b) <==> exists x :: Within(x, a) && Within(x, b)
  {
    if Overlaps(a, b) {
      var x := if a.min <= b.min then b.min else a.min;
      assert Within(x, a) && Within(x, b);
    }
  }

  /** Containment is reflexive, and two ranges contain each other exactly
      when they are equal. */
  lemma ContainsReflexiveAntisymmetric(a: Interval, b: Interval)
    ensures Contains(a, a)
    ensures Contains(a, b) && Contains(b, a) <==> a == b
  {
  }

  /** Containment is transitive. */
  lemma ContainsTransitive(a: Interval, b: Interval, c: Interval)
    requires Contains(a, b) && Contains(b, c)
    ensures Contains(a, c)
  {
  }

  lemma OverlapsSymmetric(a: Interval, b: Interval)
    ensures Overlaps(a, b) <==> Overlaps(b, a)
  {
  }

  /** A range that contains a well-formed range overlaps it. */
  lemma ContainsImpliesOverlaps(a: Interval, b: Interval)
    requires WellFormed(b)
    ensures Contains(a, b) ==> Overlaps(a, b)
  {
  }

  /** The second disjunct of the overlap question in `part2` adds nothing
      when the first range is well-formed. */
  lemma OverlapQuestionSimplifies(first: Interval, second: Interval)
    requires WellFormed(first)
    ensures (Overlaps(first, second) || Contains(second, first)) <==> Overlaps(first, second)
  {
  }

  /** Without well-formedness it does add something: "5-1" and "3-4" do not
      overlap, yet the second contains the first. */
  lemma OverlapQuestionOnReversedRange()
    ensures !WellFormed(Interval(5, 1))
    ensures !Overlaps(Interval(5, 1), Interval(3, 4)) && Contains(Interval(3, 4), Interval(5, 1))
  {
  }

  // ---------------------------------------------------------------------
  // Ordering
  // ---------------------------------------------------------------------

  datatype Ordering = Less | Equal | Greater

  function CompareNat(x: nat, y: nat): Ordering
  {
    if x < y then Less else if x == y then Equal else Greater
  }

  /** `partial_cmp`: by `min`, then by `max`. On `u32` it always yields a
      value, so the `Option` of the source is dropped. */
  function Compare(a: Interval, b: Interval): (r: Ordering)
    ensures r == Equal <==> a == b
    ensures r == Less <==> a.min < b.min || (a.min == b.min && a.max < b.max)
    ensures r == Greater <==> a.min > b.min || (a.min == b.min && a.max > b.max)
  {
    match CompareNat(a.min, b.min)
    case Equal => CompareNat(a.max, b.max)
    case ord => ord
  }

  predicate Lt(a: Interval, b: Interval)
  {
    Compare(a, b) == Less
  }

  predicate Le(a: Interval, b: Interval)
  {
    Compare(a, b) == Less || Compare(a, b) == Equal
  }

  predicate Gt(a: Interval, b: Interval)
  {
    Compare(a, b) == Greater
  }

  predicate Ge(a: Interval, b: Interval)
  {
    Compare(a, b) == Greater || Compare(a, b) == Equal
  }

  /** The comparison is the lexicographic order on `(min, max)`, agrees
      with equality, and is antisymmetric. */
  lemma CompareIsLexicographic(a: Interval, b: Interval)
    ensures Lt(a, b) <==> a.min < b.min || (a.min == b.min && a.max < b.max)
    ensures Compare(a, b) == Equal <==> a == b
    ensures Lt(a, b) <==> Gt(b, a)
    ensures Le(a, b) <==> !Gt(a, b)
    ensures Ge(a, b) <==> Le(b, a)
  {
  }

  /** The order is total and transitive. */
  lemma CompareIsTotalOrder(a: Interval, b: Interval, c: Interval)
    ensures Lt(a, b) || a == b || Gt(a, b)
    ensures Lt(a, b) && Lt(b, c) ==> Lt(a, c)
    ensures Le(a, b) && Le(b, c) ==> Le(a, c)
  {
  }

  /** The ordering examples of the source: 6-9 > 5-10, 5-10 < 6-9 and
      6-10 > 6-9. */
  lemma OrderingExamples()
    ensures Gt(Interval(6, 9), Interval(5, 10)) && Lt(Interval(5, 10), Interval(6, 9))
    ensures Gt(Interval(6, 10), Interval(6, 9))
  {
  }

  // ---------------------------------------------------------------------
  // Parsing
  // ---------------------------------------------------------------------

  /** The pieces that read as `u32`s, in order (`filter_map(parse().ok())`). */
  function Numbers(pieces: seq<string>): (r: seq<nat>)
    ensures |r| <= |pieces|
    ensures forall i :: 0 <= i < |r| ==> r[i] <= U32Max
  {
    if |pieces| == 0 then []
    else
      match ParseU32(pieces[0])
      case Some(n) => [n] + Numbers(pieces[1..])
      case None => Numbers(pieces[1..])
  }

  /** `Interval::from_str`: the first two '-'-separated pieces, of which
      those that read as numbers are kept; fewer than two numbers is an
      error. */
  function ParseInterval(s: string): (r: Result<Interval>)
    ensures r.Err? ==> r.reason == "Not enough numbers"
    ensures r.Ok? ==> r.value.min <= U32Max && r.value.max <= U32Max
  {
    var pieces := Split(s, "-");
    var nums := Numbers(if |pieces| < 2 then pieces else pieces[..2]);
    if |nums| < 2 then Err("Not enough numbers")
    else Ok(Interval(nums[0], nums[1]))
  }

  /** The ranges among the pieces that read as ranges, in order. */
  function Ranges(pieces: seq<string>): (r: seq<Interval>)
    ensures |r| <= |pieces|
    ensures forall i :: 0 <= i < |r| ==> r[i].min <= U32Max && r[i].max <= U32Max
  {
    if |pieces| == 0 then []
    else
      match ParseInterval(pieces[0])
      case Ok(a) => [a] + Ranges(pieces[1..])
      case Err(_) => Ranges(pieces[1..])
  }

  /** The two ranges of a line: the first two ','-separated pieces that read
      as ranges; later ones are ignored and fewer than two panics. */
  function ParsePair(line: string): (r: Option<(Interval, Interval)>)
    ensures r.Some? ==> |Split(line, ",")| >= 2
    ensures r.Some? ==> r.value.0.min <= U32Max && r.value.0.max <= U32Max
                        && r.value.1.min <= U32Max && r.value.1.max <= U32Max
  {
    var ranges := Ranges(Split(line, ","));
    if |ranges| < 2 then None else Some((ranges[0], ranges[1]))
  }

  /** How a range is written: "min-max". */
  function Format(a: Interval): string
  {
    Decimal(a.min) + "-" + Decimal(a.max)
  }

  /** How a line is written: "a,b". */
  function FormatPair(a: Interval, b: Interval): string
  {
    Format(a) + "," + Format(b)
  }

  lemma DigitsAvoid(n: nat, c: char)
    requires !IsDigit(c)
    ensures c !in Decimal(n)
  {
  }

  /** Every range of `u32`s survives writing and reading. */
  lemma ParseFormat(a: Interval)
    requires a.min <= U32Max && a.max <= U32Max
    ensures ParseInterval(Format(a)) == Ok(a)
  {
    var ps := [Decimal(a.min), Decimal(a.max)];
    DigitsAvoid(a.min, '-');
    DigitsAvoid(a.max, '-');
    assert Join(ps, "-") == Format(a) by {
      assert Join(ps[1..], "-") == Decimal(a.max);
    }
    assert "-" == ['-'];
    SplitOfCharJoin(ps, '-');
    ParseDecimal(a.min);
    ParseDecimal(a.max);
    assert ps[..2] == ps;
    assert Numbers(ps[1..]) == [a.max];
  }

  /** Every line of `u32` ranges survives writing and reading. */
  lemma ParseFormatPair(a: Interval, b: Interval)
    requires a.min <= U32Max && a.max <= U32Max && b.min <= U32Max && b.max <= U32Max
    ensures ParsePair(FormatPair(a, b)) == Some((a, b))
  {
    var ps := [Format(a), Format(b)];
    DigitsAvoid(a.min, ',');
    DigitsAvoid(a.max, ',');
    DigitsAvoid(b.min, ',');
    DigitsAvoid(b.max, ',');
    assert Join(ps, ",") == FormatPair(a, b) by {
      assert Join(ps[1..], ",") == Format(b);
    }
    assert "," == [','];
    SplitOfCharJoin(ps, ',');
    ParseFormat(a);
    ParseFormat(b);
    assert Ranges(ps[1..]) == [b];
  }

  // ---------------------------------------------------------------------
  // Counting
  // ---------------------------------------------------------------------

  /** The two questions the puzzle asks of a line. */
  datatype Question = FullyContains | Overlap

  /** `part1` asks whether either range contains the other; `part2` asks
      whether the first overlaps the second or the second contains the
      first. */
  predicate Holds(q: Question, first: Interval, second: Interval)
  {
    match q
    case FullyContains => Contains(first, second) || Contains(second, first)
    case Overlap => Overlaps(first, second) || Contains(second, first)
  }

  /** The number of parsed lines for which the question holds; `None` when
      a line has fewer than two ranges, where the source panics. */
  function Tally(q: Question, pairs: seq<Option<(Interval, Interval)>>): (r: Option<nat>)
    ensures r.Some? ==> r.value <= |pairs|
  {
    if |pairs| == 0 then Some(0)
    else
      var rest := Tally(q, pairs[1..]);
      if pairs[0].None? || rest.None? then None
      else Some((if Holds(q, pairs[0].value.0, pairs[0].value.1) then 1 else 0) + rest.value)
  }

  /** Every line read as a pair. */
  function ParseLines(lines: seq<string>): (r: seq<Option<(Interval, Interval)>>)
    ensures |r| == |lines|
    ensures forall i :: 0 <= i < |lines| ==> r[i] == ParsePair(lines[i])
  {
    seq(|lines|, i requires 0 <= i < |lines| => ParsePair(lines[i]))
  }

  /** `part1`/`part2` before the final cast: every line is read as a pair
      and the pairs for which the question holds are counted. */
  function Count(q: Question, lines: seq<string>): (r: Option<nat>)
    ensures r.Some? ==> r.value <= |lines|
  {
    Tally(q, ParseLines(lines))
  }

  /** `part1`: defined exactly when every line holds two ranges, and at
      most the number of lines. */
  function PartOne(input: string): (r: Option<nat>)
    ensures r.Some? <==> forall i :: 0 <= i < |Lines(input)| ==> ParsePair(Lines(input)[i]).Some?
    ensures r.Some? ==> r.value <= |Lines(input)|
  {
    CountDefined(FullyContains, Lines(input));
    Count(FullyContains, Lines(input))
  }

  /** `part2`: defined on the same inputs as `part1`. */
  function PartTwo(input: string): (r: Option<nat>)
    ensures r.Some? <==> PartOne(input).Some?
    ensures r.Some? ==> r.value <= |Lines(input)|
  {
    CountDefined(Overlap, Lines(input));
    Count(Overlap, Lines(input))
  }

  /** A tally exists exactly when every line parsed. */
  lemma {:induction false} TallyDefined(q: Question, pairs: seq<Option<(Interval, Interval)>>)
    ensures Tally(q, pairs).Some? <==> forall i :: 0 <= i < |pairs| ==> pairs[i].Some?
    decreases |pairs|
  {
    if |pairs| > 0 {
      TallyDefined(q, pairs[1..]);
      assert forall i :: 1 <= i < |pairs| ==> pairs[i] == pairs[1..][i - 1];
    }
  }

  /** The count exists exactly when every line has two ranges. */
  lemma CountDefined(q: Question, lines: seq<string>)
    ensures Count(q, lines).Some? <==> forall i :: 0 <= i < |lines| ==> ParsePair(lines[i]).Some?
  {
    TallyDefined(q, ParseLines(lines));
  }

  /** Tallies add up over concatenated lists of lines. */
  lemma {:induction false} TallyAppend(q: Question, xs: seq<Option<(Interval, Interval)>>,
                                       ys: seq<Option<(Interval, Interval)>>)
    ensures Tally(q, xs + ys).Some? <==> Tally(q, xs).Some? && Tally(q, ys).Some?
    ensures Tally(q, xs + ys).Some? ==>
              Tally(q, xs + ys).value == Tally(q, xs).value + Tally(q, ys).value
    decreases |xs|
  {
    if |xs| > 0 {
      assert (xs + ys)[0] == xs[0] && (xs + ys)[1..] == xs[1..] + ys;
      TallyAppend(q, xs[1..], ys);
    } else {
      assert xs + ys == ys;
    }
  }

  /** Every parsed pair is well-formed. */
  predicate AllWellFormed(pairs: seq<Option<(Interval, Interval)>>)
  {
    forall i :: 0 <= i < |pairs| && pairs[i].Some? ==>
      WellFormed(pairs[i].value.0) && WellFormed(pairs[i].value.1)
  }

  /** On well-formed ranges every containing pair also overlaps, so the
      first tally never exceeds the second. */
  lemma {:induction false} ContainedAtMostOverlapping(pairs: seq<Option<(Interval, Interval)>>)
    requires AllWellFormed(pairs)
    requires Tally(FullyContains, pairs).Some?
    ensures Tally(Overlap, pairs).Some?
    ensures Tally(FullyContains, pairs).value <= Tally(Overlap, pairs).value
    decreases |pairs|
  {
    if |pairs| > 0 {
      assert AllWellFormed(pairs[1..]) by {
        assert forall i :: 0 <= i < |pairs[1..]| ==> pairs[1..][i] == pairs[i + 1];
      }
      ContainedAtMostOverlapping(pairs[1..]);
      var pair := pairs[0].value;
      ContainsImpliesOverlaps(pair.0, pair.1);
      ContainsImpliesOverlaps(pair.1, pair.0);
      OverlapsSymmetric(pair.0, pair.1);
    }
  }

  /** The same comparison for the answers of `part1` and `part2`. */
  lemma PartOneAtMostPartTwo(input: string)
    requires PartOne(input).Some?
    requires forall i :: 0 <= i < |Lines(input)| && ParsePair(Lines(input)[i]).Some? ==>
               WellFormed(ParsePair(Lines(input)[i]).value.0) && WellFormed(ParsePair(Lines(input)[i]).value.1)
    ensures PartTwo(input).Some? && PartOne(input).value <= PartTwo(input).value
  {
    var ls := Lines(input);
    ContainedAtMostOverlapping(ParseLines(ls));
  }

  // ---------------------------------------------------------------------
  // The worked example of the puzzle
  // ---------------------------------------------------------------------

  lemma ExampleParse()
    ensures ParseInterval("2-4") == Ok(Interval(2, 4))
  {
    ParseFormat(Interval(2, 4));
    assert Format(Interval(2, 4)) == "2-4";
  }

  /** Three dash-free pieces split back out of their dashed join. */
  lemma SplitThree(x: string, y: string, z: string)
    requires '-' !in x && '-' !in y && '-' !in z
    ensures Split(x + "-" + y + "-" + z, "-") == [x, y, z]
  {
    var ps := [x, y, z];
    assert Join(ps, "-") == x + "-" + y + "-" + z by {
      assert Join(ps[1..], "-") == y + "-" + z by {
        assert Join(ps[1..][1..], "-") == z;
      }
    }
    assert "-" == ['-'];
    SplitOfCharJoin(ps, '-');
  }

  /** Only the first two '-'-separated pieces are read, so a third number
      is ignored. */
  lemma ParseIgnoresThirdNumber(a: nat, b: nat, c: nat)
    requires a <= U32Max && b <= U32Max
    ensures ParseInterval(Decimal(a) + "-" + Decimal(b) + "-" + Decimal(c)) == Ok(Interval(a, b))
  {
    DigitsAvoid(a, '-');
    DigitsAvoid(b, '-');
    DigitsAvoid(c, '-');
    SplitThree(Decimal(a), Decimal(b), Decimal(c));
    ParseDecimal(a);
    ParseDecimal(b);
    assert [Decimal(a), Decimal(b), Decimal(c)][..2] == [Decimal(a), Decimal(b)];
    assert Numbers([Decimal(b)]) == [b];
  }

  /** A leading piece that is not a number is not made up for by a number
      after the second dash. */
  lemma ParseNeedsTwoLeadingNumbers(a: nat, b: nat)
    requires a <= U32Max
    ensures ParseInterval("x-" + Decimal(a) + "-" + Decimal(b)) == Err("Not enough numbers")
  {
    DigitsAvoid(a, '-');
    DigitsAvoid(b, '-');
    assert "x-" + Decimal(a) == "x" + "-" + Decimal(a);
    SplitThree("x", Decimal(a), Decimal(b));
    ParseDecimal(a);
    assert ["x", Decimal(a), Decimal(b)][..2] == ["x", Decimal(a)];
    assert ParseU32("x").None?;
    assert Numbers([Decimal(a)]) == [a];
  }

  lemma ExampleOverlaps()
    ensures Overlaps(Interval(5, 7), Interval(7, 9)) && Overlaps(Interval(2, 8), Interval(3, 7))
    ensures Overlaps(Interval(6, 6), Interval(4, 6)) && Overlaps(Interval(2, 6), Interval(4, 8))
    ensures !Overlaps(Interval(2, 4), Interval(6, 8)) && !Overlaps(Interval(2, 3), Interval(4, 5))
    ensures Contains(Interval(5, 10), Interval(6, 9)) && !Contains(Interval(6, 9), Interval(5, 10))
  {
  }

  /** A line "a-b,c-d" of single digits reads as its two ranges. */
  lemma DigitLine(line: string, a: nat, b: nat, c: nat, d: nat)
    requires a < 10 && b < 10 && c < 10 && d < 10
    requires line == [('0' as int + a) as char, '-', ('0' as int + b) as char, ',',
                      ('0' as int + c) as char, '-', ('0' as int + d) as char]
    ensures ParsePair(line) == Some((Interval(a, b), Interval(c, d)))
    ensures '\n' !in line && |line| > 0
  {
    SingleDigit(a);
    SingleDigit(b);
    SingleDigit(c);
    SingleDigit(d);
    assert line == FormatPair(Interval(a, b), Interval(c, d));
    ParseFormatPair(Interval(a, b), Interval(c, d));
  }

  const Line1: string := "2-4,6-8"
  const Line2: string := "2-3,4-5"
  const Line3: string := "5-7,7-9"
  const Line4: string := "2-8,3-7"
  const Line5: string := "6-6,4-6"
  const Line6: string := "2-6,4-8"

  lemma ExampleLinesParseFirst()
    ensures ParsePair(Line1) == Some((Interval(2, 4), Interval(6, 8))) && '\n' !in Line1
    ensures ParsePair(Line2) == Some((Interval(2, 3), Interval(4, 5))) && '\n' !in Line2
    ensures ParsePair(Line3) == Some((Interval(5, 7), Interval(7, 9))) && '\n' !in Line3
  {
    DigitLine(Line1, 2, 4, 6, 8);
    DigitLine(Line2, 2, 3, 4, 5);
    DigitLine(Line3, 5, 7, 7, 9);
  }

  lemma ExampleLinesParseSecond()
    ensures ParsePair(Line4) == Some((Interval(2, 8), Interval(3, 7))) && '\n' !in Line4
    ensures ParsePair(Line5) == Some((Interval(6, 6), Interval(4, 6))) && '\n' !in Line5
    ensures ParsePair(Line6) == Some((Interval(2, 6), Interval(4, 8))) && '\n' !in Line6
    ensures |Line6| > 0
  {
    DigitLine(Line4, 2, 8, 3, 7);
    DigitLine(Line5, 6, 6, 4, 6);
    DigitLine(Line6, 2, 6, 4, 8);
  }

  /** One parsed line counts one exactly when the question holds. */
  lemma TallyOne(q: Question, p: (Interval, Interval))
    ensures Tally(q, [Some(p)]) == Some(if Holds(q, p.0, p.1) then 1 else 0)
  {
    assert [Some(p)][1..] == [];
  }

  /** The tally of six parsed lines is the sum of their single tallies. */
  lemma TallySix(q: Question, p1: Option<(Interval, Interval)>, p2: Option<(Interval, Interval)>,
                 p3: Option<(Interval, Interval)>, p4: Option<(Interval, Interval)>,
                 p5: Option<(Interval, Interval)>, p6: Option<(Interval, Interval)>,
                 k1: nat, k2: nat, k3: nat, k4: nat, k5: nat, k6: nat)
    requires Tally(q, [p1]) == Some(k1) && Tally(q, [p2]) == Some(k2) && Tally(q, [p3]) == Some(k3)
    requires Tally(q, [p4]) == Some(k4) && Tally(q, [p5]) == Some(k5) && Tally(q, [p6]) == Some(k6)
    ensures Tally(q, [p1, p2, p3, p4, p5, p6]) == Some(k1 + k2 + k3 + k4 + k5 + k6)
  {
    assert [p1, p2, p3, p4, p5, p6] == [p1] + [p2] + [p3] + [p4] + [p5] + [p6];
    TallyAppend(q, [p1], [p2]);
    TallyAppend(q, [p1] + [p2], [p3]);
    TallyAppend(q, [p1] + [p2] + [p3], [p4]);
    TallyAppend(q, [p1] + [p2] + [p3] + [p4], [p5]);
    TallyAppend(q, [p1] + [p2] + [p3] + [p4] + [p5], [p6]);
  }

  /** The worked example's six pairs: two where one range contains the
      other, four that overlap. */
  lemma ExampleTallies(p1: (Interval, Interval), p2: (Interval, Interval), p3: (Interval, Interval),
                       p4: (Interval, Interval), p5: (Interval, Interval), p6: (Interval, Interval))
    requires p1 == (Interval(2, 4), Interval(6, 8)) && p2 == (Interval(2, 3), Interval(4, 5))
    requires p3 == (Interval(5, 7), Interval(7, 9)) && p4 == (Interval(2, 8), Interval(3, 7))
    requires p5 == (Interval(6, 6), Interval(4, 6)) && p6 == (Interval(2, 6), Interval(4, 8))
    ensures Tally(FullyContains, [Some(p1), Some(p2), Some(p3), Some(p4), Some(p5), Some(p6)]) == Some(2)
    ensures Tally(Overlap, [Some(p1), Some(p2), Some(p3), Some(p4), Some(p5), Some(p6)]) == Some(4)
  {
    TallyOne(FullyContains, p1);
    TallyOne(FullyContains, p2);
    TallyOne(FullyContains, p3);
    TallyOne(FullyContains, p4);
    TallyOne(FullyContains, p5);
    TallyOne(FullyContains, p6);
    TallySix(FullyContains, Some(p1), Some(p2), Some(p3), Some(p4), Some(p5), Some(p6), 0, 0, 0, 1, 1, 0);
    TallyOne(Overlap, p1);
    TallyOne(Overlap, p2);
    TallyOne(Overlap, p3);
    TallyOne(Overlap, p4);
    TallyOne(Overlap, p5);
    TallyOne(Overlap, p6);
    TallySix(Overlap, Some(p1), Some(p2), Some(p3), Some(p4), Some(p5), Some(p6), 0, 0, 1, 1, 1, 1);
  }

  /** Six lines read as their six pairs. */
  lemma ParseSix(l1: string, l2: string, l3: string, l4: string, l5: string, l6: string,
                 p1: (Interval, Interval), p2: (Interval, Interval), p3: (Interval, Interval),
                 p4: (Interval, Interval), p5: (Interval, Interval), p6: (Interval, Interval))
    requires ParsePair(l1) == Some(p1) && ParsePair(l2) == Some(p2) && ParsePair(l3) == Some(p3)
    requires ParsePair(l4) == Some(p4) && ParsePair(l5) == Some(p5) && ParsePair(l6) == Some(p6)
    ensures ParseLines([l1] + [l2] + [l3] + [l4] + [l5] + [l6])
            == [Some(p1), Some(p2), Some(p3), Some(p4), Some(p5), Some(p6)]
  {
    ParseThree(l1, l2, l3, p1, p2, p3);
    ParseThree(l4, l5, l6, p4, p5, p6);
    ParseLinesAppend([l1, l2, l3], [l4, l5, l6]);
    assert [l1] + [l2] + [l3] + [l4] + [l5] + [l6] == [l1, l2, l3] + [l4, l5, l6];
  }

  lemma ParseThree(l1: string, l2: string, l3: string,
                   p1: (Interval, Interval), p2: (Interval, Interval), p3: (Interval, Interval))
    requires ParsePair(l1) == Some(p1) && ParsePair(l2) == Some(p2) && ParsePair(l3) == Some(p3)
    ensures ParseLines([l1, l2, l3]) == [Some(p1), Some(p2), Some(p3)]
  {
    var r := ParseLines([l1, l2, l3]);
    assert r[0] == Some(p1) && r[1] == Some(p2) && r[2] == Some(p3);
  }

  /** Reading lines one by one: the pairs of two lists of lines, one after
      the other. */
  lemma ParseLinesAppend(xs: seq<string>, ys: seq<string>)
    ensures ParseLines(xs + ys) == ParseLines(xs) + ParseLines(ys)
  {
    var l, r := ParseLines(xs + ys), ParseLines(xs) + ParseLines(ys);
    forall i | 0 <= i < |l|
      ensures l[i] == r[i]
    {
      if i < |xs| {
        assert (xs + ys)[i] == xs[i];
      } else {
        assert (xs + ys)[i] == ys[i - |xs|];
      }
    }
  }

  /** The counts of the worked example: two lines where one range contains
      the other, four where they overlap. */
  lemma Example()
    ensures var input := Line1 + "\n" + Line2 + "\n" + Line3 + "\n" + Line4 + "\n" + Line5 + "\n" + Line6;
            PartOne(input) == Some(2) && PartTwo(input) == Some(4)
  {
    ExampleLinesParseFirst();
    ExampleLinesParseSecond();
    SixLines(Line1, Line2, Line3, Line4, Line5, Line6);
    var p1 := (Interval(2, 4), Interval(6, 8));
    var p2 := (Interval(2, 3), Interval(4, 5));
    var p3 := (Interval(5, 7), Interval(7, 9));
    var p4 := (Interval(2, 8), Interval(3, 7));
    var p5 := (Interval(6, 6), Interval(4, 6));
    var p6 := (Interval(2, 6), Interval(4, 8));
    ParseSix(Line1, Line2, Line3, Line4, Line5, Line6, p1, p2, p3, p4, p5, p6);
    ExampleTallies(p1, p2, p3, p4, p5, p6);
  }
}
