/** The calorie aggregator (`src/day1.rs`): blank-line separated blocks of
    numbers, one block per elf; the largest block total and the sum of the
    three largest. */
module Calories {
  import opened Results
  import opened Text

  datatype Elf = Elf(calories: nat)

  // ---------------------------------------------------------------------
  // Parsing
  // ---------------------------------------------------------------------

  /** A line read as a `u32`; an unreadable line counts as 0, not as an error. */
  function LineCalories(line: string): nat
  {
    match ParseU32(line)
    case Some(v) => v
    case None => 0
  }

  function SectionTotal(lines: seq<string>): nat
  {
    if |lines| == 0 then 0 else LineCalories(lines[0]) + SectionTotal(lines[1..])
  }

  /** `parse_elves`: one elf per `"\n\n"`-separated section (a trailing
      separator adds no empty section), carrying the section's total. */
  function ParseElves(input: string): (elves: seq<Elf>)
    ensures |elves| == |SplitTerminator(input, "\n\n")|
  {
    var sections := SplitTerminator(input, "\n\n");
    seq(|sections|, i requires 0 <= i < |sections| => Elf(SectionTotal(Lines(sections[i]))))
  }

  // ---------------------------------------------------------------------
  // Rendering an inventory, the inverse of parsing
  // ---------------------------------------------------------------------

  function DecimalLines(items: seq<nat>): (r: seq<string>)
    ensures |r| == |items|
    ensures forall i :: 0 <= i < |r| ==> r[i] == Decimal(items[i])
  {
    if |items| == 0 then [] else [Decimal(items[0])] + DecimalLines(items[1..])
  }

  function RenderSections(groups: seq<seq<nat>>): (r: seq<string>)
    ensures |r| == |groups|
    ensures forall i :: 0 <= i < |r| ==> r[i] == Join(DecimalLines(groups[i]), "\n")
  {
    if |groups| == 0 then [] else [Join(DecimalLines(groups[0]), "\n")] + RenderSections(groups[1..])
  }

  /** The puzzle's input format: each elf's items one per line, elves
      separated by a blank line. */
  function Render(groups: seq<seq<nat>>): string
  {
    Join(RenderSections(groups), "\n\n")
  }

  predicate WellFormedInventory(groups: seq<seq<nat>>)
  {
    forall i :: 0 <= i < |groups| ==>
      |groups[i]| > 0 && forall j :: 0 <= j < |groups[i]| ==> groups[i][j] <= U32Max
  }

  /** A printed number is a non-empty line. */
  lemma DecimalLinesPlain(items: seq<nat>)
    ensures forall m :: 0 <= m < |items| ==>
              |DecimalLines(items)[m]| > 0 && '\n' !in DecimalLines(items)[m]
  {
    forall m | 0 <= m < |items|
      ensures '\n' !in Decimal(items[m])
    {
      var d := Decimal(items[m]);
      DecimalDigits(items[m]);
      assert forall j :: 0 <= j < |d| ==> d[j] != '\n';
    }
  }

  lemma {:induction false} SectionTotalOfDecimals(items: seq<nat>)
    requires forall j :: 0 <= j < |items| ==> items[j] <= U32Max
    ensures SectionTotal(DecimalLines(items)) == Sum(items)
  {
    if |items| > 0 {
      ParseDecimal(items[0]);
      assert DecimalLines(items)[1..] == DecimalLines(items[1..]);
      SectionTotalOfDecimals(items[1..]);
    }
  }

  /** The elves a well-formed inventory describes: one per group, carrying
      the group's sum. */
  function Totals(groups: seq<seq<nat>>): (r: seq<Elf>)
    ensures |r| == |groups|
  {
    seq(|groups|, i requires 0 <= i < |groups| => Elf(Sum(groups[i])))
  }

  /** Parsing a rendered inventory recovers every elf's total: the blank
      lines are exactly the elf boundaries and every printed number reads
      back as itself. */
  lemma ParseRender(groups: seq<seq<nat>>)
    requires WellFormedInventory(groups)
    ensures ParseElves(Render(groups)) == Totals(groups)
  {
    var sections := RenderSections(groups);
    if |groups| > 0 {
      forall i | 0 <= i < |sections|
        ensures Separable(sections[i], "\n\n")
      {
        DecimalLinesPlain(groups[i]);
        JoinedLinesSeparable(DecimalLines(groups[i]));
      }
      SplitOfJoin(sections, "\n\n");
      DecimalLinesPlain(groups[|groups| - 1]);
      JoinedLinesShape(DecimalLines(groups[|groups| - 1]));
      assert SplitTerminator(Render(groups), "\n\n") == sections;
      forall i | 0 <= i < |groups|
        ensures SectionTotal(Lines(sections[i])) == Sum(groups[i])
      {
        var lines := DecimalLines(groups[i]);
        DecimalLinesPlain(groups[i]);
        LinesOfJoin(lines);
        SectionTotalOfDecimals(groups[i]);
      }
    }
  }

  /** A trailing blank line after the last elf adds no empty elf:
      `split_terminator` drops the empty piece after it. */
  lemma ParseRenderTrailing(groups: seq<seq<nat>>)
    requires |groups| > 0 && WellFormedInventory(groups)
    ensures ParseElves(Render(groups) + "\n\n") == Totals(groups)
  {
    var sections := RenderSections(groups);
    forall i | 0 <= i < |sections + [""]|
      ensures Separable((sections + [""])[i], "\n\n")
    {
      if i < |sections| {
        DecimalLinesPlain(groups[i]);
        JoinedLinesSeparable(DecimalLines(groups[i]));
      }
    }
    JoinAppend(sections, "", "\n\n");
    assert Render(groups) + "\n\n" == Join(sections + [""], "\n\n");
    SplitOfJoin(sections + [""], "\n\n");
    assert (sections + [""])[..|sections|] == sections;
    assert SplitTerminator(Render(groups) + "\n\n", "\n\n") == sections;
    forall i | 0 <= i < |groups|
      ensures SectionTotal(Lines(sections[i])) == Sum(groups[i])
    {
      DecimalLinesPlain(groups[i]);
      LinesOfJoin(DecimalLines(groups[i]));
      SectionTotalOfDecimals(groups[i]);
    }
  }

  /** Section totals add up over consecutive runs of lines. */
  lemma {:induction false} SectionTotalAppend(a: seq<string>, b: seq<string>)
    ensures SectionTotal(a + b) == SectionTotal(a) + SectionTotal(b)
  {
    if |a| == 0 {
      assert a + b == b;
    } else {
      assert (a + b)[1..] == a[1..] + b;
      SectionTotalAppend(a[1..], b);
    }
  }

  /** A line that is not a `u32` counts 0 calories and is not an error:
      dropping it leaves the elf's total unchanged. */
  lemma SectionTotalSkipsJunk(a: seq<string>, junk: string, b: seq<string>)
    requires ParseU32(junk).None?
    ensures SectionTotal(a + [junk] + b) == SectionTotal(a) + SectionTotal(b)
  {
    SectionTotalAppend(a + [junk], b);
    SectionTotalAppend(a, [junk]);
    assert [junk][1..] == [];
  }

  // ---------------------------------------------------------------------
  // The largest total
  // ---------------------------------------------------------------------

  /** `most_calories`: 0 for no elves, otherwise the largest total, which
      is some elf's total. */
  function MostCalories(elves: seq<Elf>): (r: nat)
    ensures |elves| == 0 ==> r == 0
    ensures |elves| > 0 ==> exists i :: 0 <= i < |elves| && r == elves[i].calories
    ensures forall i :: 0 <= i < |elves| ==> elves[i].calories <= r
  {
    if |elves| == 0 then 0
    else
      var rest := MostCalories(elves[..|elves| - 1]);
      var last := elves[|elves| - 1].calories;
      if last >= rest then last else rest
  }

  // ---------------------------------------------------------------------
  // Sorting by calories, largest first
  // ---------------------------------------------------------------------

  predicate NonIncreasing(s: seq<Elf>)
  {
    forall i, j :: 0 <= i < j < |s| ==> s[i].calories >= s[j].calories
  }

  /** Place `e` before the first elf it is not smaller than. */
  function Insert(e: Elf, s: seq<Elf>): (r: seq<Elf>)
    ensures |r| == |s| + 1
  {
    if |s| == 0 then [e]
    else if e.calories >= s[0].calories then [e] + s
    else [s[0]] + Insert(e, s[1..])
  }

  lemma {:induction false} InsertBounded(e: Elf, s: seq<Elf>, bound: nat)
    requires e.calories <= bound
    requires forall j :: 0 <= j < |s| ==> s[j].calories <= bound
    ensures forall j :: 0 <= j < |Insert(e, s)| ==> Insert(e, s)[j].calories <= bound
  {
    if |s| > 0 && e.calories < s[0].calories {
      InsertBounded(e, s[1..], bound);
    }
  }

  lemma {:induction false} InsertPermutes(e: Elf, s: seq<Elf>)
    ensures multiset(Insert(e, s)) == multiset(s) + multiset{e}
  {
    if |s| > 0 && e.calories < s[0].calories {
      InsertPermutes(e, s[1..]);
      assert s == [s[0]] + s[1..];
    }
  }

  lemma {:induction false} InsertKeepsOrder(e: Elf, s: seq<Elf>)
    requires NonIncreasing(s)
    ensures NonIncreasing(Insert(e, s))
  {
    if |s| > 0 && e.calories < s[0].calories {
      var t := Insert(e, s[1..]);
      InsertKeepsOrder(e, s[1..]);
      InsertBounded(e, s[1..], s[0].calories);
      var r := [s[0]] + t;
      assert r == Insert(e, s);
      forall a, b | 0 <= a < b < |r|
        ensures r[a].calories >= r[b].calories
      {
        assert r[b] == t[b - 1];
        if a > 0 {
          assert r[a] == t[a - 1];
        }
      }
    }
  }

  /** `sort_by_key(|e| Reverse(e.calories))`: the same elves, largest first. */
  function SortDescending(s: seq<Elf>): (r: seq<Elf>)
    ensures |r| == |s|
    ensures multiset(r) == multiset(s)
    ensures NonIncreasing(r)
  {
    if |s| == 0 then []
    else
      var t := SortDescending(s[1..]);
      InsertPermutes(s[0], t);
      InsertKeepsOrder(s[0], t);
      assert s == [s[0]] + s[1..];
      Insert(s[0], t)
  }

  // ---------------------------------------------------------------------
  // The three largest
  // ---------------------------------------------------------------------

  /** How many elves carry at least `v` calories. */
  function CountAtLeast(s: seq<Elf>, v: nat): nat
  {
    if |s| == 0 then 0 else (if s[0].calories >= v then 1 else 0) + CountAtLeast(s[1..], v)
  }

  function Above(s: seq<Elf>, i: int, v: nat): nat
    requires 0 <= i < |s|
  {
    if s[i].calories >= v then 1 else 0
  }

  lemma {:induction false} InsertCount(e: Elf, s: seq<Elf>, v: nat)
    requires NonIncreasing(s)
    ensures CountAtLeast(Insert(e, s), v) == CountAtLeast(s, v) + (if e.calories >= v then 1 else 0)
  {
    if |s| > 0 && e.calories < s[0].calories {
      InsertCount(e, s[1..], v);
      assert ([s[0]] + Insert(e, s[1..]))[1..] == Insert(e, s[1..]);
    } else if |s| > 0 {
      assert ([e] + s)[1..] == s;
    }
  }

  lemma {:induction false} SortCount(s: seq<Elf>, v: nat)
    ensures CountAtLeast(SortDescending(s), v) == CountAtLeast(s, v)
  {
    if |s| > 0 {
      SortCount(s[1..], v);
      InsertCount(s[0], SortDescending(s[1..]), v);
    }
  }

  lemma {:induction false} CountOne(s: seq<Elf>, i: int, v: nat)
    requires 0 <= i < |s|
    ensures CountAtLeast(s, v) >= Above(s, i, v)
  {
    if i > 0 {
      CountOne(s[1..], i - 1, v);
    }
  }

  lemma {:induction false} CountTwo(s: seq<Elf>, i: int, j: int, v: nat)
    requires 0 <= i < |s| && 0 <= j < |s| && i != j
    ensures CountAtLeast(s, v) >= Above(s, i, v) + Above(s, j, v)
  {
    if i == 0 {
      CountOne(s[1..], j - 1, v);
    } else if j == 0 {
      CountOne(s[1..], i - 1, v);
    } else {
      CountTwo(s[1..], i - 1, j - 1, v);
    }
  }

  lemma {:induction false} CountThree(s: seq<Elf>, i: int, j: int, k: int, v: nat)
    requires 0 <= i < |s| && 0 <= j < |s| && 0 <= k < |s|
    requires i != j && j != k && i != k
    ensures CountAtLeast(s, v) >= Above(s, i, v) + Above(s, j, v) + Above(s, k, v)
  {
    if i == 0 {
      CountTwo(s[1..], j - 1, k - 1, v);
    } else if j == 0 {
      CountTwo(s[1..], i - 1, k - 1, v);
    } else if k == 0 {
      CountTwo(s[1..], i - 1, j - 1, v);
    } else {
      CountThree(s[1..], i - 1, j - 1, k - 1, v);
    }
  }

  /** In a list sorted largest first, if more than `m` elves reach `v`
      then so does the one at position `m`. */
  lemma {:induction false} SortedPosition(s: seq<Elf>, m: nat, v: nat)
    requires NonIncreasing(s) && m < |s|
    requires CountAtLeast(s, v) > m
    ensures s[m].calories >= v
  {
    if m > 0 {
      if s[0].calories >= v {
        SortedPosition(s[1..], m - 1, v);
      } else {
        NoneReach(s, v);
      }
    } else if s[0].calories < v {
      NoneReach(s, v);
    }
  }

  lemma {:induction false} NoneReach(s: seq<Elf>, v: nat)
    requires NonIncreasing(s) && |s| > 0 && s[0].calories < v
    ensures CountAtLeast(s, v) == 0
  {
    if |s| > 1 {
      NoneReach(s[1..], v);
    }
  }

  /** `top_three_calories`: the three largest totals summed; `None` (the
      source panics on the slice) when there are fewer than three elves. */
  function TopThreeCalories(elves: seq<Elf>): (r: Option<nat>)
    ensures r.None? <==> |elves| < 3
    ensures r.Some? ==> exists a, b, c :: multiset{a, b, c} <= multiset(elves)
                                      && r.value == a.calories + b.calories + c.calories
  {
    var sorted := SortDescending(elves);
    if |sorted| < 3 then None
    else
      assert sorted == [sorted[0], sorted[1], sorted[2]] + sorted[3..];
      assert multiset{sorted[0], sorted[1], sorted[2]} <= multiset(elves);
      Some(sorted[0].calories + sorted[1].calories + sorted[2].calories)
  }

  /** The first three of the sorted list dominate any three distinct elves. */
  lemma {:induction false} SortedHeadDominates(elves: seq<Elf>, i: int, j: int, k: int)
    requires 0 <= i < |elves| && 0 <= j < |elves| && 0 <= k < |elves|
    requires i != j && j != k && i != k
    ensures var s := SortDescending(elves);
            elves[i].calories + elves[j].calories + elves[k].calories
              <= s[0].calories + s[1].calories + s[2].calories
  {
    var a, b, c := elves[i].calories, elves[j].calories, elves[k].calories;
    var hi := if a >= b && a >= c then a else if b >= c then b else c;
    var lo := if a <= b && a <= c then a else if b <= c then b else c;
    var mid := a + b + c - hi - lo;
    var sorted := SortDescending(elves);
    SortCount(elves, hi);
    SortCount(elves, mid);
    SortCount(elves, lo);
    CountThree(elves, i, j, k, hi);
    CountThree(elves, i, j, k, mid);
    CountThree(elves, i, j, k, lo);
    SortedPosition(sorted, 0, hi);
    SortedPosition(sorted, 1, mid);
    SortedPosition(sorted, 2, lo);
  }

  /** No three distinct elves together carry more than the top three. */
  lemma TopThreeIsLargest(elves: seq<Elf>, i: int, j: int, k: int)
    requires 0 <= i < |elves| && 0 <= j < |elves| && 0 <= k < |elves|
    requires i != j && j != k && i != k
    ensures TopThreeCalories(elves).Some?
    ensures elves[i].calories + elves[j].calories + elves[k].calories <= TopThreeCalories(elves).value
  {
    SortedHeadDominates(elves, i, j, k);
  }

  /** The top three never carry less than the single largest elf. */
  lemma TopThreeAtLeastMost(elves: seq<Elf>)
    requires |elves| >= 3
    ensures TopThreeCalories(elves).Some?
    ensures TopThreeCalories(elves).value >= MostCalories(elves)
  {
    var m := MostCalories(elves);
    var i :| 0 <= i < |elves| && m == elves[i].calories;
    var sorted := SortDescending(elves);
    SortCount(elves, m);
    CountOne(elves, i, m);
    SortedPosition(sorted, 0, m);
  }

  // ---------------------------------------------------------------------
  // The puzzle's example: five elves
  // ---------------------------------------------------------------------

  /** Multiplying a positive number by ten appends a zero to its spelling. */
  lemma DecimalTimesTen(n: nat)
    requires n > 0
    ensures Decimal(n * 10) == Decimal(n) + "0"
  {
    assert (n * 10) / 10 == n && (n * 10) % 10 == 0;
  }

  /** The example's items are whole thousands: one digit and three zeros. */
  lemma ThousandsPrint(k: nat)
    requires 1 <= k <= 9
    ensures Decimal(k * 1000) == [DigitChar(k), '0', '0', '0']
  {
    DecimalTimesTen(k);
    DecimalTimesTen(k * 10);
    DecimalTimesTen(k * 100);
    assert k * 10 * 10 == k * 100 && k * 100 * 10 == k * 1000;
  }

  lemma JoinThree(a: string, b: string, c: string, pat: string)
    ensures Join([a, b, c], pat) == a + pat + b + pat + c
  {
    assert [a, b, c][1..] == [b, c];
    assert [b, c][1..] == [c];
    assert Join([b, c], pat) == b + pat + c;
    assert Join([a, b, c], pat) == a + pat + (b + pat + c);
  }

  lemma DecimalLinesOne(a: nat)
    ensures DecimalLines([a]) == [Decimal(a)]
  {
  }

  lemma DecimalLinesTwo(a: nat, b: nat)
    ensures DecimalLines([a, b]) == [Decimal(a), Decimal(b)]
  {
    assert [a, b][1..] == [b];
  }

  lemma DecimalLinesThree(a: nat, b: nat, c: nat)
    ensures DecimalLines([a, b, c]) == [Decimal(a), Decimal(b), Decimal(c)]
  {
    assert [a, b, c][1..] == [b, c];
    DecimalLinesTwo(b, c);
  }

  lemma Group1()
    ensures Join(DecimalLines([1000, 2000, 3000]), "\n") == "1000\n2000\n3000"
  {
    ThousandsPrint(1);
    ThousandsPrint(2);
    ThousandsPrint(3);
    DecimalLinesThree(1000, 2000, 3000);
    JoinThree(Decimal(1000), Decimal(2000), Decimal(3000), "\n");
  }

  lemma Group2()
    ensures Join(DecimalLines([4000]), "\n") == "4000"
  {
    ThousandsPrint(4);
    DecimalLinesOne(4000);
    assert Decimal(4000) == "4000";
  }

  lemma Group3()
    ensures Join(DecimalLines([5000, 6000]), "\n") == "5000\n6000"
  {
    ThousandsPrint(5);
    ThousandsPrint(6);
    DecimalLinesTwo(5000, 6000);
    assert Decimal(5000) == "5000" && Decimal(6000) == "6000";
  }

  lemma Group4()
    ensures Join(DecimalLines([7000, 8000, 9000]), "\n") == "7000\n8000\n9000"
  {
    ThousandsPrint(7);
    ThousandsPrint(8);
    ThousandsPrint(9);
    DecimalLinesThree(7000, 8000, 9000);
    JoinThree(Decimal(7000), Decimal(8000), Decimal(9000), "\n");
  }

  lemma Group5()
    ensures Join(DecimalLines([10000]), "\n") == "10000"
  {
    DecimalTimesTen(1);
    DecimalTimesTen(10);
    DecimalTimesTen(100);
    DecimalTimesTen(1000);
    DecimalLinesOne(10000);
    assert Decimal(10000) == "10000";
  }

  const ExampleGroups: seq<seq<nat>> := [[1000, 2000, 3000], [4000], [5000, 6000], [7000, 8000, 9000], [10000]]
  lemma ExampleSections()
    ensures RenderSections(ExampleGroups) == ["1000\n2000\n3000", "4000", "5000\n6000", "7000\n8000\n9000", "10000"]
  {
    Group1(); Group2(); Group3(); Group4(); Group5();
  }
  lemma ExampleJoin()
    ensures Join(["1000\n2000\n3000", "4000", "5000\n6000", "7000\n8000\n9000", "10000"], "\n\n")
      == "1000\n2000\n3000" + "\n\n" + "4000" + "\n\n" + "5000\n6000" + "\n\n" + "7000\n8000\n9000" + "\n\n" + "10000"
  {
  }
  lemma ExampleTotals()
    ensures Totals(ExampleGroups) == [Elf(6000), Elf(4000), Elf(11000), Elf(24000), Elf(10000)]
  {
  }
  lemma ExampleWellFormed()
    ensures WellFormedInventory(ExampleGroups)
  {
    var g := ExampleGroups;
    assert forall i :: 0 <= i < |g| ==> |g[i]| > 0;
    assert forall i, j :: 0 <= i < |g| && 0 <= j < |g[i]| ==> g[i][j] <= 10000;
  }

  lemma ExampleRender()
    ensures Render(ExampleGroups) == "1000\n2000\n3000" + "\n\n" + "4000" + "\n\n" + "5000\n6000" + "\n\n" + "7000\n8000\n9000" + "\n\n" + "10000"
  {
    ExampleSections();
    ExampleJoin();
  }

  /** The puzzle's worked example: five elves carrying 6000, 4000, 11000,
      24000 and 10000 calories. */
  lemma Example()
    ensures ParseElves("1000\n2000\n3000" + "\n\n" + "4000" + "\n\n" + "5000\n6000" + "\n\n" + "7000\n8000\n9000" + "\n\n" + "10000")
      == [Elf(6000), Elf(4000), Elf(11000), Elf(24000), Elf(10000)]
  {
    ExampleRender();
    ExampleWellFormed();
    ParseRender(ExampleGroups);
    ExampleTotals();
  }

  lemma ExampleMost()
    ensures MostCalories([Elf(6000), Elf(4000), Elf(11000), Elf(24000), Elf(10000)]) == 24000
  {
  }
  /** One step of the insertion sort, for the worked example. */
  lemma SortStep(s: seq<Elf>, t: seq<Elf>)
    requires |s| > 0 && SortDescending(s[1..]) == t
    ensures SortDescending(s) == Insert(s[0], t)
  {
  }
  lemma InsertHere(e: Elf, s: seq<Elf>)
    requires |s| == 0 || e.calories >= s[0].calories
    ensures Insert(e, s) == [e] + s
  {
  }
  lemma InsertPast(e: Elf, s: seq<Elf>, t: seq<Elf>)
    requires |s| > 0 && e.calories < s[0].calories && Insert(e, s[1..]) == t
    ensures Insert(e, s) == [s[0]] + t
  {
  }

  /** The example's five totals (6000, 4000, 11000, 24000, 10000 as
      `a` to `e`), sorted one insertion at a time. */
  lemma SortLastTwo(d: Elf, e: Elf)
    requires d.calories == 24000 && e.calories == 10000
    ensures SortDescending([d, e]) == [d, e]
  {
    assert [e][1..] == [];
    SortStep([e], []);
    InsertHere(e, []);
    assert [d, e][1..] == [e];
    SortStep([d, e], [e]);
    InsertHere(d, [e]);
  }
  lemma SortLastThree(c: Elf, d: Elf, e: Elf)
    requires c.calories == 11000 && d.calories == 24000 && e.calories == 10000
    ensures SortDescending([c, d, e]) == [d, c, e]
  {
    SortLastTwo(d, e);
    assert [c, d, e][1..] == [d, e];
    SortStep([c, d, e], [d, e]);
    InsertHere(c, [e]);
    assert [d, e][1..] == [e];
    InsertPast(c, [d, e], [c, e]);
  }
  lemma InsertFourth(b: Elf, c: Elf, d: Elf, e: Elf)
    requires b.calories == 4000 && c.calories == 11000 && d.calories == 24000 && e.calories == 10000
    ensures Insert(b, [d, c, e]) == [d, c, e, b]
  {
    InsertHere(b, []);
    assert [e][1..] == [];
    InsertPast(b, [e], [b]);
    assert [c, e][1..] == [e];
    InsertPast(b, [c, e], [e, b]);
    assert [d, c, e][1..] == [c, e];
    InsertPast(b, [d, c, e], [c, e, b]);
  }
  lemma SortLastFour(b: Elf, c: Elf, d: Elf, e: Elf)
    requires b.calories == 4000 && c.calories == 11000 && d.calories == 24000 && e.calories == 10000
    ensures SortDescending([b, c, d, e]) == [d, c, e, b]
  {
    SortLastThree(c, d, e);
    assert [b, c, d, e][1..] == [c, d, e];
    SortStep([b, c, d, e], [d, c, e]);
    InsertFourth(b, c, d, e);
  }
  lemma InsertFifth(a: Elf, b: Elf, c: Elf, d: Elf, e: Elf)
    requires a.calories == 6000 && b.calories == 4000 && c.calories == 11000
    requires d.calories == 24000 && e.calories == 10000
    ensures Insert(a, [d, c, e, b]) == [d, c, e, a, b]
  {
    InsertHere(a, [b]);
    assert [e, b][1..] == [b];
    InsertPast(a, [e, b], [a, b]);
    assert [c, e, b][1..] == [e, b];
    InsertPast(a, [c, e, b], [e, a, b]);
    assert [d, c, e, b][1..] == [c, e, b];
    InsertPast(a, [d, c, e, b], [c, e, a, b]);
  }
  lemma SortFive(a: Elf, b: Elf, c: Elf, d: Elf, e: Elf)
    requires a.calories == 6000 && b.calories == 4000 && c.calories == 11000
    requires d.calories == 24000 && e.calories == 10000
    ensures SortDescending([a, b, c, d, e]) == [d, c, e, a, b]
  {
    SortLastFour(b, c, d, e);
    assert [a, b, c, d, e][1..] == [b, c, d, e];
    SortStep([a, b, c, d, e], [d, c, e, b]);
    InsertFifth(a, b, c, d, e);
  }
  lemma ExampleSorted()
    ensures SortDescending([Elf(6000), Elf(4000), Elf(11000), Elf(24000), Elf(10000)])
         == [Elf(24000), Elf(11000), Elf(10000), Elf(6000), Elf(4000)]
  {
    SortFive(Elf(6000), Elf(4000), Elf(11000), Elf(24000), Elf(10000));
  }
  lemma ExampleTop()
    ensures TopThreeCalories([Elf(6000), Elf(4000), Elf(11000), Elf(24000), Elf(10000)]) == Some(45000)
  {
    ExampleSorted();
  }
}
