/** Rucksack reorganisation (`src/day3.rs`): each line is a rucksack whose
    two compartments are its halves; the item both compartments hold, and
    the badge item three consecutive rucksacks share, are scored by letter. */
module Rucksacks {
  import opened Results
  import opened Text

  /** A rucksack: the two halves of its line. The source also keeps a hash
      set of each half; here membership in a half is `c in half`. */
  datatype Rucksack = Rucksack(first: string, second: string)

  /** `Rucksack::from`: split the line in the middle; a line of odd length
      panics ("Compartments different sizes"). */
  function FromLine(line: string): (r: Option<Rucksack>)
    ensures r.None? <==> |line| % 2 != 0
    ensures r.Some? ==> |r.value.first| == |r.value.second| && r.value.first + r.value.second == line
  {
    if |line| % 2 != 0 then None
    else
      assert line == line[..|line| / 2] + line[|line| / 2..];
      Some(Rucksack(line[..|line| / 2], line[|line| / 2..]))
  }

  /** Two halves of equal length are read back as the same rucksack. */
  lemma FromLineOfHalves(r: Rucksack)
    requires |r.first| == |r.second|
    ensures FromLine(r.first + r.second) == Some(r)
  {
    var line := r.first + r.second;
    assert line[..|line| / 2] == r.first;
    assert line[|line| / 2..] == r.second;
  }

  /** The index of the first character of `s` that lies in `wanted`, as
      `Iterator::find` scans. */
  function Find(s: string, wanted: set<char>): (r: Option<nat>)
    ensures r.Some? ==> r.value < |s| && s[r.value] in wanted
    ensures r.Some? ==> forall j :: 0 <= j < r.value ==> s[j] !in wanted
    ensures r.None? ==> forall j :: 0 <= j < |s| ==> s[j] !in wanted
  {
    if |s| == 0 then None
    else if s[0] in wanted then Some(0)
    else
      match Find(s[1..], wanted)
      case None => None
      case Some(k) => Some(k + 1)
  }

  /** The characters of a string, as `HashSet::from_iter(s.chars())` holds them. */
  function Items(s: string): (r: set<char>)
    ensures forall c :: c in r <==> c in s
  {
    set c | c in s
  }

  /** `Rucksack::common_item`: the first item of the first compartment that
      the second compartment also holds; none panics ("Should be a match"). */
  function CommonItem(r: Rucksack): (c: Option<char>)
    ensures c.Some? ==> c.value in r.first && c.value in r.second
    ensures c.None? <==> forall x :: x in r.first ==> x !in r.second
  {
    match Find(r.first, Items(r.second))
    case None => None
    case Some(i) => Some(r.first[i])
  }

  /** No item of the first compartment that precedes the common item's first
      occurrence is held by the second compartment. */
  lemma CommonItemIsFirst(r: Rucksack)
    requires CommonItem(r).Some?
    ensures exists i :: 0 <= i < |r.first| && r.first[i] == CommonItem(r).value
                        && forall j :: 0 <= j < i ==> r.first[j] !in r.second
  {
    var i := Find(r.first, Items(r.second)).value;
    assert r.first[i] == CommonItem(r).value;
  }

  /** Conversely, the first item of the first compartment that the second
      holds is the common item. */
  lemma CommonItemAt(r: Rucksack, i: nat)
    requires i < |r.first| && r.first[i] in r.second
    requires forall j :: 0 <= j < i ==> r.first[j] !in r.second
    ensures CommonItem(r) == Some(r.first[i])
  {
    var k := Find(r.first, Items(r.second));
    assert k.Some?;
    assert k.value == i;
  }

  // ---------------------------------------------------------------------
  // Scoring
  // ---------------------------------------------------------------------

  predicate IsUpper(c: char)
  {
    'A' <= c <= 'Z'
  }

  predicate IsLower(c: char)
  {
    'a' <= c <= 'z'
  }

  predicate IsLetter(c: char)
  {
    IsUpper(c) || IsLower(c)
  }

  /** `char_score`: upper case letters score 27 to 52, anything else is
      scored as if lower case, `c - 'a' + 1`; a character below 'a' makes
      that `u32` subtraction underflow and panic, which is `None`. */
  function CharScore(c: char): (r: Option<nat>)
    ensures IsLower(c) ==> r.Some? && 1 <= r.value <= 26
    ensures IsUpper(c) ==> r.Some? && 27 <= r.value <= 52
    ensures r.None? <==> !IsUpper(c) && c < 'a'
    ensures r.Some? ==> r.value >= 1
  {
    if IsUpper(c) then Some(c as nat - 'A' as nat + 27)
    else if c < 'a' then None
    else Some(c as nat - 'a' as nat + 1)
  }

  /** The letter a score from 1 to 52 stands for. */
  function ScoreLetter(n: nat): (c: char)
    requires 1 <= n <= 52
    ensures IsLetter(c)
  {
    if n <= 26 then ('a' as nat + n - 1) as char else ('A' as nat + n - 27) as char
  }

  /** Scoring is a bijection between the 52 letters and 1..52. */
  lemma CharScoreBijective(c: char, n: nat)
    ensures IsLetter(c) ==> ScoreLetter(CharScore(c).value) == c
    ensures 1 <= n <= 52 ==> CharScore(ScoreLetter(n)) == Some(n)
  {
  }

  /** Hence distinct letters never score alike. */
  lemma CharScoreInjective(c1: char, c2: char)
    requires IsLetter(c1) && IsLetter(c2) && CharScore(c1) == CharScore(c2)
    ensures c1 == c2
  {
    CharScoreBijective(c1, 0);
    CharScoreBijective(c2, 0);
  }

  /** The score of a line in part 1. */
  function LineScore(line: string): (r: Option<nat>)
    ensures r.Some? ==> r.value >= 1
  {
    match FromLine(line)
    case None => None
    case Some(sack) =>
      match CommonItem(sack)
      case None => None
      case Some(c) => CharScore(c)
  }

  /** `part1` over the given lines: the sum of the line scores; `None`
      when any line panics. */
  function TotalOne(lines: seq<string>): (r: Option<nat>)
    ensures r.Some? ==> r.value >= |lines|
  {
    if |lines| == 0 then Some(0)
    else
      match (LineScore(lines[0]), TotalOne(lines[1..]))
      case (Some(s), Some(rest)) => Some(s + rest)
      case _ => None
  }

  /** The total exists exactly when every line has a score. */
  lemma {:induction false} TotalOneDefined(lines: seq<string>)
    ensures TotalOne(lines).Some? <==> forall i :: 0 <= i < |lines| ==> LineScore(lines[i]).Some?
    decreases |lines|
  {
    if |lines| > 0 {
      TotalOneDefined(lines[1..]);
      assert forall i :: 1 <= i < |lines| ==> lines[i] == lines[1..][i - 1];
    }
  }

  /** `part1`: defined exactly when every line has a score, and at least
      one point per line. */
  function PartOne(input: string): (r: Option<nat>)
    ensures r.Some? <==> forall i :: 0 <= i < |Lines(input)| ==> LineScore(Lines(input)[i]).Some?
    ensures r.Some? ==> r.value >= |Lines(input)|
  {
    TotalOneDefined(Lines(input));
    TotalOne(Lines(input))
  }

  /** The total of a list of lines is the sum of its parts' totals, and
      fails exactly when one part fails. */
  lemma {:induction false} TotalOneAppend(xs: seq<string>, ys: seq<string>)
    ensures TotalOne(xs + ys).Some? <==> TotalOne(xs).Some? && TotalOne(ys).Some?
    ensures TotalOne(xs + ys).Some? ==> TotalOne(xs + ys).value == TotalOne(xs).value + TotalOne(ys).value
    decreases |xs|
  {
    if |xs| == 0 {
      assert xs + ys == ys;
    } else {
      assert (xs + ys)[1..] == xs[1..] + ys;
      assert (xs + ys)[0] == xs[0];
      TotalOneAppend(xs[1..], ys);
    }
  }

  // ---------------------------------------------------------------------
  // Groups of three
  // ---------------------------------------------------------------------

  datatype Group = Group(a: Rucksack, b: Rucksack, c: Rucksack)

  /** The whole contents of a rucksack. */
  function Contents(r: Rucksack): string
  {
    r.first + r.second
  }

  /** `Group::from`: the first three lines of the text as rucksacks; fewer
      than three lines ("Not enough sacks") or an odd line panics, and later
      lines are ignored. */
  function GroupFrom(text: string): (r: Option<Group>)
    ensures r.Some? <==> |Lines(text)| >= 3 && FromLine(Lines(text)[0]).Some?
                         && FromLine(Lines(text)[1]).Some? && FromLine(Lines(text)[2]).Some?
    ensures r.Some? ==> Contents(r.value.a) == Lines(text)[0] && Contents(r.value.b) == Lines(text)[1]
                        && Contents(r.value.c) == Lines(text)[2]
  {
    var lines := Lines(text);
    if |lines| < 3 then None
    else
      match (FromLine(lines[0]), FromLine(lines[1]), FromLine(lines[2]))
      case (Some(a), Some(b), Some(c)) => Some(Group(a, b, c))
      case _ => None
  }

  /** The items the second and third rucksacks both hold, each tested as
      "in one half or the other", the way `Group::common_item` tests them. */
  function SharedByOthers(g: Group): set<char>
  {
    set x | x in Contents(g.b) + Contents(g.c)
          && (x in Items(g.b.first) || x in Items(g.b.second))
          && (x in Items(g.c.first) || x in Items(g.c.second))
  }

  /** Being in one half or the other is being in the rucksack. */
  lemma HalvesCoverContents(r: Rucksack, x: char)
    ensures (x in Items(r.first) || x in Items(r.second)) <==> x in Contents(r)
  {
  }

  /** `Group::common_item`: the first item of the first rucksack's first
      half that the other two hold, else the first such item of its second
      half; none panics ("No match"). */
  function GroupItem(g: Group): (r: Option<char>)
    ensures r.Some? ==> r.value in Contents(g.a) && r.value in Contents(g.b) && r.value in Contents(g.c)
  {
    var shared := SharedByOthers(g);
    match Find(g.a.first, shared)
    case Some(i) => Some(g.a.first[i])
    case None =>
      match Find(g.a.second, shared)
      case Some(i) => Some(g.a.second[i])
      case None => None
  }

  /** The badge is found exactly when the three rucksacks share an item,
      and the first half of the first rucksack is searched before its
      second half. */
  lemma GroupItemSearch(g: Group)
    ensures GroupItem(g).None? <==>
              forall x :: x in Contents(g.a) ==> !(x in Contents(g.b) && x in Contents(g.c))
    ensures (exists i :: 0 <= i < |g.a.first| && g.a.first[i] in Contents(g.b) && g.a.first[i] in Contents(g.c))
              ==> GroupItem(g).Some? && GroupItem(g).value in g.a.first
  {
    var shared := SharedByOthers(g);
    forall x
      ensures x in shared <==> x in Contents(g.b) && x in Contents(g.c)
    {
      HalvesCoverContents(g.b, x);
      HalvesCoverContents(g.c, x);
    }
    if GroupItem(g).None? {
      forall x | x in Contents(g.a)
        ensures !(x in Contents(g.b) && x in Contents(g.c))
      {
        var k :| 0 <= k < |Contents(g.a)| && Contents(g.a)[k] == x;
        if k < |g.a.first| {
          assert g.a.first[k] == x;
        } else {
          assert g.a.second[k - |g.a.first|] == x;
        }
      }
    }
    if exists i :: 0 <= i < |g.a.first| && g.a.first[i] in Contents(g.b) && g.a.first[i] in Contents(g.c) {
      var i :| 0 <= i < |g.a.first| && g.a.first[i] in Contents(g.b) && g.a.first[i] in Contents(g.c);
      assert g.a.first[i] in shared;
    }
  }

  /** Conversely, the first item of the first half that both other
      rucksacks hold is the badge. */
  lemma GroupItemAt(g: Group, i: nat)
    requires i < |g.a.first| && g.a.first[i] in Contents(g.b) && g.a.first[i] in Contents(g.c)
    requires forall j :: 0 <= j < i ==> !(g.a.first[j] in Contents(g.b) && g.a.first[j] in Contents(g.c))
    ensures GroupItem(g) == Some(g.a.first[i])
  {
    var shared := SharedByOthers(g);
    forall x
      ensures x in shared <==> x in Contents(g.b) && x in Contents(g.c)
    {
      HalvesCoverContents(g.b, x);
      HalvesCoverContents(g.c, x);
    }
    var k := Find(g.a.first, shared);
    assert k.Some?;
    assert k.value == i;
  }

  /** When no item of the first half is shared, the first item of the
      second half that both other rucksacks hold is the badge. */
  lemma GroupItemAtSecond(g: Group, i: nat)
    requires forall j :: 0 <= j < |g.a.first| ==> !(g.a.first[j] in Contents(g.b) && g.a.first[j] in Contents(g.c))
    requires i < |g.a.second| && g.a.second[i] in Contents(g.b) && g.a.second[i] in Contents(g.c)
    requires forall j :: 0 <= j < i ==> !(g.a.second[j] in Contents(g.b) && g.a.second[j] in Contents(g.c))
    ensures GroupItem(g) == Some(g.a.second[i])
  {
    var shared := SharedByOthers(g);
    forall x
      ensures x in shared <==> x in Contents(g.b) && x in Contents(g.c)
    {
      HalvesCoverContents(g.b, x);
      HalvesCoverContents(g.c, x);
    }
    assert Find(g.a.first, shared).None?;
    var k := Find(g.a.second, shared);
    assert k.Some?;
    assert k.value == i;
  }

  /** The score of one group's text in part 2. */
  function GroupScore(text: string): Option<nat>
  {
    match GroupFrom(text)
    case None => None
    case Some(g) =>
      match GroupItem(g)
      case None => None
      case Some(c) => CharScore(c)
  }

  /** itertools `chunks(n)`: consecutive runs of `n` items, the last one
      possibly shorter. */
  function Chunks<T>(xs: seq<T>, n: nat): (r: seq<seq<T>>)
    requires n > 0
    ensures forall i :: 0 <= i < |r| ==> 0 < |r[i]| <= n
    ensures forall i :: 0 <= i < |r| - 1 ==> |r[i]| == n
    decreases |xs|
  {
    if |xs| == 0 then []
    else if |xs| <= n then [xs]
    else [xs[..n]] + Chunks(xs[n..], n)
  }

  function Flatten<T>(xss: seq<seq<T>>): seq<T>
  {
    if |xss| == 0 then [] else xss[0] + Flatten(xss[1..])
  }

  /** Chunking partitions the sequence: the chunks, in order, are exactly
      the items. */
  lemma {:induction false} FlattenChunks<T>(xs: seq<T>, n: nat)
    requires n > 0
    ensures Flatten(Chunks(xs, n)) == xs
    decreases |xs|
  {
    if |xs| == 0 {
    } else if |xs| <= n {
      assert Flatten([xs]) == xs + Flatten<T>([]);
    } else {
      FlattenChunks(xs[n..], n);
      var r := Chunks(xs, n);
      assert r[0] == xs[..n] && r[1..] == Chunks(xs[n..], n);
      assert xs == xs[..n] + xs[n..];
    }
  }

  /** `part2` over a sequence of chunks: each chunk is joined with '\n' and
      read as a group. */
  function TotalTwo(chunks: seq<seq<string>>): (r: Option<nat>)
    ensures r.Some? <==> forall i :: 0 <= i < |chunks| ==> GroupScore(Join(chunks[i], "\n")).Some?
  {
    if |chunks| == 0 then Some(0)
    else
      match (GroupScore(Join(chunks[0], "\n")), TotalTwo(chunks[1..]))
      case (Some(s), Some(rest)) => Some(s + rest)
      case _ => None
  }

  /** `part2`: an answer needs the lines to form whole groups of three. */
  function PartTwo(input: string): (r: Option<nat>)
    ensures r.Some? ==> |Lines(input)| % 3 == 0
  {
    WholeGroups(Lines(input));
    TotalTwo(Chunks(Lines(input), 3))
  }

  /** A number of lines that is not a multiple of 3 leaves a short last
      chunk, which panics with "Not enough sacks". */
  lemma WholeGroups(lines: seq<string>)
    requires forall i :: 0 <= i < |lines| ==> '\n' !in lines[i]
    ensures TotalTwo(Chunks(lines, 3)).Some? ==> |lines| % 3 == 0
  {
    if |lines| % 3 != 0 {
      var cs := Chunks(lines, 3);
      ShortLastChunk(lines);
      ShortChunkFails(cs[|cs| - 1]);
      LastChunkFails(cs);
    }
  }

  /** The short last chunk left by a line count that 3 does not divide,
      with no line break in any of its lines. */
  lemma ShortLastChunk(lines: seq<string>)
    requires |lines| % 3 != 0
    requires forall i :: 0 <= i < |lines| ==> '\n' !in lines[i]
    ensures |Chunks(lines, 3)| > 0
    ensures var last := Chunks(lines, 3)[|Chunks(lines, 3)| - 1];
      0 < |last| < 3 &&
      forall i, j :: 0 <= i < |last| && 0 <= j < |last[i]| ==> last[i][j] != '\n'
  {
    var k := |lines| - |lines| % 3;
    ChunksLast(lines);
    SuffixPlain(lines, k);
  }

  /** A last chunk that forms no group makes the whole total fail. */
  lemma LastChunkFails(cs: seq<seq<string>>)
    requires |cs| > 0 && GroupFrom(Join(cs[|cs| - 1], "\n")).None?
    ensures TotalTwo(cs).None?
  {
    assert GroupScore(Join(cs[|cs| - 1], "\n")).None?;
  }

  /** The lines from `k` on hold no line break, character by character. */
  lemma SuffixPlain(lines: seq<string>, k: nat)
    requires k <= |lines|
    requires forall i :: 0 <= i < |lines| ==> '\n' !in lines[i]
    ensures forall i, j :: 0 <= i < |lines[k..]| && 0 <= j < |lines[k..][i]| ==> lines[k..][i][j] != '\n'
  {
    forall i, j | 0 <= i < |lines[k..]| && 0 <= j < |lines[k..][i]|
      ensures lines[k..][i][j] != '\n'
    {
      assert lines[k..][i] == lines[k + i];
      assert lines[k + i][j] in lines[k + i];
    }
  }

  /** When 3 does not divide the length, the last chunk of three is the
      remainder. */
  lemma {:induction false} ChunksLast<T>(xs: seq<T>)
    requires |xs| % 3 != 0
    ensures |Chunks(xs, 3)| > 0
    ensures Chunks(xs, 3)[|Chunks(xs, 3)| - 1] == xs[|xs| - |xs| % 3..]
    decreases |xs|
  {
    if |xs| > 3 {
      var rest := xs[3..];
      assert Chunks(xs, 3) == [xs[..3]] + Chunks(rest, 3);
      assert |rest| % 3 == |xs| % 3;
      ChunksLast(rest);
      assert rest[|rest| - |rest| % 3..] == xs[|xs| - |xs| % 3..];
    }
  }

  /** A chunk of three lines that are non-empty and free of '\n' is read
      back as those three lines; so a group is formed exactly when each of
      them has even length. */
  lemma GroupOfChunk(chunk: seq<string>)
    requires |chunk| == 3
    requires |chunk[2]| > 0
    requires forall i, j :: 0 <= i < |chunk| && 0 <= j < |chunk[i]| ==> chunk[i][j] != '\n'
    ensures Lines(Join(chunk, "\n")) == chunk
    ensures GroupFrom(Join(chunk, "\n")).Some? <==> forall i :: 0 <= i < 3 ==> |chunk[i]| % 2 == 0
  {
    LinesOfJoin(chunk);
  }

  /** A final chunk of fewer than three lines never forms a group. */
  lemma ShortChunkFails(chunk: seq<string>)
    requires 0 < |chunk| < 3
    requires forall i, j :: 0 <= i < |chunk| && 0 <= j < |chunk[i]| ==> chunk[i][j] != '\n'
    ensures GroupFrom(Join(chunk, "\n")).None?
  {
    LinesOfJoin(chunk);
  }

  // ---------------------------------------------------------------------
  // The worked example of the puzzle
  // ---------------------------------------------------------------------

  lemma ExampleHalves()
    ensures FromLine("vJrwpWtwJgWr" + "hcsFMMfFFhFp") == Some(Rucksack("vJrwpWtwJgWr", "hcsFMMfFFhFp"))
  {
    FromLineOfHalves(Rucksack("vJrwpWtwJgWr", "hcsFMMfFFhFp"));
  }

  lemma ExampleCommonItem(first: string, second: string)
    requires first == "vJrwpWtwJgWr" && second == "hcsFMMfFFhFp"
    ensures CommonItem(Rucksack(first, second)) == Some('p')
  {
    assert first[0] == 'v' && first[1] == 'J' && first[2] == 'r' && first[3] == 'w' && first[4] == 'p';
    ExampleSecondCompartment(second);
    CommonItemAt(Rucksack(first, second), 4);
  }

  lemma ExampleSecondCompartment(second: string)
    requires second == "hcsFMMfFFhFp"
    ensures 'v' !in second && 'J' !in second && 'r' !in second && 'w' !in second && 'p' in second
  {
    assert second[11] == 'p';
  }

  lemma ExampleScores()
    ensures CharScore('a') == Some(1) && CharScore('z') == Some(26)
    ensures CharScore('A') == Some(27) && CharScore('Z') == Some(52)
  {
  }

  /** The six rucksacks of the worked example, each written as its two
      compartments. */
  const Sack1: string := "vJrwpWtwJgWr" + "hcsFMMfFFhFp"
  const Sack2: string := "jqHRNqRjqzjGDLGL" + "rsFMfFZSrLrFZsSL"
  const Sack3: string := "PmmdzqPrV" + "vPwwTWBwg"
  const Sack4: string := "wMqvLMZHhHMvwLH" + "jbvcjnnSBnvTQFn"
  const Sack5: string := "ttgJtRGJ" + "QctTZtZT"
  const Sack6: string := "CrZsJsPPZsGz" + "wwsLwLmpwMDw"

  /** A line whose compartments share first the item at `i` scores that item. */
  lemma LineScoreAt(a: string, b: string, i: nat, score: nat)
    requires |a| == |b| && i < |a| && a[i] in b
    requires forall j :: 0 <= j < i ==> a[j] !in b
    requires CharScore(a[i]) == Some(score)
    ensures LineScore(a + b) == Some(score)
  {
    FromLineOfHalves(Rucksack(a, b));
    CommonItemAt(Rucksack(a, b), i);
  }

  /** Common item 'p', score 16. */
  lemma ExampleLine1(a: string, b: string)
    requires a == "vJrwpWtwJgWr" && b == "hcsFMMfFFhFp"
    ensures LineScore(a + b) == Some(16)
  {
    assert a[0] == 'v' && a[1] == 'J' && a[2] == 'r' && a[3] == 'w' && a[4] == 'p';
    assert 'v' !in b && 'J' !in b && 'r' !in b && 'w' !in b && 'p' in b;
    LineScoreAt(a, b, 4, 16);
  }

  /** Common item 'L', score 38. */
  lemma ExampleLine2(a: string, b: string)
    requires a == "jqHRNqRjqzjGDLGL" && b == "rsFMfFZSrLrFZsSL"
    ensures LineScore(a + b) == Some(38)
  {
    Line2Avoids(a, b);
    assert a[13] == 'L' && 'L' in b;
    LineScoreAt(a, b, 13, 38);
  }

  /** None of the first thirteen items of the second example rucksack's
      first compartment is in its second compartment. */
  lemma Line2Avoids(a: string, b: string)
    requires a == "jqHRNqRjqzjGDLGL" && b == "rsFMfFZSrLrFZsSL"
    ensures forall j :: 0 <= j < 13 ==> a[j] !in b
  {
    Line2Absent(b);
    forall j | 0 <= j < 13
      ensures a[j] !in b
    {
      assert a[j] in "jqHRNqRjqzjGD";
    }
  }

  lemma Line2Absent(b: string)
    requires b == "rsFMfFZSrLrFZsSL"
    ensures 'j' !in b && 'q' !in b && 'H' !in b && 'R' !in b
    ensures 'N' !in b && 'z' !in b && 'G' !in b && 'D' !in b
  {
    Line2AbsentFirst(b);
    Line2AbsentLast(b);
  }

  lemma Line2AbsentFirst(b: string)
    requires b == "rsFMfFZSrLrFZsSL"
    ensures 'j' !in b && 'q' !in b && 'H' !in b && 'R' !in b
  {
  }

  lemma Line2AbsentLast(b: string)
    requires b == "rsFMfFZSrLrFZsSL"
    ensures 'N' !in b && 'z' !in b && 'G' !in b && 'D' !in b
  {
  }

  /** Common item 'P', score 42. */
  lemma ExampleLine3(a: string, b: string)
    requires a == "PmmdzqPrV" && b == "vPwwTWBwg"
    ensures LineScore(a + b) == Some(42)
  {
    assert a[0] == 'P' && 'P' in b;
    LineScoreAt(a, b, 0, 42);
  }

  /** Common item 'v', score 22. */
  lemma ExampleLine4(a: string, b: string)
    requires a == "wMqvLMZHhHMvwLH" && b == "jbvcjnnSBnvTQFn"
    ensures LineScore(a + b) == Some(22)
  {
    assert a[0] == 'w' && a[1] == 'M' && a[2] == 'q' && a[3] == 'v';
    assert 'w' !in b && 'M' !in b && 'q' !in b && 'v' in b;
    LineScoreAt(a, b, 3, 22);
  }

  /** Common item 't', score 20. */
  lemma ExampleLine5(a: string, b: string)
    requires a == "ttgJtRGJ" && b == "QctTZtZT"
    ensures LineScore(a + b) == Some(20)
  {
    assert a[0] == 't' && 't' in b;
    LineScoreAt(a, b, 0, 20);
  }

  /** Common item 's', score 19. */
  lemma ExampleLine6(a: string, b: string)
    requires a == "CrZsJsPPZsGz" && b == "wwsLwLmpwMDw"
    ensures LineScore(a + b) == Some(19)
  {
    assert a[0] == 'C' && a[1] == 'r' && a[2] == 'Z' && a[3] == 's';
    assert 'C' !in b && 'r' !in b && 'Z' !in b && 's' in b;
    LineScoreAt(a, b, 3, 19);
  }

  lemma SingleLineTotal(l: string, v: nat)
    requires LineScore(l) == Some(v)
    ensures TotalOne([l]) == Some(v)
  {
    assert [l][1..] == [];
  }

  lemma ExampleLineTotals()
    ensures TotalOne([Sack1]) == Some(16) && TotalOne([Sack2]) == Some(38) && TotalOne([Sack3]) == Some(42)
    ensures TotalOne([Sack4]) == Some(22) && TotalOne([Sack5]) == Some(20) && TotalOne([Sack6]) == Some(19)
  {
    ExampleLine1("vJrwpWtwJgWr", "hcsFMMfFFhFp");
    SingleLineTotal(Sack1, 16);
    ExampleLine2("jqHRNqRjqzjGDLGL", "rsFMfFZSrLrFZsSL");
    SingleLineTotal(Sack2, 38);
    ExampleLine3("PmmdzqPrV", "vPwwTWBwg");
    SingleLineTotal(Sack3, 42);
    ExampleLine4("wMqvLMZHhHMvwLH", "jbvcjnnSBnvTQFn");
    SingleLineTotal(Sack4, 22);
    ExampleLine5("ttgJtRGJ", "QctTZtZT");
    SingleLineTotal(Sack5, 20);
    ExampleLine6("CrZsJsPPZsGz", "wwsLwLmpwMDw");
    SingleLineTotal(Sack6, 19);
  }

  lemma ExampleSum(l1: seq<string>, l2: seq<string>, l3: seq<string>,
                   l4: seq<string>, l5: seq<string>, l6: seq<string>)
    requires TotalOne(l1) == Some(16) && TotalOne(l2) == Some(38) && TotalOne(l3) == Some(42)
    requires TotalOne(l4) == Some(22) && TotalOne(l5) == Some(20) && TotalOne(l6) == Some(19)
    ensures TotalOne(l1 + l2 + l3 + l4 + l5 + l6) == Some(157)
  {
    TotalOneAppend(l1, l2);
    TotalOneAppend(l1 + l2, l3);
    TotalOneAppend(l1 + l2 + l3, l4);
    TotalOneAppend(l1 + l2 + l3 + l4, l5);
    TotalOneAppend(l1 + l2 + l3 + l4 + l5, l6);
  }

  lemma NoBreakIn(a: string, b: string)
    requires '\n' !in a && '\n' !in b
    ensures '\n' !in a + b
  {
  }

  lemma ExampleNewlineFree()
    ensures '\n' !in Sack1 && '\n' !in Sack2 && '\n' !in Sack3
    ensures '\n' !in Sack4 && '\n' !in Sack5 && '\n' !in Sack6
  {
    FirstSacksNewlineFree();
    LastSacksNewlineFree();
  }

  lemma FirstSacksNewlineFree()
    ensures '\n' !in Sack1 && '\n' !in Sack2 && '\n' !in Sack3
  {
    NoBreakIn("vJrwpWtwJgWr", "hcsFMMfFFhFp");
    NoBreakIn("jqHRNqRjqzjGDLGL", "rsFMfFZSrLrFZsSL");
    NoBreakIn("PmmdzqPrV", "vPwwTWBwg");
  }

  lemma LastSacksNewlineFree()
    ensures '\n' !in Sack4 && '\n' !in Sack5 && '\n' !in Sack6
  {
    NoBreakIn("wMqvLMZHhHMvwLH", "jbvcjnnSBnvTQFn");
    NoBreakIn("ttgJtRGJ", "QctTZtZT");
    NoBreakIn("CrZsJsPPZsGz", "wwsLwLmpwMDw");
  }

  /** The six rucksacks score 16 + 38 + 42 + 22 + 20 + 19 = 157 in part 1. */
  lemma ExampleOne()
    ensures PartOne(Sack1 + "\n" + Sack2 + "\n" + Sack3 + "\n" + Sack4 + "\n" + Sack5 + "\n" + Sack6)
            == Some(157)
  {
    ExampleLineTotals();
    ExampleSum([Sack1], [Sack2], [Sack3], [Sack4], [Sack5], [Sack6]);
    ExampleNewlineFree();
    SixLines(Sack1, Sack2, Sack3, Sack4, Sack5, Sack6);
  }

  lemma ChunksOfTwo<T>(a: seq<T>, b: seq<T>)
    requires |a| == 3 && |b| == 3
    ensures Chunks(a + b, 3) == [a, b]
  {
    assert (a + b)[..3] == a;
    assert (a + b)[3..] == b;
  }

  /** A group whose first rucksack's first half holds the badge at `i`
      scores that badge. */
  lemma GroupScoreAt(a1: string, a2: string, b: string, c: string, i: nat, score: nat)
    requires |a1| == |a2| && |b| % 2 == 0 && |c| % 2 == 0 && |c| > 0
    requires '\n' !in a1 + a2 && '\n' !in b && '\n' !in c
    requires i < |a1| && a1[i] in b && a1[i] in c
    requires forall j :: 0 <= j < i ==> !(a1[j] in b && a1[j] in c)
    requires CharScore(a1[i]) == Some(score)
    ensures GroupScore(Join([a1 + a2, b, c], "\n")) == Some(score)
  {
    var chunk := [a1 + a2, b, c];
    forall k, j | 0 <= k < |chunk| && 0 <= j < |chunk[k]|
      ensures chunk[k][j] != '\n'
    {
      assert chunk[k][j] in chunk[k];
    }
    GroupOfChunk(chunk);
    FromLineOfHalves(Rucksack(a1, a2));
    var g := GroupFrom(Join(chunk, "\n")).value;
    assert g.a == Rucksack(a1, a2);
    assert Contents(g.b) == b && Contents(g.c) == c;
    GroupItemAt(g, i);
  }

  /** In the first group the badge is 'r', the third item of the first
      compartment. */
  lemma ExampleBadge1(a1: string, b: string, c: string)
    requires a1 == "vJrwpWtwJgWr"
    requires b == "jqHRNqRjqzjGDLGL" + "rsFMfFZSrLrFZsSL" && c == "PmmdzqPrV" + "vPwwTWBwg"
    ensures 2 < |a1| && a1[2] == 'r' && a1[2] in b && a1[2] in c
    ensures forall j :: 0 <= j < 2 ==> !(a1[j] in b && a1[j] in c)
  {
    assert a1[0] == 'v' && a1[1] == 'J' && a1[2] == 'r';
    assert 'v' !in b && 'J' !in b && 'r' in b && 'r' in c;
  }

  lemma ExampleGroup1(a1: string, a2: string, b: string, c: string)
    requires a1 == "vJrwpWtwJgWr" && a2 == "hcsFMMfFFhFp"
    requires b == "jqHRNqRjqzjGDLGL" + "rsFMfFZSrLrFZsSL" && c == "PmmdzqPrV" + "vPwwTWBwg"
    ensures GroupScore(Join([a1 + a2, b, c], "\n")) == Some(18)
  {
    ExampleBadge1(a1, b, c);
    NoBreakIn(a1, a2);
    NoBreakIn("jqHRNqRjqzjGDLGL", "rsFMfFZSrLrFZsSL");
    NoBreakIn("PmmdzqPrV", "vPwwTWBwg");
    GroupScoreAt(a1, a2, b, c, 2, 18);
  }

  /** In the second group the badge is 'Z', the seventh item of the first
      compartment. */
  lemma ExampleBadge2(a1: string, b: string, c: string)
    requires a1 == "wMqvLMZHhHMvwLH"
    requires b == "ttgJtRGJ" + "QctTZtZT" && c == "CrZsJsPPZsGz" + "wwsLwLmpwMDw"
    ensures 6 < |a1| && a1[6] == 'Z' && a1[6] in b && a1[6] in c
    ensures forall j :: 0 <= j < 6 ==> !(a1[j] in b && a1[j] in c)
  {
    assert a1[0] == 'w' && a1[1] == 'M' && a1[2] == 'q' && a1[3] == 'v';
    assert a1[4] == 'L' && a1[5] == 'M' && a1[6] == 'Z';
    Badge2Absent(b);
    assert c[2] == 'Z';
  }

  lemma Badge2Absent(b: string)
    requires b == "ttgJtRGJ" + "QctTZtZT"
    ensures 'w' !in b && 'M' !in b && 'q' !in b && 'v' !in b && 'L' !in b && 'Z' in b
  {
    assert b[12] == 'Z';
  }

  lemma ExampleGroup2(a1: string, a2: string, b: string, c: string)
    requires a1 == "wMqvLMZHhHMvwLH" && a2 == "jbvcjnnSBnvTQFn"
    requires b == "ttgJtRGJ" + "QctTZtZT" && c == "CrZsJsPPZsGz" + "wwsLwLmpwMDw"
    ensures GroupScore(Join([a1 + a2, b, c], "\n")) == Some(52)
  {
    ExampleBadge2(a1, b, c);
    NoBreakIn(a1, a2);
    NoBreakIn("ttgJtRGJ", "QctTZtZT");
    NoBreakIn("CrZsJsPPZsGz", "wwsLwLmpwMDw");
    GroupScoreAt(a1, a2, b, c, 6, 52);
  }

  lemma TwoGroupTotal(g1: seq<string>, g2: seq<string>)
    requires GroupScore(Join(g1, "\n")) == Some(18) && GroupScore(Join(g2, "\n")) == Some(52)
    ensures TotalTwo([g1, g2]) == Some(70)
  {
    assert [g2][1..] == [];
    assert TotalTwo([g2]) == Some(52);
    assert [g1, g2][1..] == [g2];
  }

  lemma ExampleChunks()
    ensures Chunks(Lines(Sack1 + "\n" + Sack2 + "\n" + Sack3 + "\n" + Sack4 + "\n" + Sack5 + "\n" + Sack6), 3)
            == [[Sack1, Sack2, Sack3], [Sack4, Sack5, Sack6]]
  {
    ExampleNewlineFree();
    SixLines(Sack1, Sack2, Sack3, Sack4, Sack5, Sack6);
    assert [Sack1] + [Sack2] + [Sack3] + [Sack4] + [Sack5] + [Sack6]
        == [Sack1, Sack2, Sack3] + [Sack4, Sack5, Sack6];
    ChunksOfTwo([Sack1, Sack2, Sack3], [Sack4, Sack5, Sack6]);
  }

  lemma ExampleGroups()
    ensures TotalTwo([[Sack1, Sack2, Sack3], [Sack4, Sack5, Sack6]]) == Some(70)
  {
    ExampleGroup1("vJrwpWtwJgWr", "hcsFMMfFFhFp", Sack2, Sack3);
    ExampleGroup2("wMqvLMZHhHMvwLH", "jbvcjnnSBnvTQFn", Sack5, Sack6);
    assert Sack1 == "vJrwpWtwJgWr" + "hcsFMMfFFhFp";
    assert Sack4 == "wMqvLMZHhHMvwLH" + "jbvcjnnSBnvTQFn";
    TwoGroupTotal([Sack1, Sack2, Sack3], [Sack4, Sack5, Sack6]);
  }

  /** The two groups' badges 'r' and 'Z' score 18 + 52 = 70 in part 2. */
  lemma ExampleTwo()
    ensures PartTwo(Sack1 + "\n" + Sack2 + "\n" + Sack3 + "\n" + Sack4 + "\n" + Sack5 + "\n" + Sack6)
            == Some(70)
  {
    ExampleChunks();
    ExampleGroups();
  }
}
