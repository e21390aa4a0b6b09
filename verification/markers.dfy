/** Tuning trouble (`src/day6.rs`): the first position in a stream of
    characters where the last `L` characters are all different. Part 1 looks
    for a start-of-packet marker (`L` = 4), part 2 for a start-of-message
    marker (`L` = 14); both run the same scan. */
module Markers {
  import opened Results

  /** No character occurs twice. */
  predicate Distinct(s: seq<char>)
  {
    forall i, j :: 0 <= i < j < |s| ==> s[i] != s[j]
  }

  /** The characters from position `a` up to `b` are all different. */
  predicate RunDistinct(s: string, a: nat, b: nat)
    requires a <= b <= |s|
  {
    Distinct(s[a..b])
  }

  /** The `L` characters just before position `r` are all different. */
  predicate MarkerEndsAt(input: string, L: nat, r: nat)
  {
    L <= r <= |input| && Distinct(input[r - L..r])
  }

  /** Reference answer: the least position `r` before the end of the input
      at which a marker ends, searched from `from` on; 0 when there is none.
      A marker that ends exactly at the end of the input is not reported,
      as in the scan, which checks before reading each character. */
  function FirstMarkerFrom(input: string, L: nat, from: nat): nat
    decreases |input| - from
  {
    if from >= |input| then 0
    else if MarkerEndsAt(input, L, from) then from
    else FirstMarkerFrom(input, L, from + 1)
  }

  function FirstMarker(input: string, L: nat): nat
  {
    FirstMarkerFrom(input, L, 0)
  }

  /** The reference search finds the least reportable position, or 0 when
      none before the end of the input has a marker. */
  lemma FirstMarkerFromIsLeast(input: string, L: nat, from: nat)
    ensures var r := FirstMarkerFrom(input, L, from);
            (r == 0 && forall q :: from <= q < |input| ==> !MarkerEndsAt(input, L, q)) ||
            (from <= r < |input| && MarkerEndsAt(input, L, r) &&
             forall q :: from <= q < r ==> !MarkerEndsAt(input, L, q))
  {
    FirstMarkerFromFound(input, L, from);
    FirstMarkerFromNone(input, L, from);
  }

  /** A reported position is reportable, and no earlier one is. */
  lemma {:induction false} FirstMarkerFromFound(input: string, L: nat, from: nat)
    ensures var r := FirstMarkerFrom(input, L, from);
            from <= r < |input| && MarkerEndsAt(input, L, r) ==>
              forall q :: from <= q < r ==> !MarkerEndsAt(input, L, q)
    ensures var r := FirstMarkerFrom(input, L, from);
            r != 0 ==> from <= r < |input| && MarkerEndsAt(input, L, r)
    decreases |input| - from
  {
    if from < |input| && !MarkerEndsAt(input, L, from) {
      FirstMarkerFromFound(input, L, from + 1);
    }
  }

  /** When nothing is reported, no position from `from` on is reportable,
      unless the answer is `from` = 0 itself. */
  lemma {:induction false} FirstMarkerFromNone(input: string, L: nat, from: nat)
    ensures FirstMarkerFrom(input, L, from) == 0 ==>
              (from == 0 < |input| && MarkerEndsAt(input, L, 0)) ||
              forall q :: from <= q < |input| ==> !MarkerEndsAt(input, L, q)
    decreases |input| - from
  {
    if from < |input| && !MarkerEndsAt(input, L, from) {
      FirstMarkerFromNone(input, L, from + 1);
    }
  }

  /** The search from `from` agrees with the search from the start when no
      earlier position has a marker. */
  lemma {:induction false} FirstMarkerSkips(input: string, L: nat, from: nat)
    requires from <= |input|
    requires forall q :: 0 <= q < from ==> !MarkerEndsAt(input, L, q)
    ensures FirstMarkerFrom(input, L, 0) == FirstMarkerFrom(input, L, from)
    decreases from
  {
    if from > 0 {
      FirstMarkerSkips(input, L, from - 1);
      assert !MarkerEndsAt(input, L, from - 1);
      assert FirstMarkerFrom(input, L, from - 1) == FirstMarkerFrom(input, L, from);
    }
  }

  /** `find_position(|&new_char| c == new_char)`: the first index of `c`. */
  function Position(s: seq<char>, c: char): (r: Option<nat>)
    ensures r.Some? ==> r.value < |s| && s[r.value] == c && forall k :: 0 <= k < r.value ==> s[k] != c
    ensures r.None? ==> forall k :: 0 <= k < |s| ==> s[k] != c
  {
    if |s| == 0 then None
    else if s[0] == c then Some(0)
    else match Position(s[1..], c)
      case None => None
      case Some(p) => Some(p + 1)
  }

  /** `unique_since` is the start of the longest run of different
      characters that ends at position `i`. */
  ghost predicate LongestDistinctSuffix(input: string, u: nat, i: nat)
  {
    u <= i <= |input| && RunDistinct(input, u, i) &&
    forall v :: 0 <= v < u ==> !RunDistinct(input, v, i)
  }

  /** The update of `unique_since` when character `i` is read: past the
      earlier copy of it in the current run, if there is one. */
  function Advance(input: string, u: nat, i: nat): nat
    requires u <= i < |input|
  {
    match Position(input[u..i], input[i])
    case None => u
    case Some(p) => u + p + 1
  }

  /** A run that repeats a character stays non-distinct when extended by
      one character. */
  lemma NotDistinctExtends(input: string, v: nat, i: nat)
    requires v <= i < |input| && !RunDistinct(input, v, i)
    ensures !RunDistinct(input, v, i + 1)
  {
    var a, b :| 0 <= a < b < i - v && input[v..i][a] == input[v..i][b];
    assert input[v..i + 1][a] == input[v..i + 1][b];
  }

  /** Reading a character keeps `unique_since` the start of the longest
      run of different characters, and never moves it back. */
  lemma AdvanceKeepsLongest(input: string, u: nat, i: nat)
    requires i < |input| && LongestDistinctSuffix(input, u, i)
    ensures u <= Advance(input, u, i) <= i + 1
    ensures LongestDistinctSuffix(input, Advance(input, u, i), i + 1)
  {
    var c := input[i];
    var w := input[u..i];
    var u' := Advance(input, u, i);
    var next := i + 1;
    forall v | 0 <= v < u
      ensures !RunDistinct(input, v, next)
    {
      NotDistinctExtends(input, v, i);
    }
    match Position(w, c)
    case None =>
      var x := input[u..i + 1];
      forall a, b | 0 <= a < b < |x|
        ensures x[a] != x[b]
      {
        if b == i - u {
          assert x[a] == w[a];
        } else {
          assert x[a] == w[a] && x[b] == w[b];
        }
      }
    case Some(p) =>
      assert u' == u + p + 1;
      var x := input[u'..i + 1];
      forall a, b | 0 <= a < b < |x|
        ensures x[a] != x[b]
      {
        assert x[a] == w[p + 1 + a];
        if b < i - u' {
          assert x[b] == w[p + 1 + b];
        } else {
          assert w[p] == c && w[p] != w[p + 1 + a];
        }
      }
      forall v | u <= v < u'
        ensures !RunDistinct(input, v, next)
      {
        var y := input[v..i + 1];
        assert y[u + p - v] == w[p] == c;
        assert y[i - v] == c;
      }
  }

  /** The scan of `part1` and `part2` with window length `L`: the least
      position before the end of the input at which the `L` characters
      before it are all different, or 0 when there is none. */
  method FindMarker(input: string, L: nat) returns (r: nat)
    ensures r == FirstMarker(input, L)
    ensures r > 0 ==> r < |input| && MarkerEndsAt(input, L, r)
    ensures r > 0 ==> forall q :: 0 <= q < r ==> !MarkerEndsAt(input, L, q)
    ensures r == 0 ==> L == 0 || forall q :: 0 <= q < |input| ==> !MarkerEndsAt(input, L, q)
  {
    var u := 0;
    var i := 0;
    while i < |input|
      invariant 0 <= u <= i <= |input|
      invariant i - u <= L
      invariant LongestDistinctSuffix(input, u, i)
      invariant forall q :: 0 <= q < i ==> !MarkerEndsAt(input, L, q)
    {
      if i - u == L {
        FirstMarkerSkips(input, L, i);
        assert MarkerEndsAt(input, L, i);
        return i;
      }
      if L <= i {
        assert !RunDistinct(input, i - L, i);
      }
      var found := Position(input[u..i], input[i]);
      AdvanceKeepsLongest(input, u, i);
      if found.Some? {
        u := u + found.value + 1;
      }
      i := i + 1;
    }
    FirstMarkerSkips(input, L, i);
    return 0;
  }

  /** `part1`: a start-of-packet marker is four different characters. */
  method PartOne(input: string) returns (r: nat)
    ensures r == FirstMarker(input, 4)
  {
    r := FindMarker(input, 4);
  }

  /** `part2`: a start-of-message marker is fourteen different characters. */
  method PartTwo(input: string) returns (r: nat)
    ensures r == FirstMarker(input, 14)
  {
    r := FindMarker(input, 14);
  }

  // ---------------------------------------------------------------------
  // Examples
  // ---------------------------------------------------------------------

  /** A marker that completes exactly at the end of the input is not
      reported: "abcd" gives 0 although its four characters differ. */
  lemma EndMarkerNotReported()
    ensures MarkerEndsAt("abcd", 4, 4)
    ensures FirstMarker("abcd", 4) == 0
  {
    assert "abcd"[0..4] == "abcd";
    forall q | 0 <= q < 4
      ensures !MarkerEndsAt("abcd", 4, q)
    {
    }
    FirstMarkerSkips("abcd", 4, 4);
  }

  /** Two equal characters in the window before `q`: no marker ends there. */
  lemma RepeatInWindow(input: string, L: nat, q: nat, a: nat, b: nat)
    requires L <= q <= |input| && a < b < L && input[q - L + a] == input[q - L + b]
    ensures !MarkerEndsAt(input, L, q)
  {
    assert input[q - L..q][a] == input[q - L + a];
    assert input[q - L..q][b] == input[q - L + b];
  }

  /** Four different characters before `r`: a start-of-packet marker. */
  lemma FourDifferent(input: string, r: nat)
    requires 4 <= r <= |input|
    requires var a, b, c, d := input[r - 4], input[r - 3], input[r - 2], input[r - 1];
             a != b && a != c && a != d && b != c && b != d && c != d
    ensures MarkerEndsAt(input, 4, r)
  {
    var w := input[r - 4..r];
    assert w == [input[r - 4], input[r - 3], input[r - 2], input[r - 1]];
  }

  /** The least position is found once the earlier ones are ruled out. */
  lemma FirstMarkerAt(input: string, L: nat, r: nat)
    requires r < |input| && MarkerEndsAt(input, L, r)
    requires forall q :: L <= q < r ==> !MarkerEndsAt(input, L, q)
    ensures FirstMarker(input, L) == r
  {
    FirstMarkerSkips(input, L, r);
  }

  /** The four streams of the part 1 test: markers after 7, 5, 6 and 10
      characters. Each answer depends only on the stream's first characters,
      so it is proved for every longer stream that starts the same way. */
  lemma StartsLikeOne(s: string)
    requires |s| > 7 && s[..8] == "mjqjpqmg"
    ensures FirstMarker(s, 4) == 7
  {
    var p := "mjqjpqmg";
    assert forall i :: 0 <= i < 8 ==> s[i] == p[i];
    forall q | 4 <= q < 7
      ensures !MarkerEndsAt(s, 4, q)
    {
      if q == 4 {
        RepeatInWindow(s, 4, 4, 1, 3);
      } else if q == 5 {
        RepeatInWindow(s, 4, 5, 0, 2);
      } else {
        RepeatInWindow(s, 4, 6, 0, 3);
      }
    }
    FourDifferent(s, 7);
    FirstMarkerAt(s, 4, 7);
  }

  lemma StartsLikeTwo(s: string)
    requires |s| > 5 && s[..6] == "bvwbjp"
    ensures FirstMarker(s, 4) == 5
  {
    var p := "bvwbjp";
    assert forall i :: 0 <= i < 6 ==> s[i] == p[i];
    RepeatInWindow(s, 4, 4, 0, 3);
    FourDifferent(s, 5);
    FirstMarkerAt(s, 4, 5);
  }

  lemma StartsLikeThree(s: string)
    requires |s| > 6 && s[..7] == "nppdvjt"
    ensures FirstMarker(s, 4) == 6
  {
    var p := "nppdvjt";
    assert forall i :: 0 <= i < 7 ==> s[i] == p[i];
    forall q | 4 <= q < 6
      ensures !MarkerEndsAt(s, 4, q)
    {
      if q == 4 {
        RepeatInWindow(s, 4, 4, 1, 2);
      } else {
        RepeatInWindow(s, 4, 5, 0, 1);
      }
    }
    FourDifferent(s, 6);
    FirstMarkerAt(s, 4, 6);
  }

  lemma StartsLikeFour(s: string)
    requires |s| > 10 && s[..11] == "nznrnfrfntj"
    ensures FirstMarker(s, 4) == 10
  {
    var p := "nznrnfrfntj";
    assert forall i :: 0 <= i < 11 ==> s[i] == p[i];
    forall q | 4 <= q < 10
      ensures !MarkerEndsAt(s, 4, q)
    {
      if q == 4 {
        RepeatInWindow(s, 4, 4, 0, 2);
      } else if q == 5 {
        RepeatInWindow(s, 4, 5, 1, 3);
      } else if q == 6 {
        RepeatInWindow(s, 4, 6, 0, 2);
      } else if q == 7 {
        RepeatInWindow(s, 4, 7, 0, 3);
      } else if q == 8 {
        RepeatInWindow(s, 4, 8, 1, 3);
      } else {
        RepeatInWindow(s, 4, 9, 0, 2);
      }
    }
    FourDifferent(s, 10);
    FirstMarkerAt(s, 4, 10);
  }

  const Stream1: string := "mjqjpqmgbljsphdztnvjfqwrcgsmlb"
  const Stream2: string := "bvwbjplbgvbhsrlpgdmjqwftvncz"
  const Stream3: string := "nppdvjthqldpwncqszvftbrmjlhg"
  const Stream4: string := "nznrnfrfntjfmvfwmzdfjlvtqnbhcprsg"

  lemma ExampleStreams()
    ensures FirstMarker(Stream1, 4) == 7
    ensures FirstMarker(Stream2, 4) == 5
    ensures FirstMarker(Stream3, 4) == 6
    ensures FirstMarker(Stream4, 4) == 10
  {
    assert Stream1[..8] == "mjqjpqmg";
    StartsLikeOne(Stream1);
    assert Stream2[..6] == "bvwbjp";
    StartsLikeTwo(Stream2);
    assert Stream3[..7] == "nppdvjt";
    StartsLikeThree(Stream3);
    assert Stream4[..11] == "nznrnfrfntj";
    StartsLikeFour(Stream4);
  }
}
