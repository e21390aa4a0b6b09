/** The slice of Rust's `str` API the solvers lean on: `split` on a pattern,
    `split_terminator`, `lines`, `split_ascii_whitespace`, and
    `parse::<u32>`. Strings are sequences of `char`; the inputs are ASCII,
    so a byte index and a character index coincide. */
module Text {
  import opened Results

  /** The largest `u32`. */
  const U32Max: nat := 0xFFFF_FFFF

  // ---------------------------------------------------------------------
  // Searching and splitting
  // ---------------------------------------------------------------------

  /** `pat` occurs in `s` starting at position `k`. */
  predicate OccursAt(s: string, pat: string, k: nat)
  {
    k + |pat| <= |s| && s[k..k + |pat|] == pat
  }

  /** `pat` occurs nowhere in `s`. */
  ghost predicate Free(s: string, pat: string)
  {
    forall k: nat :: !OccursAt(s, pat, k)
  }

  /** The first position at or after `from` where `pat` occurs. */
  function IndexFrom(s: string, pat: string, from: nat): (r: Option<nat>)
    requires |pat| > 0
    ensures r.Some? ==> from <= r.value && OccursAt(s, pat, r.value)
    decreases |s| - from
  {
    if from + |pat| > |s| then None
    else if s[from..from + |pat|] == pat then Some(from)
    else IndexFrom(s, pat, from + 1)
  }

  /** The position found is the first one from `from` on; none is found
      only when `pat` occurs nowhere from `from` on. */
  lemma {:induction false} IndexFromLeast(s: string, pat: string, from: nat)
    requires |pat| > 0
    ensures var r := IndexFrom(s, pat, from);
            (r.Some? ==> forall j: nat :: from <= j < r.value ==> !OccursAt(s, pat, j)) &&
            (r.None? ==> forall j: nat :: from <= j ==> !OccursAt(s, pat, j))
    decreases |s| - from
  {
    if from + |pat| <= |s| && s[from..from + |pat|] != pat {
      IndexFromLeast(s, pat, from + 1);
    }
  }

  /** The first position where `pat` occurs. */
  function IndexOf(s: string, pat: string): (r: Option<nat>)
    requires |pat| > 0
    ensures r.Some? ==> OccursAt(s, pat, r.value)
  {
    IndexFrom(s, pat, 0)
  }

  /** `IndexOf` finds the leftmost occurrence, and finds none exactly when
      `pat` occurs nowhere. */
  lemma IndexOfLeftmost(s: string, pat: string)
    requires |pat| > 0
    ensures IndexOf(s, pat).Some? ==> forall j: nat :: j < IndexOf(s, pat).value ==> !OccursAt(s, pat, j)
    ensures IndexOf(s, pat).None? <==> Free(s, pat)
  {
    IndexFromLeast(s, pat, 0);
  }

  /** `str::split` with a non-empty pattern: the pieces between the
      non-overlapping occurrences of `pat`, found left to right. There is
      always at least one piece. */
  function Split(s: string, pat: string): (r: seq<string>)
    requires |pat| > 0
    ensures |r| >= 1
    decreases |s|
  {
    match IndexOf(s, pat)
    case None => [s]
    case Some(k) => [s[..k]] + Split(s[k + |pat|..], pat)
  }

  /** Glue pieces back together with `pat` between consecutive ones. */
  function Join(pieces: seq<string>, pat: string): string
  {
    if |pieces| == 0 then ""
    else if |pieces| == 1 then pieces[0]
    else pieces[0] + pat + Join(pieces[1..], pat)
  }

  lemma PrefixBeforeFirstIsFree(s: string, pat: string, k: nat)
    requires |pat| > 0 && k <= |s|
    requires forall j: nat :: j < k ==> !OccursAt(s, pat, j)
    ensures Free(s[..k], pat)
  {
    forall j: nat | OccursAt(s[..k], pat, j)
      ensures false
    {
      assert s[..k][j..j + |pat|] == s[j..j + |pat|];
      assert OccursAt(s, pat, j);
    }
  }

  /** Splitting loses nothing and every piece is free of the pattern:
      joining the pieces with the pattern gives back the input. */
  lemma SplitJoin(s: string, pat: string)
    requires |pat| > 0
    ensures Join(Split(s, pat), pat) == s
    ensures forall i :: 0 <= i < |Split(s, pat)| ==> Free(Split(s, pat)[i], pat)
  {
    SplitRejoins(s, pat);
    SplitPiecesFree(s, pat);
  }

  lemma {:induction false} SplitRejoins(s: string, pat: string)
    requires |pat| > 0
    ensures Join(Split(s, pat), pat) == s
    decreases |s|
  {
    match IndexOf(s, pat)
    case None =>
      assert Split(s, pat) == [s];
    case Some(k) =>
      var rest := s[k + |pat|..];
      SplitRejoins(rest, pat);
      SplitStep(s, pat, k);
      JoinCons(s[..k], Split(rest, pat), pat);
      SplitAround(s, pat, k);
  }

  /** Where the first occurrence is at `k`, the first piece ends at `k`
      and the rest is split after the pattern. */
  lemma SplitStep(s: string, pat: string, k: nat)
    requires |pat| > 0 && IndexOf(s, pat) == Some(k)
    ensures Split(s, pat) == [s[..k]] + Split(s[k + |pat|..], pat)
  {
  }

  /** Joining a piece in front of a non-empty list puts the pattern
      between them. */
  lemma JoinCons(head: string, tail: seq<string>, pat: string)
    requires |tail| > 0
    ensures Join([head] + tail, pat) == head + pat + Join(tail, pat)
  {
    assert ([head] + tail)[1..] == tail;
  }

  /** A string is what comes before an occurrence, the occurrence, and
      what comes after it. */
  lemma SplitAround(s: string, pat: string, k: nat)
    requires OccursAt(s, pat, k)
    ensures s == s[..k] + pat + s[k + |pat|..]
  {
    assert s == s[..k] + s[k..k + |pat|] + s[k + |pat|..];
  }

  lemma {:induction false} SplitPiecesFree(s: string, pat: string)
    requires |pat| > 0
    ensures forall i :: 0 <= i < |Split(s, pat)| ==> Free(Split(s, pat)[i], pat)
    decreases |s|
  {
    IndexOfLeftmost(s, pat);
    match IndexOf(s, pat)
    case None =>
    case Some(k) =>
      var rest := s[k + |pat|..];
      SplitPiecesFree(rest, pat);
      PrefixBeforeFirstIsFree(s, pat, k);
      var tail := Split(rest, pat);
      assert Split(s, pat) == [s[..k]] + tail;
      forall i | 0 <= i < |Split(s, pat)|
        ensures Free(Split(s, pat)[i], pat)
      {
        if i > 0 {
          assert Split(s, pat)[i] == tail[i - 1];
        }
      }
  }

  /** `str::split_terminator`: `split`, minus a trailing empty piece. */
  function SplitTerminator(s: string, pat: string): (r: seq<string>)
    requires |pat| > 0
    ensures |r| <= |Split(s, pat)|
    ensures r == Split(s, pat) || r + [""] == Split(s, pat)
  {
    var pieces := Split(s, pat);
    if pieces[|pieces| - 1] == "" then pieces[..|pieces| - 1] else pieces
  }

  /** `str::lines`, for input whose line ends are plain '\n'. No line
      holds a line break. */
  function Lines(s: string): (r: seq<string>)
    ensures forall i :: 0 <= i < |r| ==> '\n' !in r[i]
  {
    LinesPlain(s);
    SplitTerminator(s, "\n")
  }

  /** The pieces `split_terminator` cuts at line breaks hold none. */
  lemma LinesPlain(s: string)
    ensures var r := SplitTerminator(s, "\n");
            forall i :: 0 <= i < |r| ==> '\n' !in r[i]
  {
    SplitPiecesFree(s, "\n");
    var pieces := Split(s, "\n");
    var r := SplitTerminator(s, "\n");
    forall i | 0 <= i < |r|
      ensures '\n' !in r[i]
    {
      var p := pieces[i];
      assert r[i] == p;
      if '\n' in p {
        var k :| 0 <= k < |p| && p[k] == '\n';
        assert p[k..k + 1] == "\n";
        assert OccursAt(p, "\n", k);
      }
    }
  }

  /** `split_terminator` also loses nothing: the pieces glue back to the
      input, with the terminator restored when a trailing empty piece was
      dropped. */
  lemma SplitTerminatorJoin(s: string, pat: string)
    requires |pat| > 0
    ensures var r := SplitTerminator(s, pat);
            Join(r, pat) == s || (|r| > 0 && Join(r, pat) + pat == s) || (r == [] && s == "")
  {
    SplitJoin(s, pat);
    var pieces := Split(s, pat);
    var r := SplitTerminator(s, pat);
    if pieces[|pieces| - 1] == "" && |pieces| > 1 {
      assert pieces == r + [""];
      JoinAppend(r, "", pat);
    }
  }

  lemma {:induction false} JoinAppend(r: seq<string>, x: string, pat: string)
    requires |r| > 0
    ensures Join(r + [x], pat) == Join(r, pat) + pat + x
  {
    if |r| == 1 {
      assert r + [x] == [r[0], x];
      assert Join([x], pat) == x;
    } else {
      assert (r + [x])[1..] == r[1..] + [x];
      JoinAppend(r[1..], x, pat);
    }
  }

  /** No occurrence of `pat` begins inside `p`, even when `pat` follows it. */
  ghost predicate Separable(p: string, pat: string)
  {
    forall j: nat :: j < |p| ==> !OccursAt(p + pat, pat, j)
  }

  /** Splitting undoes joining when no piece hides the pattern. */
  lemma {:induction false} SplitOfJoin(ps: seq<string>, pat: string)
    requires |ps| > 0 && |pat| > 0
    requires forall i :: 0 <= i < |ps| ==> Separable(ps[i], pat)
    ensures Split(Join(ps, pat), pat) == ps
    decreases |ps|
  {
    var p := ps[0];
    assert Separable(p, pat);
    if |ps| == 1 {
      SplitAlone(p, pat);
    } else {
      var tail := ps[1..];
      assert forall i :: 0 <= i < |tail| ==> tail[i] == ps[i + 1];
      SplitOfJoin(tail, pat);
      JoinCons(p, tail, pat);
      assert ps == [p] + tail;
      SplitFirstPiece(p, pat, Join(tail, pat));
    }
  }

  /** A piece that hides no pattern is split into itself. */
  lemma SplitAlone(p: string, pat: string)
    requires |pat| > 0 && Separable(p, pat)
    ensures Split(p, pat) == [p]
  {
    forall j: nat
      ensures !OccursAt(p, pat, j)
    {
      if j + |pat| <= |p| {
        assert (p + pat)[j..j + |pat|] == p[j..j + |pat|];
        assert !OccursAt(p + pat, pat, j);
      }
    }
    IndexOfLeftmost(p, pat);
  }

  /** A piece that hides no pattern, then the pattern, then anything: the
      piece comes off first and the rest is split on its own. */
  lemma SplitFirstPiece(p: string, pat: string, rest: string)
    requires |pat| > 0 && Separable(p, pat)
    ensures Split(p + pat + rest, pat) == [p] + Split(rest, pat)
  {
    var s := p + pat + rest;
    FirstPieceIndex(p, pat, rest);
    SplitStep(s, pat, |p|);
    assert s[..|p|] == p;
    assert s[|p| + |pat|..] == rest;
  }

  /** ... and the pattern right after the piece is the first occurrence. */
  lemma FirstPieceIndex(p: string, pat: string, rest: string)
    requires |pat| > 0 && Separable(p, pat)
    ensures IndexOf(p + pat + rest, pat) == Some(|p|)
  {
    var s := p + pat + rest;
    forall j: nat | j < |p|
      ensures !OccursAt(s, pat, j)
    {
      assert s[j..j + |pat|] == (p + pat)[j..j + |pat|];
      assert !OccursAt(p + pat, pat, j);
    }
    assert s[|p|..|p| + |pat|] == pat;
    assert OccursAt(s, pat, |p|);
    IndexOfLeftmost(s, pat);
    var r := IndexOf(s, pat);
    assert !Free(s, pat);
    assert r.Some? && !(r.value < |p|) && !(|p| < r.value);
  }

  /** Splitting on a single character undoes joining with it when no
      piece contains that character. */
  lemma SplitOfCharJoin(ps: seq<string>, c: char)
    requires |ps| > 0
    requires forall i :: 0 <= i < |ps| ==> c !in ps[i]
    ensures Split(Join(ps, [c]), [c]) == ps
  {
    forall i | 0 <= i < |ps|
      ensures Separable(ps[i], [c])
    {
      var p := ps[i];
      forall j: nat | j < |p|
        ensures !OccursAt(p + [c], [c], j)
      {
        assert (p + [c])[j..j + 1] == [p[j]];
      }
    }
    SplitOfJoin(ps, [c]);
  }

  /** Splitting a text made of lines joined by line breaks gives the lines
      back; `lines` also gives them back, except for a last line that is
      empty, which it drops. */
  lemma LinesOfJoin(ls: seq<string>)
    requires |ls| > 0
    requires forall i, j :: 0 <= i < |ls| && 0 <= j < |ls[i]| ==> ls[i][j] != '\n'
    ensures Split(Join(ls, "\n"), "\n") == ls
    ensures |ls[|ls| - 1]| > 0 ==> Lines(Join(ls, "\n")) == ls
    ensures |ls[|ls| - 1]| == 0 ==> Lines(Join(ls, "\n")) == ls[..|ls| - 1]
  {
    assert forall i :: 0 <= i < |ls| ==> '\n' !in ls[i];
    assert "\n" == ['\n'];
    SplitOfCharJoin(ls, '\n');
    assert Lines(Join(ls, "\n")) == SplitTerminator(Join(ls, "\n"), "\n");
  }

  /** Six lines joined by line breaks. */
  lemma JoinSix(a: string, b: string, c: string, d: string, e: string, f: string)
    ensures Join([a, b, c, d, e, f], "\n") == a + "\n" + b + "\n" + c + "\n" + d + "\n" + e + "\n" + f
  {
    assert Join([e, f], "\n") == e + "\n" + f;
    assert Join([d, e, f], "\n") == d + "\n" + (e + "\n" + f);
    assert Join([c, d, e, f], "\n") == c + "\n" + (d + "\n" + (e + "\n" + f));
    assert Join([b, c, d, e, f], "\n") == b + "\n" + (c + "\n" + (d + "\n" + (e + "\n" + f)));
    assert [a, b, c, d, e, f][1..] == [b, c, d, e, f];
  }

  /** Six newline-free lines, the last one non-empty, read back as
      themselves. */
  lemma SixLines(l1: string, l2: string, l3: string, l4: string, l5: string, l6: string)
    requires '\n' !in l1 && '\n' !in l2 && '\n' !in l3 && '\n' !in l4 && '\n' !in l5 && '\n' !in l6
    requires |l6| > 0
    ensures Lines(l1 + "\n" + l2 + "\n" + l3 + "\n" + l4 + "\n" + l5 + "\n" + l6)
            == [l1] + [l2] + [l3] + [l4] + [l5] + [l6]
  {
    var ls := [l1, l2, l3, l4, l5, l6];
    assert [l1] + [l2] + [l3] + [l4] + [l5] + [l6] == ls;
    JoinSix(l1, l2, l3, l4, l5, l6);
    forall i, j | 0 <= i < |ls| && 0 <= j < |ls[i]|
      ensures ls[i][j] != '\n'
    {
      assert ls[i][j] in ls[i];
    }
    LinesOfJoin(ls);
  }

  /** Non-empty lines joined by line breaks never hold two line breaks in
      a row, nor end with one: a blank line cannot be found inside. */
  lemma {:induction false} JoinedLinesSeparable(ls: seq<string>)
    requires |ls| > 0
    requires forall i :: 0 <= i < |ls| ==> |ls[i]| > 0 && '\n' !in ls[i]
    ensures Separable(Join(ls, "\n"), "\n\n")
  {
    var s := Join(ls, "\n");
    JoinedLinesShape(ls);
    forall j: nat | j < |s|
      ensures !OccursAt(s + "\n\n", "\n\n", j)
    {
      var t := s + "\n\n";
      assert t[j..j + 2] == [t[j], t[j + 1]];
    }
  }

  /** In non-empty lines joined by line breaks, every line break is
      followed by a character that is not one, and the text does not end
      with one. */
  lemma {:induction false} JoinedLinesShape(ls: seq<string>)
    requires |ls| > 0
    requires forall i :: 0 <= i < |ls| ==> |ls[i]| > 0 && '\n' !in ls[i]
    ensures var s := Join(ls, "\n");
            |s| > 0 && s[|s| - 1] != '\n' && s[0] != '\n' &&
            forall j :: 0 <= j < |s| && s[j] == '\n' ==> j + 1 < |s| && s[j + 1] != '\n'
  {
    var l := ls[0];
    assert l[0] in l && l[|l| - 1] in l;
    if |ls| > 1 {
      var rest := Join(ls[1..], "\n");
      JoinedLinesShape(ls[1..]);
      var s := l + "\n" + rest;
      assert Join(ls, "\n") == s;
      forall j | 0 <= j < |l|
        ensures s[j] != '\n'
      {
        assert s[j] == l[j];
        assert l[j] in l;
      }
      forall j | 0 <= j < |s| && s[j] == '\n'
        ensures j + 1 < |s| && s[j + 1] != '\n'
      {
        if j > |l| {
          assert s[j] == rest[j - |l| - 1];
          assert s[j + 1] == rest[j - |l|];
        }
      }
    }
  }

  /** Two blocks of non-empty lines separated by a blank line split apart
      at it. */
  lemma SplitAtBlankLine(top: seq<string>, bottom: seq<string>)
    requires |top| > 0 && |bottom| > 0
    requires forall i :: 0 <= i < |top| ==> |top[i]| > 0 && '\n' !in top[i]
    requires forall i :: 0 <= i < |bottom| ==> |bottom[i]| > 0 && '\n' !in bottom[i]
    ensures Split(Join(top, "\n") + "\n\n" + Join(bottom, "\n"), "\n\n")
            == [Join(top, "\n"), Join(bottom, "\n")]
  {
    var a, b := Join(top, "\n"), Join(bottom, "\n");
    JoinedLinesSeparable(top);
    JoinedLinesSeparable(bottom);
    assert Join([a, b], "\n\n") == a + "\n\n" + b;
    SplitOfJoin([a, b], "\n\n");
  }

  // ---------------------------------------------------------------------
  // Whitespace-separated tokens
  // ---------------------------------------------------------------------

  /** `u8::is_ascii_whitespace`: space, tab, line feed, form feed, carriage return. */
  predicate IsAsciiWhitespace(c: char)
  {
    c == ' ' || c == '\t' || c == '\n' || c == '\U{C}' || c == '\r'
  }

  /** `char::is_whitespace`: the Unicode White_Space property. */
  predicate IsWhitespace(c: char)
  {
    ('\t' <= c <= '\r') || c == ' ' || c == '\U{85}' || c == '\U{A0}' || c == '\U{1680}'
    || ('\U{2000}' <= c <= '\U{200A}') || c == '\U{2028}' || c == '\U{2029}' || c == '\U{202F}'
    || c == '\U{205F}' || c == '\U{3000}'
  }

  /** The length of the run of non-whitespace characters that starts `s`. */
  function WordLength(s: string): (n: nat)
    ensures n <= |s|
  {
    if |s| == 0 || IsAsciiWhitespace(s[0]) then 0 else 1 + WordLength(s[1..])
  }

  /** The word found has no whitespace and ends at whitespace or at the
      end of the text. */
  lemma {:induction false} WordLengthSpan(s: string)
    ensures var n := WordLength(s);
            NoWhitespace(s[..n]) && (n < |s| ==> IsAsciiWhitespace(s[n]))
    decreases |s|
  {
    if |s| > 0 && !IsAsciiWhitespace(s[0]) {
      WordLengthSpan(s[1..]);
      var n := WordLength(s);
      assert forall i :: 1 <= i < n ==> s[..n][i] == s[1..][..n - 1][i - 1];
    }
  }

  predicate NoWhitespace(w: string)
  {
    forall i :: 0 <= i < |w| ==> !IsAsciiWhitespace(w[i])
  }

  lemma {:induction false} WordLengthOfWord(w: string, rest: string)
    requires NoWhitespace(w)
    ensures WordLength(w + rest) == |w| + WordLength(rest)
  {
    if |w| > 0 {
      assert (w + rest)[1..] == w[1..] + rest;
      WordLengthOfWord(w[1..], rest);
    } else {
      assert w + rest == rest;
    }
  }

  /** `str::split_ascii_whitespace`: the maximal runs of non-whitespace
      characters, in order; no token is empty. */
  function Tokens(s: string): (r: seq<string>)
    ensures |r| <= |s|
    decreases |s|
  {
    if |s| == 0 then []
    else if IsAsciiWhitespace(s[0]) then Tokens(s[1..])
    else
      var n := WordLength(s);
      [s[..n]] + Tokens(s[n..])
  }

  /** There are no tokens exactly when the text is all whitespace. */
  lemma {:induction false} TokensNone(s: string)
    ensures Tokens(s) == [] <==> forall i :: 0 <= i < |s| ==> IsAsciiWhitespace(s[i])
    decreases |s|
  {
    if |s| > 0 {
      if IsAsciiWhitespace(s[0]) {
        TokensNone(s[1..]);
        assert forall i :: 1 <= i < |s| ==> s[i] == s[1..][i - 1];
      }
    }
  }

  /** Every token is a non-empty word without whitespace. */
  lemma {:induction false} TokensAreWords(s: string)
    ensures forall i :: 0 <= i < |Tokens(s)| ==> |Tokens(s)[i]| > 0 && NoWhitespace(Tokens(s)[i])
    decreases |s|
  {
    if |s| > 0 {
      if IsAsciiWhitespace(s[0]) {
        TokensAreWords(s[1..]);
      } else {
        var n := WordLength(s);
        WordLengthSpan(s);
        TokensAreWords(s[n..]);
        var r := Tokens(s);
        assert r == [s[..n]] + Tokens(s[n..]);
        forall i | 0 <= i < |r|
          ensures |r[i]| > 0 && NoWhitespace(r[i])
        {
          if i > 0 {
            assert r[i] == Tokens(s[n..])[i - 1];
          }
        }
      }
    }
  }

  lemma TokensOfWord(w: string)
    requires |w| > 0 && NoWhitespace(w)
    ensures Tokens(w) == [w]
  {
    WordLengthOfWord(w, "");
    assert w + "" == w;
    assert w[..|w|] == w;
  }

  /** Two words separated by one space are two tokens. */
  lemma TokensOfPair(a: string, b: string)
    requires |a| > 0 && |b| > 0 && NoWhitespace(a) && NoWhitespace(b)
    ensures Tokens(a + " " + b) == [a, b]
  {
    var s := a + " " + b;
    var t := " " + b;
    assert s == a + t;
    WordLengthOfWord(a, t);
    assert WordLength(s) == |a|;
    assert s[0] == a[0];
    assert s[..|a|] == a;
    assert s[|a|..] == t;
    assert Tokens(s) == [a] + Tokens(t);
    assert t[1..] == b;
    assert IsAsciiWhitespace(t[0]) && Tokens(t) == Tokens(b);
    TokensOfWord(b);
  }

  predicate AllWhitespace(t: string)
  {
    forall i :: 0 <= i < |t| ==> IsAsciiWhitespace(t[i])
  }

  lemma {:induction false} TokensOfWhitespace(t: string)
    requires AllWhitespace(t)
    ensures Tokens(t) == []
    decreases |t|
  {
    if |t| > 0 {
      TokensOfWhitespace(t[1..]);
    }
  }

  /** Text that ends in whitespace splits apart from what follows it. */
  lemma {:induction false} TokensAppend(x: string, y: string)
    requires |x| == 0 || IsAsciiWhitespace(x[|x| - 1])
    ensures Tokens(x + y) == Tokens(x) + Tokens(y)
    decreases |x|
  {
    if |x| == 0 {
      assert x + y == y;
    } else if IsAsciiWhitespace(x[0]) {
      assert (x + y)[1..] == x[1..] + y;
      TokensAppend(x[1..], y);
    } else {
      var n := WordLength(x);
      WordLengthSpan(x);
      WordLengthWithin(x, y);
      assert (x + y)[..n] == x[..n];
      assert (x + y)[n..] == x[n..] + y;
      TokensAppend(x[n..], y);
    }
  }

  /** A word that stops inside `x` stops at the same place whatever follows. */
  lemma {:induction false} WordLengthWithin(x: string, y: string)
    requires WordLength(x) < |x|
    ensures WordLength(x + y) == WordLength(x)
    decreases |x|
  {
    if !IsAsciiWhitespace(x[0]) {
      assert (x + y)[1..] == x[1..] + y;
      WordLengthWithin(x[1..], y);
    }
  }

  /** The last token of a line ending in a word and then only whitespace
      is that word. */
  lemma LastToken(x: string, w: string, t: string)
    requires |x| == 0 || IsAsciiWhitespace(x[|x| - 1])
    requires |w| > 0 && NoWhitespace(w) && AllWhitespace(t)
    ensures Tokens(x + w + t) == Tokens(x) + [w]
  {
    TokensAppend(x, w + t);
    assert x + w + t == x + (w + t);
    WordLengthOfWord(w, t);
    assert WordLength(t) == 0;
    assert (w + t)[..|w|] == w;
    assert (w + t)[|w|..] == t;
    TokensOfWhitespace(t);
  }

  // ---------------------------------------------------------------------
  // Decimal numbers
  // ---------------------------------------------------------------------

  predicate IsDigit(c: char)
  {
    '0' <= c <= '9'
  }

  predicate AllDigits(s: string)
  {
    forall i :: 0 <= i < |s| ==> IsDigit(s[i])
  }

  /** The value of a run of decimal digits, most significant first. */
  function DigitsValue(s: string): nat
    requires AllDigits(s)
  {
    if |s| == 0 then 0
    else DigitsValue(s[..|s| - 1]) * 10 + (s[|s| - 1] as int - '0' as int)
  }

  /** The digit character for `d`. */
  function DigitChar(d: nat): (c: char)
    requires d < 10
    ensures IsDigit(c) && c as int - '0' as int == d
  {
    ('0' as int + d) as char
  }

  /** The shortest decimal spelling of `n`, as `to_string` prints it. */
  function Decimal(n: nat): (r: string)
    ensures |r| > 0
  {
    if n < 10 then [DigitChar(n)] else Decimal(n / 10) + [DigitChar(n % 10)]
  }

  /** A printed number is made of digits only. */
  lemma {:induction false} DecimalDigits(n: nat)
    ensures AllDigits(Decimal(n))
  {
    if n >= 10 {
      DecimalDigits(n / 10);
    }
  }

  /** A digit character is its own decimal spelling. */
  lemma SingleDigit(n: nat)
    requires n < 10
    ensures Decimal(n) == [('0' as int + n) as char]
  {
  }

  /** Reading back a printed number gives the number. */
  lemma {:induction false} DecimalValue(n: nat)
    ensures AllDigits(Decimal(n)) && DigitsValue(Decimal(n)) == n
  {
    DecimalDigits(n);
    if n >= 10 {
      var p := Decimal(n / 10);
      var r := Decimal(n);
      assert r == p + [DigitChar(n % 10)];
      assert r[..|r| - 1] == p;
      DecimalValue(n / 10);
    }
  }

  /** `str::parse::<u32>`: an optional '+', then at least one ASCII digit,
      and a value that fits in 32 bits; anything else is an error. */
  function ParseU32(s: string): (r: Option<nat>)
    ensures r.Some? ==> r.value <= U32Max
    ensures r.Some? ==> 0 < |s| && (IsDigit(s[0]) || s[0] == '+')
    ensures r.Some? <==> var d := if 0 < |s| && s[0] == '+' then s[1..] else s;
                         0 < |d| && AllDigits(d) && DigitsValue(d) <= U32Max
  {
    var digits := if 0 < |s| && s[0] == '+' then s[1..] else s;
    if |digits| == 0 || !AllDigits(digits) then None
    else
      var v := DigitsValue(digits);
      if v <= U32Max then Some(v) else None
  }

  /** Every `u32` survives printing and parsing, and a printed number
      beyond `u32` does not parse. */
  lemma ParseDecimal(n: nat)
    ensures ParseU32(Decimal(n)) == if n <= U32Max then Some(n) else None
  {
    DecimalValue(n);
  }

  // ---------------------------------------------------------------------
  // Folds
  // ---------------------------------------------------------------------

  function Sum(xs: seq<nat>): nat
  {
    if |xs| == 0 then 0 else xs[0] + Sum(xs[1..])
  }
}
