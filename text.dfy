/** The handful of Python string operations the pipeline relies on:
    `str.strip()`, `str.split()`, `str.split(sep)`, `sep.join(parts)` and
    `str.replace(old, new)`, each with the law that pins down what it does. */
module Text {

  /** The characters Python's `str.isspace()` accepts; `str.strip()` and
      `str.split()` with no argument cut on exactly these. */
  predicate IsSpace(c: char) {
    || c == ' '
    || ('\t' <= c <= '\r')
    || ('\U{1C}' <= c <= '\U{1F}')
    || c == '\U{85}' || c == '\U{A0}' || c == '\U{1680}'
    || ('\U{2000}' <= c <= '\U{200A}')
    || c == '\U{2028}' || c == '\U{2029}' || c == '\U{202F}'
    || c == '\U{205F}' || c == '\U{3000}'
  }

  predicate NoSpace(s: string) {
    forall k :: 0 <= k < |s| ==> !IsSpace(s[k])
  }

  predicate AllSpace(s: string) {
    forall k :: 0 <= k < |s| ==> IsSpace(s[k])
  }

  /** Where the run of whitespace starting at `i` ends. */
  function SpaceRunEnd(s: string, i: nat): (n: nat)
    requires i <= |s|
    ensures i <= n <= |s|
    ensures forall k :: i <= k < n ==> IsSpace(s[k])
    ensures n < |s| ==> !IsSpace(s[n])
    decreases |s| - i
  {
    if i < |s| && IsSpace(s[i]) then SpaceRunEnd(s, i + 1) else i
  }

  /** Where the run of whitespace ending at `j` starts, not going below
      `lo`. */
  function SpaceRunStart(s: string, lo: nat, j: nat): (n: nat)
    requires lo <= j <= |s|
    ensures lo <= n <= j
    ensures forall k :: n <= k < j ==> IsSpace(s[k])
    ensures n > lo ==> !IsSpace(s[n - 1])
    decreases j
  {
    if j > lo && IsSpace(s[j - 1]) then SpaceRunStart(s, lo, j - 1) else j
  }

  /** The number of leading whitespace characters. */
  function LeadingSpace(s: string): (n: nat)
    ensures n <= |s|
  {
    SpaceRunEnd(s, 0)
  }

  /** `str.lstrip()`: the suffix left after the leading whitespace. */
  function TrimStart(s: string): (r: string)
    ensures |r| <= |s| && r == s[|s| - |r|..] && |s| - |r| == LeadingSpace(s)
    ensures forall k :: 0 <= k < |s| - |r| ==> IsSpace(s[k])
    ensures r == [] || !IsSpace(r[0])
  {
    s[SpaceRunEnd(s, 0)..]
  }

  /** `str.strip()`: `s` is whitespace, then `r`, then whitespace, and `r`
      neither starts nor ends with whitespace. */
  function Strip(s: string): (r: string)
    ensures |r| <= |s|
    ensures r == [] || (!IsSpace(r[0]) && !IsSpace(r[|r| - 1]))
    ensures var i := LeadingSpace(s);
            && i + |r| <= |s| && r == s[i..i + |r|]
            && (forall k :: 0 <= k < i ==> IsSpace(s[k]))
            && (forall k :: i + |r| <= k < |s| ==> IsSpace(s[k]))
  {
    var a := SpaceRunEnd(s, 0);
    var b := SpaceRunStart(s, a, |s|);
    s[a..b]
  }

  /** A string that already has no surrounding whitespace is left alone. */
  lemma StripTrimmed(s: string)
    requires s == [] || (!IsSpace(s[0]) && !IsSpace(s[|s| - 1]))
    ensures Strip(s) == s
  {
  }

  /** Stripping removes exactly the whitespace padding around a string
      that neither starts nor ends with whitespace. */
  lemma StripPadded(x: string, t: string, y: string)
    requires AllSpace(x) && AllSpace(y)
    requires t == [] || (!IsSpace(t[0]) && !IsSpace(t[|t| - 1]))
    ensures Strip(x + t + y) == t
  {
    var s := x + t + y;
    var r := Strip(s);
    var i := LeadingSpace(s);
    assert forall k :: 0 <= k < |x| ==> s[k] == x[k];
    assert forall k :: 0 <= k < |t| ==> s[|x| + k] == t[k];
    assert forall k :: 0 <= k < |y| ==> s[|x| + |t| + k] == y[k];
    if t == [] {
      assert AllSpace(s);
    } else {
      assert !IsSpace(s[|x|]);
      assert i == |x|;
      assert !IsSpace(s[|x| + |t| - 1]);
      assert r[|r| - 1] == s[i + |r| - 1];
      assert i + |r| == |x| + |t|;
      assert r == s[|x|..|x| + |t|];
    }
  }

  /** The longest prefix of `t` free of whitespace. */
  function TakeWord(t: string): (w: string)
    ensures |w| <= |t| && w == t[..|w|] && NoSpace(w)
    ensures |w| < |t| ==> IsSpace(t[|w|])
  {
    if t == [] || IsSpace(t[0]) then [] else [t[0]] + TakeWord(t[1..])
  }

  /** `str.split()` with no separator: the maximal runs of non-whitespace. */
  function Words(s: string): (ws: seq<string>)
    ensures forall k :: 0 <= k < |ws| ==> ws[k] != [] && NoSpace(ws[k])
    decreases |s|
  {
    var t := TrimStart(s);
    if t == [] then []
    else
      var w := TakeWord(t);
      [w] + Words(t[|w|..])
  }

  /** The word count used as a cheap token proxy: `len(text.split())`. */
  function WordCount(s: string): nat {
    |Words(s)|
  }

  /** `sep.join(parts)`. */
  function JoinWith(parts: seq<string>, sep: string): string {
    if |parts| == 0 then []
    else if |parts| == 1 then parts[0]
    else parts[0] + sep + JoinWith(parts[1..], sep)
  }

  lemma {:induction false} SpaceRunOffset(x: string, y: string, j: nat)
    requires j <= |y|
    ensures SpaceRunEnd(x + y, |x| + j) == |x| + SpaceRunEnd(y, j)
    decreases |y| - j
  {
    if j < |y| {
      assert (x + y)[|x| + j] == y[j];
      SpaceRunOffset(x, y, j + 1);
    }
  }

  lemma {:induction false} SpaceRunSkip(x: string, y: string, i: nat)
    requires AllSpace(x) && i <= |x|
    ensures SpaceRunEnd(x + y, i) == |x| + SpaceRunEnd(y, 0)
    decreases |x| - i
  {
    if i < |x| {
      assert (x + y)[i] == x[i];
      SpaceRunSkip(x, y, i + 1);
    } else {
      SpaceRunOffset(x, y, 0);
    }
  }

  lemma TrimStartSkipSpace(x: string, y: string)
    requires AllSpace(x)
    ensures TrimStart(x + y) == TrimStart(y)
  {
    SpaceRunSkip(x, y, 0);
    assert (x + y)[|x| + SpaceRunEnd(y, 0)..] == y[SpaceRunEnd(y, 0)..];
  }

  /** Leading whitespace never changes the words. */
  lemma WordsSkipSpace(x: string, y: string)
    requires AllSpace(x)
    ensures Words(x + y) == Words(y)
  {
    TrimStartSkipSpace(x, y);
  }

  /** What `TakeWord` stops at when the word is followed by whitespace. */
  lemma {:induction false} TakeWordBefore(w: string, rest: string)
    requires NoSpace(w)
    requires rest == [] || IsSpace(rest[0])
    ensures TakeWord(w + rest) == w
    decreases |w|
  {
    if w != [] {
      assert (w + rest)[1..] == w[1..] + rest;
      TakeWordBefore(w[1..], rest);
    }
  }

  /** A space-free word followed by nothing or by whitespace is the first
      word. */
  lemma WordsCons(w: string, rest: string)
    requires w != [] && NoSpace(w)
    requires rest == [] || IsSpace(rest[0])
    ensures Words(w + rest) == [w] + Words(rest)
  {
    var s := w + rest;
    assert s[0] == w[0];
    assert TrimStart(s) == s;
    TakeWordBefore(w, rest);
    assert s[|w|..] == rest;
  }

  lemma WordsSpaceCons(w: string, tail: string)
    requires w != [] && NoSpace(w)
    ensures Words(w + (" " + tail)) == [w] + Words(tail)
  {
    WordsCons(w, " " + tail);
    WordsSkipSpace(" ", tail);
  }

  lemma WordsOfEmpty()
    ensures Words([]) == []
  {
    assert TrimStart([]) == [];
  }

  lemma WordsOfOne(w: string)
    requires w != [] && NoSpace(w)
    ensures Words(w) == [w]
  {
    assert w + [] == w;
    WordsCons(w, []);
    WordsOfEmpty();
  }

  lemma JoinSpaceCons(ws: seq<string>)
    requires |ws| >= 2
    ensures JoinWith(ws, " ") == ws[0] + (" " + JoinWith(ws[1..], " "))
  {
  }

  /** Partner of `Words`: joining non-empty, space-free words with single
      spaces and splitting them again gives the same words back, so
      `WordCount` really counts words. */
  lemma {:induction false} WordsOfJoined(ws: seq<string>)
    requires forall k :: 0 <= k < |ws| ==> ws[k] != [] && NoSpace(ws[k])
    ensures Words(JoinWith(ws, " ")) == ws
  {
    if |ws| == 0 {
      WordsOfEmpty();
    } else if |ws| == 1 {
      assert JoinWith(ws, " ") == ws[0];
      WordsOfOne(ws[0]);
    } else {
      var rest := ws[1..];
      assert forall k :: 0 <= k < |rest| ==> rest[k] == ws[k + 1];
      WordsOfJoined(rest);
      JoinSpaceCons(ws);
      WordsSpaceCons(ws[0], JoinWith(rest, " "));
      assert ws == [ws[0]] + rest;
    }
  }

  /** `p` occurs in `s` starting at position `i`. */
  predicate OccursAt(s: string, p: string, i: int) {
    0 <= i && i + |p| <= |s| && s[i..i + |p|] == p
  }

  predicate Free(s: string, p: string) {
    forall i | 0 <= i <= |s| :: !OccursAt(s, p, i)
  }

  /** `str.strip()` keeps a contiguous piece of its input. */
  lemma StripOccurs(s: string)
    ensures OccursAt(s, Strip(s), LeadingSpace(s))
  {
  }

  lemma OccursWithin(a: string, b: string, c: string, i: int, j: int)
    requires OccursAt(a, b, i) && OccursAt(b, c, j)
    ensures OccursAt(a, c, i + j)
  {
    assert b == a[i..i + |b|];
    assert forall k :: 0 <= k < |c| ==> a[i + j + k] == b[j + k] == c[k];
    assert a[i + j..i + j + |c|] == c;
  }

  /** `s.split(sep)` for a non-empty separator: cut at every leftmost,
      non-overlapping occurrence of `sep`. */
  function SplitOn(s: string, sep: string): (parts: seq<string>)
    requires sep != []
    ensures |parts| >= 1
    ensures |parts[0]| <= |s| && parts[0] == s[..|parts[0]|]
    decreases |s|
  {
    if |s| < |sep| then [s]
    else if s[..|sep|] == sep then [[]] + SplitOn(s[|sep|..], sep)
    else
      var rest := SplitOn(s[1..], sep);
      [[s[0]] + rest[0]] + rest[1..]
  }

  /** `s.replace(pat, rep)` for a non-empty pattern. */
  function ReplaceAll(s: string, pat: string, rep: string): string
    requires pat != []
    decreases |s|
  {
    if |s| < |pat| then s
    else if s[..|pat|] == pat then rep + ReplaceAll(s[|pat|..], pat, rep)
    else [s[0]] + ReplaceAll(s[1..], pat, rep)
  }

  lemma JoinGrowFirst(c: string, parts: seq<string>, sep: string)
    requires |parts| >= 1
    ensures JoinWith([c + parts[0]] + parts[1..], sep) == c + JoinWith(parts, sep)
  {
    var q := [c + parts[0]] + parts[1..];
    assert q[1..] == parts[1..];
  }

  lemma JoinEmptyFirst(parts: seq<string>, sep: string)
    requires |parts| >= 1
    ensures JoinWith([[]] + parts, sep) == sep + JoinWith(parts, sep)
  {
    assert ([[]] + parts)[1..] == parts;
  }

  /** Splitting at a separator and joining with it again gives back the
      string. */
  lemma {:induction false} SplitJoin(s: string, sep: string)
    requires sep != []
    ensures JoinWith(SplitOn(s, sep), sep) == s
    decreases |s|
  {
    if |s| < |sep| {
    } else if s[..|sep|] == sep {
      var tail := s[|sep|..];
      SplitJoin(tail, sep);
      JoinEmptyFirst(SplitOn(tail, sep), sep);
      assert s == sep + tail;
    } else {
      var tail := s[1..];
      SplitJoin(tail, sep);
      JoinGrowFirst([s[0]], SplitOn(tail, sep), sep);
      assert s == [s[0]] + tail;
    }
  }

  /** A prefix of `s` that is shorter than `s` by one character and that
      does not start with `p` is free of `p` when its tail is. */
  lemma FreeCons(c: char, t: string, s: string, p: string)
    requires p != []
    requires |t| < |s| && [c] + t == s[..|t| + 1]
    requires Free(t, p)
    requires |s| >= |p| ==> s[..|p|] != p
    ensures Free([c] + t, p)
  {
    var f := [c] + t;
    forall i | 0 <= i <= |f| ensures !OccursAt(f, p, i) {
      if i > 0 && OccursAt(f, p, i) {
        assert f[i..i + |p|] == t[i - 1..i - 1 + |p|];
        assert OccursAt(t, p, i - 1);
      }
    }
  }

  /** No piece of `s.split(sep)` holds the separator. */
  lemma {:induction false} SplitPiecesFree(s: string, sep: string)
    requires sep != []
    ensures forall k :: 0 <= k < |SplitOn(s, sep)| ==> Free(SplitOn(s, sep)[k], sep)
    decreases |s|
  {
    var parts := SplitOn(s, sep);
    if |s| < |sep| {
      assert parts == [s];
    } else if s[..|sep|] == sep {
      var rest := SplitOn(s[|sep|..], sep);
      SplitPiecesFree(s[|sep|..], sep);
      assert parts == [[]] + rest;
      forall k | 0 <= k < |parts| ensures Free(parts[k], sep) {
        if k > 0 { assert parts[k] == rest[k - 1]; }
      }
    } else {
      var rest := SplitOn(s[1..], sep);
      SplitPiecesFree(s[1..], sep);
      assert parts == [[s[0]] + rest[0]] + rest[1..];
      assert [s[0]] + rest[0] == s[..|rest[0]| + 1];
      FreeCons(s[0], rest[0], s, sep);
      forall k | 0 <= k < |parts| ensures Free(parts[k], sep) {
        if k > 0 { assert parts[k] == rest[k]; }
      }
    }
  }

  /** `str.replace` is `rep.join(s.split(pat))`: every piece between
      occurrences is kept as it is and every occurrence becomes `rep`. */
  lemma {:induction false} ReplaceIsJoinOfSplit(s: string, pat: string, rep: string)
    requires pat != []
    ensures ReplaceAll(s, pat, rep) == JoinWith(SplitOn(s, pat), rep)
    decreases |s|
  {
    if |s| < |pat| {
    } else if s[..|pat|] == pat {
      ReplaceIsJoinOfSplit(s[|pat|..], pat, rep);
      var rest := SplitOn(s[|pat|..], pat);
      assert ([[]] + rest)[1..] == rest;
    } else {
      ReplaceIsJoinOfSplit(s[1..], pat, rep);
      JoinGrowFirst([s[0]], SplitOn(s[1..], pat), rep);
    }
  }

  /** With no occurrence of the pattern, `str.replace` changes nothing. */
  lemma {:induction false} ReplaceAbsent(s: string, pat: string, rep: string)
    requires pat != []
    requires Free(s, pat)
    ensures ReplaceAll(s, pat, rep) == s
    decreases |s|
  {
    if |s| >= |pat| {
      assert !OccursAt(s, pat, 0);
      assert s[..|pat|] != pat;
      forall i ensures !OccursAt(s[1..], pat, i) {
        if OccursAt(s[1..], pat, i) {
          assert s[1..][i..i + |pat|] == s[i + 1..i + 1 + |pat|];
          assert OccursAt(s, pat, i + 1);
        }
      }
      ReplaceAbsent(s[1..], pat, rep);
    }
  }

  /** A string free of `p` is free of every string that starts with `p`. */
  lemma FreeOfExtension(s: string, p: string, q: string)
    requires Free(s, p)
    ensures Free(s, p + q)
  {
    forall i ensures !OccursAt(s, p + q, i) {
      if OccursAt(s, p + q, i) {
        assert s[i..i + |p|] == (p + q)[..|p|];
        assert OccursAt(s, p, i);
      }
    }
  }
}
