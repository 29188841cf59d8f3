/** The two POSIX path helpers the scripts call: `os.path.basename` and
    `os.path.splitext` (separator `/`, extension separator `.`). */
module Paths {

  /** `p.rfind(c)`: the last position holding `c`, or -1. */
  function LastIndex(p: string, c: char): (r: int)
    ensures -1 <= r < |p|
    ensures r >= 0 ==> p[r] == c
    ensures forall k :: r < k < |p| ==> p[k] != c
  {
    if p == [] then -1
    else if p[|p| - 1] == c then |p| - 1
    else LastIndex(p[..|p| - 1], c)
  }

  /** `os.path.basename(p)`: what follows the last `/`. */
  function Basename(p: string): (r: string)
    ensures '/' !in r
    ensures |r| <= |p| && r == p[|p| - |r|..]
    ensures |r| < |p| ==> p[|p| - |r| - 1] == '/'
  {
    var i := LastIndex(p, '/') + 1;
    assert forall k :: 0 <= k < |p[i..]| ==> p[i..][k] == p[i + k];
    p[i..]
  }

  /** Some character of `p[lo..hi]` is not a dot. */
  predicate HasNonDot(p: string, lo: int, hi: int)
    requires 0 <= lo && hi <= |p|
  {
    exists k :: lo <= k < hi && p[k] != '.'
  }

  /** `os.path.splitext(p)`: the extension runs from the last dot of the
      last path component, unless everything before that dot in the
      component is dots (so `.bashrc` and `..a` have no extension). */
  function SplitExt(p: string): (parts: (string, string))
    ensures parts.0 + parts.1 == p
    ensures parts.1 == [] || (parts.1[0] == '.' && '.' !in parts.1[1..] && '/' !in parts.1)
    ensures parts.1 != [] ==> HasNonDot(p, LastIndex(p, '/') + 1, |parts.0|)
  {
    var sep := LastIndex(p, '/');
    var dot := LastIndex(p, '.');
    if dot > sep && HasNonDot(p, sep + 1, dot) then
      assert p[..dot] + p[dot..] == p;
      assert forall k :: 0 <= k < |p[dot..]| ==> p[dot..][k] == p[dot + k];
      (p[..dot], p[dot..])
    else
      assert p + [] == p;
      (p, [])
  }

  /** When `p` has a last dot after its last `/` and some non-dot before
      it in the last component, the extension is exactly from that dot. */
  lemma SplitExtAtLastDot(p: string)
    requires LastIndex(p, '.') > LastIndex(p, '/')
    requires HasNonDot(p, LastIndex(p, '/') + 1, LastIndex(p, '.'))
    ensures SplitExt(p) == (p[..LastIndex(p, '.')], p[LastIndex(p, '.')..])
  {
  }

  /** A path whose last component has no dot keeps its name whole. */
  lemma SplitExtNoDot(p: string)
    requires forall k :: LastIndex(p, '/') < k < |p| ==> p[k] != '.'
    ensures SplitExt(p) == (p, [])
  {
    var dot := LastIndex(p, '.');
    if dot > LastIndex(p, '/') {
      assert p[dot] == '.';
    }
  }
}
