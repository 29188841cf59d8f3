/** The output file name chosen by `save_to_file`: the query made safe for
    a file name, and a numbered variant when the plain name is taken. The
    set of files that already exist is a parameter; writing the file is
    outside the model. */
module Naming {

  import opened Text
  import opened Decimal
  import opened Paths

  const MaxStem: nat := 100
  const SummaryPrefix: string := "searches/summary_"
  const Suffix: string := ".txt"

  /** `s.replace("/", "_")` changes each `/` into `_` and nothing else. */
  lemma {:induction false} ReplaceSlash(s: string)
    ensures var r := ReplaceAll(s, "/", "_");
            && |r| == |s|
            && forall k :: 0 <= k < |s| ==> r[k] == (if s[k] == '/' then '_' else s[k])
    decreases |s|
  {
    if s != [] {
      ReplaceSlash(s[1..]);
      assert s[..1] == [s[0]];
    }
  }

  /** `splitext(query)[0].replace("/", "_")[:100]`: the query without
      its extension, every `/` made `_`, cut to 100 characters. */
  function Sanitize(query: string): (r: string)
    ensures '/' !in r
    ensures |r| == if |SplitExt(query).0| < MaxStem then |SplitExt(query).0| else MaxStem
    ensures forall k :: 0 <= k < |r| ==>
              r[k] == (if SplitExt(query).0[k] == '/' then '_' else SplitExt(query).0[k])
  {
    var root := SplitExt(query).0;
    var replaced := ReplaceAll(root, "/", "_");
    ReplaceSlash(root);
    replaced[..if |replaced| < MaxStem then |replaced| else MaxStem]
  }

  /** `f"searches/summary_{sanitized}.txt"`. */
  function BaseFileName(sanitized: string): (b: string)
    ensures |b| >= |Suffix|
  {
    SummaryPrefix + sanitized + Suffix
  }

  /** `f"{base[:-4]}-{counter}.txt"`. */
  function Numbered(base: string, counter: int): string
    requires |base| >= |Suffix|
  {
    base[..|base| - |Suffix|] + "-" + IntText(counter) + Suffix
  }

  /** The name tried at attempt `n`: first the base, then `-2`, `-3`, ... */
  function Attempt(base: string, n: nat): string
    requires |base| >= |Suffix|
  {
    if n == 0 then base else Numbered(base, n + 1)
  }

  /** A numbered name is longer than its base, and the counter's text
      sits between the dash and the suffix. */
  lemma NumberedMiddle(base: string, counter: int)
    requires |base| >= |Suffix|
    ensures var name := Numbered(base, counter);
            var stem := base[..|base| - |Suffix|];
            && |name| == |base| + 1 + |IntText(counter)|
            && name[|stem| + 1..|name| - |Suffix|] == IntText(counter)
  {
    var stem := base[..|base| - |Suffix|];
    var text := IntText(counter);
    var name := Numbered(base, counter);
    assert name == stem + "-" + text + Suffix;
    assert forall k :: 0 <= k < |text| ==> name[|stem| + 1 + k] == text[k];
  }

  /** Different attempts try different names. */
  lemma AttemptInjective(base: string, i: nat, j: nat)
    requires |base| >= |Suffix|
    requires Attempt(base, i) == Attempt(base, j)
    ensures i == j
  {
    if i > 0 && j > 0 {
      var name := Attempt(base, i);
      assert name == Numbered(base, i + 1) && name == Numbered(base, j + 1);
      NumberedMiddle(base, i + 1);
      NumberedMiddle(base, j + 1);
      assert IntText(i + 1) == IntText(j + 1);
      IntTextInjective(i + 1, j + 1);
    } else if i > 0 {
      NumberedMiddle(base, i + 1);
    } else if j > 0 {
      NumberedMiddle(base, j + 1);
    }
  }

  /** The names tried in the first `n` attempts. */
  ghost function Tried(base: string, n: nat): set<string>
    requires |base| >= |Suffix|
  {
    if n == 0 then {} else Tried(base, n - 1) + {Attempt(base, n - 1)}
  }

  /** A later attempt tries a name not tried before. */
  lemma {:induction false} NotTriedYet(base: string, n: nat, m: nat)
    requires |base| >= |Suffix| && n <= m
    ensures Attempt(base, m) !in Tried(base, n)
  {
    if n > 0 {
      NotTriedYet(base, n - 1, m);
      if Attempt(base, m) == Attempt(base, n - 1) {
        AttemptInjective(base, m, n - 1);
      }
    }
  }

  lemma {:induction false} TriedIsEarlier(base: string, n: nat, name: string)
    requires |base| >= |Suffix|
    requires name in Tried(base, n)
    ensures exists j :: 0 <= j < n && name == Attempt(base, j)
  {
    if name != Attempt(base, n - 1) {
      TriedIsEarlier(base, n - 1, name);
    }
  }

  /** The naming loop of `save_to_file`. It returns the first of base,
      `-2`, `-3`, ... that is not an existing file, and it ends for every
      finite set of existing files, since each attempt uses up one of
      them. */
  method FirstFreeName(baseFileName: string, existing: set<string>) returns (fileName: string, ghost attempts: nat)
    requires |baseFileName| >= |Suffix|
    ensures fileName !in existing
    ensures fileName == Attempt(baseFileName, attempts)
    ensures forall j :: 0 <= j < attempts ==> Attempt(baseFileName, j) in existing
  {
    fileName := baseFileName;
    var counter := 2;
    ghost var tried: set<string> := {};
    while fileName in existing
      invariant counter >= 2
      invariant fileName == Attempt(baseFileName, counter - 2)
      invariant tried == Tried(baseFileName, counter - 2)
      invariant forall j :: 0 <= j < counter - 2 ==> Attempt(baseFileName, j) in existing
      decreases |existing - tried|
    {
      NotTriedYet(baseFileName, counter - 2, counter - 2);
      assert existing - tried == (existing - (tried + {fileName})) + {fileName};
      tried := tried + {fileName};
      fileName := Numbered(baseFileName, counter);
      counter := counter + 1;
    }
    attempts := counter - 2;
  }

  /** `save_to_file` without the directory creation and the write: the
      name is derived from the query, then numbered past existing files. */
  method SaveFileName(query: string, existing: set<string>) returns (fileName: string, ghost attempts: nat)
    ensures fileName !in existing
    ensures fileName == Attempt(BaseFileName(Sanitize(query)), attempts)
    ensures forall j :: 0 <= j < attempts ==> Attempt(BaseFileName(Sanitize(query)), j) in existing
  {
    var sanitizedQuery := Sanitize(query);
    fileName, attempts := FirstFreeName(BaseFileName(sanitizedQuery), existing);
  }

  /** Cutting four characters from the base removes exactly `.txt`, so
      a numbered name is the sanitized query, a dash and the counter. */
  lemma NumberedName(sanitized: string, counter: int)
    ensures Numbered(BaseFileName(sanitized), counter) == SummaryPrefix + sanitized + "-" + IntText(counter) + Suffix
  {
    var base := BaseFileName(sanitized);
    assert base[..|base| - |Suffix|] == SummaryPrefix + sanitized;
  }

  /** The attempts passed over are distinct existing files, so the loop
      makes at most as many attempts as there are existing files. */
  lemma {:induction false} AttemptsBounded(base: string, existing: set<string>, n: nat)
    requires |base| >= |Suffix|
    requires forall j :: 0 <= j < n ==> Attempt(base, j) in existing
    ensures Tried(base, n) <= existing
    ensures |Tried(base, n)| == n <= |existing|
  {
    if n > 0 {
      AttemptsBounded(base, existing, n - 1);
      NotTriedYet(base, n - 1, n - 1);
    }
    forall name | name in Tried(base, n) ensures name in existing {
      TriedIsEarlier(base, n, name);
    }
    assert existing == Tried(base, n) + (existing - Tried(base, n));
  }
}
