/** Candidate selection up to the SQL text: the keyword override, quote
    escaping, and the `contents LIKE ... OR ...` condition. The statement's
    execution by the database is outside the model. */
module Query {

  import opened Common
  import opened Text

  /** `[keyword.strip() for keyword in override.split(',')]`. */
  function OverrideKeywords(override: string): seq<string> {
    var parts := SplitOn(override, ",");
    seq(|parts|, i requires 0 <= i < |parts| => Strip(parts[i]))
  }

  /** The override gives one keyword per comma-separated piece (so at least
      one, and never an empty list), each the piece without its surrounding
      whitespace; the pieces joined by commas are the override itself. */
  lemma OverrideKeywordsSpec(override: string)
    ensures var parts := SplitOn(override, ",");
            var ks := OverrideKeywords(override);
            && JoinWith(parts, ",") == override
            && |ks| == |parts| >= 1
            && (forall i :: 0 <= i < |ks| ==> ks[i] == Strip(parts[i]) && Free(parts[i], ","))
            && (forall i :: 0 <= i < |ks| ==> ks[i] == [] || (!IsSpace(ks[i][0]) && !IsSpace(ks[i][|ks[i]| - 1])))
  {
    SplitJoin(override, ",");
    SplitPiecesFree(override, ",");
  }

  /** `keyword.replace("'", "''")`. */
  function Escape(k: string): string {
    if k == [] then []
    else (if k[0] == '\'' then "''" else [k[0]]) + Escape(k[1..])
  }

  /** `Escape` is the general `str.replace` with the quote as pattern and
      two quotes as replacement, so the replacement laws hold for it. */
  lemma {:induction false} EscapeIsReplace(k: string)
    ensures Escape(k) == ReplaceAll(k, "'", "''")
  {
    if k != [] {
      EscapeIsReplace(k[1..]);
      assert k[..1] == [k[0]];
    }
  }

  /** Collapses every doubled quote back into one. */
  function Unescape(e: string): string {
    if e == [] then []
    else if |e| >= 2 && e[0] == '\'' && e[1] == '\'' then "'" + Unescape(e[2..])
    else [e[0]] + Unescape(e[1..])
  }

  /** Escaping doubles quotes and touches nothing else: undoing the
      doubling gives back the keyword. */
  lemma {:induction false} EscapeRoundTrip(k: string)
    ensures Unescape(Escape(k)) == k
  {
    if k != [] {
      EscapeRoundTrip(k[1..]);
      var e := Escape(k);
      if k[0] == '\'' {
        assert e[2..] == Escape(k[1..]);
      } else {
        assert e[1..] == Escape(k[1..]);
      }
      assert k == [k[0]] + k[1..];
    }
  }

  /** A keyword without quotes is left exactly as it is. */
  lemma {:induction false} EscapeQuoteFree(k: string)
    requires '\'' !in k
    ensures Escape(k) == k
  {
    if k != [] {
      assert '\'' !in k[1..];
      EscapeQuoteFree(k[1..]);
      assert k == [k[0]] + k[1..];
    }
  }

  lemma {:induction false} EscapeConcat(a: string, b: string)
    ensures Escape(a + b) == Escape(a) + Escape(b)
  {
    if a != [] {
      assert (a + b)[0] == a[0];
      assert (a + b)[1..] == a[1..] + b;
      EscapeConcat(a[1..], b);
    } else {
      assert a + b == b;
    }
  }

  /** Reads the body of an SQL string literal whose opening quote has been
      consumed: `''` stands for one quote, a lone quote closes the literal.
      Gives the literal's value and what follows the closing quote. */
  function ReadQuoted(s: string): (r: Option<(string, string)>)
    ensures r.Some? ==> |r.value.1| < |s|
  {
    if s == [] then None
    else if s[0] == '\'' then
      if |s| >= 2 && s[1] == '\'' then
        match ReadQuoted(s[2..])
        case None => None
        case Some(vr) => Some(("'" + vr.0, vr.1))
      else Some(([], s[1..]))
    else
      match ReadQuoted(s[1..])
      case None => None
      case Some(vr) => Some(([s[0]] + vr.0, vr.1))
  }

  /** An escaped keyword cannot end the literal early: the literal reads
      back as the original keyword and stops at the intended quote. */
  lemma {:induction false} ReadEscaped(k: string, rest: string)
    requires rest == [] || rest[0] != '\''
    ensures ReadQuoted(Escape(k) + "'" + rest) == Some((k, rest))
  {
    var s := Escape(k) + "'" + rest;
    if k == [] {
      assert s == "'" + rest;
      assert s[1..] == rest;
    } else {
      ReadEscaped(k[1..], rest);
      var tail := Escape(k[1..]) + "'" + rest;
      if k[0] == '\'' {
        assert s == "''" + tail;
        assert s[2..] == tail;
      } else {
        assert s == [k[0]] + tail;
        assert s[1..] == tail;
      }
      assert k == [k[0]] + k[1..];
    }
  }

  const TermHead: string := "contents LIKE '"

  /** `f"contents LIKE '%{escaped}%'"`. */
  function Term(k: string): string {
    TermHead + "%" + Escape(k) + "%'"
  }

  function Terms(ks: seq<string>): (ts: seq<string>)
    ensures |ts| == |ks|
  {
    seq(|ks|, i requires 0 <= i < |ks| => Term(ks[i]))
  }

  /** `" OR ".join(...)` over the terms. */
  function WhereClause(ks: seq<string>): string {
    JoinWith(Terms(ks), " OR ")
  }

  /** Reads a WHERE condition back into the keywords it tests; the inverse
      of `WhereClause`. */
  function ParseWhere(s: string): Option<seq<string>> {
    if s == [] then Some([]) else ParseTerms(s)
  }

  function ParseTerms(s: string): Option<seq<string>>
    decreases |s|
  {
    if |s| >= |TermHead| && s[..|TermHead|] == TermHead then
      match ReadQuoted(s[|TermHead|..])
      case None => None
      case Some(vr) =>
        var body, rest := vr.0, vr.1;
        if |body| >= 2 && body[0] == '%' && body[|body| - 1] == '%' then
          var k := body[1..|body| - 1];
          if rest == [] then Some([k])
          else if |rest| >= 4 && rest[..4] == " OR " then
            match ParseTerms(rest[4..])
            case None => None
            case Some(ks) => Some([k] + ks)
          else None
        else None
    else None
  }

  lemma ReadTerm(k: string, tail: string)
    requires tail == [] || tail[0] != '\''
    ensures var s := Term(k) + tail;
            && |s| >= |TermHead| && s[..|TermHead|] == TermHead
            && ReadQuoted(s[|TermHead|..]) == Some(("%" + k + "%", tail))
  {
    var s := Term(k) + tail;
    assert s[|TermHead|..] == "%" + Escape(k) + "%" + "'" + tail;
    EscapeConcat("%", k);
    EscapeConcat("%" + k, "%");
    assert Escape("%") == "%";
    assert Escape("%" + k + "%") == "%" + Escape(k) + "%";
    ReadEscaped("%" + k + "%", tail);
  }

  lemma {:induction false} ParseTermsRoundTrip(ks: seq<string>)
    requires |ks| >= 1
    ensures ParseTerms(WhereClause(ks)) == Some(ks)
  {
    var ts := Terms(ks);
    var k := ks[0];
    var body := "%" + k + "%";
    assert body[1..|body| - 1] == k;
    if |ks| == 1 {
      var s := WhereClause(ks);
      assert s == Term(k);
      assert Term(k) + [] == s;
      ReadTerm(k, []);
      assert ReadQuoted(s[|TermHead|..]) == Some((body, []));
      assert ks == [k];
    } else {
      var tail := " OR " + WhereClause(ks[1..]);
      assert Terms(ks)[1..] == Terms(ks[1..]);
      assert WhereClause(ks) == Term(k) + tail;
      ReadTerm(k, tail);
      assert tail[4..] == WhereClause(ks[1..]);
      ParseTermsRoundTrip(ks[1..]);
      assert ks == [k] + ks[1..];
    }
  }

  /** Injection safety: whatever quotes the keywords hold, the condition
      reads back as exactly one LIKE test per keyword, in keyword order. */
  lemma WhereClauseRoundTrip(ks: seq<string>)
    ensures ParseWhere(WhereClause(ks)) == Some(ks)
    ensures WhereClause(ks) == [] <==> ks == []
  {
    if ks != [] {
      ParseTermsRoundTrip(ks);
      assert WhereClause(ks) != [] by {
        if |ks| == 1 {
          assert WhereClause(ks) == Term(ks[0]);
        } else {
          assert Terms(ks)[1..] == Terms(ks[1..]);
          assert WhereClause(ks) == Term(ks[0]) + " OR " + WhereClause(ks[1..]);
        }
      }
    }
  }

  const StatementHead: string :=
    "\n    SELECT message_id, name, timestamp, contents, attachments, link\n    FROM messages\n    WHERE "
  const StatementTail: string := "\n    "

  /** The statement `search_index` sends. With no keywords the WHERE
      condition is empty, the database rejects the statement and the error
      propagates. */
  function SearchStatement(ks: seq<string>): (r: Result<string>)
    ensures r.Err? <==> ks == []
    ensures r.Err? ==> r.error == InvalidQuery
    ensures r.Ok? ==> var n := |r.value| - |StatementTail|;
                      && |StatementHead| <= n
                      && r.value[..|StatementHead|] == StatementHead
                      && r.value[n..] == StatementTail
                      && ParseWhere(r.value[|StatementHead|..n]) == Some(ks)
  {
    WhereClauseRoundTrip(ks);
    var clause := WhereClause(ks);
    if clause == [] then Err(InvalidQuery)
    else
      var st := StatementHead + clause + StatementTail;
      assert st[|StatementHead|..|st| - |StatementTail|] == clause;
      Ok(st)
  }

  /** Keywords come from the override when one is given and non-empty,
      otherwise from the keyword capability's decoded reply. */
  function ChooseKeywords(override: Option<string>, derived: Result<seq<string>>): (r: Result<seq<string>>)
    ensures override.Some? && override.value != [] ==> r.Ok? && |r.value| >= 1
    ensures override.Some? && override.value != [] ==> r == Ok(OverrideKeywords(override.value))
    ensures (override.None? || override.value == []) ==> r == derived
  {
    if override.Some? && override.value != [] then
      OverrideKeywordsSpec(override.value);
      Ok(OverrideKeywords(override.value))
    else derived
  }
}
