/** The curation filter of `process_query`: of the ranked candidates, keep
    those whose id the curator's decoded reply contains, in candidate
    order. The test is Python's `id in reply` on whatever the reply decoded
    to. */
module Curation {

  import opened Common

  /** `id == item` between a Python int and a decoded JSON value: equal
      integers, and `true`/`false` equal 1/0; strings, null, lists and
      objects never equal an int. */
  predicate Matches(item: Json, id: int) {
    match item
    case JInt(i) => i == id
    case JBool(b) => (if b then 1 else 0) == id
    case _ => false
  }

  /** `id in items` for a decoded JSON list. */
  function Listed(items: seq<Json>, id: int): (r: bool)
    ensures r <==> exists k :: 0 <= k < |items| && Matches(items[k], id)
  {
    if items == [] then false
    else if Matches(items[0], id) then true
    else
      var r := Listed(items[1..], id);
      assert forall k :: 0 <= k < |items| - 1 ==> items[1..][k] == items[k + 1];
      r
  }

  /** The candidates whose id is listed, in candidate order. */
  function Keep(candidates: seq<Message>, items: seq<Json>): (kept: seq<Message>)
    ensures |kept| <= |candidates|
    ensures forall m :: m in kept <==> m in candidates && Listed(items, m.id)
    ensures forall m :: multiset(kept)[m] == if Listed(items, m.id) then multiset(candidates)[m] else 0
  {
    if candidates == [] then []
    else
      var rest := Keep(candidates[1..], items);
      assert candidates == [candidates[0]] + candidates[1..];
      if Listed(items, candidates[0].id) then [candidates[0]] + rest else rest
  }

  /** `[msg for msg in selected if msg[0] in ids]`. A list reply filters by
      membership; an object reply keeps nothing, since an int is never
      one of its string keys; any other reply raises as soon as there is
      a candidate to test. */
  function Curate(selected: seq<Message>, ids: Json): (r: Result<seq<Message>>)
    ensures ids.JArray? ==> r == Ok(Keep(selected, ids.items))
    ensures ids.JObject? ==> r == Ok([])
    ensures !ids.JArray? && !ids.JObject? ==> (r.Err? <==> selected != [])
    ensures r.Err? ==> r.error == TypeMismatch
    ensures selected == [] ==> r == Ok([])
    ensures r.Ok? ==> |r.value| <= |selected| && forall m :: m in r.value ==> m in selected
  {
    match ids
    case JArray(items) => Ok(Keep(selected, items))
    case JObject(_) => Ok([])
    case _ => if selected == [] then Ok([]) else Err(TypeMismatch)
  }

  /** `a` is `b` with some elements dropped and the rest in their order. */
  predicate Subsequence<T(==)>(a: seq<T>, b: seq<T>)
    decreases |b|
  {
    if a == [] then true
    else if b == [] then false
    else if a[0] == b[0] then Subsequence(a[1..], b[1..])
    else Subsequence(a, b[1..])
  }

  /** The curated list keeps the candidates' order. */
  lemma {:induction false} KeepIsSubsequence(candidates: seq<Message>, items: seq<Json>)
    ensures Subsequence(Keep(candidates, items), candidates)
  {
    if candidates != [] {
      KeepIsSubsequence(candidates[1..], items);
      var rest := Keep(candidates[1..], items);
      if Listed(items, candidates[0].id) {
        assert ([candidates[0]] + rest)[1..] == rest;
      }
    }
  }

  /** Ids the reply names that belong to no candidate add nothing: the
      curated list is the same with or without them. */
  lemma {:induction false} UnknownIdsIgnored(candidates: seq<Message>, items: seq<Json>, extra: seq<Json>)
    requires forall k, j :: 0 <= k < |candidates| && 0 <= j < |extra| ==> !Matches(extra[j], candidates[k].id)
    ensures Keep(candidates, items + extra) == Keep(candidates, items)
  {
    if candidates != [] {
      var id := candidates[0].id;
      assert Listed(items + extra, id) == Listed(items, id) by {
        if Listed(items + extra, id) {
          var k :| 0 <= k < |items + extra| && Matches((items + extra)[k], id);
          assert k < |items|;
        }
        if Listed(items, id) {
          var k :| 0 <= k < |items| && Matches(items[k], id);
          assert (items + extra)[k] == items[k];
        }
      }
      UnknownIdsIgnored(candidates[1..], items, extra);
    }
  }

  /** A reply naming every candidate keeps them all. */
  lemma {:induction false} AllListedKeepsAll(candidates: seq<Message>, items: seq<Json>)
    requires forall k :: 0 <= k < |candidates| ==> Listed(items, candidates[k].id)
    ensures Keep(candidates, items) == candidates
  {
    if candidates != [] {
      AllListedKeepsAll(candidates[1..], items);
      assert candidates == [candidates[0]] + candidates[1..];
    }
  }
}
