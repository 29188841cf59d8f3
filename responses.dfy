/** Reading the language model's replies: the optional ```json fence is cut
    away, the text is decoded (the decoder itself is abstract, a partial
    function to `Json`), and the decoded value is read as a keyword list or
    as a selection of message ids. */
module Responses {

  import opened Common
  import opened Text

  const FenceOpen: string := "```json"

  predicate Fenced(s: string) {
    |s| >= |FenceOpen| && s[..|FenceOpen|] == FenceOpen
  }

  /** `raw.strip()`, then, when it starts with ```json, the text between
      the first 7 and the last 3 characters, stripped again. Whatever is
      passed on to the decoder is a piece of the reply as it came. */
  function StripFence(raw: string): (r: string)
    ensures exists i :: OccursAt(raw, r, i)
  {
    var s := Strip(raw);
    var a := LeadingSpace(raw);
    StripOccurs(raw);
    if Fenced(s) then
      var e := if |s| - 3 >= 7 then |s| - 3 else 7;
      var m := s[7..e];
      var r := Strip(m);
      assert OccursAt(s, m, 7);
      StripOccurs(m);
      OccursWithin(s, m, r, 7, LeadingSpace(m));
      OccursWithin(raw, s, r, a, 7 + LeadingSpace(m));
      r
    else s
  }

  /** A fenced reply, with any whitespace around it, gives back its body
      without surrounding whitespace. */
  lemma StripFenceRoundTrip(x: string, body: string, y: string)
    requires AllSpace(x) && AllSpace(y)
    ensures StripFence(x + (FenceOpen + body + "```") + y) == Strip(body)
  {
    var t := FenceOpen + body + "```";
    StripPadded(x, t, y);
    assert t[..|FenceOpen|] == FenceOpen;
    assert t[7..|t| - 3] == body;
  }

  /** A reply that opens a fence but never closes it still loses its last
      three characters: the cut is by position, not by the closing fence. */
  lemma StripFenceUnclosed(x: string, body: string, y: string)
    requires AllSpace(x) && AllSpace(y)
    requires |body| >= 3 && !IsSpace(body[|body| - 1])
    ensures StripFence(x + (FenceOpen + body) + y) == Strip(body[..|body| - 3])
  {
    var t := FenceOpen + body;
    StripPadded(x, t, y);
    assert t[..|FenceOpen|] == FenceOpen;
    assert t[7..|t| - 3] == body[..|body| - 3];
  }

  /** An unfenced reply loses only its surrounding whitespace. */
  lemma StripFenceUnfenced(x: string, t: string, y: string)
    requires AllSpace(x) && AllSpace(y)
    requires t == [] || (!IsSpace(t[0]) && !IsSpace(t[|t| - 1]))
    requires !Fenced(t)
    ensures StripFence(x + t + y) == t
  {
    StripPadded(x, t, y);
  }

  /** `d.get(key, default)` on a decoded object: the last member with that
      key wins, as it does when Python builds a dict from JSON. */
  function Get(members: seq<(string, Json)>, key: string, default: Json): (v: Json)
    ensures (forall k :: 0 <= k < |members| ==> members[k].0 != key) ==> v == default
    ensures forall k :: 0 <= k < |members| && members[k].0 == key && LastWith(members, key, k) ==> v == members[k].1
  {
    if members == [] then default
    else if members[|members| - 1].0 == key then members[|members| - 1].1
    else
      var init := members[..|members| - 1];
      assert forall k :: 0 <= k < |init| ==> init[k] == members[k];
      Get(init, key, default)
  }

  /** Member `k` is the last one with `key`. */
  predicate LastWith(members: seq<(string, Json)>, key: string, k: nat) {
    k < |members| && forall j :: k < j < |members| ==> members[j].0 != key
  }

  /** Key `a` first appears before key `b` does: every member with `b` is
      preceded by one with `a`. */
  predicate FirstBefore(members: seq<(string, Json)>, a: string, b: string) {
    forall q :: 0 <= q < |members| && members[q].0 == b ==> exists p :: 0 <= p < q && members[p].0 == a
  }

  /** The keys of a decoded object in the order a Python dict iterates
      them: by first appearance, without repeats. */
  function Keys(members: seq<(string, Json)>): (ks: seq<string>)
    ensures forall i, j :: 0 <= i < j < |ks| ==> ks[i] != ks[j]
    ensures forall key :: key in ks <==> exists k :: 0 <= k < |members| && members[k].0 == key
    ensures forall i, j :: 0 <= i < j < |ks| ==> FirstBefore(members, ks[i], ks[j])
  {
    if members == [] then []
    else
      var init := members[..|members| - 1];
      var ks := Keys(init);
      assert forall k :: 0 <= k < |init| ==> init[k] == members[k];
      var last := members[|members| - 1].0;
      var r := if last in ks then ks else ks + [last];
      forall i, j | 0 <= i < j < |r| ensures FirstBefore(members, r[i], r[j]) {
        KeysOrderStep(members, ks, r, i, j);
      }
      r
  }

  lemma KeysOrderStep(members: seq<(string, Json)>, ks: seq<string>, r: seq<string>, i: nat, j: nat)
    requires members != []
    requires var init := members[..|members| - 1];
             && (forall key :: key in ks <==> exists k :: 0 <= k < |init| && init[k].0 == key)
             && (forall a, b :: 0 <= a < b < |ks| ==> FirstBefore(init, ks[a], ks[b]))
    requires r == if members[|members| - 1].0 in ks then ks else ks + [members[|members| - 1].0]
    requires i < j < |r|
    ensures FirstBefore(members, r[i], r[j])
  {
    var init := members[..|members| - 1];
    var n := |init|;
    assert r[i] == ks[i];
    assert r[i] in ks;
    var p0 :| 0 <= p0 < n && init[p0].0 == r[i];
    assert members[p0].0 == r[i];
    if j < |ks| {
      assert FirstBefore(init, ks[i], ks[j]);
      forall q | 0 <= q < |members| && members[q].0 == r[j]
        ensures exists p :: 0 <= p < q && members[p].0 == r[i]
      {
        if q < n {
          assert init[q].0 == r[j];
          var p :| 0 <= p < q && init[p].0 == r[i];
          assert members[p].0 == r[i];
        } else {
          assert p0 < q;
        }
      }
    } else {
      assert r[j] !in ks;
      assert forall k :: 0 <= k < n ==> init[k].0 == members[k].0;
      forall q | 0 <= q < |members| && members[q].0 == r[j]
        ensures exists p :: 0 <= p < q && members[p].0 == r[i]
      {
        assert p0 < q;
      }
    }
  }

  predicate IsString(j: Json) {
    j.JString?
  }

  /** What `for keyword in keywords: keyword.replace(...)` accepts: a list
      of strings, a string (each character becomes a keyword) or an object
      (its keys); anything else raises. */
  function AsKeywords(v: Json): (r: Result<seq<string>>)
    ensures v.JArray? ==> (r.Ok? <==> forall k :: 0 <= k < |v.items| ==> IsString(v.items[k]))
    ensures r.Ok? && v.JArray? ==> |r.value| == |v.items| && forall k :: 0 <= k < |v.items| ==> v.items[k] == JString(r.value[k])
    ensures r.Ok? && v.JString? ==> |r.value| == |v.s| && forall k :: 0 <= k < |v.s| ==> r.value[k] == [v.s[k]]
    ensures (v.JNull? || v.JBool? || v.JInt? || v.JFrac?) ==> r == Err(TypeMismatch)
    ensures v.JString? ==> r.Ok?
    ensures v.JObject? ==> r == Ok(Keys(v.members))
  {
    match v
    case JArray(items) =>
      if forall k :: 0 <= k < |items| ==> IsString(items[k])
      then Ok(seq(|items|, k requires 0 <= k < |items| => items[k].s))
      else Err(TypeMismatch)
    case JString(s) => Ok(seq(|s|, k requires 0 <= k < |s| => [s[k]]))
    case JObject(members) => Ok(Keys(members))
    case _ => Err(TypeMismatch)
  }

  /** The keyword derivation step after the model call: fence stripping,
      decoding, `.get("keywords", [])` and iteration. A reply that does not
      decode is fatal here, since there is no other keyword source. */
  function ReplyKeywords(raw: string, decode: string -> Option<Json>): (r: Result<seq<string>>)
    ensures decode(StripFence(raw)).None? ==> r == Err(MalformedResponse)
    ensures decode(StripFence(raw)).Some? && !decode(StripFence(raw)).value.JObject? ==> r == Err(TypeMismatch)
    ensures r.Ok? ==> decode(StripFence(raw)).Some? && decode(StripFence(raw)).value.JObject?
  {
    match decode(StripFence(raw))
    case None => Err(MalformedResponse)
    case Some(JObject(members)) => AsKeywords(Get(members, "keywords", JArray([])))
    case Some(_) => Err(TypeMismatch)
  }

  /** An object without a `keywords` member yields no keywords at all. */
  lemma MissingKeywordsIsEmpty(raw: string, decode: string -> Option<Json>, members: seq<(string, Json)>)
    requires decode(StripFence(raw)) == Some(JObject(members))
    requires forall k :: 0 <= k < |members| ==> members[k].0 != "keywords"
    ensures ReplyKeywords(raw, decode) == Ok([])
  {
    assert Get(members, "keywords", JArray([])) == JArray([]);
  }

  /** A JSON list of strings. */
  function JStrings(ks: seq<string>): (items: seq<Json>)
    ensures |items| == |ks|
  {
    seq(|ks|, i requires 0 <= i < |ks| => JString(ks[i]))
  }

  /** The keywords are read from the decoded object's last `keywords`
      member; when it is a list of strings, they are exactly those
      strings, in order. */
  lemma ReplyKeywordsOfMember(raw: string, decode: string -> Option<Json>, members: seq<(string, Json)>, k: nat)
    requires decode(StripFence(raw)) == Some(JObject(members))
    requires k < |members| && members[k].0 == "keywords" && LastWith(members, "keywords", k)
    ensures ReplyKeywords(raw, decode) == AsKeywords(members[k].1)
    ensures forall ks :: members[k].1 == JArray(JStrings(ks)) ==> ReplyKeywords(raw, decode) == Ok(ks)
  {
    assert Get(members, "keywords", JArray([])) == members[k].1;
    forall ks | members[k].1 == JArray(JStrings(ks)) ensures ReplyKeywords(raw, decode) == Ok(ks) {
      AsKeywordsOfStrings(ks);
    }
  }

  /** A list of strings is read back as exactly those strings. */
  lemma AsKeywordsOfStrings(ks: seq<string>)
    ensures AsKeywords(JArray(JStrings(ks))) == Ok(ks)
  {
    var items := JStrings(ks);
    assert forall i :: 0 <= i < |items| ==> items[i] == JString(ks[i]) && IsString(items[i]);
    var r := AsKeywords(JArray(items));
    assert forall i :: 0 <= i < |ks| ==> r.value[i] == ks[i];
    assert r.value == ks;
  }

  /** The curator step after the model call: a reply that does not decode
      becomes an empty selection instead of an error. */
  function ReplySelection(raw: string, decode: string -> Option<Json>): (ids: Json)
    ensures decode(StripFence(raw)).None? ==> ids == JArray([])
    ensures decode(StripFence(raw)).Some? ==> ids == decode(StripFence(raw)).value
  {
    match decode(StripFence(raw))
    case None => JArray([])
    case Some(v) => v
  }
}
