/** `contextual_expansion`: each curated message is widened to the
    conversation around it, everything stored within a fixed number of
    minutes either side. Timestamps are whole seconds; the database range
    query is a parameter `fetch(lo, hi)`. */
module Context {

  import opened Common

  /** The default half-width of a window, in minutes. */
  const DefaultMinutes: int := 60

  /** The bounds `timestamp ∓ minutes`, in seconds. */
  function Window(timestamp: int, minutes: int): (w: (int, int))
    ensures w.1 - timestamp == timestamp - w.0 == 60 * minutes
  {
    (timestamp - 60 * minutes, timestamp + 60 * minutes)
  }

  /** One window per message, in message order. */
  function Windows(messages: seq<Message>, fetch: (int, int) -> seq<Message>, minutes: int): (ws: seq<seq<Message>>)
    ensures |ws| == |messages|
  {
    seq(|messages|, k requires 0 <= k < |messages| =>
      var w := Window(messages[k].timestamp, minutes); fetch(w.0, w.1))
  }

  /** The loop of `contextual_expansion`. */
  method ContextualExpansion(messages: seq<Message>, fetch: (int, int) -> seq<Message>, minutes: int)
    returns (expanded: seq<seq<Message>>)
    ensures expanded == Windows(messages, fetch, minutes)
  {
    expanded := [];
    for i := 0 to |messages|
      invariant expanded == Windows(messages[..i], fetch, minutes)
    {
      var message := messages[i];
      var (start, end) := Window(message.timestamp, minutes);
      var context := fetch(start, end);
      expanded := expanded + [context];
    }
    assert messages[..|messages|] == messages;
  }

  /** The range query returns only stored messages inside its bounds. */
  ghost predicate SoundFetch(fetch: (int, int) -> seq<Message>) {
    forall lo, hi, m :: m in fetch(lo, hi) ==> lo <= m.timestamp <= hi
  }

  /** The range query returns every message of `db` inside its bounds. */
  ghost predicate CompleteFetch(fetch: (int, int) -> seq<Message>, db: seq<Message>) {
    forall lo, hi, m :: m in db && lo <= m.timestamp <= hi ==> m in fetch(lo, hi)
  }

  /** Every message of a window lies within `minutes` of the message the
      window was built around. */
  lemma WindowsBounded(messages: seq<Message>, fetch: (int, int) -> seq<Message>, minutes: int)
    requires SoundFetch(fetch)
    ensures var ws := Windows(messages, fetch, minutes);
            forall k, m :: 0 <= k < |ws| && m in ws[k] ==>
              messages[k].timestamp - 60 * minutes <= m.timestamp <= messages[k].timestamp + 60 * minutes
  {
    var ws := Windows(messages, fetch, minutes);
    forall k: int, m: Message | 0 <= k < |ws| && m in ws[k]
      ensures messages[k].timestamp - 60 * minutes <= m.timestamp <= messages[k].timestamp + 60 * minutes
    {
      var w := Window(messages[k].timestamp, minutes);
      assert m in fetch(w.0, w.1);
    }
  }

  /** With a non-negative width, a stored message appears in its own
      window, together with everything stored near it. */
  lemma WindowsComplete(messages: seq<Message>, fetch: (int, int) -> seq<Message>, minutes: int, db: seq<Message>)
    requires CompleteFetch(fetch, db) && minutes >= 0
    ensures var ws := Windows(messages, fetch, minutes);
            && (forall k :: 0 <= k < |ws| && messages[k] in db ==> messages[k] in ws[k])
            && (forall k, m :: 0 <= k < |ws| && m in db
                  && messages[k].timestamp - 60 * minutes <= m.timestamp <= messages[k].timestamp + 60 * minutes
                  ==> m in ws[k])
  {
    var ws := Windows(messages, fetch, minutes);
    forall k: int, m: Message | 0 <= k < |ws| && m in db
        && messages[k].timestamp - 60 * minutes <= m.timestamp <= messages[k].timestamp + 60 * minutes
      ensures m in ws[k]
    {
      var w := Window(messages[k].timestamp, minutes);
      assert ws[k] == fetch(w.0, w.1);
    }
  }
}
