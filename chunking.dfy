/** `chunk_messages` of the period summariser: messages are packed, in
    order, into chunks whose contents lengths add up to at most the chunk
    size, a new chunk starting whenever the next message would not fit. */
module Chunking {

  import opened Common

  /** The total contents length of a chunk. */
  function Len(chunk: seq<Message>): nat {
    if chunk == [] then 0 else Len(chunk[..|chunk| - 1]) + |chunk[|chunk| - 1].contents|
  }

  /** The chunks laid end to end. */
  function Flatten(chunks: seq<seq<Message>>): seq<Message> {
    if chunks == [] then [] else Flatten(chunks[..|chunks| - 1]) + chunks[|chunks| - 1]
  }

  lemma LenSnoc(chunk: seq<Message>, m: Message)
    ensures Len(chunk + [m]) == Len(chunk) + |m.contents|
  {
    assert (chunk + [m])[..|chunk|] == chunk;
  }

  lemma LenOne(m: Message)
    ensures Len([m]) == |m.contents|
  {
    assert [m][..0] == [];
  }

  lemma FlattenSnoc(chunks: seq<seq<Message>>, c: seq<Message>)
    ensures Flatten(chunks + [c]) == Flatten(chunks) + c
  {
    assert (chunks + [c])[..|chunks|] == chunks;
  }

  /** The loop variables of `chunk_messages`: the closed chunks, the chunk
      being filled and its running length. */
  datatype ChunkState = ChunkState(chunked: seq<seq<Message>>, current: seq<Message>, length: int)

  /** One iteration of the loop. */
  function Step(st: ChunkState, msg: Message, chunkSize: int): ChunkState {
    if st.length + |msg.contents| > chunkSize
    then ChunkState(st.chunked + [st.current], [msg], |msg.contents|)
    else ChunkState(st.chunked, st.current + [msg], st.length + |msg.contents|)
  }

  /** The loop variables after the given messages. */
  function Run(messages: seq<Message>, chunkSize: int): ChunkState {
    if messages == [] then ChunkState([], [], 0)
    else Step(Run(messages[..|messages| - 1], chunkSize), messages[|messages| - 1], chunkSize)
  }

  /** The chunks returned: the closed ones, and the last one when it holds
      anything. */
  function Chunks(messages: seq<Message>, chunkSize: int): (chunks: seq<seq<Message>>)
    ensures messages == [] ==> chunks == []
  {
    var st := Run(messages, chunkSize);
    if st.current != [] then st.chunked + [st.current] else st.chunked
  }

  /** The loop of `chunk_messages`. */
  method ChunkMessages(messages: seq<Message>, chunkSize: int) returns (chunked: seq<seq<Message>>)
    ensures chunked == Chunks(messages, chunkSize)
  {
    chunked := [];
    var currentChunk: seq<Message> := [];
    var currentLength := 0;
    for i := 0 to |messages|
      invariant ChunkState(chunked, currentChunk, currentLength) == Run(messages[..i], chunkSize)
    {
      var msg := messages[i];
      var msgLength := |msg.contents|;
      assert messages[..i + 1][..i] == messages[..i];
      if currentLength + msgLength > chunkSize {
        chunked := chunked + [currentChunk];
        currentChunk := [msg];
        currentLength := msgLength;
      } else {
        currentChunk := currentChunk + [msg];
        currentLength := currentLength + msgLength;
      }
    }
    assert messages[..|messages|] == messages;
    if currentChunk != [] {
      chunked := chunked + [currentChunk];
    }
  }

  /** The running length is the current chunk's length. */
  lemma {:induction false} RunLength(messages: seq<Message>, chunkSize: int)
    ensures Run(messages, chunkSize).length == Len(Run(messages, chunkSize).current)
  {
    if messages != [] {
      var init := messages[..|messages| - 1];
      var msg := messages[|messages| - 1];
      var st := Run(init, chunkSize);
      RunLength(init, chunkSize);
      if st.length + |msg.contents| > chunkSize {
        LenOne(msg);
      } else {
        LenSnoc(st.current, msg);
      }
    }
  }

  lemma StepKeepsMessages(st: ChunkState, msg: Message, chunkSize: int)
    ensures var next := Step(st, msg, chunkSize);
            Flatten(next.chunked) + next.current == Flatten(st.chunked) + st.current + [msg]
  {
    if st.length + |msg.contents| > chunkSize {
      FlattenSnoc(st.chunked, st.current);
    } else {
      assert Flatten(st.chunked) + (st.current + [msg]) == (Flatten(st.chunked) + st.current) + [msg];
    }
  }

  /** The closed chunks followed by the current one are the messages read
      so far. */
  lemma {:induction false} RunKeepsMessages(messages: seq<Message>, chunkSize: int)
    ensures Flatten(Run(messages, chunkSize).chunked) + Run(messages, chunkSize).current == messages
  {
    if messages != [] {
      var init := messages[..|messages| - 1];
      var msg := messages[|messages| - 1];
      var st := Run(init, chunkSize);
      assert Run(messages, chunkSize) == Step(st, msg, chunkSize);
      RunKeepsMessages(init, chunkSize);
      StepKeepsMessages(st, msg, chunkSize);
      assert messages == init + [msg];
    }
  }

  /** Nothing is lost, duplicated or reordered: the chunks laid end to end
      are the input. */
  lemma ChunksFlatten(messages: seq<Message>, chunkSize: int)
    ensures Flatten(Chunks(messages, chunkSize)) == messages
  {
    var st := Run(messages, chunkSize);
    RunKeepsMessages(messages, chunkSize);
    FlattenSnoc(st.chunked, st.current);
    if st.current == [] {
      assert Flatten(st.chunked) + [] == Flatten(st.chunked);
    }
  }

  /** A chunk is within the size, or it is a single message (or none). */
  predicate Bounded(chunk: seq<Message>, chunkSize: int) {
    Len(chunk) <= chunkSize || |chunk| <= 1
  }

  lemma {:induction false} RunBounded(messages: seq<Message>, chunkSize: int)
    ensures var st := Run(messages, chunkSize);
            && Bounded(st.current, chunkSize)
            && forall k :: 0 <= k < |st.chunked| ==> Bounded(st.chunked[k], chunkSize)
  {
    if messages != [] {
      var init := messages[..|messages| - 1];
      var msg := messages[|messages| - 1];
      var st := Run(init, chunkSize);
      RunBounded(init, chunkSize);
      RunLength(init, chunkSize);
      var next := Run(messages, chunkSize);
      if st.length + |msg.contents| > chunkSize {
        assert next == ChunkState(st.chunked + [st.current], [msg], |msg.contents|);
        assert forall k :: 0 <= k < |st.chunked| ==> next.chunked[k] == st.chunked[k];
      } else {
        assert next == ChunkState(st.chunked, st.current + [msg], st.length + |msg.contents|);
        LenSnoc(st.current, msg);
      }
    }
  }

  /** Every chunk's contents add up to at most the chunk size, except a
      chunk holding a single message longer than that on its own. */
  lemma ChunksBounded(messages: seq<Message>, chunkSize: int)
    ensures var chunks := Chunks(messages, chunkSize);
            forall k :: 0 <= k < |chunks| ==> Len(chunks[k]) <= chunkSize || |chunks[k]| <= 1
  {
    RunBounded(messages, chunkSize);
  }

  /** Emptiness as the loop goes: only the very first closed chunk can be
      empty, exactly when the first message alone is over the size; once
      a message is read, the current chunk holds one. */
  lemma {:induction false} RunEmptiness(messages: seq<Message>, chunkSize: int)
    ensures var st := Run(messages, chunkSize);
            && (messages == [] ==> st.chunked == [] && st.current == [] && st.length == 0)
            && (messages != [] ==> st.current != [])
            && (messages != [] && |messages[0].contents| > chunkSize ==> st.chunked != [])
            && (forall k :: 0 <= k < |st.chunked| ==>
                  (st.chunked[k] == [] <==> k == 0 && |messages[0].contents| > chunkSize))
  {
    if messages != [] {
      var init := messages[..|messages| - 1];
      RunEmptiness(init, chunkSize);
      if init != [] {
        assert init[0] == messages[0];
      }
    }
  }

  /** Only the first chunk can be empty, and it is empty exactly when the
      first message is longer than the chunk size; for non-empty input the
      last chunk holds at least one message. */
  lemma ChunksEmptiness(messages: seq<Message>, chunkSize: int)
    requires messages != []
    ensures var chunks := Chunks(messages, chunkSize);
            && chunks != [] && chunks[|chunks| - 1] != []
            && (chunks[0] == [] <==> |messages[0].contents| > chunkSize)
            && forall k :: 1 <= k < |chunks| ==> chunks[k] != []
  {
    var st := Run(messages, chunkSize);
    RunEmptiness(messages, chunkSize);
    var chunks := Chunks(messages, chunkSize);
    assert chunks == st.chunked + [st.current];
    if st.chunked == [] {
      assert chunks[0] == st.current;
    } else {
      assert chunks[0] == st.chunked[0];
    }
  }

  /** Greedy packing: the first message of each chunk would not have fit
      into the chunk before it. */
  predicate Greedy(chunks: seq<seq<Message>>, chunkSize: int) {
    forall k :: 0 <= k < |chunks| - 1 && chunks[k + 1] != [] ==>
      Len(chunks[k]) + |chunks[k + 1][0].contents| > chunkSize
  }

  /** The facts `RunGreedy` keeps about the loop variables. */
  predicate GreedyState(st: ChunkState, chunkSize: int) {
    && Greedy(st.chunked, chunkSize)
    && (st.chunked != [] ==>
          st.current != [] && Len(st.chunked[|st.chunked| - 1]) + |st.current[0].contents| > chunkSize)
  }

  lemma StepGreedy(st: ChunkState, msg: Message, chunkSize: int)
    requires GreedyState(st, chunkSize)
    requires st.length == Len(st.current)
    requires st.chunked != [] ==> st.current != []
    ensures GreedyState(Step(st, msg, chunkSize), chunkSize)
  {
    var next := Step(st, msg, chunkSize);
    if st.length + |msg.contents| > chunkSize {
      assert next.chunked == st.chunked + [st.current];
      forall k | 0 <= k < |next.chunked| - 1 && next.chunked[k + 1] != []
        ensures Len(next.chunked[k]) + |next.chunked[k + 1][0].contents| > chunkSize
      {
        if k + 1 < |st.chunked| {
          assert next.chunked[k] == st.chunked[k] && next.chunked[k + 1] == st.chunked[k + 1];
        } else {
          assert next.chunked[k] == st.chunked[|st.chunked| - 1] && next.chunked[k + 1] == st.current;
        }
      }
    } else if st.current != [] {
      assert (st.current + [msg])[0] == st.current[0];
    }
  }

  lemma {:induction false} RunGreedy(messages: seq<Message>, chunkSize: int)
    ensures GreedyState(Run(messages, chunkSize), chunkSize)
  {
    if messages != [] {
      var init := messages[..|messages| - 1];
      var msg := messages[|messages| - 1];
      var st := Run(init, chunkSize);
      assert Run(messages, chunkSize) == Step(st, msg, chunkSize);
      RunGreedy(init, chunkSize);
      RunLength(init, chunkSize);
      RunEmptiness(init, chunkSize);
      StepGreedy(st, msg, chunkSize);
    }
  }

  /** For every two consecutive chunks, adding the next chunk's first
      message to the earlier chunk would take it over the chunk size. */
  lemma ChunksGreedy(messages: seq<Message>, chunkSize: int)
    ensures Greedy(Chunks(messages, chunkSize), chunkSize)
  {
    var st := Run(messages, chunkSize);
    RunGreedy(messages, chunkSize);
    if st.current != [] {
      var chunks: seq<seq<Message>> := st.chunked + [st.current];
      forall k | 0 <= k < |chunks| - 1 && chunks[k + 1] != []
        ensures Len(chunks[k]) + |chunks[k + 1][0].contents| > chunkSize
      {
        if k + 1 < |st.chunked| {
          assert chunks[k] == st.chunked[k] && chunks[k + 1] == st.chunked[k + 1];
        } else {
          assert chunks[k] == st.chunked[|st.chunked| - 1] && chunks[k + 1] == st.current;
        }
      }
    }
  }

  /** The contents lengths of the messages, in order. */
  function Lengths(messages: seq<Message>): (ls: seq<nat>)
    ensures |ls| == |messages| && forall k :: 0 <= k < |messages| ==> ls[k] == |messages[k].contents|
  {
    seq(|messages|, k requires 0 <= k < |messages| => |messages[k].contents|)
  }

  /** The number of messages in each chunk. */
  function Sizes(chunks: seq<seq<Message>>): (ns: seq<nat>)
    ensures |ns| == |chunks| && forall k :: 0 <= k < |chunks| ==> ns[k] == |chunks[k]|
  {
    seq(|chunks|, k requires 0 <= k < |chunks| => |chunks[k]|)
  }

  lemma {:induction false} RunShape(a: seq<Message>, b: seq<Message>, chunkSize: int)
    requires Lengths(a) == Lengths(b)
    ensures var sa := Run(a, chunkSize);
            var sb := Run(b, chunkSize);
            && Sizes(sa.chunked) == Sizes(sb.chunked)
            && |sa.current| == |sb.current|
            && sa.length == sb.length
  {
    if a != [] {
      var ia := a[..|a| - 1];
      var ib := b[..|b| - 1];
      assert Lengths(ia) == Lengths(ib) by {
        assert forall k :: 0 <= k < |ia| ==> Lengths(ia)[k] == Lengths(a)[k];
        assert forall k :: 0 <= k < |ib| ==> Lengths(ib)[k] == Lengths(b)[k];
      }
      assert |a[|a| - 1].contents| == Lengths(a)[|a| - 1] == Lengths(b)[|b| - 1];
      RunShape(ia, ib, chunkSize);
      var sa := Run(ia, chunkSize);
      var sb := Run(ib, chunkSize);
      assert Sizes(sa.chunked + [sa.current]) == Sizes(sa.chunked) + [|sa.current|];
      assert Sizes(sb.chunked + [sb.current]) == Sizes(sb.chunked) + [|sb.current|];
    }
  }

  /** Where the chunks break depends only on the contents lengths: two
      message lists with the same lengths are cut into chunks of the same
      sizes. */
  lemma ChunksShape(a: seq<Message>, b: seq<Message>, chunkSize: int)
    requires Lengths(a) == Lengths(b)
    ensures Sizes(Chunks(a, chunkSize)) == Sizes(Chunks(b, chunkSize))
  {
    RunShape(a, b, chunkSize);
    var sa := Run(a, chunkSize);
    var sb := Run(b, chunkSize);
    assert Sizes(sa.chunked + [sa.current]) == Sizes(sa.chunked) + [|sa.current|];
    assert Sizes(sb.chunked + [sb.current]) == Sizes(sb.chunked) + [|sb.current|];
  }
}
