/** The choice of which candidate messages are sent to the embedding
    service: whole messages, in candidate order, while their summed word
    counts stay within the service's budget. The embedding call itself is
    outside the model. */
module Embedding {

  import opened Common
  import opened Text
  import opened Budget

  /** The word budget of one embedding request. */
  const MaxEmbeddingWords: nat := 900000

  /** The cost of each candidate: the number of words of its contents. */
  function WordCosts(messages: seq<Message>): (costs: seq<nat>)
    ensures |costs| == |messages|
    ensures forall k :: 0 <= k < |messages| ==> costs[k] == WordCount(messages[k].contents)
  {
    seq(|messages|, k requires 0 <= k < |messages| => WordCount(messages[k].contents))
  }

  /** The texts the embedding request carries: the contents of the longest
      prefix of candidates within the word budget. */
  function Budgeted(messages: seq<Message>): (batch: seq<string>)
    ensures |batch| <= |messages|
    ensures Sum(WordCosts(messages)[..|batch|]) <= MaxEmbeddingWords
    ensures forall m :: |batch| < m <= |messages| ==> Sum(WordCosts(messages)[..m]) > MaxEmbeddingWords
    ensures forall k :: 0 <= k < |batch| ==> batch[k] == messages[k].contents
  {
    var n := Fit(WordCosts(messages), MaxEmbeddingWords);
    seq(n, k requires 0 <= k < n => messages[k].contents)
  }

  /** `batch` holds the contents of the first candidates, in order. */
  predicate ContentsPrefix(batch: seq<string>, messages: seq<Message>) {
    |batch| <= |messages| && forall k :: 0 <= k < |batch| ==> batch[k] == messages[k].contents
  }

  lemma ContentsPrefixSnoc(batch: seq<string>, messages: seq<Message>)
    requires ContentsPrefix(batch, messages) && |batch| < |messages|
    ensures ContentsPrefix(batch + [messages[|batch|].contents], messages)
  {
  }

  /** The loop of `get_message_embeddings`: takes contents in order and
      stops at the first message whose words would exceed the budget. The
      batch is the contents of the longest prefix of candidates within the
      budget, and the running count is that prefix's word total. */
  method EmbeddingBatch(messages: seq<Message>) returns (batch: seq<string>, tokenCount: nat)
    ensures |batch| <= |messages|
    ensures forall k :: 0 <= k < |batch| ==> batch[k] == messages[k].contents
    ensures tokenCount == Sum(WordCosts(messages)[..|batch|])
    ensures tokenCount <= MaxEmbeddingWords
    ensures forall m :: |batch| < m <= |messages| ==> Sum(WordCosts(messages)[..m]) > MaxEmbeddingWords
    ensures batch == Budgeted(messages)
  {
    ghost var costs := WordCosts(messages);
    batch := [];
    tokenCount := 0;
    var i := 0;
    while i < |messages|
      invariant i <= |messages| && |batch| == i
      invariant ContentsPrefix(batch, messages)
      invariant tokenCount == Sum(costs[..i]) <= MaxEmbeddingWords
    {
      var text := messages[i].contents;
      var wordCount := WordCount(text);
      if tokenCount + wordCount > MaxEmbeddingWords {
        GreedyStopIsLongest(costs, i, MaxEmbeddingWords);
        break;
      }
      SumSnoc(costs, i);
      ContentsPrefixSnoc(batch, messages);
      batch := batch + [text];
      tokenCount := tokenCount + wordCount;
      i := i + 1;
    }
    LongestIsFit(costs, |batch|, MaxEmbeddingWords);
  }

  /** When all candidates fit, all of them are sent. */
  lemma AllFit(messages: seq<Message>, batch: seq<string>)
    requires Sum(WordCosts(messages)) <= MaxEmbeddingWords
    requires |batch| <= |messages|
    requires forall m :: |batch| < m <= |messages| ==> Sum(WordCosts(messages)[..m]) > MaxEmbeddingWords
    ensures |batch| == |messages|
  {
    var costs := WordCosts(messages);
    assert costs[..|messages|] == costs;
  }
}
