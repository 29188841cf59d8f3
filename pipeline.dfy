/** `process_query` up to the summary request: keywords, the SQL
    statement, candidate ranking, curation and context windows, wired
    together with every outside service passed in as a parameter. */
module Pipeline {

  import opened Common
  import opened Budget
  import opened Query
  import opened Responses
  import opened Embedding
  import opened Ranking
  import opened Curation
  import opened Context

  /** The similarity of each batch text to the query. */
  function Scores(batch: seq<string>, similarity: string -> int): (scores: seq<int>)
    ensures |scores| == |batch| && forall k :: 0 <= k < |batch| ==> scores[k] == similarity(batch[k])
  {
    seq(|batch|, k requires 0 <= k < |batch| => similarity(batch[k]))
  }

  /** The candidates at the given positions, in the order of the positions. */
  function Picks(initial: seq<Message>, positions: seq<nat>): (picked: seq<Message>)
    requires forall k :: 0 <= k < |positions| ==> positions[k] < |initial|
    ensures |picked| == |positions|
  {
    seq(|positions|, k requires 0 <= k < |positions| => initial[positions[k]])
  }

  /** The ranked positions kept by the screen: the top `TopCount` of the
      budgeted batch by similarity. */
  function TopPositions(initial: seq<Message>, similarity: string -> int): (top: seq<nat>)
    ensures forall k :: 0 <= k < |top| ==> top[k] < |Budgeted(initial)|
  {
    var scores := Scores(Budgeted(initial), similarity);
    TopNProperties(scores, TopCount);
    TopN(scores, TopCount)
  }

  /** The candidates shown to the curator. With all matches sent, every
      match. Otherwise the embedding request must succeed: it fails when
      the budgeted batch is empty (the first match alone is over the word
      budget) or when the capability does not answer; on success the top
      positions of the batch are picked. */
  function Screening(initial: seq<Message>, sendAllMatches: bool, similarity: string -> int,
                     embeds: seq<string> -> bool): Result<seq<Message>>
  {
    if sendAllMatches then Ok(initial)
    else if Budgeted(initial) == [] || !embeds(Budgeted(initial)) then Err(EmbeddingFailure)
    else Ok(Picks(initial, TopPositions(initial, similarity)))
  }

  /** What the screen promises: only matches; with embedding, between one
      and `TopCount` of them in non-increasing similarity, and no budgeted
      match left out is more similar than one kept. */
  lemma ScreeningProperties(initial: seq<Message>, sendAllMatches: bool, similarity: string -> int,
                            embeds: seq<string> -> bool)
    ensures var s := Screening(initial, sendAllMatches, similarity, embeds);
            && (s.Err? ==> !sendAllMatches && s.error == EmbeddingFailure)
            && (s.Ok? ==> forall m :: m in s.value ==> m in initial)
            && (!sendAllMatches && s.Ok? ==> 1 <= |s.value| <= TopCount)
            && (!sendAllMatches && s.Ok? ==>
                  forall a, b :: 0 <= a < b < |s.value| ==>
                    similarity(s.value[a].contents) >= similarity(s.value[b].contents))
            && (!sendAllMatches && s.Ok? ==>
                  forall i, k :: 0 <= i < |Budgeted(initial)| && i !in TopPositions(initial, similarity) && 0 <= k < |s.value| ==>
                    similarity(initial[i].contents) <= similarity(s.value[k].contents))
  {
    var s := Screening(initial, sendAllMatches, similarity, embeds);
    if !sendAllMatches && s.Ok? {
      var batch := Budgeted(initial);
      PicksRanked(initial, batch, similarity, TopPositions(initial, similarity));
    }
  }

  /** The picks of the top positions of a batch of candidate contents. */
  lemma PicksRanked(initial: seq<Message>, batch: seq<string>, similarity: string -> int, top: seq<nat>)
    requires |batch| <= |initial| && forall k :: 0 <= k < |batch| ==> batch[k] == initial[k].contents
    requires top == TopN(Scores(batch, similarity), TopCount)
    requires forall k :: 0 <= k < |top| ==> top[k] < |batch|
    ensures var p := Picks(initial, top);
            && (forall m :: m in p ==> m in initial)
            && (batch != [] ==> 1 <= |p|) && |p| <= TopCount
            && (forall a, b :: 0 <= a < b < |p| ==> similarity(p[a].contents) >= similarity(p[b].contents))
            && (forall i, k :: 0 <= i < |batch| && i !in top && 0 <= k < |p| ==>
                  similarity(initial[i].contents) <= similarity(p[k].contents))
  {
    var scores := Scores(batch, similarity);
    TopNProperties(scores, TopCount);
    PicksMembers(initial, top);
    PicksOrder(initial, batch, similarity, top);
  }

  lemma PicksMembers(initial: seq<Message>, top: seq<nat>)
    requires forall k :: 0 <= k < |top| ==> top[k] < |initial|
    ensures forall m :: m in Picks(initial, top) ==> m in initial
  {
    var p := Picks(initial, top);
    forall m | m in p ensures m in initial {
      var k :| 0 <= k < |p| && p[k] == m;
      assert initial[top[k]] == m;
    }
  }

  lemma PicksOrder(initial: seq<Message>, batch: seq<string>, similarity: string -> int, top: seq<nat>)
    requires |batch| <= |initial| && forall k :: 0 <= k < |batch| ==> batch[k] == initial[k].contents
    requires forall k :: 0 <= k < |top| ==> top[k] < |batch|
    requires forall a, b :: 0 <= a < b < |top| ==> Scores(batch, similarity)[top[a]] >= Scores(batch, similarity)[top[b]]
    requires forall i, k :: 0 <= i < |batch| && i !in top && 0 <= k < |top| ==>
               Scores(batch, similarity)[i] <= Scores(batch, similarity)[top[k]]
    ensures var p := Picks(initial, top);
            && (forall a, b :: 0 <= a < b < |p| ==> similarity(p[a].contents) >= similarity(p[b].contents))
            && (forall i, k :: 0 <= i < |batch| && i !in top && 0 <= k < |p| ==>
                  similarity(initial[i].contents) <= similarity(p[k].contents))
  {
    var scores := Scores(batch, similarity);
    var p := Picks(initial, top);
    assert forall k :: 0 <= k < |top| ==> p[k].contents == batch[top[k]];
    forall a, b | 0 <= a < b < |p|
      ensures similarity(p[a].contents) >= similarity(p[b].contents)
    {
      assert scores[top[a]] >= scores[top[b]];
    }
    forall i, k | 0 <= i < |batch| && i !in top && 0 <= k < |p|
      ensures similarity(initial[i].contents) <= similarity(p[k].contents)
    {
      assert scores[i] <= scores[top[k]];
    }
  }

  /** The curator's pick among the shown candidates. */
  function Curated(selected: seq<Message>, curatorReply: seq<Message> -> string,
                   decode: string -> Option<Json>): Result<seq<Message>>
  {
    Curate(selected, ReplySelection(curatorReply(selected), decode))
  }

  /** The pipeline after the search: screening, curation and one context
      window per curated message. */
  function Retrieval(initial: seq<Message>, sendAllMatches: bool, similarity: string -> int,
                     embeds: seq<string> -> bool, curatorReply: seq<Message> -> string,
                     decode: string -> Option<Json>, fetch: (int, int) -> seq<Message>): Result<seq<seq<Message>>>
  {
    var screened := Screening(initial, sendAllMatches, similarity, embeds);
    if screened.Err? then Err(screened.error)
    else
      var curated := Curated(screened.value, curatorReply, decode);
      if curated.Err? then Err(curated.error)
      else Ok(Windows(curated.value, fetch, DefaultMinutes))
  }

  /** When retrieval fails and when it succeeds: it fails exactly when the
      screen fails or when the curator's reply decodes to something that
      is neither a list nor an object while there are candidates to test;
      a success is one window per curated message, each curated message a
      shown candidate, a match, and listed by the reply when the reply is
      a list; with screening at most `TopCount` are curated. */
  lemma RetrievalProperties(initial: seq<Message>, sendAllMatches: bool, similarity: string -> int,
                            embeds: seq<string> -> bool, curatorReply: seq<Message> -> string,
                            decode: string -> Option<Json>, fetch: (int, int) -> seq<Message>)
    ensures var s := Screening(initial, sendAllMatches, similarity, embeds);
            var r := Retrieval(initial, sendAllMatches, similarity, embeds, curatorReply, decode, fetch);
            && (r.Err? <==>
                  (s.Err? || (var v := ReplySelection(curatorReply(s.value), decode); !v.JArray? && !v.JObject? && s.value != [])))
            && (r.Err? ==> r.error == EmbeddingFailure || r.error == TypeMismatch)
            && (r.Ok? ==>
                  var v := ReplySelection(curatorReply(s.value), decode);
                  var curated := Curated(s.value, curatorReply, decode).value;
                  && r.value == Windows(curated, fetch, DefaultMinutes)
                  && (forall m :: m in curated ==> m in s.value && m in initial)
                  && (v.JArray? ==> forall m :: m in curated ==> Listed(v.items, m.id))
                  && (!sendAllMatches ==> |curated| <= TopCount))
  {
    ScreeningProperties(initial, sendAllMatches, similarity, embeds);
  }

  /** The embedding screen: the batch within the word budget goes to the
      embedding capability; its top positions by similarity pick the
      candidates shown to the curator. */
  method RankCandidates(initial: seq<Message>, similarity: string -> int, embeds: seq<string> -> bool)
    returns (r: Result<seq<Message>>)
    ensures r == Screening(initial, false, similarity, embeds)
  {
    var batch, tokenCount := EmbeddingBatch(initial);
    if batch == [] || !embeds(batch) {
      return Err(EmbeddingFailure);
    }
    var similarities := Scores(batch, similarity);
    var topN := TopN(similarities, TopCount);
    TopNProperties(similarities, TopCount);
    r := Ok(seq(|topN|, k requires 0 <= k < |topN| => initial[topN[k]]));
  }

  /** The candidates shown to the curator. */
  method Screen(initial: seq<Message>, sendAllMatches: bool, similarity: string -> int, embeds: seq<string> -> bool)
    returns (r: Result<seq<Message>>)
    ensures r == Screening(initial, sendAllMatches, similarity, embeds)
  {
    if sendAllMatches {
      r := Ok(initial);
    } else {
      r := RankCandidates(initial, similarity, embeds);
    }
  }

  /** The pipeline after the search, step by step. */
  method SelectAndExpand(
    initial: seq<Message>, sendAllMatches: bool, similarity: string -> int, embeds: seq<string> -> bool,
    curatorReply: seq<Message> -> string, decode: string -> Option<Json>, fetch: (int, int) -> seq<Message>)
    returns (r: Result<seq<seq<Message>>>)
    ensures r == Retrieval(initial, sendAllMatches, similarity, embeds, curatorReply, decode, fetch)
  {
    var selected := Screen(initial, sendAllMatches, similarity, embeds);
    if selected.Err? {
      return Err(selected.error);
    }
    var selectedMessages := selected.value;
    var relevantMessageIds := ReplySelection(curatorReply(selectedMessages), decode);
    var relevant := Curate(selectedMessages, relevantMessageIds);
    if relevant.Err? {
      return Err(relevant.error);
    }
    var expanded := ContextualExpansion(relevant.value, fetch, DefaultMinutes);
    r := Ok(expanded);
  }

  /** The retrieval pipeline. Keywords come from the override or from the
      keyword reply; the statement's rows come from `search`; an empty
      result ends the run; the rest is `Retrieval`. Errors end the run, as
      the exceptions and the exit do in the script. */
  method ProcessQuery(
    keywordOverride: Option<string>, keywordReply: string, decode: string -> Option<Json>,
    search: string -> seq<Message>, sendAllMatches: bool, similarity: string -> int,
    embeds: seq<string> -> bool, curatorReply: seq<Message> -> string, fetch: (int, int) -> seq<Message>)
    returns (r: Result<seq<seq<Message>>>)
    ensures var keywords := ChooseKeywords(keywordOverride, ReplyKeywords(keywordReply, decode));
            && (keywords.Err? ==> r == Err(keywords.error))
            && (keywords == Ok([]) ==> r == Err(InvalidQuery))
            && (keywords.Ok? && keywords.value != [] ==>
                  var initial := search(SearchStatement(keywords.value).value);
                  && (initial == [] ==> r == Err(NoResults))
                  && (initial != [] ==>
                        r == Retrieval(initial, sendAllMatches, similarity, embeds, curatorReply, decode, fetch)))
  {
    var keywords := ChooseKeywords(keywordOverride, ReplyKeywords(keywordReply, decode));
    if keywords.Err? {
      return Err(keywords.error);
    }
    var statement := SearchStatement(keywords.value);
    if statement.Err? {
      return Err(statement.error);
    }
    var initialResults := search(statement.value);
    if |initialResults| == 0 {
      return Err(NoResults);
    }
    r := SelectAndExpand(initialResults, sendAllMatches, similarity, embeds, curatorReply, decode, fetch);
  }
}
