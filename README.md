# discord-dm-searcher: a verified model of the retrieval glue

discord-dm-searcher answers natural-language questions about the history
of one Discord direct-message channel. `ingest_messages.py` loads an
exported JSON file into an SQLite table. For each record it rewrites
`<@id>` mentions into `@name`, takes the author name from the file name
and builds a deep link to the message. `search_messages.py` runs the
retrieval pipeline. It asks a language model for keywords (or takes a
comma-separated override) and selects candidate rows with a
`contents LIKE ... OR ...` statement. It screens the candidates by
embedding similarity: a word-budgeted batch, then a stable top 200. A
second model call curates the screened list, and each curated message is
widened to the messages within 60 minutes of it. The windows are packed
into a transcript under a token estimate, and the summary is saved under
a file name that does not overwrite an earlier one.
`summarize_discord.py` packs messages greedily into chunks bounded by
contents length.

This project models the deterministic parts of that flow in Dafny. Every
outside service is a parameter: the language model's replies, the JSON
decoder (a partial function to a small `Json` datatype), the database
query, the similarity score and the time-range fetch. The model states
what each step promises and proves it.

Modules, by file:

- `common.dfy`: messages, options, results, error kinds, decoded JSON.
- `text.dfy`: Python's `str.strip`, `str.split()`, `str.split(sep)`,
  `sep.join` and `str.replace`, and the laws that tie them together.
- `decimal.dfy`: `str(int)` and its inverse.
- `paths.dfy`: POSIX `os.path.basename` and `os.path.splitext`.
- `budget.dfy`: running totals and the greedy stop used by both budget
  loops.
- `ingest.dfy`: mention rewriting, the author name, links, rows.
- `query.dfy`: the keyword override, quote escaping, and the WHERE
  condition with a parser that reads it back.
- `responses.dfy`: fence stripping and the reading of decoded replies.
- `embedding.dfy`: the embedding batch.
- `ranking.dfy`: the stable top-N over integer scores.
- `curation.dfy`: the curation filter.
- `context.dfy`: the context windows.
- `transcript.dfy`: the transcript accumulation.
- `naming.dfy`: the output file name.
- `chunking.dfy`: `chunk_messages`.
- `pipeline.dfy`: `process_query` up to the summary request.

Behaviour that is easy to misread, as the code does it:

- Candidate selection uses SQLite `LIKE`, not a case-sensitive substring
  test.
- A keyword list that is empty yields an empty WHERE condition. The
  database then rejects the statement and the error is raised again.
- The curator's reply is not checked to be a list. An object selects
  nothing, and a scalar or a string raises as soon as a candidate's id is
  looked up in it.
- Insertion has no duplicate-key check of its own.

## Model

| member | source | states |
|---|---|---|
| Text.Strip | src/search_messages.py:35 | `str.strip()`: the result is a contiguous piece of the input with only whitespace around it, and it neither starts nor ends with whitespace |
| Text.StripPadded | src/search_messages.py:35 | stripping whitespace padding from both ends of a text that neither starts nor ends with whitespace gives that text back |
| Text.SplitJoin | src/search_messages.py:212 | joining the pieces of `s.split(sep)` with `sep` gives back `s` |
| Text.SplitPiecesFree | src/search_messages.py:212 | no piece of `s.split(sep)` contains the separator |
| Text.ReplaceIsJoinOfSplit | src/ingest_messages.py:38 | `s.replace(p, r)` equals `r.join(s.split(p))`: each leftmost non-overlapping occurrence is rewritten and the text between is kept |
| Text.ReplaceAbsent | src/ingest_messages.py:38 | `str.replace` changes nothing when the pattern does not occur |
| Decimal.IntTextRoundTrip | src/ingest_messages.py:60 | `str(n)` can be parsed back to `n` |
| Decimal.IntTextInjective | src/ingest_messages.py:60 | distinct integers have distinct decimal texts |
| Paths.Basename | src/ingest_messages.py:50 | `basename(p)` is the suffix of `p` after its last `/` and holds no `/` |
| Paths.SplitExt | src/ingest_messages.py:50 | `splitext(p)`: root + extension is `p`; the extension is empty or starts at a dot, has no other dot and no `/`, and some non-dot precedes it in the last component |
| Paths.SplitExtAtLastDot | src/ingest_messages.py:50 | the extension starts exactly at the last dot when that dot is in the last component after a non-dot |
| Paths.SplitExtNoDot | src/ingest_messages.py:50 | a last component without a dot keeps the whole path as root |
| Ingest.LinkRoundTrip | src/ingest_messages.py:53-60 | the message id can be read back from the deep link, which is the fixed channel prefix followed by the decimal id |
| Ingest.LinkInjective | src/ingest_messages.py:53-60 | distinct message ids give distinct links |
| Ingest.AuthorNameOfPath | src/ingest_messages.py:50 | the author name is the base name of the data file without its extension and contains no `/` |
| Ingest.ConvertMentions | src/ingest_messages.py:36-39 | the loop applies one replacement per mapping entry in iteration order; an empty mapping leaves the contents unchanged |
| Ingest.MentionedAppend | src/ingest_messages.py:37-38 | applying the mapping in two parts is the same as applying it whole, so entries act in iteration order |
| Ingest.MentionedWithoutMarker | src/ingest_messages.py:37-38 | contents without `<@` are returned unchanged whatever the mapping |
| Ingest.MentionedOneEntry | src/ingest_messages.py:38 | for one entry, the contents are pieces joined by `<@id>` with no `<@id>` inside a piece, and the result is the same pieces joined by `@name` |
| Ingest.RowOfRecord | src/ingest_messages.py:56-65 | a row copies id, timestamp and attachments unchanged, carries the author name and the converted contents, and its link leads back to its id |
| Ingest.InsertRecords | src/ingest_messages.py:55-65 | one row per record, in file order |
| Ingest.InsertData | src/ingest_messages.py:49-65 | every row carries the author name derived from the data path |
| Query.OverrideKeywordsSpec | src/search_messages.py:211-212 | the override yields one stripped keyword per comma-separated piece, at least one; the pieces joined by commas give the override back |
| Query.EscapeIsReplace | src/search_messages.py:47 | the quote escaping equals `keyword.replace("'", "''")` as the general replacement defines it |
| Query.EscapeRoundTrip | src/search_messages.py:47 | escaping only doubles quotes: collapsing doubled quotes recovers the keyword |
| Query.EscapeQuoteFree | src/search_messages.py:47 | a keyword without quotes is left as it is |
| Query.ReadEscaped | src/search_messages.py:47-48 | an escaped keyword read as an SQL literal gives back the keyword and ends at the intended closing quote |
| Query.WhereClauseRoundTrip | src/search_messages.py:47-48 | the WHERE condition parses back to exactly the keywords, one `contents LIKE '%k%'` term each, in order, joined by ` OR `; it is empty exactly when there are no keywords |
| Query.SearchStatement | src/search_messages.py:50-62 | no keywords is an error; otherwise the statement is the fixed SELECT text around a condition that parses back to the keywords |
| Query.ChooseKeywords | src/search_messages.py:211-216 | a non-empty override is used exactly: the result is its stripped comma-separated pieces, at least one; otherwise the keywords derived from the model's reply are used, errors included |
| Responses.StripFence | src/search_messages.py:35-37 | what reaches the decoder is a contiguous piece of the reply |
| Responses.StripFenceRoundTrip | src/search_messages.py:35-37 | a reply that, whatever whitespace surrounds it, is ```` ```json ```` + body + ```` ``` ```` reaches the decoder as the stripped body |
| Responses.StripFenceUnclosed | src/search_messages.py:35-37 | a fenced reply without a closing fence still loses its last 3 characters: the decoder sees the body without its last 3 characters, stripped |
| Responses.StripFenceUnfenced | src/search_messages.py:35-37 | an unfenced reply reaches the decoder as itself with only its surrounding whitespace removed |
| Responses.Get | src/search_messages.py:216 | `.get(key, default)` is the default exactly when no member has the key, and otherwise the value of the last member with that key |
| Responses.Keys | src/search_messages.py:47 | iterating a decoded object yields its keys once each, exactly those of its members, in order of first appearance |
| Responses.AsKeywords | src/search_messages.py:47 | a list of strings yields exactly its strings, a string exactly its characters, an object exactly its keys; a list holding a non-string and every scalar raise |
| Responses.ReplyKeywords | src/search_messages.py:35-40 | a reply that does not decode is fatal; a decoded non-object raises; keywords come only from a decoded object |
| Responses.ReplyKeywordsOfMember | src/search_messages.py:215-216 | the keywords of a reply are read from the value of the last `keywords` member of the decoded object; when that value is a list of strings they are exactly those strings |
| Responses.AsKeywordsOfStrings | src/search_messages.py:47 | a decoded list of strings is read back as exactly those strings |
| Responses.MissingKeywordsIsEmpty | src/search_messages.py:216 | an object without a `keywords` member yields no keywords |
| Responses.ReplySelection | src/search_messages.py:125-135 | a curator reply that does not decode becomes the empty list; otherwise the decoded value is used |
| Budget.GreedyStopIsLongest | src/search_messages.py:78-79 | stopping at the first item that would overflow leaves the longest prefix within the ceiling |
| Budget.Fit | src/search_messages.py:74-81 | the greedy scan length: a prefix within the ceiling such that every longer prefix is over it |
| Budget.LongestIsFit | src/search_messages.py:74-81 | any prefix length within the ceiling whose every extension is over it is the greedy scan length, so the budgeted prefix is unique |
| Embedding.WordCosts | src/search_messages.py:75-77 | each candidate's cost is the number of whitespace-separated words of its contents |
| Embedding.Budgeted | src/search_messages.py:68-81 | the budgeted batch is the contents of the longest prefix of candidates whose word total is at most 900000 |
| Embedding.EmbeddingBatch | src/search_messages.py:68-81 | the loop computes exactly the budgeted batch: whole messages only, in order, and the running count is their word total |
| Embedding.AllFit | src/search_messages.py:74-81 | when all candidates fit in the budget, all of them are sent |
| Ranking.Insert | src/search_messages.py:234 | insertion keeps the list ranked by descending score and then ascending position, and adds exactly one position |
| Ranking.SortByScore | src/search_messages.py:234 | the sort is a permutation of its input ranked by descending score, ties by ascending position |
| Ranking.TopNProperties | src/search_messages.py:233-234 | `top_n` has min(N, len) distinct valid positions, non-increasing scores, ties in ascending position, and every omitted position comes after every kept one in the stable descending order |
| Ranking.SortedIsPermutation | src/search_messages.py:234 | every position is ranked exactly once before the cut |
| Curation.Listed | src/search_messages.py:238 | `id in list` holds exactly when some item equals the id, with `true`/`false` equal to 1/0 |
| Curation.Keep | src/search_messages.py:238 | the kept candidates are exactly those whose id is listed, each as often as among the candidates |
| Curation.Curate | src/search_messages.py:238 | a list reply filters by membership, an object reply keeps nothing, any other reply raises unless there is no candidate; what is kept is drawn from the candidates and never outnumbers them |
| Curation.KeepIsSubsequence | src/search_messages.py:238 | the curated list keeps the candidates' order |
| Curation.UnknownIdsIgnored | src/search_messages.py:238 | ids that belong to no candidate change nothing and raise nothing |
| Curation.AllListedKeepsAll | src/search_messages.py:238 | a reply naming every candidate keeps them all |
| Context.Window | src/search_messages.py:143-144 | the window is symmetric, `minutes * 60` seconds either side of the timestamp |
| Context.ContextualExpansion | src/search_messages.py:138-148 | one window per curated message, in order, fetched with that message's bounds |
| Context.WindowsBounded | src/search_messages.py:141-147 | with a range query that returns only messages inside its bounds, every message of a window lies within the window's width of its curated message |
| Context.WindowsComplete | src/search_messages.py:141-147 | with a range query that returns every stored message inside its bounds, a stored message appears in its own window together with every stored neighbour within the width |
| Transcript.EstimateTenths | src/search_messages.py:160-161 | every group is estimated at no less than 100 tokens |
| Transcript.Accumulate | src/search_messages.py:153-167 | the included groups are a prefix of the windows, their estimates sum to the total, which stays within 124000 tokens, and every longer prefix would exceed it; the transcript built is a prefix of the transcript of all windows |
| Transcript.IncludedBound | src/search_messages.py:161-163 | at most 1240 groups are ever included |
| Transcript.ConversationsPrefix | src/search_messages.py:166 | the transcript of fewer groups is a prefix of the transcript of more |
| Naming.ReplaceSlash | src/search_messages.py:193 | replacing `/` by `_` keeps the length and changes nothing else |
| Naming.Sanitize | src/search_messages.py:192-194 | the sanitised query has no `/`, at most 100 characters, and is the query's root with `/` turned into `_` |
| Naming.NumberedName | src/search_messages.py:201 | a numbered name is `searches/summary_` + sanitised query + `-` + counter + `.txt` |
| Naming.AttemptInjective | src/search_messages.py:199-202 | different attempts try different names |
| Naming.NotTriedYet | src/search_messages.py:199-202 | each attempt tries a name not tried before |
| Naming.FirstFreeName | src/search_messages.py:196-202 | the result is not an existing file; the base is tried first, then `-2`, `-3`, … in order, each earlier one existing; the loop ends for every finite set of existing files |
| Naming.SaveFileName | src/search_messages.py:187-208 | the saved name is the first free attempt built from the sanitised query |
| Naming.AttemptsBounded | src/search_messages.py:199-202 | the names passed over are distinct existing files, so there are at most as many attempts as existing files |
| Chunking.Chunks | src/summarize_discord.py:30-47 | empty input yields no chunks |
| Chunking.ChunkMessages | src/summarize_discord.py:29-47 | the loop computes the chunk list defined by one step per message and a final flush of a non-empty current chunk |
| Chunking.RunLength | src/summarize_discord.py:35-42 | the running length is the current chunk's total contents length |
| Chunking.RunKeepsMessages | src/summarize_discord.py:34-42 | the closed chunks followed by the current one are the messages read so far |
| Chunking.ChunksFlatten | src/summarize_discord.py:29-47 | the chunks laid end to end are the input: nothing lost, duplicated or reordered |
| Chunking.ChunksBounded | src/summarize_discord.py:34-42 | each chunk's contents total is at most the chunk size, unless the chunk holds at most one message |
| Chunking.ChunksEmptiness | src/summarize_discord.py:31-45 | for non-empty input, only the first chunk can be empty, exactly when the first message is longer than the chunk size, and the last chunk is non-empty |
| Chunking.ChunksGreedy | src/summarize_discord.py:36-39 | for consecutive chunks, the later chunk's first message would not have fit into the earlier one |
| Chunking.ChunksShape | src/summarize_discord.py:35-36 | chunk sizes depend only on the contents lengths |
| Pipeline.Scores | src/search_messages.py:102-106 | one similarity per batch text, in batch order |
| Pipeline.ScreeningProperties | src/search_messages.py:223-236 | the screen fails only with embedding on, and then with an embedding failure; what it shows is drawn from the matches; with embedding it shows between 1 and 200 matches in non-increasing similarity, and no budgeted match left out is more similar than one shown |
| Pipeline.RankCandidates | src/search_messages.py:227-236 | the ranking computes the embedding screen: an empty budgeted batch or a failed embedding request is an embedding failure, otherwise the candidates at the top 200 positions of the budgeted batch by similarity, in ranked order |
| Pipeline.Screen | src/search_messages.py:223-236 | with all matches sent the curator sees every match, otherwise the result of the embedding screen |
| Pipeline.RetrievalProperties | src/search_messages.py:223-240 | after the search, the run fails exactly when the screen fails or the curator's decoded reply is neither a list nor an object and there are candidates, and only with an embedding failure or a type error; a result is one window per curated message, the curated messages are screened matches named by the curator's list, and with screening at most 200 |
| Pipeline.SelectAndExpand | src/search_messages.py:223-240 | computes the retrieval after the search: screen, curate with the curator's reply, and fetch the window around each curated message |
| Pipeline.ProcessQuery | src/search_messages.py:210-240 | keyword errors propagate; no keywords is an invalid query; no candidates ends the run; otherwise the result is the retrieval over the candidates the SQL statement for the keywords returns |

## Left out

- The language model calls (keywords, curation, summaries) and both
  embedding calls. Their replies and the similarity of a text to the
  query are parameters.
- Pipeline.Screening: the two embedding requests (the query and the
  batch) are one outcome, `embeds(batch)`, that holds when both answer.
  No vectors are modelled, so a reply with fewer vectors than texts is
  not represented; the empty batch is an embedding failure, as the
  capability rejects an empty input.
- `json.loads` is an abstract partial decoder. Python builds a dict in
  which the last duplicate key wins, and `Responses.Get` models that.
- SQLite: connecting, creating the table, executing statements, and
  `LIKE` matching. `LIKE` is ASCII case-insensitive, and `%`/`_` inside
  keywords act as wildcards. The model stops at the SQL text, and the
  search result is a parameter.
- Floating point. Similarities are integers standing for the dot
  products. The estimate `words * 4.7 + 100` is kept exactly in tenths,
  so binary rounding of 4.7 is not modelled.
- Dates. Timestamps are integer seconds, not the `%Y-%m-%d %H:%M:%S`
  strings parsed and formatted with `strptime`/`strftime`. The
  transcript's date text is a parameter.
- `estimate_tokens`, `trim_messages`, `load_config` and
  `query_messages_by_timestamp_range`. The module that should define them
  is not part of this model. So the token trimming after the expansion is
  left out, and the range query is the parameter `fetch`.
- Pipeline.ProcessQuery: stops after the context windows. The summary
  request, the transcript prompt text and the file write are not chained
  in, though the transcript loop and the file naming are modelled on
  their own.
- `exit(1)` when there are no candidates becomes the error `NoResults`.
  Raised exceptions become `Err` results.
- The filesystem: `os.path.exists`, `makedirs` and `open`. Existing files
  are a set.
- Curation.Matches: a JSON number written with a fraction or an exponent
  (such as `5.0`) never equals an id. Python would compare `5.0 == 5` as
  true.
- Ingest.Record: ids and timestamps are integers. Reading the export file
  is left out, and so is the progress bar.
- Command-line parsing and the `main` functions, including the
  date-walking loop of `summarize_discord.py`. `argparse` collects
  `--keyword-override` into a list, and this layer is not modelled.
- `bot.py` (Discord bot wiring), `utils.py` (client set-up) and the
  import test.
