# Intelli GraphRAG core, modelled in Dafny

Intelli GraphRAG is a question-answering service over uploaded documents. It builds a GraphRAG
index (community reports) per collection. On each question it assembles a context from the top
community reports and from the raw uploaded text, then asks a chat model. This project models
the service's sequential core and proves properties of it:

- **Report context** (`report_context.dfy`, module `ReportContext`):
  - the stable descending rank sort, which falls back to the input order when a rank cannot be converted;
  - the rendering of at most six `[Report i]` blocks, and the character budget shared by both report formatters;
  - the raw-text combiner over the uploaded `.txt`/`.md` files;
  - the labelled two-part context assembly.
- **Chat service** (`chat_service.dfy`, module `ChatService`):
  - the last-user-text scan;
  - the streaming formatter with its partial block;
  - the server-sent-events line filter of the model stream;
  - the Sources-and-`[DONE]` suffix of the chat stream;
  - the validation and assembly steps of `chat_with_data`;
  - the citation image name.
- **GraphRAG query** (`graphrag_query.dfy`, module `GraphRagQuery`):
  - the whole-blocks formatter;
  - `<sep>` title packing, and unpacking during report normalisation;
  - the `abfs://container/blob` split;
  - the hybrid answer's refusal short-circuit and user message.
- **Routes** (`routes.dfy`, module `Routes`): the `RouteConfigurator` class. It holds the
  per-collection indexing status map and the local collection folders. It has the start guard,
  background completion and failure, status read, index creation and removal, upload, and the
  `operations_restricted` guards.
- **Benchmark** (`run_benchmark.dfy`, module `Benchmark`):
  - the question-file validator;
  - the legacy string-list normalisation with ids `q01`, `q02`, …;
  - phrase scoring;
  - the restriction setting;
  - the answer preview and the retrieval hit.

`text.dfy` (module `Text`) models the Python string operations the code relies on:

- `strip` over Python's whitespace set, ASCII `lower`, `startswith`/`endswith`, `in`, `find`;
- `split`/`join` with the round trip between them;
- `replace`, slicing, and decimal numerals.

`wrappers.dfy` holds `Option` and `Result`.

Each loop that updates variables step by step (the last-user-text scan, the report formatters,
the text loader, the stream relays, the report normalisation, the indexable-file scan, the legacy
normalisation and the phrase scoring) is a `method` proved equal to a specification function, and the properties the source promises are
lemmas about that function. The two `for` loops of `validate_questions`
(benchmarks/run_benchmark.py:32-46) are the exception: they keep no state besides the position
and stop at the first failure, so they are the recursive functions ValidateEntries (with
EntryError for one entry) and FirstNonString, which visit the same positions in the same order
and give the first failure's message. The outside world is taken as parameters:

- the folder listing;
- the uploaded files as (name, optional content) pairs, where a missing content is a file that could not be read;
- the result of the global search;
- the API key and upstream response;
- the environment settings.

## Model

| member | source | states |
|---|---|---|
| ReportContext.SortByRankDescFacts | app/query/chat_service.py:35-38 | the rank sort yields a list ordered by descending rank (missing rank counts as 0) that is a permutation of its input and keeps reports of equal rank in their input order |
| ReportContext.RankOrderFacts | app/query/chat_service.py:35-38 | if any rank fails conversion the list keeps its input order unchanged; otherwise it is the stable descending sort |
| ReportContext.RankOrder | app/query/chat_service.py:35-38 | the order both formatters walk: input order when some rank fails to convert, else the stable descending rank sort (its properties are RankOrderFacts) |
| ReportContext.HigherRankFirst | app/query/chat_service.py:35-38 | a report ranked 9 is placed before one ranked 2 that came first |
| ReportContext.RenderBlock | app/query/chat_service.py:44-49 | the block: a header `[Report i] Title: t`, then `Id: d` and `Rank: k`, separated by vertical bars; then a newline, the stripped content and a newline; `report`, `unknown` and the empty text stand for missing fields |
| ReportContext.FirstReports | app/query/chat_service.py:43 | at most six reports are kept, and they are a prefix of the ordered list; six are kept whenever six exist, and every report is kept unchanged when there are at most six |
| ReportContext.BudgetedChunks | app/query/chat_service.py:40-57 | the chunks kept under the budget: the blocks that fit whole, then, with partial blocks, the first block that does not fit cut to the remaining room when more than 200 characters remain (its properties are BudgetedChunksShape, FitCountFirstOverflow and BudgetIgnoresLater) |
| ReportContext.BudgetedChunksShape | app/query/chat_service.py:43-57 | whole blocks are kept while the running total fits the budget; at the first overflow one extra chunk is added exactly when partial blocks are allowed and more than 200 characters remain, and it is that block cut to exactly the remaining room, plus a newline; the kept text is at most the budget plus one character per cut chunk |
| ReportContext.FitCountFirstOverflow | app/query/chat_service.py:50-57 | the kept whole blocks fit the budget, and adding the next one would exceed it |
| ReportContext.BudgetIgnoresLater | app/query/chat_service.py:50-54 | no block after the first one that overflows the budget affects the result: any prefix of the blocks that reaches past the fitting ones keeps exactly the same chunks |
| ReportContext.BudgetAllFit | app/query/chat_service.py:43-57 | when every block fits, all blocks are kept unchanged |
| ReportContext.OversizedSingleBlock | app/query/chat_service.py:50-54 | a single 500-character block against a 300-character budget is cut to 300 characters plus a newline when partial blocks are allowed, and dropped otherwise |
| ReportContext.KeepWithinBudget | app/query/chat_service.py:40-57 | the accumulation loop over rendered blocks returns exactly the chunks the budget rule defines |
| ReportContext.FormattedReports | app/query/chat_service.py:31-59 | no reports give the empty text; otherwise the joined, stripped text is at most the budget plus six characters (partial) or five (whole blocks only) |
| ReportContext.ChunksTextBound | app/query/chat_service.py:59 | joining at most six chunks by newlines adds at most one character per separator to the budgeted total |
| ReportContext.CombinedText | app/query/chat_service.py:83-97 | the combined raw text is never longer than the budget, and with a positive budget it is empty exactly when no file contributes |
| ReportContext.ContributionsEmpty | app/query/chat_service.py:83-92 | no section is produced exactly when no file is a readable, non-blank `.txt`/`.md` file; otherwise the first section starts with `FILE: ` |
| ReportContext.ContributionsAppend | app/query/chat_service.py:83-92 | files contribute independently and in order: the sections of two lists of files are the sections of each in turn |
| ReportContext.UnreadableFileSkipped | app/query/chat_service.py:88-91 | a file whose content cannot be read does not change the combined text |
| ReportContext.LoadUploadedText | app/query/chat_service.py:74-97 | the loader loop returns exactly the combined text of the given files |
| ReportContext.AssembleContext | app/query/chat_service.py:236-244 | the report part and the raw part each appear only when non-blank, reports first, separated by a blank line |
| ReportContext.AssembleContextBlank | app/query/graphrag_query.py:297-306 | the assembled context is blank exactly when both parts are blank, and then it is empty |
| ReportContext.AssembleContextParts | app/query/chat_service.py:236-244 | a non-blank report part opens the context with its label; a non-blank raw part closes it with its label |
| ChatService.LastUserTextIsLast | app/query/chat_service.py:22-28 | the text is the content of the last user message with string content, and empty when there is none |
| ChatService.LastUserText | app/query/chat_service.py:22-28 | the reverse scan loop returns exactly that text |
| ChatService.FormatGraphRagContext | app/query/chat_service.py:31-59 | the streaming formatter returns the budgeted, partial-block rendering of the ordered top reports |
| ChatService.JsonString | app/query/chat_service.py:176-178 | the serialised payload is printable ASCII in double quotes, at least as long as the text |
| ChatService.WireDoneUnique | app/query/chat_service.py:152-181 | no chunk other than the end marker serialises as `data: [DONE]` |
| ChatService.Forwarded | app/query/chat_service.py:143-155 | the line filter forwards only data payloads other than `[DONE]`, at most one per line |
| ChatService.ForwardedStopsAtDone | app/query/chat_service.py:151-153 | nothing after a `[DONE]` line is forwarded |
| ChatService.ForwardedSnoc | app/query/chat_service.py:143-155 | before `[DONE]`, each further line adds exactly its own chunks, and the scan reaches the end exactly at a `[DONE]` line |
| ChatService.ForwardedAppend | app/query/chat_service.py:143-155 | before `[DONE]` is reached, the filter distributes over concatenation of the lines |
| ChatService.RelayLines | app/query/chat_service.py:143-155 | the generator loop emits exactly the filtered payloads and stops exactly when a `[DONE]` line is reached |
| ChatService.UpstreamChunks | app/query/chat_service.py:103-158 | the model stream never contains the end marker; a missing key gives the missing-key payload, a failed request `OpenAI stream failed: ` plus the reason, an error status `OpenAI error: ` plus the error body, each as the only chunk; a stream that ends cleanly or at `[DONE]` gives exactly the filtered payloads; a stream that raises before `[DONE]` gives the filtered payloads and then exactly one `OpenAI stream failed: ` chunk with the error |
| ChatService.OpenAiStream | app/query/chat_service.py:103-158 | the stream method produces exactly those chunks |
| ChatService.Titles | app/query/chat_service.py:165-169 | the stripped, non-blank titles of the reports in order, never more than there are reports (properties in TitlesStripped and TitlesAppend) |
| ChatService.TitlesStripped | app/query/chat_service.py:165-169 | every source title is non-empty and already stripped |
| ChatService.TitlesAppend | app/query/chat_service.py:165-169 | source titles keep the reports' order and are not de-duplicated |
| ChatService.SourceTitles | app/query/chat_service.py:165-169 | at most six titles are listed |
| ChatService.SourcesLines | app/query/chat_service.py:177 | the numbered lines can be read back by splitting the Sources text on newlines |
| ChatService.SourcesChunks | app/query/chat_service.py:165-178 | at most one Sources chunk is added, exactly when some title is non-blank |
| ChatService.AppendSources | app/query/chat_service.py:161-181 | the wrapper forwards every base chunk, then the optional Sources chunk, then the end marker |
| ChatService.WithSources | app/query/chat_service.py:161-181 | the wrapped stream: the base chunks, then the Sources chunk if any title is cited, then the end marker (properties in WithSourcesShape) |
| ChatService.WithSourcesShape | app/query/chat_service.py:161-181 | the base chunks come first and unchanged, the end marker is last and occurs exactly once, and the length grows by one or two |
| ChatService.ChatStreamEndsOnce | app/query/chat_service.py:152-181 | the full chat stream ends with the end marker, contains it once, and no earlier chunk serialises as it |
| ChatService.SourcesIgnoreRank | app/query/chat_service.py:166 | the context lists a rank-9 report first while Sources still lists titles in input order |
| ChatService.ChatWithData | app/query/chat_service.py:188-268 | missing messages or index name give 400; an over-long name gives 400 and unauthorised access gives 403; otherwise the stream carries the assembled context (a failed search counting as no reports) and the question, and ends with one end marker |
| ChatService.CitationImageFor | app/query/chat_service.py:358-367 | no citation for an empty path; otherwise the base is the text before the first `___`; the page is `1` when there is no `___`, and otherwise the piece after the first `___` up to the next `___`, then up to its first `.`, with every `Page` removed; the image name is `base___Page<page>.png` |
| ChatService.CitationBaseFirst | app/query/chat_service.py:363 | the base holds no `___`; it is the whole path exactly when the path holds no `___`, and otherwise the path continues with `___` after it and has no `___` starting earlier |
| ChatService.CitationWithoutPage | app/query/chat_service.py:363-367 | a path without `___` cites page 1 of itself |
| ChatService.RemovePageMarker | app/query/chat_service.py:365 | removing `Page` before a page number leaves the number |
| ChatService.CitationOfImageName | app/query/chat_service.py:358-367 | an image name built from a numeric page and a base that holds no `___` and does not end in `_` maps back to the same base, page and name |
| GraphRagQuery.FormatContext | app/query/graphrag_query.py:90-113 | the whole-blocks formatter loop returns the budgeted rendering without partial blocks |
| GraphRagQuery.WholeBlocksOnly | app/query/graphrag_query.py:101-111 | without partial blocks the kept chunks are a prefix of the blocks whose total fits the budget |
| GraphRagQuery.SepBorderFree | app/query/graphrag_query.py:164-165 | no proper prefix of `<sep>` is also a suffix of it, so occurrences of it cannot overlap |
| GraphRagQuery.UnpackTitle | app/query/graphrag_query.py:247-252 | the title split on `<sep>`: the first piece is the index name, the second the index id or `unknown`, the third the title or else the whole raw title (properties in UnpackTitlePrefix, UnpackPackTitle and UnpackPlainTitle) |
| GraphRagQuery.PackTitles | app/query/graphrag_query.py:162-166 | when both columns exist each title becomes `index<sep>community<sep>title`; otherwise titles are unchanged; every other column and the row count stay the same |
| GraphRagQuery.UnpackTitlePrefix | app/query/graphrag_query.py:247-252 | the unpacked index name is a prefix of the raw title |
| GraphRagQuery.UnpackPackTitle | app/query/graphrag_query.py:162-166 | unpacking a packed title whose parts contain no `<sep>` returns the three original parts |
| GraphRagQuery.UnpackPlainTitle | app/query/graphrag_query.py:247-252 | a title without `<sep>` unpacks to itself as both index name and title, with index id "unknown" |
| GraphRagQuery.FirstMalformed | app/query/graphrag_query.py:245-267 | no failure exactly when every rank converts |
| GraphRagQuery.ReportsOfRows | app/query/graphrag_query.py:241-269 | normalisation keeps the number and the order of the reports |
| GraphRagQuery.Normalized | app/query/graphrag_query.py:241-269 | normalisation fails exactly when some rank does not convert; otherwise it maps every row in order |
| GraphRagQuery.NormalizeReports | app/query/graphrag_query.py:241-269 | the normalisation loop returns exactly that result, for a frame, a record list and a missing value alike |
| GraphRagQuery.ReadBackPacked | app/query/graphrag_query.py:245-255 | a row carrying a packed title reads back to its index name, community id, title, content and rank |
| GraphRagQuery.PackedTitlesReadBack | app/query/graphrag_query.py:162-166 | a row of a packed table reads back to the index name and that row's own community and title |
| GraphRagQuery.PackedFrameReadBack | tests/test_graphquery.py:56-82 | a frame of packed titles normalises to reports with the same count, order and unpacked parts |
| GraphRagQuery.ParseAbfs | app/query/graphrag_query.py:54-60 | after the `abfs://` prefix is removed, the path is the container, a slash and the blob, with no slash in the container; the parse fails exactly when no slash remains |
| GraphRagQuery.TablePathParses | app/query/graphrag_query.py:151-154 | a table path built from a prefix and an index name parses back to the `-grdata` container and the table blob |
| GraphRagQuery.ContainerOnlyRefused | app/query/graphrag_query.py:54-60 | a path naming only a container is refused |
| GraphRagQuery.HybridQuery | app/query/graphrag_query.py:283-324 | a failed search or normalisation is reported; a blank context gives exactly the refusal sentence without a model call; otherwise the user message is `CONTEXT`, the assembled context, `QUESTION` and the query |
| Routes.AreOperationsRestricted | app/api/routes.py:35-36 | the switch is off when unset, and on exactly when the setting has four characters, each the lower- or upper-case letter of `true` at that position |
| Routes.RestrictionSpelling | app/api/routes.py:35-36 | any letter case of `true` switches it on; padding or `1` does not |
| Routes.StartIndexing | app/api/routes.py:194-209 | the start step on the status map and the folder listing: in progress is rejected unchanged; otherwise the entry is set in progress at 0, stays so when the folder cannot be listed, and is removed when no file is indexable (properties in StartWhileRunning, StartAfterOutcome, StartWithoutFiles, StartOnMissingFolder and StartKeepsOthers) |
| Routes.StartWhileRunning | app/api/routes.py:198-199 | a start while the collection is in progress is rejected and the map is unchanged |
| Routes.StartAfterOutcome | app/api/routes.py:198-201 | a collection that is completed, failed or never started, and has an indexable file, is started and marked in progress at 0 |
| Routes.StartWithoutFiles | app/api/routes.py:201-209 | a start without any indexable file is rejected and removes the collection's entry, whatever it held before |
| Routes.StartOnMissingFolder | app/api/routes.py:201-206 | when the folder cannot be listed the call fails after the entry was already marked in progress |
| Routes.StartKeepsOthers | app/api/routes.py:198-209 | a start never changes another collection's entry |
| Routes.WithFile | app/api/routes.py:167-168 | after an upload the folder holds the new file and every file it held before, and nothing else |
| Routes.UploadMakesIndexable | app/api/routes.py:206 | uploading a `.txt`/`.md`/`.pdf` file makes the folder indexable |
| Routes.UploadPages | app/api/routes.py:152-160 | a PDF (in any capitalisation of `.pdf`) reports its counted pages, or 0 when counting failed; any other file reports 0 |
| Routes.RouteConfigurator.constructor | app/api/routes.py:39-52 | the restriction switch is read once and the status map starts empty |
| Routes.RouteConfigurator.IndexFiles | app/api/routes.py:194-223 | the start guard updates the status map and replies exactly as the start step defines, leaving folders unchanged |
| Routes.RouteConfigurator.CompleteIndexing | app/api/routes.py:211-216 | background success sets the entry to completed at 100 |
| Routes.RouteConfigurator.FailIndexing | app/api/routes.py:218-220 | background failure sets the entry to failed with the error message |
| Routes.RouteConfigurator.CheckIndexStatus | app/api/routes.py:229-233 | the status read replies 200 with the entry or not started, and changes nothing |
| Routes.RouteConfigurator.CreateIndex | app/api/routes.py:96-107 | restricted gives 403 and a missing name 400, both without change; otherwise the folder exists afterwards with its files kept |
| Routes.RouteConfigurator.RemoveIndex | app/api/routes.py:117-132 | restricted gives 403 and a missing folder 404, both with no change; otherwise the folder and the status entry are removed |
| Routes.RouteConfigurator.UploadFile | app/api/routes.py:141-170 | restricted gives 403, no file 400 and a missing folder 404, all without change; otherwise the file is stored and the page count returned |
| Benchmark.FirstNonString | benchmarks/run_benchmark.py:44-46 | the first item that is not a string is found, or none when all items are strings |
| Benchmark.ValidateQuestions | benchmarks/run_benchmark.py:30-46 | a value that is not a list is rejected with `benchmark_questions json must be a list`; a list is checked entry by entry (properties in ValidateQuestionsValid and ValidateEntriesFirstError) |
| Benchmark.EntryErrorValid | benchmarks/run_benchmark.py:35-46 | an entry passes every check exactly when it is an object with a non-blank string question, a string id if present, and a list of strings as expected phrases if present |
| Benchmark.ValidateEntriesValid | benchmarks/run_benchmark.py:34-46 | the entries are accepted exactly when each of them is valid |
| Benchmark.ValidateEntriesFirstError | benchmarks/run_benchmark.py:34-46 | a rejection carries the message of the first invalid entry, and every entry before it is valid |
| Benchmark.ValidateQuestionsValid | benchmarks/run_benchmark.py:30-46 | the validator accepts exactly a list of valid entries, so anything but a list is rejected |
| Benchmark.ZeroPad2RoundTrip | benchmarks/run_benchmark.py:23 | the zero-padded two-digit numeral reads back as the position |
| Benchmark.QuestionIdInjective | benchmarks/run_benchmark.py:23 | different positions get different ids |
| Benchmark.LegacyEntriesValid | benchmarks/run_benchmark.py:20-26 | the normalised legacy list passes validation exactly when no question is blank |
| Benchmark.LegacyIdsDistinct | benchmarks/run_benchmark.py:20-24 | no two normalised legacy entries share an id |
| Benchmark.LoadedQuestions | benchmarks/run_benchmark.py:12-27 | a legacy list loads exactly when no question is blank, and then as its normalised entries; any other value loads exactly when it is a list of valid entries, and then unchanged; what loads is always a list of valid entries |
| Benchmark.LoadQuestions | benchmarks/run_benchmark.py:12-27 | loading normalises a legacy list by its loop, then validates, returning the validator's message on failure |
| Benchmark.ScoreExpectedContains | benchmarks/run_benchmark.py:101-111 | no score without expected phrases; otherwise true exactly when every lower-cased phrase occurs in the lower-cased answer |
| Benchmark.EmptyPhraseMatches | benchmarks/run_benchmark.py:101-111 | an empty expected phrase always matches |
| Benchmark.ResolveIsRestricted | benchmarks/run_benchmark.py:59-61 | the setting, lower-cased and stripped, is `1`, `true` or `yes`; unset means `false` (properties in ResolveIsRestrictedPadded and ResolveIsRestrictedExamples) |
| Benchmark.ResolveIsRestrictedPadded | benchmarks/run_benchmark.py:59-61 | whitespace around the setting does not change the result |
| Benchmark.ResolveIsRestrictedExamples | benchmarks/run_benchmark.py:59-61 | `YES` and `1` switch it on; unset and `on` do not |
| Benchmark.AnswerPreview | benchmarks/run_benchmark.py:176 | an answer of at most 300 characters is shown unchanged; a longer one is its first 300 characters followed by ` ...` |
| Benchmark.RetrievalHit | benchmarks/run_benchmark.py:157-160 | a question is a hit when the returned context lists at least one report (properties in HitIffRows) |
| Benchmark.HitIffRows | benchmarks/run_benchmark.py:157-160 | a question counts as a retrieval hit exactly when the search returned some report |

## Left out

- Flask plumbing is not modelled: route registration, `request` parsing, `jsonify`, `Response` and `stream_with_context`. Replies are modelled as status codes with a body datatype.
- File system and blob I/O are not modelled: `os.listdir`, `open`, `os.walk`, `makedirs`, `BlobServiceClient` and parquet reads. The local knowledge base is a map from collection to file names, and uploaded files are (name, optional content) pairs.
- `secure_filename` and file bytes are not modelled. The page count of a PDF is a parameter.
- The network is not modelled. The OpenAI request and the authentication and validation services are parameters, given as their results. The model call in `hybrid_query` (`llm.agenerate`) is left out: the model stops at the user message that would be sent, and the answer is not modelled.
- The external GraphRAG engine is not modelled: global search, the indexing pipeline and tiktoken. The search result is a parameter. A search that raises, or returns no dictionary, is an `Err` or a missing value.
- Threads and the event loop are not modelled. Background completion and failure are separate sequential methods. The check-then-set race on the status map is not modelled.
- Floating-point ranks are modelled as integers, and their text is a decimal integer. A rank that fails conversion is a distinct case. Python's float rendering (for example `0.0`) is not reproduced.
- Unicode case folding is not modelled; lower-casing is ASCII only.
- The system prompt texts are not part of the model.
- The Azure branches of every operation are not modelled, nor the environment switch that selects them; the model covers local mode only.
- Image fetching and base64 encoding in `process_citation` are not modelled; only the file-name derivation is.
- PackTitles: the in-place overwrite of the report frame's title column is modelled on values rather than by update.
- Serialising the context data with `to_dict`/`tolist` is not modelled.
- UpstreamChunks: a failure in the middle of a stream is modelled only after the lines read so far, not at an arbitrary point inside a line.
- The two copies of `_load_local_uploaded_text` (app/query/chat_service.py:74-97 and app/query/graphrag_query.py:70-88) differ only in their budget. Both are `ReportContext.LoadUploadedText`.
- CitationOfImageName: the round trip is stated for bases that hold no `___` and do not end in `_`. A base holding `___` is cut at its own first `___`. A base ending in `_` moves the first `___` one place to the left: `a_` gives base `a` and page `_1`.
- UnpackTitle: the fallback to the configured index name when the split gives no parts is dead code, because a split always gives at least one part; the model keeps the case the code can reach.
- The benchmark's statistics (percentile, mean, latency, accuracy, coverage), its results file, `ensure_output_ready`, `resolve_index_name` and `resolve_user_id` are not modelled. They are I/O, clocks or floating point.
- `scripts/evaluate.py`, `app/ingestion/graphrag_ingestion.py` and `app/integration/graphrag_config.py` are not part of this model: an HTTP client, a wrapper around the indexing pipeline, and configuration dictionaries.
