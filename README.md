# A Dafny model of the Nstsolutions audit assistant

Nstsolutions is a web assistant that audits South African government
planning documents. It reads a Strategic Plan, an Annual Performance Plan
(APP) and an Annual Performance Report (APR), sends them to a chat-completion
service in chunks, and writes its findings into chat sessions that can be
exported as PDF reports. The program has three parts: browser code
(`script.js`, `pdf-export.js`), an Express server (`server/server.js` and the
routes under `server/routes/`), and a Python report generator
(`python/pdf_generator.py`).

This project models the deterministic core of each part and proves what it
promises. The network, the completion and embedding services, `JSON.parse`
and text extraction become oracles: function parameters or scripted lists of
outcomes. Sleeping becomes the list of waits a client asks for.

| module | file | what it models |
|---|---|---|
| `Common` | `common.dfy` | `Option`/`Result`, and sequence lemmas shared by all modules |
| `Strings` | `strings.dfy` | JavaScript and Python `indexOf`/`find`, `includes`/`in`, `split` with a non-empty separator, `join`, `slice`, `trim`/`strip`, ASCII lower-casing |
| `JsValue` | `js_value.dfy` | JSON-shaped request bodies: truthiness, `typeof`, `Array.isArray`, property access, destructuring defaults |
| `Chunkers` | `chunkers.dfy` | the fixed-size slicers, the fixed-count split, `chunkIntoFive`, the paragraph accumulator and `splitText` |
| `Processor` | `processor.dfy` | the chunked document processors: template fill (including `$`-pattern expansion), one request per chunk, replies joined |
| `Retry` | `retry.dfy` | `fetchChunkAnswer`, `fetchWithBackoff` and `retryWithBackoff`, with their wait schedules |
| `Streaming` | `streaming.dfy` | `fetchChunkAnswer2`, and `fetchChunkAnswer3` as a continuation state machine over a scripted run of passes |
| `EventStream` | `event_stream.dfy` | the server-sent events reader of `handleUserSubmit` and its tool-call accumulation |
| `Classifier` | `classifier.dfy` | `classifyInChunks`: the per-piece vote, the tally, the winner, and where the text is stored |
| `DocumentText` | `document_text.dfy` | `cleanDocumentText` and `extractSecondPerformanceSection` / `extractSecondPerformanceInfoSectionAPR` |
| `AppStateModel` | `app_state.dfy` | the browser's mutable state, as class `AppState`: programme scope, aggregated extraction lists, bounded histories, chat sessions, audit-button state |
| `ChatRoutes` | `chat_routes.dfy` | `validateMessages`, `validateModel`, the `/completions` and `/non-stream` parameter checks and defaults, and the error-to-status mapping |
| `EmbeddingRoutes` | `embedding_routes.dfy` | `validateInput`, `validateEmbeddingModel`, `/generate` input wrapping and status mapping, and the `/batch` slicing loop |
| `FileRoutes` | `file_routes.dfy` | the upload extension filter, the server's `chunkText`, APP/APR/OTHER tagging, the `/upload` results/errors split, `/chunk`, and `chunkIndex` in `/process-and-embed` |
| `ServerConfig` | `server_config.dfy` | the CORS origin decision, the compression filter, the `/api/export-pdf` input check and defaults, and the global error handler |
| `ReportParser` | `report_parser.dfy` | `parse_markdown_table`, `parse_content_with_tables` and `clean_text_formatting` with its conclusion box |
| `PdfExport` | `pdf_export.dfy` | `convertTableToMarkdown` in `pdf-export.js`, with the round trip through `parse_markdown_table` |

Where the code disagrees with its own comments or description, the model
follows the code:
- `measurability2` appears twice in `script.js`, at lines 2625 and 2837. The second copy lies inside a block comment (lines 2836-2986), so the one at 2625 is the one that runs: per programme it pushes one reply onto the chat history and one onto the measurability table.
- The comment on step 4 of `cleanDocumentText` says the space before punctuation is removed. The code keeps one space.
- In `is_standalone_conclusion`, the clause that excludes list and bullet prefixes can never decide anything. A line that starts with "conclusion:" or "conclution:" has no such prefix. `ReportParser.StandaloneIsLabel` proves this.
- The comments in `extractIndicatorsAndTargets` describe phases. In the code, all five extraction fan-outs start at once (see "Left out").

## Model

| member | source | states |
|---|---|---|
| `Chunkers.SliceBySize` | script.js:527-533 | the `i += size` slicing loop builds exactly the consecutive `size`-long slices of its input |
| `Chunkers.SlicesFlatten` | script.js:576-582 | the slices concatenated give back the input |
| `Chunkers.SlicesCount` | script.js:655-661 | there are ceil(length / size) slices |
| `Chunkers.SlicesSizes` | script.js:1112-1118 | every slice but the last has exactly `size` items and the last has 1 to `size` |
| `Chunkers.ChunkText` | script.js:792-798 | `chunkText` gives the 5000-character slices, which concatenate back to the text, ceil(length / 5000) of them |
| `Chunkers.SplitFixedCount` | script.js:3328-3335 | the chunk-building loop of the fixed-count processor gives the `numberOfChunks` chunks of the fixed-count split |
| `Chunkers.PrefixOfFixed` | script.js:3331-3335 | the first i chunks concatenate to the text up to i·ceil(length / n), and all n of them to the whole text |
| `Chunkers.FixedChunkLength` | script.js:3332-3334 | no chunk is longer than ceil(length / n), the last one included |
| `Chunkers.FixedChunksProperties` | script.js:3327-3335 | for n ≥ 1 there are exactly n chunks, each at most ceil(length / n) long, and together they are the text |
| `Chunkers.FixedChunksTenByThree` | script.js:3327-3335 | ten characters in three chunks give chunks of 4, 4 and 2 characters |
| `Chunkers.ChunkIntoFive` | script.js:1776-1779 | `chunkIntoFive` always gives five pieces |
| `Chunkers.ChunkIntoFiveIsFixedCount` | script.js:1776-1779 | `chunkIntoFive` is the fixed-count split with five chunks, so it covers the text in order |
| `Chunkers.Render` | script.js:3262-3266 | a chunk holds at least two characters per paragraph, and is empty exactly when it holds no paragraph |
| `Chunkers.RenderAppend` | script.js:3263 | adding a paragraph to the current chunk appends the paragraph and "\n\n" |
| `Chunkers.AccumulateParagraphs` | script.js:3257-3268 | the accumulator loop's chunks are the rendered groups of the greedy packing of the "\n\n"-separated paragraphs |
| `Chunkers.PackFromFlatten` | script.js:3261-3267 | the packing keeps every paragraph once and in order |
| `Chunkers.RendersFlatten` | script.js:3261-3268 | the rendered chunks concatenated are the rendering of all paragraphs in order |
| `Chunkers.RenderConcat` | script.js:3263-3266 | rendering two runs of paragraphs is rendering each and concatenating |
| `Chunkers.PackFromWellPacked` | script.js:3261-3268 | packing leaves no empty chunk after the first, keeps a chunk of two or more paragraphs shorter than `chunkSize + 2`, and makes at least one chunk |
| `Chunkers.RenderIsJoinPlus` | script.js:3261-3263 | rendering paragraphs is joining them with "\n\n" and adding a final "\n\n" |
| `Chunkers.AccumulateProperties` | script.js:3257-3268 | the chunks concatenated are the text plus "\n\n"; there is at least one chunk; only chunk 0 can be empty; a chunk of two or more paragraphs is shorter than `chunkSize + 2` |
| `Chunkers.FirstChunkEmptyExample` | script.js:3261-3268 | "abc\n\nd" with `chunkSize` 3 gives the chunks "", "abc\n\n" and "d\n\n" |
| `Chunkers.ExamplePack` | script.js:3262-3266 | a three-character paragraph with `chunkSize` 3 pushes the empty current chunk and then starts a chunk of its own |
| `Chunkers.SplitWs` | script.js:4520 | `split(/\s+/)` always yields at least one piece |
| `Chunkers.SplitWsWords` | script.js:4520 | no piece contains white space, and only the first and last pieces can be empty |
| `Chunkers.SplitText` | script.js:4519-4526 | the `splitText` loop gives the consecutive groups of `maxWords` words, each joined by " " |
| `Chunkers.JoinGroups` | script.js:4523 | joining the joined groups of non-empty word groups is joining all their words |
| `Chunkers.GroupsProperties` | script.js:4521-4525 | the grouping keeps every word in order, each group holds 1 to `maxWords` words, and there are ceil(words / maxWords) groups |
| `Chunkers.SplitTextProperties` | script.js:4519-4526 | `splitText`'s chunks joined by " " are the words joined by " ", each chunk has at most `maxWords` words, and there are ceil(words / maxWords) chunks |
| `Classifier.Votes` | script.js:1800-1906 | at most one vote per piece: a reply that throws casts none |
| `Classifier.Tally.Add` | script.js:1899-1902 | counting a label raises exactly that label's count by one |
| `Classifier.FirstMax` | script.js:1908 | the stable descending sort's first entry is a label of greatest count, and it comes before every other label with that count |
| `Classifier.WinnerIsFirstMaximum` | script.js:1908 | the winner has the greatest count, and every label earlier in the order has strictly fewer votes |
| `Classifier.NoVotesIsStrategicPlan` | script.js:1793-1798 | with no votes at all "Strategic Plan", the first key, wins |
| `Classifier.TallyVotes` | script.js:1800-1906 | one request per piece, in order; each count is the number of votes for its label |
| `Classifier.ClassifyInChunks` | script.js:1791-1931 | the counts tally the five pieces' votes; the winner is the first label of greatest count; the text is stored raw as a Strategic Plan, cleaned as an APP or APR, and not at all when Uncertain wins |
| `Classifier.TotalIsVotes` | script.js:1899-1902 | the four counts add up to the number of replies that did not throw |
| `Classifier.LabelExamples` | script.js:1897-1902 | an empty reply counts as Uncertain, and "Strategic Plan" is looked for before "Annual Performance Plan" |
| `Classifier.MajorityExample` | script.js:1908 | the votes APP, APP, APR, Uncertain, APP elect the Annual Performance Plan |
| `DocumentText.CollapseSpaces` | script.js:745 | the result never has two white-space characters in a row, is empty exactly when the input is, and starts with white space exactly when the input does |
| `DocumentText.CollapseSpacesNoBreaks` | script.js:745 | collapsing adds no line break |
| `DocumentText.CollapseSpacesNoSpace` | script.js:745 | text without white space is left as it is |
| `DocumentText.BreaksToSpaces` | script.js:746 | no line break is left, and text without white space is left as it is |
| `DocumentText.SpaceAfterPunct` | script.js:747 | adds no line break, and leaves text without white space as it is |
| `DocumentText.SpaceBeforePunct` | script.js:748 | adds no line break, and leaves text without white space as it is |
| `DocumentText.CleanDocumentTextShape` | script.js:743-751 | the cleaned text has no line break, never two white-space characters in a row, and no white space at either end |
| `DocumentText.CleanDocumentTextNoSpace` | script.js:743-751 | text without white space is stored unchanged |
| `DocumentText.CleanDocumentTextKeepsSpaceBeforePunct` | script.js:748 | the step commented as removing the space before punctuation keeps it: "a ," stays "a ," |
| `DocumentText.IndexOfSuffix` | script.js:2426-2429 | searching the slice after the first keyword finds the same position as searching the text from there |
| `DocumentText.AprExtractorIsSecondSection` | script.js:2414-2437 | the APR extractor's slice-and-includes search finds the same section as the plan extractor's `indexOf` search |
| `DocumentText.SecondSectionFound` | script.js:2388-2405 | a found section is the trimmed text from the second keyword occurrence (the first one starting after the first occurrence ends, with no occurrence before the first) up to the first marker at or after it |
| `DocumentText.SecondSectionWhenOccurs` | script.js:2392-2402 | two non-overlapping keyword occurrences and a marker after the second are always found |
| `DocumentText.SecondSectionSpec` | script.js:2388-2405 | a section is found exactly when the keyword occurs twice without overlap and the marker occurs at or after the second; the section is then the trimmed text from the first occurrence after the first one ends up to the first marker at or after it, all three positions being the earliest possible (`SectionBounds`) |
| `EmbeddingRoutes.ItemError` | server/routes/embeddings.js:46-53 | an item passes exactly when it is a string that is not blank after `trim`; a non-string is reported as such at its own index, a blank string as empty |
| `EmbeddingRoutes.FirstBadItem` | server/routes/embeddings.js:46-53 | no error exactly when every item passes; otherwise the error of the first failing item, every earlier one passing |
| `EmbeddingRoutes.ValidateInputAccepts` | server/routes/embeddings.js:28-57 | `validateInput` returns normally exactly on a non-blank string or on 1 to 2048 items that are all non-blank strings |
| `EmbeddingRoutes.ValidateInputErrors` | server/routes/embeddings.js:28-57 | each error is thrown exactly on its inputs: falsy first (so "" is "required"), then the type, the empty and the oversized array, the first bad item, and last the non-empty blank string |
| `EmbeddingRoutes.ModelAcceptedNames` | server/routes/embeddings.js:21-26 | a model name passes exactly when it is empty or one of the three listed names |
| `EmbeddingRoutes.AllowedModelsJoined` | server/routes/embeddings.js:24 | the error message lists the three names separated by ", " |
| `EmbeddingRoutes.InputErrorStatus` | server/routes/embeddings.js:29-56 | only "required" and the two "must be" errors give 400; an empty array, more than 2048 items, a blank item and a blank string give 500 |
| `EmbeddingRoutes.TooManyItemsText` | server/routes/embeddings.js:43 | the message's 2048 is the limit that is checked |
| `EmbeddingRoutes.RequiredMessage` | server/routes/embeddings.js:30 | "Input text is required" is classed as a bad request |
| `EmbeddingRoutes.NotStringOrArrayMessage` | server/routes/embeddings.js:34 | "Input must be a string or array of strings" is classed as a bad request |
| `EmbeddingRoutes.EmptyArrayMessage` | server/routes/embeddings.js:39 | "Input array cannot be empty" is not classed as a bad request |
| `EmbeddingRoutes.TooManyItemsMessage` | server/routes/embeddings.js:43 | the too-many-items message is not classed as a bad request |
| `EmbeddingRoutes.ItemNotStringMessage` | server/routes/embeddings.js:48 | "Input at index k must be a string" is classed as a bad request, for every k |
| `EmbeddingRoutes.ItemBlankMessage` | server/routes/embeddings.js:51 | "Input at index k cannot be empty" is not classed as a bad request, for any k |
| `EmbeddingRoutes.BlankStringMessage` | server/routes/embeddings.js:55 | "Input string cannot be empty" is not classed as a bad request |
| `EmbeddingRoutes.SuffixLacksRequired` | server/routes/embeddings.js:24 | the fixed text after the model name does not contain "required" |
| `EmbeddingRoutes.SuffixLacksMustBe` | server/routes/embeddings.js:24 | the fixed text after the model name does not contain "must be" |
| `EmbeddingRoutes.ModelErrorStatus` | server/routes/embeddings.js:23-24 | an unsupported model gives 400 exactly when its shown name contains "required" or "must be", and 500 otherwise |
| `EmbeddingRoutes.QuotedName` | server/routes/embeddings.js:24 | a quote-free pattern occurs in the quoted-model message exactly when it occurs in the model name, if it is in neither fixed part |
| `EmbeddingRoutes.ChatModelRejected` | server/routes/embeddings.js:21-26 | the chat model "gpt-4o" is rejected, with status 500 |
| `EmbeddingRoutes.GenerateCallsWithGoodInputs` | server/routes/embeddings.js:104-122 | both checks pass exactly on a good input and an accepted model; the service is then called with 1 to 2048 non-blank strings, and a success needs all of this |
| `EmbeddingRoutes.GenerateDefaultModel` | server/routes/embeddings.js:104 | without a model field, text-embedding-ada-002 is used and passes the model check |
| `EmbeddingRoutes.GenerateInputFailure` | server/routes/embeddings.js:138-151 | a failed input check answers "embedding_error", that check's message, and its status, without calling the service |
| `EmbeddingRoutes.BlankItemExample` | server/routes/embeddings.js:50-52 | ["a", " "] fails at index 1 as a blank item |
| `EmbeddingRoutes.BatchSizeOf` | server/routes/embeddings.js:161 | a missing batch size is 20, and every modelled batch size is positive |
| `EmbeddingRoutes.BatchesSnoc` | server/routes/embeddings.js:171-181 | one more slice is sent only when every earlier call returned, and its embeddings and tokens are added at the end |
| `EmbeddingRoutes.BatchStep` | server/routes/embeddings.js:172-180 | after successful earlier slices, a throwing call is the answer, and a returning call extends the embeddings and the token sum |
| `EmbeddingRoutes.SendBatches` | server/routes/embeddings.js:167-181 | the loop sends the `batchSize` slices in order, concatenates their embeddings, sums their tokens, and stops at the first call that throws |
| `EmbeddingRoutes.Batch` | server/routes/embeddings.js:159-199 | `/batch` answers 400 without a texts array, and otherwise the batched calls' result or the first error |
| `EmbeddingRoutes.PrefixErrStays` | server/routes/embeddings.js:171-181 | once a call has thrown, later slices are never sent and the same error is the answer |
| `EmbeddingRoutes.FirstErrorAnswers` | server/routes/embeddings.js:171-198 | a failing batch answers the error of the first call that threw; every earlier call returned |
| `EmbeddingRoutes.AllOkBefore` | server/routes/embeddings.js:171-181 | when the batch succeeds, every call in it returned |
| `EmbeddingRoutes.BatchesCount` | server/routes/embeddings.js:179 | with a service giving one embedding per input, the batch gives one embedding per text sent |
| `EmbeddingRoutes.BatchCoversTexts` | server/routes/embeddings.js:170-190 | `/batch` makes ceil(n / batchSize) calls of at most `batchSize` texts each, together sending every text once and in order, and answers one embedding per text |
| `EmbeddingRoutes.EmptyTextsNoCalls` | server/routes/embeddings.js:167-190 | an empty texts array is answered with no embeddings and zero tokens |
| `EventStream.LastNameCons` | script.js:1373-1381 | the last non-empty name sent for a slot is the one in the later fragments if there is one, else the first fragment's |
| `EventStream.MentionsCons` | script.js:1374-1376 | a slot is named by a list of fragments exactly when the first names it or the rest do |
| `EventStream.ApplyToolAt` | script.js:1374-1380 | one fragment creates its slot if missing, replaces the name only when the fragment's is non-empty, appends its arguments, and leaves every other slot as it was |
| `EventStream.ApplyToolsKeys` | script.js:1373-1381 | after a list of fragments a slot exists exactly when it existed before or some fragment names it |
| `EventStream.ApplyToolsArguments` | script.js:1377-1379 | a slot's arguments are its old ones followed by every argument fragment sent for it, in order |
| `EventStream.ApplyToolsName` | script.js:1377 | a slot's name is the last non-empty name sent for it, or the old name when none was |
| `EventStream.ApplyToolsSlot` | script.js:1373-1389 | the whole accumulation of one slot: which slots exist, their names and their arguments |
| `EventStream.DataFrameIsNotDone` | script.js:1340 | an event that starts with "data:" never trims to "[DONE]", so the bare-signal check only stops on an undecorated "[DONE]" |
| `EventStream.ApplyToolCalls` | script.js:1374-1381 | the `forEach` over `delta.tool_calls` applies every fragment in order |
| `EventStream.ProcessEvent` | script.js:1338-1391 | `processEvent` ignores an empty event, returns "done" on a bare "[DONE]", and otherwise applies every "data:" line in order, skipping empty, "[DONE]" and unparsable payloads |
| `EventStream.EventsStepAppend` | script.js:1403-1409 | handing one more event extends the reply by exactly that event |
| `EventStream.FlattenSnoc` | script.js:1394-1396 | the text read so far grows by each decoded chunk |
| `EventStream.CompletePiecesStay` | script.js:1399-1401 | the complete pieces of the buffer stay complete pieces, at the same places, however much more text arrives |
| `EventStream.SplitContinues` | script.js:1396-1401 | appending a read to the kept last piece and splitting again continues the split of the whole text |
| `EventStream.PrefixPiecesNotDone` | script.js:1403-1409 | when no complete event of the whole text is "[DONE]", no complete event of any prefix is either |
| `EventStream.ReadStep` | script.js:1393-1410 | one read keeps the dispatched events plus the buffer equal to the split of the text read so far |
| `EventStream.DispatchEvents` | script.js:1403-1409 | every piece but the last is handed to `processEvent` in order, up to and including the first that returns "done" |
| `EventStream.DispatchedPrefix` | script.js:1403 | one more dispatched piece extends the dispatched prefix |
| `EventStream.DispatchOne` | script.js:1404-1408 | one event extends the reply, and stops the loop exactly when it trims to "[DONE]" |
| `EventStream.DispatchStep` | script.js:1338-1404 | the reply after an event and the "done" answer, in terms of the events handed so far |
| `EventStream.ReadChunk` | script.js:1395-1409 | a read splits the buffer, keeps the last piece and dispatches the rest; after "[DONE]" the buffer is emptied |
| `EventStream.KeepLast` | script.js:1399-1401 | the dispatched pieces followed by the kept piece are the whole split |
| `EventStream.ReadEvents` | script.js:1393-1417 | the reply is the one the handed events produce; when no complete event is a bare "[DONE]", the events are the "\n\n" pieces of the whole text plus a non-blank remainder, however the text was cut into reads |
| `FileRoutes.LastIndexOfChar` | server/routes/files.js:37 | the position found holds the character and no later one does; none means the character does not occur (the search inside `path.extname`) |
| `FileRoutes.StripTrailingSlashes` | server/routes/files.js:37 | a prefix of the path that does not end in '/', with only slashes removed after it |
| `FileRoutes.BaseName` | server/routes/files.js:37 | the last segment of the path holds no '/' |
| `FileRoutes.ExtNameShape` | server/routes/files.js:37 | `path.extname` is empty or a '.' followed by no other '.' and no '/', and it ends the last segment |
| `FileRoutes.LastIndexAt` | server/routes/files.js:37 | the last occurrence of a character is the one after which it no longer occurs |
| `FileRoutes.NoSlashBaseName` | server/routes/files.js:37 | a name without '/' is its own last segment |
| `FileRoutes.ExtNameOf` | server/routes/files.js:37 | the extension of `u.v`, with `u` not empty and `v` dot-free, is `.v` |
| `FileRoutes.UpperCaseAccepted` | server/routes/files.js:35-43 | the filter lowercases the extension, so "a.PDF" is accepted |
| `FileRoutes.LastExtensionCounts` | server/routes/files.js:35-43 | only the last extension counts: "a.pdf.zip" is rejected |
| `FileRoutes.ZipNotAllowed` | server/routes/files.js:36 | no four-character extension ending in 'p' is one of the allowed three |
| `FileRoutes.DotFileRejected` | server/routes/files.js:35-43 | a name that only starts with a dot, such as ".pdf", has no extension and is rejected |
| `FileRoutes.ChunkText` | server/routes/files.js:50-68 | `chunkText` throws for a non-string text and for a size that is not a number or is at most 0, gives no chunk for "", one empty chunk for NaN, and otherwise the slices of `chunkSize` characters |
| `FileRoutes.ChunkTextSlices` | server/routes/files.js:59-67 | for a positive whole size n: ceil(\|text\| / n) chunks, all of n characters but the last (1 to n), that put back together give the text |
| `FileRoutes.ChunkTextEmptyOnlyForEmpty` | server/routes/files.js:59-67 | the only string that gives no chunk is the empty one |
| `FileRoutes.FileTypeSpec` | server/routes/files.js:178-179 | for every name: APP exactly when the lowercased name contains "app", APR exactly when it contains "apr" and not "app", OTHER exactly when it contains neither; lowercasing the name first changes nothing |
| `FileRoutes.FileTypeExamples` | server/routes/files.js:178-179 | "app" is looked for first in the lowercased name, then "apr": "approach.pdf" is APP, "APR-2023.pdf" APR, "Budget.docx" OTHER |
| `FileRoutes.Summarise` | server/routes/files.js:175-220 | an entry of `results` keeps the file's name, is tagged from it, counts the text's length and its chunks, and its chunks of 1 to 5000 characters put back together give the text |
| `FileRoutes.ProcessUploads` | server/routes/files.js:158-232 | the loop puts each file's summary in `results` and each failing file in `errors`, in upload order |
| `FileRoutes.UploadPartition` | server/routes/files.js:161-232 | every file lands in exactly one of the two lists |
| `FileRoutes.SuccessesAppend` | server/routes/files.js:161-232 | a file's result does not depend on the other files: the results of two runs of files are each run's, one after the other |
| `FileRoutes.FailuresAppend` | server/routes/files.js:161-232 | likewise for the errors |
| `FileRoutes.SuccessesAreSummaries` | server/routes/files.js:175-220 | every entry of `results` names one of the uploaded files, is tagged by its name, and has chunks of 1 to 5000 characters |
| `FileRoutes.UploadOneFails` | server/routes/files.js:163-230 | a file fails exactly when its extraction fails, and its entry of `errors` names it with the extraction's message |
| `FileRoutes.FilteredFilesAreExtracted` | server/routes/files.js:35-43 | a file the upload filter let through never fails with "Unsupported file type"; it fails only when an extractor fails |
| `FileRoutes.Upload` | server/routes/files.js:132-246 | no files gives the 400 reply, exactly; otherwise `files` are the results, and `errors` is present exactly when some file failed, holding the failures |
| `FileRoutes.ChunkRouteOutcomes` | server/routes/files.js:298-321 | 400 "Text is required" exactly for falsy text, 500 "Text must be a string" for any other non-string, and for a non-empty string without `chunkSize` the 5000-character slices with their count |
| `FileRoutes.NaNChunkSize` | server/routes/files.js:55-66 | a NaN size passes both checks and gives one empty chunk for any non-empty text |
| `FileRoutes.EmbedFileChunks` | server/routes/files.js:353-373 | the loop sends the chunks in batches of 20 and concatenates the tagged vectors; the first failing call fails the request |
| `FileRoutes.PrependAssoc` | server/routes/files.js:362 | pushing two runs of vectors one after the other is pushing them together |
| `FileRoutes.ChunkIndexIsPosition` | server/routes/files.js:353-372 | every vector's `chunkIndex` counts from the start of the file, and a vector with a text carries the chunk at its own `chunkIndex` |
| `FileRoutes.OneVectorPerChunk` | server/routes/files.js:353-372 | with a service giving one embedding per input, a file gives one vector per chunk, vector k for chunk k |
| `FileRoutes.EmbedFile` | server/routes/files.js:339-373 | a file that is not .pdf, .docx or .doc is skipped; otherwise its text is extracted, cut into 5000-character chunks and embedded |
| `FileRoutes.ProcessAndEmbed` | server/routes/files.js:327-389 | no files is the 400 reply exactly; otherwise the vectors of all files in order and their counts, or the first failure's message (its default when empty) |
| `FileRoutes.FailureStays` | server/routes/files.js:338-388 | once a file has failed, the request has failed with that message whatever the later files are |
| `PdfExport.ConvertTableToMarkdown` | pdf-export.js:31-54 | the loop writes "\n\n", one line per row with the separator line after the first row only, and a final "\n"; a table without rows gives "" |
| `PdfExport.MarkdownStep` | pdf-export.js:42-49 | one pass of `forEach` appends the row's line, and after the first row the separator's |
| `PdfExport.TableBarsStep` | pdf-export.js:43-49 | the lines of one more row are those before it, its own, and the separator when it is the first |
| `PdfExport.TerminatedFlattenAppend` | pdf-export.js:43-48 | each line is written with its own line break |
| `PdfExport.EmptyTableIsEmpty` | pdf-export.js:35 | a table without rows is exported as nothing at all |
| `PdfExport.TableBarsShape` | pdf-export.js:37-50 | a table of n rows gives n + 1 lines: the header's, then the separator, then every later row's in order |
| `PdfExport.EscapedPipes` | pdf-export.js:40 | after escaping, every `\|` left in a cell text is preceded by a backslash |
| `PdfExport.EscapeCleanCell` | pdf-export.js:40 | a cell without `\|` and without white space at its ends is exported unchanged |
| `PdfExport.EscapeCleanRow` | pdf-export.js:39-41 | a row of such cells is exported unchanged |
| `PdfExport.JoinPadded` | pdf-export.js:43 | joining the cells with " \| " inside a leading and a trailing space is joining the cells padded with one space on each side by "\|" |
| `PdfExport.StripPaddedCell` | python/pdf_generator.py:31 | `cell.strip()` takes back the padding space around a clean cell |
| `PdfExport.CellsOfBar` | python/pdf_generator.py:31 | the line written for a row of clean cells is read back as those cells |
| `PdfExport.BarHasNoNewline` | pdf-export.js:43 | a row line holds no line break when no cell does |
| `PdfExport.JoinNoChar` | pdf-export.js:43 | joining texts without a character, by a separator without it, gives a text without it |
| `PdfExport.DashesClean` | python/pdf_generator.py:33 | "---" is a clean cell made only of dashes |
| `PdfExport.DashesCells` | pdf-export.js:47-48 | the separator line reads back as dash cells that are a separator row, and holds no line break |
| `PdfExport.BarRow` | python/pdf_generator.py:28-34 | the line of a clean row that is not a separator reads back as that row |
| `PdfExport.SeparatorBar` | python/pdf_generator.py:33 | the separator line is skipped by the reader |
| `PdfExport.RowsOfTableBars` | python/pdf_generator.py:28-34 | the lines of a table of clean rows read back as the rows, in order, the separator dropped |
| `PdfExport.RowsOfHeaderBars` | python/pdf_generator.py:28-34 | the header line and the separator line read back as the header row alone |
| `PdfExport.RowsOfLaterBar` | python/pdf_generator.py:28-34 | each later row line adds its row after those read before |
| `PdfExport.TableBarsNoNewline` | pdf-export.js:43-48 | no line of a table of clean rows holds a line break |
| `PdfExport.FlattenTerminated` | pdf-export.js:43-48 | the lines each ended by a line break are the lines joined by line breaks plus a final one |
| `PdfExport.RoundTrip` | pdf-export.js:31-54 | a table of two or more clean rows, none a separator row, exported and read back by `parse_markdown_table` gives exactly the same rows |
| `PdfExport.TableBarsEnds` | pdf-export.js:43-48 | every written line starts and ends with `\|` |
| `PdfExport.BarEnds` | pdf-export.js:43 | a row line starts and ends with `\|` |
| `PdfExport.StripNewlinePadding` | python/pdf_generator.py:25 | `text.strip()` removes the blank lines around the table and nothing of it |
| `PdfExport.JoinEnds` | pdf-export.js:43-48 | the joined lines start and end with `\|` |
| `PdfExport.JoinFirstLast` | pdf-export.js:43-48 | a join starts with its first part's first character and ends with its last part's last one |
| `PdfExport.JoinLast` | pdf-export.js:43-48 | a join ends with its last part's last character |
| `Processor.ExpandNoDollar` | script.js:3273 | a replacement without "$" is inserted as it is by `String.prototype.replace` |
| `Processor.FillTemplateVerbatim` | script.js:3273 | a chunk without "$" takes the place of the first "{chunk}" and the rest of the template, a later "{chunk}" included, stays as it is; a template without "{chunk}" is sent unchanged |
| `Processor.FillTemplateFirstOnly` | script.js:3273 | only the first placeholder is filled: "A{chunk}B{chunk}" with "x" is "AxB{chunk}" |
| `Processor.FillTemplateExpandsDollar` | script.js:3273 | "$" patterns in the document text are expanded: a chunk "$&" puts the placeholder itself back |
| `Processor.ProcessChunks` | script.js:3271-3277 | one request per chunk, in order, each with the filled template; success means every request succeeded and the replies are joined by "\n\n"; a failure is the last request's, and no later request is made |
| `Processor.ProcessDocumentWithChaining` | script.js:3257-3278 | the same, over the paragraph chunks of the document |
| `Processor.ProcessDocumentWithChainingFixedChunks` | script.js:3327-3344 | the same, over the `numberOfChunks` fixed slices of the document |
| `Retry.DoublingStep` | script.js:1146 | each step of the back-off is twice the one before |
| `Retry.FetchChunkAnswer` | script.js:1120-1157 | at most `retries` requests; every wait follows a 429 and is the `Retry-After` seconds or 1000·2^j ms; "Exceeded retry limit" exactly after `retries` 429s; otherwise the first reply that is not 429 decides: its content (or "") when ok, its status as an error, or the rejection |
| `Retry.FetchWithBackoff` | script.js:1165-1181 | at most maxRetries + 1 requests with waits 1000, 2000, 4000 … ms between them, `Retry-After` ignored; "Too many rate-limit retries" exactly when reply maxRetries is a 429 too; otherwise the first other reply is returned when ok or throws its status |
| `Retry.RetryWithBackoff` | script.js:1781-1788 | at most `retries` requests; the j-th wait is delay·2^(j+1), one after every 429, the last included; the first reply that is not 429 is returned whatever its status; "Rate limit exceeded." exactly after `retries` 429s |
| `Retry.DoublingWaits` | script.js:1176-1179 | n waits of the doubling schedule |
| `Retry.SumAppend` | script.js:1178 | one more wait adds its length to the total |
| `Retry.DoublingWaitsTotal` | script.js:1165-1181 | n doubling waits add up to 1000·(2^n − 1) ms |
| `ServerConfig.CorsPolicy` | server/server.js:55-73 | a request without an origin is let in; in production with ALLOWED_ORIGINS unset or holding "*" every origin is; outside production an origin is let in exactly when it is an entry of the list; a refusal carries "Not allowed by CORS" |
| `ServerConfig.StarOnlyInProduction` | server/server.js:65-67 | "*" lets in every origin in production, but outside production it only matches the origin "*" |
| `ServerConfig.OriginsNotTrimmed` | server/server.js:56 | the list is split on "," without trimming: after "a, b" the origin " b" is let in and "b" is not |
| `ServerConfig.PathContainsRoute` | server/server.js:97 | every path that holds the chat route matches the filter's test |
| `ServerConfig.CompressionFollowsStreaming` | server/server.js:95-102 | on the streaming chat route an accepted request is left uncompressed when it streams, and goes to the library's filter when it asked not to |
| `ServerConfig.StreamOfAccepted` | server/routes/chat.js:85 | an accepted request's `stream` field, true when absent, is the boolean the handler uses |
| `ServerConfig.CompressOnRoute` | server/server.js:97-101 | on a path holding "/chat/completions" the filter refuses unless `stream` is exactly `false` |
| `ServerConfig.NonStreamPathUncompressed` | server/server.js:97 | the non-streaming route's path also contains "/chat/completions", so without a body it is never compressed |
| `ServerConfig.ExportRequest` | server/server.js:150-154 | the request passes exactly when `messages` is an array, keeping it, with "general" and "Chat Export" as defaults; otherwise "Invalid messages format" |
| `ServerConfig.ExportPdf` | server/server.js:148-262 | 400 exactly when `messages` is not an array; a PDF only when the script exists, the generator exits with 0 and the file exists; a failed run reports a prefix of at most 300 characters of its standard error |
| `ServerConfig.HandleError` | server/server.js:300-349 | every error gets a non-zero status |
| `ServerConfig.ErrorStatuses` | server/server.js:311-348 | 401 exactly for UnauthorizedError, 403 exactly for the CORS refusal, 400 exactly for ValidationError or invalid JSON, 500 exactly for other errors without a status; an unrecognised error with its own status keeps it; the name tests come before the message tests |
| `ServerConfig.CorsRejectionIsForbidden` | server/server.js:333-338 | a refused origin is answered 403 |
| `ServerConfig.InvalidJsonIsBadRequest` | server/server.js:326-331 | a body the `verify` hook refuses is answered 400 "Bad Request", whatever status the parser attached |
| `ReportParser.ParseMarkdownTable` | python/pdf_generator.py:20-38 | the loop keeps, in order, the cells of every line holding a `\|` whose non-empty cells are not all dashes and spaces, and the result is the rows when there are at least two, else none |
| `ReportParser.RowsOfAppend` | python/pdf_generator.py:28-34 | the rows of two runs of lines are each run's rows, in order |
| `ReportParser.RowsOfExact` | python/pdf_generator.py:28-34 | every row is the cells of a line holding a `\|` and is not a separator; conversely every such line gives a row |
| `ReportParser.AlignmentCellsStay` | python/pdf_generator.py:33 | a GFM alignment cell such as ":---" is not dashes and spaces only, so its row is kept as data |
| `ReportParser.ParseContentWithTables` | python/pdf_generator.py:40-79 | the loop over the lines gives the elements of the scan: text runs and parsed table runs in order, the last run closed after the loop |
| `ReportParser.FinishElements` | python/pdf_generator.py:71-77 | after the loop an open table run is closed, else the pending text becomes a last element |
| `ReportParser.ScanOne` | python/pdf_generator.py:53-69 | one line: a table line opens or extends a table run, moving pending text out first; any other line closes an open run and is added to the pending text |
| `ReportParser.TextLinesSnoc` | python/pdf_generator.py:57 | one more text piece adds its lines at the end of the text lines |
| `ReportParser.TextLinesOfTableRun` | python/pdf_generator.py:64-66 | closing a table run adds no text line, and adds a table only of at least two rows |
| `ReportParser.ScanLineKeeps` | python/pdf_generator.py:52-69 | each line keeps the scan invariant, adding the line to the text lines exactly when it is not a table line |
| `ReportParser.TableRunOpens` | python/pdf_generator.py:54-60 | a first table line moves the pending text into a piece and starts the run |
| `ReportParser.PendingMoved` | python/pdf_generator.py:56-58 | moving non-empty pending text into a piece keeps every text line |
| `ReportParser.TableRunCloses` | python/pdf_generator.py:61-69 | the first line after a run adds the run's table, if it parses, and starts the pending text with that line |
| `ReportParser.WellFormedSnoc` | python/pdf_generator.py:57-66 | adding a non-empty text piece or a table of two or more rows keeps the pieces well formed |
| `ReportParser.ScanInvariant` | python/pdf_generator.py:52-69 | after any lines, the text pieces and the pending text hold exactly the non-table lines in order, and an open run has lines and no pending text |
| `ReportParser.ContentKeepsText` | python/pdf_generator.py:40-79 | every non-table line of the content is in exactly one text element, in the original order; every table has at least two rows; no text element is empty |
| `ReportParser.DroppedTableSplitsText` | python/pdf_generator.py:62-69 | a table run that does not parse leaves no element, and the text before and after it become two elements |
| `ReportParser.PyStripIdempotent` | python/pdf_generator.py:242 | stripping an already stripped line changes nothing |
| `ReportParser.StandaloneIsLabel` | python/pdf_generator.py:238-243 | on a stripped line, a standalone conclusion is exactly a line starting with "conclusion:" or "conclution:" in any case; the other two clauses never decide |
| `ReportParser.HeaderLevels` | python/pdf_generator.py:282-293 | "### ", "## " and "# " give the three header styles around the stripped rest; four or more '#' is no header |
| `ReportParser.DashAndStarBullets` | python/pdf_generator.py:312-313 | "- " and "* " items become "  • " bullets |
| `ReportParser.CleanLineInside` | python/pdf_generator.py:276-279 | an open box collects, stripped, a line that neither opens nor closes a box |
| `ReportParser.CleanStep` | python/pdf_generator.py:221-366 | one pass of the loop: a blank line, a label line, a line in the box, or a formatted line, as the scan function says |
| `ReportParser.CleanTextFormatting` | python/pdf_generator.py:209-375 | every chunk the generator yields, in order: the loop's chunks, then an open conclusion, then the pending text |
| `ReportParser.CleanLinesReachable` | python/pdf_generator.py:245-279 | formatted lines wait only outside the box and conclusion lines only inside it |
| `ReportParser.SecondConclusionReplaces` | python/pdf_generator.py:245-260 | a second label line while a box is open yields nothing: the pending conclusion text is replaced by the new label's text |
| `ReportParser.StripAllSnoc` | python/pdf_generator.py:222 | stripping one more line adds it stripped at the end |
| `ReportParser.AllCollectedOf` | python/pdf_generator.py:276-279 | lines that each neither open nor close a box are all collected |
| `ReportParser.ConclusionCollects` | python/pdf_generator.py:276-279 | inside the box a run of such lines is collected, stripped, in order |
| `ReportParser.ConclusionCloses` | python/pdf_generator.py:265-275 | a closing line yields the conclusion joined by single spaces and is then formatted like any other line |
| `ReportParser.ConclusionBox` | python/pdf_generator.py:245-279 | a label line, body lines and a closing line make one conclusion chunk of the label's text and the stripped body joined by spaces, after the text before it, with the closing line waiting formatted |
| `ReportParser.CleanLinesAppend` | python/pdf_generator.py:220 | cleaning two runs of lines is cleaning the second from where the first left off |
| `Streaming.DataLines2` | script.js:3737 | only the lines starting with "data: " are kept |
| `Streaming.ReadStream2` | script.js:3732-3760 | the read loop of one attempt gives the content of every piece's "data: " lines in order, each piece split on "\n" on its own, a "[DONE]" ending only that piece's lines |
| `Streaming.ReadLines2` | script.js:3739-3759 | the lines of one piece append each parsed payload's truthy content, skip a payload that does not parse, and stop at "[DONE]" |
| `Streaming.LineSplitAcrossReadsIsLost` | script.js:3736-3737 | no text is carried from one read to the next: a "data:" line delivered whole is read, the same line split across two reads is lost |
| `Streaming.FetchChunkAnswer2` | script.js:3703-3770 | every attempt reads afresh; a failed attempt waits 1000·2^j ms (uncapped), after the last one too; the first completed attempt's text is returned; after `retries` failures the error text is shown and "" is returned |
| `Streaming.DataLines3` | script.js:4042-4045 | each line is trimmed, and only those then starting with "data:" are kept |
| `Streaming.StreamOnce` | script.js:4035-4072 | `streamOnce` gives the pass's text and its last truthy finish reason over everything it read |
| `Streaming.StreamLines` | script.js:4047-4069 | one read's "data:" lines: "[DONE]" and unparsable payloads are skipped, truthy content is appended, a truthy finish reason replaces the one kept |
| `Streaming.ResultsStep` | script.js:4082 | one more pass adds its result after the earlier ones |
| `Streaming.Advance` | script.js:4079-4094 | a pass never removes a block |
| `Streaming.CappedBackoffStep` | script.js:4105 | each wait is twice the one before, capped at 10000 ms |
| `Streaming.CappedBackoffSchedule` | script.js:4076-4105 | the waits are 1000, 2000, 4000, 8000, 10000, 10000 ms |
| `Streaming.RunStep` | script.js:4079-4094 | one more pass advances the client's state by its result |
| `Streaming.LengthRunExtend` | script.js:4087-4092 | a "length" pass extends a run of "length" passes |
| `Streaming.TakePass` | script.js:4082-4094 | one turn of the inner loop: the text is shown in the latest block; a completed pass is added to the text and the conversation, and "length" also asks to "continue" in a new block |
| `Streaming.RunAttempt` | script.js:4080-4095 | one attempt streams until a pass fails or finishes other than with "length": every earlier pass of the attempt was a "length" pass, and the state is that of all passes so far |
| `Streaming.FetchChunkAnswer3` | script.js:3772-4116 | wait j is min(1000·2^j, 10000), one per failure, at most `retries`; nothing is reset between attempts; when retries remain, the last pass completed without "length" and the text is the completed passes' texts; otherwise an error block is added and "" returned |
| `Streaming.RunSummary` | script.js:4076-4108 | over any passes: the accumulated text is the completed passes' texts in order, every failure is counted, the conversation keeps its start and gains one message per completed pass plus one per "length" pass, which also each add a block |
| `Streaming.OlderBlocksUntouched` | script.js:4079-4090 | a pass only touches the latest block |
| `Streaming.ExistingBlocksUntouched` | script.js:4079-4090 | the blocks of a reused host are never touched, whatever the passes |
| `AppStateModel.LastN` | script.js:1188-1193 | the last min(\|s\|, n) elements |
| `AppStateModel.LastNPush` | script.js:1189-1192 | a `push` then a `shift` when the list is longer than the bound keeps exactly the last n elements ever pushed |
| `AppStateModel.FirstUser` | script.js:3423 | the index of the first user paragraph, every earlier one an assistant's; none when there is no user paragraph |
| `AppStateModel.ChatTitleSpec` | script.js:3423-3430 | the title is the first user text when it has at most 30 characters, its first 30 characters and "…" otherwise, and without a user message "Chat " and the 1-based number of the new session |
| `AppStateModel.SpliceStart` | script.js:3531 | `splice` clamps its start into the list, counting a negative index from the end |
| `AppStateModel.RemoveAt` | script.js:3531 | removing at a position inside the list drops exactly that element; at the end nothing changes |
| `AppStateModel.AppState.AddToChatHistory` | script.js:1188-1193 | the chat history is always the last 5 messages pushed; nothing else changes |
| `AppStateModel.AppState.AddToChatHistory2` | script.js:1196-1201 | `measurabilityTable` is always the last 5 messages pushed to it; nothing else changes |
| `AppStateModel.AppState.ChangeProgrammes` | script.js:4274-4285 | the scope and the five aggregates are emptied and the four audit buttons disabled; nothing else changes |
| `AppStateModel.AppState.ResetOnFileInput` | script.js:1686-1688 | choosing files empties only the programme list |
| `AppStateModel.AppState.SubmitProgrammes` | script.js:4301-4329 | an empty selection changes nothing; otherwise the selection is appended to the scope and the audit buttons are enabled; with both texts loaded each aggregated list keeps its entries and gains the extracted ones after them, and without both texts the lists stay as they were |
| `AppStateModel.ExtendEmpty` | script.js:4276-4281 | after the lists are emptied by a change of programmes, an extraction leaves exactly its own entries |
| `AppStateModel.ExtendTwice` | script.js:1979 | two extractions without emptying in between keep the first one's entries, followed by the second's |
| `AppStateModel.AppState.RunAuditPass` | script.js:2461-2474 | the buttons are disabled first; the pass runs exactly when both texts are loaded, and the buttons end enabled exactly when it ran; a pass that ran has pushed its `replies`, in order, onto the chat history and its `replies2` onto the measurability table (each keeping the last five pushes), a refused one leaves both as they were |
| `AppStateModel.AppState.SaveCurrentChat` | script.js:3403-3441 | an empty pane saves nothing; otherwise exactly one session, titled from the pane, is appended |
| `AppStateModel.AppState.DeleteChat` | script.js:3529-3532 | the session at the clamped splice start is removed and nothing else changes |
| `ChatRoutes.CheckMessageIffValid` | server/routes/chat.js:18-30 | a message passes its three checks exactly when it is an object with one of the four roles and non-empty string content |
| `ChatRoutes.FirstBadMessage` | server/routes/chat.js:18-30 | no error exactly when every message passes; otherwise the first message that fails, by index and reason, every earlier one passing |
| `ChatRoutes.ValidateMessagesIff` | server/routes/chat.js:9-31 | `validateMessages` returns normally exactly on a non-empty array of valid messages |
| `ChatRoutes.ValidateMessagesReportsFirst` | server/routes/chat.js:18-30 | the error is that of the first failing message, at its index |
| `ChatRoutes.FalsyFieldFailsPresenceFirst` | server/routes/chat.js:19-21 | falsy content, the empty string included, or a missing role fails the presence check before the role and type checks |
| `ChatRoutes.AllowedRolesExact` | server/routes/chat.js:23-25 | with non-empty string content, exactly the roles "system", "user", "assistant" and "function" pass |
| `ChatRoutes.ValidateModelNames` | server/routes/chat.js:34-35 | as a string, exactly "" and the four listed names pass |
| `ChatRoutes.ValidateModelByType` | server/routes/chat.js:33-38 | a truthy model that is not a string is always rejected, naming it; a falsy model of any type passes |
| `ChatRoutes.Completions` | server/routes/chat.js:85-153 | an accepted request forwards the body's messages array as it is |
| `ChatRoutes.NonStream` | server/routes/chat.js:283-318 | an accepted request is always forwarded with `stream: false` |
| `ChatRoutes.ValidatorFailureIs500` | server/routes/chat.js:96-97 | a message or model failure is a plain Error: it is caught ahead of the parameter checks and answered 500, not 400, on both routes |
| `ChatRoutes.CompletionsBadRequestIff` | server/routes/chat.js:99-118 | once messages and model pass, the route answers 400 exactly for a temperature outside 0..2 or not a number, a non-boolean `stream`, or truthy non-array `tools` |
| `ChatRoutes.CompletionsDefaults` | server/routes/chat.js:85 | absent fields take gpt-4o-mini, 0.2, streaming on the first route and no tools |
| `ChatRoutes.NonStreamForcesNoStream` | server/routes/chat.js:309-318 | `/non-stream` never streams and forwards tools exactly when they are an array |
| `ChatRoutes.ErrorResponse` | server/routes/chat.js:262-270 | once headers are sent a caught error only ends the response; before that it is answered with the mapped status |

## Left out

- ServerConfig.HandleError, ServerConfig.ExportPdf: the replies omit the diagnostic fields built from the error object: the `details` of a validation error (`err.details`, or `{}`), the `stack` and `details` added to the default reply in development mode, and the `message` and the first 300 characters of the stack trace in the reply for a missing generator script or another thrown error. The model carries no error objects or stack traces, and whether development mode is on is process environment.
- Concurrency in `extractIndicatorsAndTargets` (script.js:1937-2210) is not modelled. Its fan-outs start unbounded promises that push into shared arrays in completion order. There is no per-job catch, and nothing enforces the phase barrier the comments describe. This is scheduling, not sequential logic.
- DOM and UI code is not modelled: rendering messages and markdown (marked, DOMPurify), alerts, spinners and animations, button handlers, and the unused display helpers. Only the enabled state of the audit buttons is modelled, as a flag.
- Browser and network APIs (`fetch`, `TextDecoder`, `FileReader`, `AbortController`, timers) are replaced by oracles and scripted outcomes. Instead of sleeping, each client returns its waits. Cancellation appears only as one more error that the retry loops retry.
- Persistence is not modelled: Firestore, localStorage and the memento helpers, saved vector stores, and the database writes of `/upload` (`User`, `Document`, `AuditLog`). `/upload` catches and logs every failure of those writes, so they never change the reply.
- The SQL and database plumbing is thin wrappers over mysql2, fetch and `process`, so it is not modelled. This covers `server/models/`, `server/routes/database.js`, `server/routes/data.js`, `server/routes/health.js`, `server/config/` and `server/database/`. `database-api.js` and `script_backup.js` are not part of this model.
- Text extraction (pdfjs, mammoth, pdf-parse) is foreign code, so the model takes it as an oracle.
- Floating-point code is not modelled: cosine similarity, top-k ranking and the table column widths. Temperatures are compared as reals, with no rounding.
- PDF rendering with reportlab is not modelled: the header/footer canvas and the story built in `generate_chat_pdf`.
- The Python child process, the temporary file and the response streaming of `/api/export-pdf` are not modelled. Only its input check and defaults are.
- The middleware libraries (helmet, cors, compression, morgan, the rate limiter, multer's size and count limits) are not modelled. Only the decisions the application hands them are.
- Prompt wording is not modelled. Only the `{chunk}` substitution and which aggregated list each audit pass reads are structural.
- `cleanDocumentText` is not modelled on Unicode text. `\s` is the ECMAScript white-space set written out character by character, `\w` is `[A-Za-z0-9_]`, and lower-casing is ASCII-only in both JavaScript and Python.
- Chunkers.ChunkText, Chunkers.SplitFixedCount, Chunkers.ChunkIntoFive, AppStateModel.ChatTitle, FileRoutes.ChunkText, FileRoutes.Summarise, ServerConfig.ExportPdf: lengths and slice positions count Unicode scalar values, one per `char`. JavaScript's `length`, `slice` and `substring` count UTF-16 code units. For text outside the Basic Multilingual Plane the source makes different cuts than the model. For example, "😀" followed by 4999 "a" is two 5000-unit chunks in JavaScript and one chunk here. The source can also cut a surrogate pair in half, which the model cannot express.
- ReportParser.HasAlnum, ReportParser.IsTableLine, ReportParser.NumberedIndicator, ReportParser.NumberedItem: Python's `str.isalnum()` and `\d` are Unicode classes, but the model's are ASCII. A line such as "| é |" is a table line in Python and plain text in the model, and non-ASCII digits do not number an indicator here.
- AppStateModel.AppState.SubmitProgrammes: the extracted entries are a parameter, and their order inside each list is whatever completion order the concurrent extraction produced. A rejected extraction, which leaves the buttons as they were with some entries already pushed, is not modelled.
- `ReportParser.CleanTextFormatting` takes the inline-markup conversion and the keyword label styling (pdf_generator.py:324-364) as parameters. They are regex chains that change only how a line looks, never which lines are produced.
- Chunkers.SliceBySize: assumes a positive `size`. Every caller in the source passes a positive constant, and with a size of 0 the JavaScript loop would never end.
- EmbeddingRoutes.BatchSizeOf: a `batchSize` that is not a positive whole number is not modelled (`None`). With a fractional size, `slice` truncates its bounds; that behaviour is outside the model.
- FileRoutes.ChunkText: requires a `chunkSize` that is not a positive fraction. A positive fraction would make `slice` truncate its bounds, and the model does not cover that. `NaN` passes both checks and gives one empty chunk, and that case is modelled (`FileRoutes.NaNChunkSize`).
- Retry.FetchChunkAnswer: a fractional `Retry-After` ("1.5") is not modelled. The header is either absent, blank, a whole number of seconds, or not a number.
- EmbeddingRoutes.Shown: a number inside an error message is shown as the placeholder `<number>`. JavaScript's decimal rendering of doubles is not modelled.
