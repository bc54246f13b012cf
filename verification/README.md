# Qdrant.Demo: a Dafny model of the indexing and retrieval core

This project models the logic of the Qdrant.Demo workshop repository, which
turns documents and failed Azure DevOps test results into points of a Qdrant
vector collection and searches them. The OpenAI, Qdrant and Azure DevOps
clients are left out. Their results are inputs to the model: each call
either succeeds or fails with a message, and the collection is a map from
point id to point. The model covers:

- the text chunker (`TextChunking`): windows of at most `MaxChunkSize`
  characters, cut after a newline, else after a sentence ender followed by
  whitespace, else before a space, else hard; windows are trimmed, blank ones
  are dropped, and consecutive windows overlap;
- deterministic GUIDs (`Guids`): SHA-256 of the UTF-8 bytes, the first 16
  bytes kept, the version nibble set to 5 and the variant bits to `10`
  (sections 4.1.1 and 4.1.3 of RFC 4122), and the .NET `ToString("D")` text
  form with its mixed-endian byte order;
- the payload field names and the tag/property prefixes (`Payload`);
- the filters (`Filters`):
  - the tag filter factory in its gRPC and REST renderings;
  - the metadata scroll filter;
  - the similarity-search filter.

  Each comes with the set of payloads it admits;
- the chunking and the single-point document indexers (`DocumentIndexing`);
- the failed-test indexer (`TestResults`) and its text helpers (`TextHelpers`):
  - the test name;
  - the embedding text;
  - error and stack normalisation;
  - the point-id and signature keys;
  - the payload;
- the endpoints' orchestration (`DocumentEndpoints`, `BuildIndex`, `Chat`):
  - blank-input rejection;
  - the batch and build loops with their counters and error isolation;
  - how the chat endpoint assembles its sources and context.

Support modules:

- `Wrappers`: `Option` and `Result`.
- `Strings`:
  - .NET `Trim`;
  - `Split`/`Join` on one separator;
  - decimal rendering of integers.
- `Models`: the test-result records.
- `Http`: the endpoint results `Ok`, `BadRequest` and `Problem`.

## Model

| member | source | states |
|---|---|---|
| TextChunking.Chunk | module-08/src/Qdrant.Demo.Api/Services/TextChunker.cs:20-64 | Null, empty or whitespace-only text is rejected with an argument error. Text no longer than `MaxChunkSize` is one chunk: the text untrimmed, index 0, offsets 0 and its length. Otherwise the chunks are numbered 0..n-1 in order. |
| TextChunking.FindSentenceBoundary | module-08/src/Qdrant.Demo.Api/Services/TextChunker.cs:70-99 | The window length chosen is more than half of `maxLength` and at most `maxLength`. |
| TextChunking.BoundaryPriority | module-08/src/Qdrant.Demo.Api/Services/TextChunker.cs:74-98 | The search covers only the back half `[start+maxLength/2, start+maxLength-1]`. A newline strictly after the half-way point wins, the last one, and stays in the window. Failing that, the last sentence ender followed by whitespace at or after it, kept. Failing that, the last space strictly after it, cut off. Failing all three, the full window. |
| TextChunking.LastIndexOfIsLast | module-08/src/Qdrant.Demo.Api/Services/TextChunker.cs:77 | `LastIndexOf(c, startIndex, count)` returns the last occurrence among the `count` positions ending at `startIndex`, or -1 exactly when there is none. |
| TextChunking.LastSentenceBreakIsLast | module-08/src/Qdrant.Demo.Api/Services/TextChunker.cs:82-90 | The backward loop finds the last sentence ender followed by whitespace in the searched range, or reports that there is none. |
| TextChunking.WindowLength | module-08/src/Qdrant.Demo.Api/Services/TextChunker.cs:36-43 | A window is 1..`MaxChunkSize` characters and stays inside the text. The window that can reach the end does reach it. Any other window is longer than half of `MaxChunkSize`. |
| TextChunking.Advance | module-08/src/Qdrant.Demo.Api/Services/TextChunker.cs:55-58 | The step is `length - overlap` when that is at least 1, and otherwise `length`. It is always at least 1, so the loop ends, and for a non-negative overlap it is never longer than the window. |
| TextChunking.ScanAscends | module-08/src/Qdrant.Demo.Api/Services/TextChunker.cs:34-61 | The windows the loop visits start at strictly increasing offsets. |
| TextChunking.ScanWithin | module-08/src/Qdrant.Demo.Api/Services/TextChunker.cs:36-60 | Every visited window is non-empty, lies inside the text and spans at most `MaxChunkSize` characters. |
| TextChunking.ScanCovers | module-08/src/Qdrant.Demo.Api/Services/TextChunker.cs:34-60 | For a non-negative overlap, every position from the start on lies in some visited window. |
| TextChunking.EmitNumbered | module-08/src/Qdrant.Demo.Api/Services/TextChunker.cs:45-51 | Emitted chunks are numbered consecutively from the starting index, however many blank windows were dropped in between. |
| TextChunking.EmitFromWindows | module-08/src/Qdrant.Demo.Api/Services/TextChunker.cs:45-49 | Every emitted chunk is a visited window's offsets with that window's trimmed, non-empty text. |
| TextChunking.ChunkWellFormed | module-08/src/Qdrant.Demo.Api/Services/TextChunker.cs:25-51 | Every chunk satisfies 0 ≤ start < end ≤ length and has 1..`MaxChunkSize` characters. Its text is the trimmed window, or the whole text on the single-chunk path. |
| TextChunking.ChunkStartsIncrease | module-08/src/Qdrant.Demo.Api/Services/TextChunker.cs:45-60 | Chunk start offsets strictly increase. |
| TextChunking.ChunksAreNonBlankWindows | module-08/src/Qdrant.Demo.Api/Services/TextChunker.cs:45-51 | A chunk with offsets [s, e) exists exactly when the loop visited that window and the window is not blank. |
| TextChunking.ChunkCovers | module-08/src/Qdrant.Demo.Api/Services/TextChunker.cs:34-60 | For a non-negative overlap, every non-whitespace character of the text lies in some chunk's window. |
| TextChunking.BoundaryWithoutWhiteSpace | module-08/src/Qdrant.Demo.Api/Services/TextChunker.cs:92-98 | Text without whitespace has no break point, so every cut is a hard cut. |
| TextChunking.ChunksWithoutWhiteSpace | module-08/src/Qdrant.Demo.Api/Services/TextChunker.cs:34-61 | On text without whitespace, the chunks are exactly the hard-cut windows' text, verbatim, numbered in order. |
| TextChunking.ChunksRepeatOverlap | module-08/src/Qdrant.Demo.Api/Services/TextChunker.cs:53-60 | On text without whitespace, with 0 ≤ overlap < `MaxChunkSize`, each chunk ends with exactly the `overlap` characters that begin the next chunk. |
| TextChunking.ChunkCountWithoutOverlap | module-08/src/Qdrant.Demo.Api/Services/TextChunker.cs:55-58 | On text without whitespace, with overlap 0 or overlap ≥ `MaxChunkSize` (the guard), there are ceil(length / `MaxChunkSize`) chunks. |
| TextChunking.ChunksTileWithoutOverlap | module-08/src/Qdrant.Demo.Api/Services/TextChunker.cs:55-60 | Under the same conditions, the chunks put back together are the text. |
| TextChunking.TrailingChunkInsidePrevious | module-08/src/Qdrant.Demo.Api/Services/TextChunker.cs:34-60 | On text without whitespace that is longer than one chunk, a positive overlap always leaves a last chunk `[n - overlap, n)` lying inside the chunk before it. |
| TextChunking.ExampleNoOverlap | module-08/tests/Qdrant.Demo.Api.Tests/TextChunkerTests.cs:100-107 | 250 characters, max 100, overlap 0 give the windows [0,100), [100,200), [200,250). |
| TextChunking.ExampleTrailingWindow | module-08/src/Qdrant.Demo.Api/Services/TextChunker.cs:34-60 | A worked case of the trailing window: 250 characters without whitespace, max 100, overlap 20 give four windows, [0,100), [80,180), [160,250) and [230,250); the last lies inside the third. |
| TextChunking.ExampleOverlapBeyondChunk | module-08/tests/Qdrant.Demo.Api.Tests/TextChunkerTests.cs:181-183 | An overlap of 60 with a maximum of 50 falls back to advancing a full window: 200 characters give [0,50), [50,100), [100,150), [150,200). |
| Strings.TrimSpec | src/FailedTests.Api/Helpers/TextHelpers.cs:71 | `Trim` removes exactly the leading and the trailing whitespace run. |
| Strings.Trim | module-08/src/Qdrant.Demo.Api/Services/TextChunker.cs:45-47 | A trimmed window is empty exactly when the window is blank. |
| Strings.JoinSplit | src/FailedTests.Api/Helpers/TextHelpers.cs:89-93 | Splitting on a character and joining with it gives the text back. |
| Strings.SplitJoin | src/FailedTests.Api/Helpers/TextHelpers.cs:89-93 | Joining parts that lack the separator and splitting again gives the parts back. |
| Strings.ParseIntToString | src/FailedTests.Api/Services/TestResultIndexer.cs:38-39 | The decimal rendering of an integer reads back as that integer. |
| Strings.IntToStringInjective | src/FailedTests.Api/Services/TestResultIndexer.cs:38-39 | Different integers render differently. |
| Guids.ToDeterministicGuid | completed/src/Qdrant.Demo.Api/Extensions/StringExtensions.cs:14-27 | The GUID carries version 5 in byte 6 and variant `10` in byte 8, and is never the empty GUID. Its other bits are those of the digest's first 16 bytes. |
| Guids.FromDigest | src/FailedTests.Api/Helpers/TextHelpers.cs:42-55 | `DeterministicGuid` performs the same truncation and masking on the digest. |
| Guids.SetVersionAndVariantFixedPoints | completed/src/Qdrant.Demo.Api/Extensions/StringExtensions.cs:21-24 | The masking leaves a GUID unchanged exactly when it already carries the version and variant. |
| Guids.SetVersionAndVariantIdempotent | completed/src/Qdrant.Demo.Api/Extensions/StringExtensions.cs:21-24 | Masking twice is masking once. |
| Guids.SetVersionAndVariantInjective | completed/src/Qdrant.Demo.Api/Extensions/StringExtensions.cs:18-24 | Two byte strings mask to the same GUID exactly when they agree outside the six overwritten bits. |
| Guids.OnlyFirstSixteenDigestBytesMatter | completed/src/Qdrant.Demo.Api/Extensions/StringExtensions.cs:18-19 | Digests that agree on their first 16 bytes give the same GUID. |
| Guids.DistinctDigestsDistinctGuids | completed/src/Qdrant.Demo.Api/Extensions/StringExtensions.cs:18-24 | Digests whose first 16 bytes differ outside the masked bits give different GUIDs. |
| Guids.ParseFormatD | module-05/src/Qdrant.Demo.Api/Services/DocumentIndexer.cs:34 | The "D" text form is well formed and reads back as the GUID it renders, including the byte swap of the first three fields. |
| Guids.FormatDInjective | module-05/src/Qdrant.Demo.Api/Services/DocumentIndexer.cs:34 | Different GUIDs have different "D" text forms. |
| Guids.DisplayOrderInvolution | tests/FailedTests.Api.Tests/TextHelpersTests.cs:62-63 | The mixed-endian field swap of `Guid(Span<byte>)` undoes itself. |
| Guids.DeterministicIdDigits | tests/FailedTests.Api.Tests/TextHelpersTests.cs:59-67 | In the text form the version digit `5` is at position 16, not 14, because of the byte swap. The variant digit at position 19 is one of `8 9 a b`. |
| Guids.DistinctDigestsDistinctIds | module-05/src/Qdrant.Demo.Api/Services/DocumentIndexer.cs:34 | Inputs whose digests differ outside the masked bits get different id strings. |
| Payload.ReservedKeysDistinct | completed/src/Qdrant.Demo.Api/Models/PayloadKeys.cs:10-30 | The five reserved field names are pairwise distinct. |
| Payload.DottedSeparating | completed/src/Qdrant.Demo.Api/Models/PayloadKeys.cs:10-30 | Neither of `tag.` and `prop.` starts the other, and no reserved name starts with either. |
| Payload.UnderscoredSeparating | module-06/src/Qdrant.Demo.Api/Models/PayloadKeys.cs:16-19 | The same holds for `tag_` and `prop_`. |
| Payload.PrefixInjective | completed/src/Qdrant.Demo.Api/Models/PayloadKeys.cs:16 | `prefix + k1 == prefix + k2` exactly when `k1 == k2`. |
| Payload.TagNeverProperty | completed/src/Qdrant.Demo.Api/Models/PayloadKeys.cs:16-19 | Under separating prefixes, a tag field never equals a property field. |
| Payload.PrefixedNeverReserved | completed/src/Qdrant.Demo.Api/Models/PayloadKeys.cs:10-30 | Under separating prefixes, a prefixed field is never a reserved field. |
| Payload.WriteAllHolds | module-05/src/Qdrant.Demo.Api/Services/DocumentIndexer.cs:80-84 | After the loop, the payload holds every dictionary entry under the prefix. |
| Payload.WriteAllKeeps | module-05/src/Qdrant.Demo.Api/Services/DocumentIndexer.cs:80-91 | Fields that do not start with the prefix are left as they were. |
| Payload.WriteAllDomain | module-05/src/Qdrant.Demo.Api/Services/DocumentIndexer.cs:80-91 | The fields after the loop are the old fields plus `prefix + key` for each entry. |
| Filters.CreateGrpcFilter | module-03/src/Qdrant.Demo.Api/Services/QdrantFilterFactory.cs:13-25 | There is no filter exactly when there are no tags. Otherwise `Must` has one condition per tag. |
| Filters.CreateScrollFilter | module-03/src/Qdrant.Demo.Api/Services/QdrantFilterFactory.cs:28-40 | There is no filter exactly when there are no tags. Otherwise `must` has one entry per tag. |
| Filters.RenderingsAgree | module-03/src/Qdrant.Demo.Api/Services/QdrantFilterFactory.cs:19-37 | The REST rendering lists the same (field, value) keyword conditions, in the same order, as the gRPC filter. |
| Filters.TagFilterMeaning | module-03/src/Qdrant.Demo.Api/Services/QdrantFilterFactory.cs:13-25 | A payload passes the gRPC tag filter exactly when it holds every tag's value under `prefix + key` (AND semantics). |
| Filters.ScrollFilterMeaning | module-03/src/Qdrant.Demo.Api/Services/QdrantFilterFactory.cs:28-40 | The same holds for the REST rendering. |
| Filters.IndexedTagsMatch | module-03/src/Qdrant.Demo.Api/Services/QdrantFilterFactory.cs:21 | A payload holding a document's tags passes a filter on any subset of those tags written with the same prefix. |
| Filters.PrefixMismatchMatchesNothing | module-03/src/Qdrant.Demo.Api/Services/QdrantFilterFactory.cs:21 | A `tag_` filter with at least one tag admits no payload written with `tag.` fields. |
| Filters.BuildScrollFilter | src/FailedTests.Api/Helpers/QdrantPayloadHelpers.cs:26-57 | There is no filter exactly when every string field is blank and both bounds are null. The condition count is the number of non-blank string fields, plus one range condition when a bound is given. The range comes last and carries both bounds as given. |
| Filters.AddMatchMeaning | src/FailedTests.Api/Helpers/QdrantPayloadHelpers.cs:30-34 | A blank value adds no condition. A non-blank one adds a keyword match on that value. |
| Filters.BuildScrollFilterMeaning | src/FailedTests.Api/Helpers/QdrantPayloadHelpers.cs:26-57 | A payload passes exactly when it holds every non-blank field's value and its `timestamp_ms` lies within the given bounds. |
| Filters.SimilarityFilter | src/FailedTests.Api/Endpoints/SearchEndpoints.cs:30-53 | There is no filter exactly when project and definition are blank and both bounds are null. Otherwise the conjoined condition is the single `Must` entry. |
| Filters.SimilarityFilterMeaning | src/FailedTests.Api/Endpoints/SearchEndpoints.cs:30-53 | A payload passes exactly when it matches the non-blank project and definition and lies within the given timestamp bounds. |
| Filters.SimilarityFilterFields | src/FailedTests.Api/Endpoints/SearchEndpoints.cs:30-53 | Only `project_name`, `definition_name` and `timestamp_ms` take part; test name and outcome never do. |
| Filters.SimilarityAgreesWithScroll | src/FailedTests.Api/Endpoints/SearchEndpoints.cs:30-53 | The similarity filter admits the same payloads as the scroll filter built with no test name and no outcome. |
| TextHelpers.PickTestName | src/FailedTests.Api/Helpers/TextHelpers.cs:15-18 | The result is the automated test name if it is not blank, else the test case title if it is not blank, else `<unknown-test>`. It is never blank. |
| TextHelpers.EmbeddingTextLayout | src/FailedTests.Api/Helpers/TextHelpers.cs:24-37 | Read line by line, the text is the Project, Definition, Build, Test and Outcome lines, an empty line, the error message's lines, an empty line, then the stack trace's lines; null reads as "". |
| TextHelpers.NormalizeShape | src/FailedTests.Api/Helpers/TextHelpers.cs:68-80 | A null or blank message normalises to "". Otherwise the result keeps every visible character of the scrubbed, trimmed message, and whitespace appears only as single spaces. |
| TextHelpers.NormalizeTrimmed | src/FailedTests.Api/Helpers/TextHelpers.cs:70-77 | The result has no leading or trailing whitespace, provided the scrubbing never puts whitespace at the edges of a string that had none. |
| TextHelpers.NormalizeIdempotent | src/FailedTests.Api/Helpers/TextHelpers.cs:68-80 | Normalising a normal form changes nothing when the scrubbing leaves it alone. |
| TextHelpers.CollapseSingleSpaced | src/FailedTests.Api/Helpers/TextHelpers.cs:77 | After `\s+` → " ", whitespace occurs only as single spaces. |
| TextHelpers.CollapseKeepsVisible | src/FailedTests.Api/Helpers/TextHelpers.cs:77 | The collapse keeps every non-whitespace character, in order. |
| TextHelpers.CollapseIdempotent | src/FailedTests.Api/Helpers/TextHelpers.cs:77 | Collapsing twice is collapsing once. |
| TextHelpers.NormalizeStackLines | src/FailedTests.Api/Helpers/TextHelpers.cs:86-94 | A non-blank stack normalises to exactly min(frames, 12) lines: its first non-empty `\n`-separated lines, in order, each trimmed and scrubbed. |
| TextHelpers.NormalizeStackIgnoresLaterFrames | src/FailedTests.Api/Helpers/TextHelpers.cs:89-93 | Once a trace has 12 frames, appending further lines does not change its normal form. |
| DocumentIndexing.UpsertStores | module-05/src/Qdrant.Demo.Api/Services/DocumentIndexer.cs:96-100 | After upserting points with distinct ids, each point is stored under its id. |
| DocumentIndexing.UpsertKeeps | module-05/src/Qdrant.Demo.Api/Services/DocumentIndexer.cs:96-100 | Ids the upsert does not name keep their points. |
| DocumentIndexing.UpsertIdempotent | module-05/src/Qdrant.Demo.Api/Services/DocumentIndexer.cs:96-100 | Upserting the same points twice is upserting them once. |
| DocumentIndexing.ChunkIdInputsDistinct | module-05/src/Qdrant.Demo.Api/Services/DocumentIndexer.cs:50 | Different chunk indices give different `{sourceId}_chunk_{i}` strings. |
| DocumentIndexing.ChunkPointIdsDistinct | module-05/src/Qdrant.Demo.Api/Services/DocumentIndexer.cs:48-50 | Different chunks of one document get different point ids when the hash separates their id strings. |
| DocumentIndexing.ChunkPayloadReserved | module-05/src/Qdrant.Demo.Api/Services/DocumentIndexer.cs:61-75 | Each point holds its chunk's text and `indexed_at_ms`. `source_doc_id`, `chunk_index` and `total_chunks` are present exactly when there is more than one chunk, with values sourceId, i and the count. Tags and properties never overwrite them. |
| DocumentIndexing.ChunkPayloadTags | module-05/src/Qdrant.Demo.Api/Services/DocumentIndexer.cs:80-91 | Every chunk's payload holds every tag under the tag prefix and every property under the property prefix. |
| DocumentIndexing.BuildPointsMeaning | module-05/src/Qdrant.Demo.Api/Services/DocumentIndexer.cs:42-94 | The points are built exactly when every chunk embeds. Point k is then built from chunk k's text and embedding. |
| DocumentIndexing.IndexChunks | module-05/src/Qdrant.Demo.Api/Services/DocumentIndexer.cs:26-106 | The chunker's rejection is reported as such. Every failure, including a failed upsert, leaves the collection unchanged. |
| DocumentIndexing.Index | module-05/src/Qdrant.Demo.Api/Services/DocumentIndexer.cs:26-37 | Blank text is rejected, and any failure, an embedding or an upsert that throws included, leaves the collection unchanged. |
| DocumentIndexing.IndexChunksSucceeds | module-05/src/Qdrant.Demo.Api/Services/DocumentIndexer.cs:42-105 | Indexing succeeds exactly when there is a chunk, every chunk embeds and the store accepts the upsert. An embedding failure is reported with its message, and so is a failed upsert after successful embeddings. |
| DocumentIndexing.IndexSucceeds | module-05/src/Qdrant.Demo.Api/Services/DocumentIndexer.cs:37-56 | For non-blank text, indexing succeeds exactly when every chunk of the text embeds and the store accepts the upsert. |
| DocumentIndexing.IndexIds | module-05/src/Qdrant.Demo.Api/Services/DocumentIndexer.cs:48-52 | `TotalChunks` is the chunk count, and `ChunkPointIds` has chunk k's id at position k. `PointId` is the first of them, and it is the source id itself for a single chunk. |
| DocumentIndexing.IndexStoresChunk | module-05/src/Qdrant.Demo.Api/Services/DocumentIndexer.cs:42-100 | After a successful call, each reported chunk id holds exactly the point built from that chunk. |
| DocumentIndexing.ChunkPointsDistinct | module-05/src/Qdrant.Demo.Api/Services/DocumentIndexer.cs:48-50 | The points written in one call have distinct ids when the hash separates the chunk id strings. |
| DocumentIndexing.IndexKeepsOthers | module-05/src/Qdrant.Demo.Api/Services/DocumentIndexer.cs:96-100 | Points under ids the call does not report are left as they were. |
| DocumentIndexing.IndexIdempotent | module-05/src/Qdrant.Demo.Api/Services/DocumentIndexer.cs:31-100 | Indexing the same request twice, with the same clock and embeddings, leaves the collection as indexing it once. |
| DocumentIndexing.IndexedChunkPayload | module-05/src/Qdrant.Demo.Api/Services/DocumentIndexer.cs:57-91 | The stored point under chunk k's id carries its text, its time, the parent metadata exactly when there is more than one chunk, and every tag and property. |
| DocumentIndexing.ChunksFoundByTags | module-05/src/Qdrant.Demo.Api/Services/DocumentIndexer.cs:77-84 | Every chunk of an indexed document passes a tag filter on any of the document's tags written with the indexer's prefix. |
| DocumentIndexing.IndexSinglePoint | src/Qdrant.Demo.Api/Services/DocumentIndexer.cs:20-67 | The call succeeds exactly when the text embeds and the store accepts the one point. Any failure leaves the collection unchanged. A success reports one point and no chunk id list. |
| DocumentIndexing.SinglePointStored | src/Qdrant.Demo.Api/Services/DocumentIndexer.cs:25-66 | Exactly one point is written, under the id the response names, which is derived from a non-blank Id or else from the text. It holds the whole text, `indexed_at_ms`, every tag and every property, and no chunk metadata. |
| DocumentIndexing.OneChunkAsSinglePoint | src/Qdrant.Demo.Api/Services/DocumentIndexer.cs:25-64 | A single chunk holding the whole text is stored exactly as the single-point indexer stores the document. |
| DocumentIndexing.ChunkingExtendsSinglePoint | module-08/src/Qdrant.Demo.Api/Services/TextChunker.cs:25-28 | Non-blank text within `MaxChunkSize` gets the same collection, success and point id from the chunking indexer as from the single-point one, because the fast path keeps the text untrimmed. |
| TestResults.PointKeySegments | src/FailedTests.Api/Services/TestResultIndexer.cs:38-39 | Split on `\|`, the point key is "ado", the project's segments, then build id, run id and result id. |
| TestResults.PointKeyInjective | src/FailedTests.Api/Services/TestResultIndexer.cs:38-39 | Two point keys are equal exactly when (project, build, run, result) are equal, even when the project name contains `\|`. |
| TestResults.DistinctResultsDistinctPoints | src/FailedTests.Api/Services/TestResultIndexer.cs:37-39 | Different results get different point ids when the hash separates their keys. |
| TestResults.SignatureIgnoresRunContext | src/FailedTests.Api/Services/TestResultIndexer.cs:41-44 | The signature id depends only on project, definition, test name, error message and stack trace. Build, run, result id, computer and dates do not affect it. |
| TestResults.SignatureIgnoresLaterFrames | src/FailedTests.Api/Services/TestResultIndexer.cs:42-44 | Frames after the twelfth do not change the signature id. |
| TestResults.TimestampMs | src/FailedTests.Api/Services/TestResultIndexer.cs:50-51 | The timestamp is taken from CompletedDate, else StartedDate, else the current time. |
| TestResults.ReadPayloadRoundTrip | src/FailedTests.Api/Services/TestResultIndexer.cs:57-73 | The 14 payload fields read back as the envelope's values, with null optionals stored as "" and the ids and timestamp as integers. |
| TestResults.StoreResult | src/FailedTests.Api/Services/TestResultIndexer.cs:53-78 | The call fails exactly when the embedding fails or the upsert of the one point throws, with that error, and then writes nothing. A success writes exactly one point, under the point id, with that payload, and answers with the two ids. |
| TestResults.IndexTestResult | src/FailedTests.Api/Services/TestResultIndexer.cs:31-79 | The call fails exactly when the embedding fails or the store rejects the result's point, and then the collection is unchanged. Otherwise exactly one point changes: the one under the reported id. |
| TestResults.IndexedResultReadsBack | src/FailedTests.Api/Services/TestResultIndexer.cs:35-78 | The reported ids are the point and signature ids of the envelope's keys. The stored payload reads back as the envelope with `test_name = PickTestName` and the chosen timestamp. |
| TestResults.ReindexIdempotent | src/FailedTests.Api/Services/TestResultIndexer.cs:37-76 | Indexing the same envelope again, with the same clock reading and embeddings, gives the same response and the same collection. |
| TestResults.ReindexRestamps | src/FailedTests.Api/Services/TestResultIndexer.cs:50-51 | For a result with neither date, re-indexing at a later clock reading stores that reading's time, and the collection changes exactly when the two readings give different times. |
| TestResults.PayloadMatches | src/FailedTests.Api/Services/TestResultIndexer.cs:59-72 | The payload matches a metadata search exactly when the search's non-blank fields and bounds describe the envelope. |
| TestResults.MetadataSearchFinds | src/FailedTests.Api/Helpers/QdrantPayloadHelpers.cs:26-57 | A stored result passes the scroll filter exactly when the request describes it. |
| DocumentEndpoints.UpsertDocument | completed/src/Qdrant.Demo.Api/Endpoints/DocumentEndpoints.cs:12-31 | Blank text is a bad request, and the indexer is not called. Otherwise the answer is Ok exactly when indexing succeeds. |
| DocumentEndpoints.FailureLabel | completed/src/Qdrant.Demo.Api/Endpoints/DocumentEndpoints.cs:58 | Without an id, the label is the first min(40, length) characters of the text. |
| DocumentEndpoints.BatchUpsert | completed/src/Qdrant.Demo.Api/Endpoints/DocumentEndpoints.cs:34-68 | `Total` is the batch size, `Failed` is the error count, and `Succeeded + Failed = Total`. The loop computes the item-by-item fold. |
| DocumentEndpoints.FoldCounts | completed/src/Qdrant.Demo.Api/Endpoints/DocumentEndpoints.cs:42-61 | Each item adds exactly one success or one error, and every blank item adds an error. |
| DocumentEndpoints.FoldAppend | completed/src/Qdrant.Demo.Api/Endpoints/DocumentEndpoints.cs:42-61 | The batch is processed item by item: a failing item does not stop the items after it. |
| DocumentEndpoints.AllBlankBatch | completed/src/Qdrant.Demo.Api/Endpoints/DocumentEndpoints.cs:44-49 | Blank items add their labelled errors without calling the indexer. |
| BuildIndex.Envelope | src/FailedTests.Api/Endpoints/BuildIndexEndpoints.cs:65-80 | The envelope copies the request and the result. DefinitionName defaults to `Build-{BuildId}` and BuildName to `Run-{run.Id}`. |
| BuildIndex.IndexBuild | src/FailedTests.Api/Endpoints/BuildIndexEndpoints.cs:16-108 | The answer is a problem exactly when fetching the runs fails. Otherwise the loops compute the reference fold, the build id is echoed and `TestRunsFound` is the number of runs. |
| BuildIndex.IndexRun | src/FailedTests.Api/Endpoints/BuildIndexEndpoints.cs:44-91 | One run's iteration computes the reference step for that run. |
| BuildIndex.IndexRunResults | src/FailedTests.Api/Endpoints/BuildIndexEndpoints.cs:61-90 | Each result is indexed or adds one error. |
| BuildIndex.RunStepCounts | src/FailedTests.Api/Endpoints/BuildIndexEndpoints.cs:46-59 | A failed fetch adds one error and skips the run. Otherwise the run's result count is added to those found. |
| BuildIndex.IndexRunsCounts | src/FailedTests.Api/Endpoints/BuildIndexEndpoints.cs:44-91 | Over all runs: found = sum of the fetched counts, and indexed + errors = found + fetch failures. |
| BuildIndex.IndexBuildCounts | src/FailedTests.Api/Endpoints/BuildIndexEndpoints.cs:93-98 | `PointsIndexed` ≤ `FailedResultsFound`. The error count is the fetch failures plus the results that were not indexed. |
| BuildIndex.NoRunsNoWork | src/FailedTests.Api/Endpoints/BuildIndexEndpoints.cs:28-36 | A build without runs answers all zeros and no error, and indexes nothing. |
| BuildIndex.BuildResultsDistinct | src/FailedTests.Api/Endpoints/BuildIndexEndpoints.cs:65-82 | Results of one build with different (run, result) get different point keys. Results with the same test name, error and stack share one signature. |
| Chat.Limit | module-05/src/Qdrant.Demo.Api/Endpoints/ChatEndpoints.cs:45 | `(ulong)K` is K for K ≥ 0 and wraps around modulo 2^64 otherwise. |
| Chat.BuildSources | module-05/src/Qdrant.Demo.Api/Endpoints/ChatEndpoints.cs:53-63 | There is one source per hit, in hit order, with its id (Uuid, else Num, else "?"), its score and its text ("" when absent). Part i is "[i+1] text". |
| Chat.BuildContext | module-05/src/Qdrant.Demo.Api/Endpoints/ChatEndpoints.cs:50-65 | The context is the parts joined with a blank line. |
| Chat.Chat | module-05/src/Qdrant.Demo.Api/Endpoints/ChatEndpoints.cs:33-83 | A blank question is a bad request before any service is called. Otherwise the answer is a problem exactly when the embedding, the search or the completion fails. An Ok answer carries the sources of the hits found with limit (ulong)K and the completion's answer to the fixed system prompt and the context block. |
| Chat.ChatSourcesFollowHits | module-05/src/Qdrant.Demo.Api/Endpoints/ChatEndpoints.cs:53-63 | An Ok answer has one source per hit, in hit order, with that hit's id, score and text, and context part i reads back as hit i's text numbered i+1. |
| Chat.ChatIgnoresTagsAndPrompt | module-05/src/Qdrant.Demo.Api/Endpoints/ChatEndpoints.cs:41-47 | The answer does not depend on the request's tags or system prompt: the search is not filtered by tag and the fixed prompt is always used. |
| Chat.ParsePartRoundTrip | module-05/src/Qdrant.Demo.Api/Endpoints/ChatEndpoints.cs:62 | A context part reads back as its one-based number and its text. |
| Chat.ContextNumbersHits | module-05/src/Qdrant.Demo.Api/Endpoints/ChatEndpoints.cs:53-65 | Context part i names hit i, numbered from one, with that hit's snippet. |

## Left out

- SHA-256 and UTF-8 encoding are parameters (`Hashing`) about which nothing is assumed. In particular they are not assumed injective. Statements about distinct ids therefore carry a premise that the hash separates the inputs.
- The OpenAI, Qdrant and Azure DevOps clients are parameters that return success or failure. This covers embedding, search, chat completion, and run and result fetches. The upsert is a parameter that answers, for the points it is given, the failure it throws or none. The collection is a map from id to point, and an upsert overwrites. A failed upsert is taken to write nothing; a write that lands before the call throws is not modelled.
- `QdrantBootstrapper`, the `Program.cs` files, the info and index endpoints, and the module-03 and module-09 search endpoints are configuration or pass-through code.
- Cancellation tokens and `async` are left out. Each request runs sequentially.
- The clock (`DateTime.UtcNow`) and `ToUnixMs` are parameters. Time-zone conversion and the double `TotalMilliseconds` are not modelled.
- The regex substitutions are parameters: GUIDs and numbers in `Normalize`, and `:line N` in `NormalizeStack`. Only the `\s+` collapse is modelled, with `\s` taken as `char.IsWhiteSpace`.
- Similarity scores and score thresholds are opaque values. The long-to-double casts of the timestamp bounds are not modelled, so bounds are exact integers.
- Payload conversion to and from protobuf values (`QdrantPayloadExtensions`, `FromProto`) is left out. A payload value is a string or an integer.
- Null dictionaries read as empty ones. A null request text is not modelled.
- The chunker's options are not validated in the source. A zero `MaxChunkSize` loops forever there, and a negative one makes the window length negative, so `LastIndexOf` or `Substring` throws. The model requires `MaxChunkSize ≥ 1`.
- 32-bit `int` arithmetic in the chunker is not modelled; `start + advance` cannot overflow for strings .NET can hold with a non-negative overlap.
- A protobuf `PointId` whose `Uuid` is unset reads as "" rather than null in .NET, which would make the `?? Num` fallback unreachable. The model follows the code's `??` chain, with an absent Uuid.
- Exception messages are modelled as the error strings the services return; which exceptions can arise is not modelled.
- Strings are sequences of Unicode scalar values. .NET `Length`, `Substring` and indexing count UTF-16 code units, so text outside the Basic Multilingual Plane is measured differently. For example, 60 emoji with `MaxChunkSize` 100 are one chunk here, but 120 code units in .NET, which split the text and can cut a surrogate pair. The same holds for the 40-character failure label.
- `StringBuilder.AppendLine` writes `Environment.NewLine`, which is "\r\n" on Windows; the embedding text is modelled with "\n".
- The whitespace quirk of `NormalizeStack` is modelled as written: a non-blank trace whose lines are all whitespace normalises to lines that are empty after trimming.
- TextChunking.ChunksRepeatOverlap: the exact overlap is proved for text without whitespace only; on text with break points the windows are shortened and the overlap is then measured from the shortened window.
- Filters.BuildScrollFilter: the contract states the count and the final range condition; the order of the keyword conditions is stated only through the set of payloads the filter admits.
