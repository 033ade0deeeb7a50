# PufferFS extraction, publication and search: a verified model

PufferFS turns captured file versions into published search rows through resumable,
lease-fenced steps. This project models the parts of it where correctness depends on many
steps, many workers or many cuts of the same data, and proves what those parts promise.

| files | models |
|---|---|
| `Redaction.dfy`, `RedactionFacts.dfy`, `Redactor.dfy`, `Utf8.dfy`, `Chunking.dfy`, `StreamState.dfy`, `TextStream.dfy`, `ChunkFacts.dfy` | the streaming data-URL redactor and the greedy chunker as classes, against a specification over the whole input |
| `Segments.dfy`, `NativeTurns.dfy` | cutting chunks into segments, checkpointed turns, appended versions |
| `Publication.dfy`, `Publishing.dfy`, `WorkFates.dfy`, `IndexTurns.dfy`, `IndexContents.dfy`, `IndexWrites.dfy` | work, extractions, segments and the published head of a file under any number of workers; how the head moves and how work ends; what an index worker reads; what the index holds under late writes and deletes; the bounded writes |
| `Search.dfy`, `SearchPublished.dfy` | the exclusion-and-retry loop over an index that still holds stale rows; what it serves while files go on being published |
| `ProviderSubmission.dfy`, `ProviderAssembly.dfy`, `DecodedSegments.dfy` | paid provider batches: submission, sealing, ordered assembly, crash replay |
| `CatalogFeed.dfy` | the catalog change feed and a client's cache |
| `SourceExtents.dfy`, `SourcePacks.dfy` | extent prefixes; provenance and retirement of source packs |
| `LineReads.dfy`, `SegmentReads.dfy` | reading a line range back from stored segments |

How it is modelled:

- Text is a sequence of bytes. The redacted text is a sequence of items, each one
  source byte or one marker for a payload, so that the full alignment of output with source
  can be stated and the bounded window of `TextStream` compared with it.
- A stateful stream is a class with the fields of the original; its ghost fields record the
  input so far and `Valid()` says that the real fields summarise it. Loops are methods.
- A protocol is a state machine: one database transaction, one remote call and one reply are
  one step each, a step may be attempted at any time by a worker that has already lost its
  lease, and theorems quantify over every run. Leases expire whenever they like, tokens are
  never reused, and a provider write or a remote job may land late.
- A record's encoded size, a content hash, the reading of blocks, a reservation, a catalog
  answer and an index ranking are arbitrary parameters.

Assumptions taken from the code's surroundings: versions of a file are numbered in
registration order; identifiers of extractions and segments are never empty and never shared; the
index answers with the first rows of a fixed ranking that pass the filter; an explicit rejection by
the provider created no job; any change of a catalog head makes an outbox event in the same
transaction.

Two promises that do not hold everywhere, each with its exact condition and a run that breaks it:

- A refresh of the local catalog can fail with "catalog changes did not advance" on a healthy
  server. `advanceCatalogChanges` deletes the consumed events and looks at the outbox again in a
  later statement; captures do not wait for that transaction. `CatalogFeed.RefreshStalls`: it
  fails exactly when the delete found no event, the client was at the server's revision, and
  something was captured between the delete and the second look. `CatalogFeed.StallHappens` is
  such a run. Nothing is lost, the next refresh sees the event.
- The row generator of an index worker can fail with "prepared segments are missing" or "not
  contiguous". A worker that has lost its claim still reads with the cursor it remembers, and
  by then the segments may be retired. `IndexTurns.NextSegmentsFound` says exactly when, and
  that it cannot happen while the extraction is live or the claim is held;
  `IndexTurns.LateWorkerNotContiguous` and `IndexTurns.LateWorkerMissing` are runs.

## Model

| member | source | states |
|---|---|---|
| `Redaction.TextTruthful` | workers/base64_redaction.py:11-18 | in the redacted text of any input every plain byte is the source byte at its place, every marker stands for exactly the maximal nonempty payload there, directly after a valid header, and together they account for every byte |
| `RedactionFacts.TokenIs` | workers/base64_redaction.py:17-18 | the payload step taken at a position is the token there, and there is none exactly when no token of the language (a base64 character, an escaped slash, or a two-digit escape of a base64 character) begins there |
| `RedactionFacts.PayloadIsLongest` | workers/base64_redaction.py:17-18 | the payload of a text is the longest prefix that is a concatenation of tokens |
| `RedactionFacts.HeaderIs` | workers/base64_redaction.py:11-16 | a text is accepted as a header exactly if it is a word of the header grammar |
| `RedactionFacts.RedactsExactly` | workers/base64_redaction.py:41-87 | in the redacted text of any input a marker stands at a position if and only if that position begins a payload directly after a recognized header; none is missed and none is added |
| `Redactors.Redactor.InPayload` | workers/base64_redaction.py:51-64 | one loop pass inside a payload refines the whole-input text for every possible continuation, conserves bytes, and decreases (pending length, payload flag) |
| `Redactors.Redactor.InText` | workers/base64_redaction.py:65-85 | the same for one loop pass outside payloads: skipped text, header decision, incomplete header |
| `Redactors.Redactor.Feed` | workers/base64_redaction.py:41-87 | for any block: the emitted spans followed by the text of what is kept are the text of what was kept plus the block, for every continuation; consumed plus kept bytes are conserved; failure exactly after the end or for a block over 65536 bytes; terminates |
| `Redactors.Redactor.Snapshot` | workers/base64_redaction.py:35-39 | succeeds exactly when not finished and within the pending bound, and returns the whole parser state |
| `Redactors.RedactedSpans` | workers/base64_redaction.py:90-95 | however the input is cut into blocks, the spans are those of the whole input and their counts sum to its length |
| `Chunking.RunExtend` | workers/text_stream.py:79-94 | greedy chunking is incremental: chunks emitted from a prefix never change, and the rest continues from where they stop |
| `Chunking.CutStable` | workers/text_stream.py:88-91 | once more than a target of text waits, what follows cannot move the cut |
| `Alignment.WindowCorrect` | workers/text_stream.py:46-54 | the bounded shift and replacement window agrees with the full alignment of output and source at every position from the current chunk on, and finds exactly the markers a chunk touches |
| `Alignment.WindowBound` | workers/text_stream.py:19-36 | the window of a stream with at most a target of pending text is within the bound that restoring checks |
| `StreamStates.RepresentsRestorable` | workers/text_stream.py:19-44 | every state a stream can be saved in passes every check of restoring |
| `TextStreams.TextStream.SourceBoundary` | workers/text_stream.py:46-54 | the loop over the window computes the source position of an output position |
| `TextStreams.TextStream.Utf8Boundary` | workers/extraction.py:68-73 | the downward loop finds the last position that splits no character |
| `TextStreams.TextStream.Emit` | workers/text_stream.py:56-77 | the emitted record has the content, byte range, line range and flag that the full alignment gives; the stream goes on after it |
| `TextStreams.TextStream.Feed` | workers/text_stream.py:79-94 | accepted input leaves a faithful summary of all input so far; rejected input is rejected by every uninterrupted pass over any continuation |
| `TextStreams.TextStream.Finish` | workers/text_stream.py:79-94 | at the end, all chunks together are exactly those of one uninterrupted pass, or that pass is rejected too |
| `ChunkFacts.ChunkRanges` | workers/text_stream.py:56-77 | byte ranges start at the origin and end at the end of the source; consecutive ranges abut, or overlap in exactly one payload when the cut falls inside its marker; an unflagged chunk equals its source range byte for byte |
| `ChunkFacts.ChunkEnds` | workers/text_stream.py:86-94 | every chunk but the last ends after the last line feed among its first `target` bytes, or, if there is none, at the last position within them that splits no character; the last one takes the rest |
| `ChunkFacts.ChunkFlagged` | workers/text_stream.py:67-68 | a chunk is flagged exactly if a marker overlaps its text |
| `ChunkFacts.ChunkShape` | workers/text_stream.py:56-60 | every chunk is nonempty, well-formed, free of NUL and at most the target long, and the chunks in order are the redacted text |
| `ChunkFacts.RedactionKeepsText` | workers/base64_redaction.py:17-18 | redaction preserves well-formedness, absence of NUL and the number of line feeds, both ways |
| `ChunkFacts.AcceptsExactlyText` | workers/extraction.py:68-84 | for any target of at least four, a pass succeeds if and only if the input is well-formed UTF-8 without NUL |
| `ChunkFacts.GoodCut` | workers/extraction.py:68-73 | a cut of well-formed text is never empty and leaves well-formed text on both sides |
| `Segments.SegmentPrefix` | workers/segment_io.py:18-29 | the loop returns the maximal prefix within the chunk and byte bounds, zero when it is still open, and fails exactly on a record no segment can hold |
| `Segments.FitMaximal` | workers/segment_io.py:18-29 | that prefix is within both bounds and no longer one is |
| `Segments.FlushThenSegments` | workers/native_segments.py:43-47 | flushing records as they arrive and finishing later cuts exactly where one pass over all of them does |
| `Segments.FlushThenFlush` | workers/native_segments.py:43-47 | flushing twice is flushing once |
| `Segments.FlushRecords` | workers/native_segments.py:43-47 | the flush loop computes that segmentation, open or final |
| `Segments.SegmentsFaithful` | workers/segment_io.py:63-80 | segments in order are the records, each nonempty and within bounds |
| `Segments.SegmentationFails` | workers/segment_io.py:18-29 | segmentation fails if and only if some record exceeds the segment size |
| `NativeTurns.FaithfulLoadable` | workers/native_segments.py:15-32 | every checkpoint a turn writes passes every validation on load: offsets, parser bounds, pending chunks and their ordinals, conservation of source bytes |
| `NativeTurns.Load` | workers/native_segments.py:15-32 | a saved state is rejected exactly when it fails one of the checks, and otherwise the stream is resumed exactly |
| `NativeTurns.SoundLoads` | workers/native_segments.py:66-72 | no state that a turn leaves behind is rejected |
| `NativeTurns.TransformTurn` | workers/native_segments.py:35-84 | one turn, for any block split and stop, extends the segments, advances the cursor by the blocks read, leaves a sound checkpoint, and fails only on input an uninterrupted pass rejects |
| `NativeTurns.ReusablePrefix` | workers/append_segments.py:68-83 | the append query selects exactly the segments complete before the end of the old input |
| `NativeTurns.SeedSound` | workers/append_segments.py:31-92 | seeding from the checkpoint before the end is sound for every extension of the old bytes, and the completeness check holds |
| `NativeTurns.Replay` | workers/native_segments.py:35-84 | for any history of turns, stops, crashes, block splits, appended and replaced versions that rejects nothing, the bytes, the cursor and completeness are those the events determine, and a complete extraction has the chunk contents, ordinals, locations and segment boundaries of one pass over the final bytes; a rejection means that pass is rejected |
| `NativeTurns.OutcomeBytes` | workers/append_segments.py:31-92 | an append adds to the bytes of the last version, a replacement starts over, a turn changes none; the cursor never passes the end |
| `NativeTurns.TurnAdvances` | workers/native_segments.py:35-84 | a turn that does not crash reads at most its share of the source, and completes the file or gets further |
| `NativeTurns.TurnsComplete` | workers/native_segments.py:35-84 | however early each turn stops, one more of them than there are bytes left completes the extraction |
| `SourceExtents.SourcePrefix` | workers/append_segments.py:9-28 | true if and only if the old list's sequence of (object, offset) addresses is a prefix of the new one's, however both are cut into extents |
| `SourcePacks.StepKeeps` | internal/server/file_catalog.go:143-190 | upload, registration, publication and both retirements keep provenance, pins and liveness of ranges |
| `SourcePacks.RegisterTraces` | internal/server/source_authorization.go:14-73 | an authorized range traces, version by version, to a registration by the capture its pack is bound to |
| `SourcePacks.SourcesOfHeadsStay` | workers/source_cleanup.py:14-65 | in every run the packs of a captured or published version are not retired, and each of its ranges is traced |
| `SourcePacks.RegistrationMoves` | internal/server/file_catalog.go:205-245 | a registration moves the captured head of every written file to its own new version, leaves all other heads, and binds exactly the requested packs of that user that no capture had used |
| `SourcePacks.OldPackGoes` | workers/source_cleanup.py:14-65 | a run in which a replaced version and then its pack are retired |
| `Publication.StepKeeps` | workers/file_runtime.py:92-251 | every step of every worker, timely or late, keeps the invariant of work, extractions, segments, workers and head |
| `Publication.PublishedIsAcknowledged` | workers/index_publish.py:7-42 | in every run, every ordinal of a published extraction has a row the index acknowledged, its own or that of a reused segment |
| `Publication.PublicationAdvances` | workers/index_publish.py:14-41 | the published (version, extraction) never goes backwards |
| `Publication.LiveSegmentsStay` | workers/segment_cleanup.py:18-43 | no segment of a published, captured or unfinished extraction is retired; what stops being live stays so; cursors and counts never decrease and stay within bounds, memberships only grow |
| `Publication.MembersTile` | workers/segment_runtime.py:31-52 | in every run the member segments of an extraction hold every ordinal below its chunk count exactly once, its cursor lies within, and every member wholly below the cursor is marked indexed |
| `Publication.AppendNeverIncomplete` | workers/append_segments.py:62-88 | in every run the error for an incomplete append prefix is unreachable |
| `Publication.TombstoneSparesLaterVersions` | workers/index_mutations.py:10-19 | a tombstone's delete filter, however late, matches no row in a segment of any later version, reused ones included |
| `Publication.CheckpointMarks` | workers/file_runtime.py:194-213 | the 63-ordinal lookback of a checkpoint marks every member segment that the new cursor completes |
| `Publishing.HeadMoves` | workers/index_publish.py:14-41 | the head changes only when a finished, fully indexed extraction of the captured version is published that is not older than the one already published of that version |
| `Publishing.CompleteWasPublished` | workers/index_publish.py:35-41 | in every run every complete extraction was set as the head by some step |
| `Publishing.HeadWasPublished` | workers/index_publish.py:35-41 | in every run the head was set by the publication of just that extraction |
| `Publishing.AlwaysPublishable` | workers/index_worker.py:16-109 | from every state of every run, whatever workers did or left undone, an extraction of the captured version that waits for preparation, the provider or indexing can be brought to publication |
| `Publishing.LostForGood` | workers/file_runtime.py:92-142 | in every run a claim that was lost is never held again by that worker |
| `Publishing.AppendPublished` | workers/append_segments.py:31-92 | a run in which a version is published, an append reuses one of its segments and writes only its own, is published, and the segment nothing uses any more is retired |
| `WorkFates.FateDecided` | workers/file_runtime.py:136-141 | in every run work is failed exactly if some step gave it up, superseded exactly if some step found it overtaken, and complete exactly if some step published it; the first of these stands for good |
| `WorkFates.NeverStuck` | workers/segment_runtime.py:95-111 | in every run an extraction of the captured version that no newer one has replaced and whose work has not ended can still be published |
| `WorkFates.RunOrderly` | workers/batch_collector.py:104-122 | in every run a dropped extraction has ended, what waits for the provider waits in preparation, what is indexed early is segmented, and what is done is at the index and verified |
| `WorkFates.TurnGoesOn` | workers/segment_runtime.py:55-80 | after a saved turn the extraction goes to the index exactly when it is done or has chunks not indexed yet, and anyone may claim it |
| `WorkFates.TurnAppends` | workers/segment_runtime.py:31-52 | a saved turn, and the assembly of provider answers, append exactly their segments: each starts where the one before ends, with its own count, and the chunk count grows by their sum |
| `WorkFates.CountedAsPrepared` | workers/file_runtime.py:229-244 | in every run a finished extraction without segments has exactly the chunks it was completed with, or is that of a tombstone and has none |
| `WorkFates.EveryVersionExtracted` | internal/server/file_catalog.go:205-245 | in every run every captured version has an extraction |
| `IndexTurns.StepOwns` | workers/index_worker.py:43-64 | every step keeps that what an index worker has yet to write lies in segments its own extraction wrote, also for a worker that lost its claim |
| `IndexTurns.PreparedIs` | workers/segment_runtime.py:83-92 | the 63-ordinal lookback selects exactly the members that are not retired from the one holding the cursor on |
| `IndexTurns.WalkExact` | workers/index_worker.py:45-64 | walking the selected segments fails exactly at a gap among the first `limit`, and reads nothing exactly when all are retired |
| `IndexTurns.NextSegmentsFound` | workers/index_worker.py:43-64 | for every index worker in every run, late or not: the segments from its remembered cursor on are contiguous and its extraction's own; the lookback finds exactly them if and only if none is retired; "not contiguous" and "missing" occur if and only if one of the next `limit` is retired before one that is not, and if all are; none is retired while the extraction is live or the claim is held |
| `IndexTurns.LateWorkerNotContiguous` | workers/index_worker.py:46-49 | a run in which a late worker meets "not contiguous" |
| `IndexTurns.LateWorkerMissing` | workers/index_worker.py:62-63 | a run in which a late worker meets "missing" |
| `IndexContents.ActKeeps` | workers/segment_cleanup.py:54-65 | however late writes land and deletes run, in whole or in part, an acknowledged row is missing only if a tombstone, the retirement of its segment or a newer published head allowed its deletion |
| `IndexContents.PublishedIsPresent` | workers/index_cleanup.py:19-39 | in every history every row of the published extraction is in the index, unless that version or a later one deletes the file |
| `IndexContents.IndexIsWritten` | workers/index_worker.py:43-76 | in every history every row in the index belongs to an ordinal that its extraction or its segment has |
| `IndexContents.LateRowsLand` | workers/index_worker.py:86-94 | in every history a write that is never acknowledged, however late, puts its rows into the index and changes nothing else |
| `IndexContents.SweptClean` | workers/index_cleanup.py:19-39 | a delete that removes all it matches leaves, after a tombstone, only rows of later versions, after a retirement no row of the segment, and below the published head no row without a segment that is older than it |
| `IndexWrites.MutationBatches` | workers/index_mutations.py:50-70 | batches partition the rows in order, each within the row, byte and token bounds and without room for the next row; failure exactly when some row fits no mutation |
| `IndexWrites.AffordableMaximal` | workers/provider_capacity.py:68-74 | the shrunken prefix is affordable and one more row is not |
| `IndexWrites.AdmitRows` | workers/provider_capacity.py:53-78 | what is written is a prefix whose whole cost the last reservation admitted; giving up means that no shorter prefix was affordable; terminates |
| `IndexWrites.WriteBatches` | workers/index_worker.py:77-106 | under partial admission, throttling, failed writes, shutdown before or after a checkpoint and lost leases, acknowledged rows are a prefix of the rows, the saved cursor never runs ahead of them, and a finished turn has acknowledged and saved all of them; a turn ends early only for its cause: lost ownership, a failed write, a shutdown, throttling, or an admission put off with nothing affordable |
| `Search.TopAgree` | internal/server/search_publication.go:93-96 | two filters give the same ranked list when one removes only what the other removes and all it returns passes the other |
| `Search.ValidIsExact` | internal/server/search_publication.go:97-216 | once every returned row is valid, the list is what an index of published rows only would return, for every catalog that agrees with the pinned answers |
| `Search.RejectionSound` | internal/server/search_publication.go:191-200 | exclusions never remove a valid row |
| `Search.Pin` | internal/server/search_publication.go:139-169 | the first observed publication of a path is pinned as the catalog gives it and what was pinned stays; it gives up exactly for a malformed row, else for too many paths, else for a missing root with a path to look up |
| `Search.Recall` | internal/server/search_segments.go:20-68 | each candidate membership is asked once, as the segment tables give it, and every returned row becomes decidable; the candidate limit is kept, and giving up means it would be passed |
| `Search.Reject` | internal/server/search_publication.go:178-202 | exactly the invalid rows are rejected, each one's identity is excluded, nothing else is, and the filter estimate is the cost of all names |
| `Search.Pass` | internal/server/search_publication.go:128-209 | a retried namespace has strictly more exclusions, within the limits; a finished one is exact; giving up has its cause in the lists or the filter |
| `Search.QueryPublishedRows` | internal/server/search_publication.go:97-216 | on success every list of every namespace is exactly the first `limit` rows of its ranking restricted to valid rows, all validated; every pinned answer was read in some pass, memberships not before the publication; a retry without a new exclusion is impossible; running out of passes means at least sixteen exclusions, and any other refusal has its cause |
| `Search.FilterFits` | internal/server/search_publication.go:196-199 | the byte estimate of a filter is conservative: its names, quoted and escaped in JSON, are never longer |
| `Search.TopIsFirst` | internal/server/search_publication.go:93-96 | the ranked list under a filter is the beginning, of at most `limit` rows, of all rows that satisfy it |
| `SearchPublished.PublishedIs` | internal/server/search_publication.go:181-189 | a written row belongs to the rows of the published extraction of a file that is not deleted exactly if it carries that extraction, or lies in one of its member segments |
| `SearchPublished.Decided` | internal/server/search_publication.go:181-189 | for answers read from the states of a run: a row accepted as valid is a row of the extraction that was the head when its path was looked up, and such a row is rejected only if its segment has been retired since |
| `SearchPublished.SearchFiles` | internal/server/search_publication.go:97-216 | while workers go on publishing and retiring: every served list is the first `limit` entries of its ranking among those in `Publication.Rows` of the head found at the path's first lookup, of files not deleted then; of those only entries of segments retired before the request ended may be missing |
| `SearchPublished.LiveServesAll` | internal/server/search_publication.go:91-96 | if the extractions looked up are still live at the end, the served list is exactly the first `limit` published entries |
| `ProviderSubmission.StepKeeps` | workers/provider_submission.py:65-164 | claims, lease loss, marking, late calls, late jobs, rejections, reconciliation, collection and retries keep the submission invariant |
| `ProviderSubmission.OneSubmissionPerAttempt` | workers/provider_submission.py:78-124 | in every run, of all create calls of one attempt at most one did not end in an explicit rejection |
| `ProviderSubmission.AtMostThreeJobs` | workers/provider_retry.py:22-27 | in every run a batch has created at most one remote job per attempt, so at most three |
| `ProviderSubmission.RecordedJobs` | workers/provider_submission.py:126-164 | reconciliation never meets two jobs of one name; a recorded job belongs to the attempt it is recorded for; every retried attempt was paid exactly once |
| `ProviderSubmission.RunRemembers` | workers/provider_submission.py:106-122 | calls are never forgotten, and created jobs and explicit rejections are final |
| `ProviderSubmission.CollectionDecides` | workers/batch_collector.py:93-101 | in every run a collection without failures completes the batch, one with failures asks for a retry or at the third attempt fails it; unless a retry was asked for, no create call is ever issued again |
| `ProviderSubmission.StatusExplained` | workers/batch_collector.py:93-101 | in every run a complete batch was last collected without failures, one that waits for a retry with failures |
| `ProviderSubmission.RetriedForFailures` | workers/provider_retry.py:22-27 | in every run every attempt before the current one was collected with failures |
| `ProviderSubmission.FailureIsFinal` | workers/provider_submission.py:96-100 | in every run a batch that was failed stays so, and no attempt is opened, marked or recorded any more |
| `ProviderSubmission.LostReplyCompletes` | workers/provider_submission.py:126-164 | a run in which a retried attempt loses its reply, is reconciled by another worker and completes |
| `ProviderAssembly.SealedIsPartition` | workers/provider_submission.py:10-38 | the aggregate check holds if and only if the submitted batches partition the request range, without gap or overlap |
| `ProviderAssembly.NextBatchFound` | workers/batch_collector.py:123-139 | at every cursor before the end the next batch exists and its end is a cursor again |
| `ProviderAssembly.PickedIs` | workers/batch_collector.py:141-166 | the chunks picked for a request are those at exactly the positions of the artifact tagged with it, in order |
| `ProviderAssembly.AnswersAre` | workers/batch_collector.py:141-166 | the answers are what is picked for each request, one after the other |
| `ProviderAssembly.BatchChunks` | workers/batch_collector.py:141-166 | every request of a batch once, in order, with the chunks its own artifact holds for it, numbered consecutively; failure if and only if these chunks together outgrow the assembly window |
| `ProviderAssembly.AssembleExtraction` | workers/batch_collector.py:104-208 | all turns together, with any crashes, store the answers to every request in order with contiguous ordinals; failure if and only if the answers of some batch outgrow the window or some record exceeds a segment |
| `DecodedSegments.Save` | workers/decoded_segments.py:21-42 | a segment is accepted if and only if its ordinals are contiguous and it agrees with what was saved |
| `DecodedSegments.PrepareDecoded` | workers/decoded_segments.py:15-53 | an attempt succeeds if and only if the saved segments begin the segmentation of the output, and then stores exactly that segmentation; a crash leaves a beginning of it |
| `DecodedSegments.Recover` | workers/decoded_segments.py:15-53 | after any crashes the completing attempt leaves the segments of an uninterrupted one |
| `CatalogFeed.StepKeeps` | internal/server/catalog_changes.go:61-114 | captures, the two-statement revision transaction and those of others, pages, lost replies, resets and policy saves keep the feed invariant |
| `CatalogFeed.BuildPage` | internal/server/catalog_changes.go:184-215 | the page loop returns the visible files of the first `limit` rows and the cursor to go on from |
| `CatalogFeed.StaleIsDue` | cmd/pufferfs/capture_catalog_cache.go:100-188 | in every run a visible file whose cached head differs has an unconsumed event or a revision beyond the cursor; nothing invisible is cached; a path changed since the last completed capture is still pending |
| `CatalogFeed.FinishedRefreshIsCurrent` | cmd/pufferfs/capture_catalog_cache.go:149-188 | saving the last page with no capture since its look at the outbox leaves the cache equal to the visible catalog |
| `CatalogFeed.CursorNeverAhead` | internal/server/catalog_changes.go:167-170 | a cursor the server issued is never ahead of its revision |
| `CatalogFeed.RefreshStalls` | internal/server/catalog_changes.go:76-112 | in every run a request ends in "did not advance" if and only if the outbox was empty at its delete, its cursor was then at the server's revision, and something was captured between the delete and the second look |
| `CatalogFeed.StallHappens` | cmd/pufferfs/capture_catalog_cache.go:180-187 | a run from the empty server, with that capture, that ends in the stall |
| `CatalogFeed.PageMovesCursor` | cmd/pufferfs/capture_catalog_cache.go:149-188 | every delivered page moves the cursor to its own, puts exactly its files into the cache and marks them pending |
| `CatalogFeed.CaptureIsDue` | internal/server/catalog_changes.go:61-114 | in every run a captured head is in the catalog and due at every cursor, and no other head changes |
| `CatalogFeed.LostReplyIsRetried` | cmd/pufferfs/capture_catalog_cache.go:149-188 | in every run a lost reply leaves the server, the cursor and the cache as they were, and the client may ask again |
| `CatalogFeed.TwoPages` | internal/server/catalog_changes.go:184-215 | a run in which two changes arrive over two pages |
| `CatalogFeed.AccessResets` | cmd/pufferfs/capture_catalog_cache.go:100-148 | a run in which changed access refuses the cursor and the cache starts over |
| `LineReads.SplitLines` | internal/server/handlers.go:1722-1732 | splitting after line feeds yields the lines of the text |
| `LineReads.LinesAreText` | internal/server/handlers.go:1722-1732 | a text is its lines, each closed by a line feed, the last one perhaps not |
| `LineReads.Reassemble` | internal/server/handlers.go:1704-1743 | the nested loops return, for every line of the range some row covers, the join of the rows' parts of it in the given order |
| `LineReads.SortOrders` | internal/server/handlers.go:1697-1703 | the sort by line start and chunk index yields an ordered permutation |
| `LineReads.PassInOrder` | workers/text_stream.py:64-75 | line starts of a pass never go down, so its chunks are already in that order |
| `LineReads.SortKeeps` | internal/server/handlers.go:1697-1703 | sorting ordered rows changes nothing |
| `LineReads.TilesLines` | workers/text_stream.py:64-73 | consecutive chunk records hold, line by line, exactly the text between their ends, also when a line spans many chunks |
| `LineReads.SelectIsLines` | internal/server/handlers.go:1673-1749 | reassembling all chunks of a pass gives exactly the lines of the redacted text |
| `LineReads.NumberedAsSource` | workers/base64_redaction.py:41-87 | every item of the redacted text follows as many line feeds as the source bytes it stands for |
| `SegmentReads.PrefilterKeepsRows` | internal/server/segment_reads.go:24-26 | the line-range filter on segments drops no row of the range |
| `SegmentReads.ReadSegmentRows` | internal/server/segment_reads.go:58-104 | paging by eight segments returns exactly the rows of the range in order; the 512-row limit never truncates, no row is taken for a stray one, and the only failure is the byte budget |
| `SegmentReads.ReadFileLines` | internal/server/handlers.go:1673-1749 | a line read of a published text returns exactly lines a to b of the redacted text that exist; refused exactly for an invalid range or too many bytes, unavailable exactly when no such line exists |
| `SegmentReads.CompletedIsReadable` | workers/segment_io.py:63-80 | the segments of a complete extraction, however reached, satisfy what a line read needs |

## Left out

- Redactors.Redactor.Restore: the constructor takes a state within the bounds; the rejection of a state outside them is modelled by `NativeTurns.Load`.
- TextStreams.TextStream.Restore: likewise takes a restorable state that summarises some input.
- NativeTurns.Load: that a checkpoint passing every check stands for its input is assumed, since it is found by its content hash, which is abstract here; the contract name, manifest and source hash it also compares are not modelled.
- NativeTurns.TransformTurn: the digest is the bytes absorbed so far, compared through an arbitrary hash; the two-MiB checkpoint bound and the lease checks between blocks are not modelled.
- NativeTurns.Replay: publication of the old version before an append is an event order here; its database conditions are in `Publication`.
- Publication.StepKeeps: one file; database rows are values, not objects updated in place; attempt counts, delays and lease clocks are nondeterminism; the provider batches behind a waiting extraction are in the provider modules; a second extraction revision of one version is a step although only the guards for it are in this code.
- SourcePacks.StepKeeps: authorization deadlines, object deletion after retirement and the provider inputs that also keep a version are not modelled; publication may happen at any time, which only makes retirement easier to get wrong.
- Search.QueryPublishedRows: namespaces are processed one after the other within a pass, where the original batches their catalog lookups in one statement; provider and database errors are not modelled; row file hashes are not modelled.
- SearchPublished.SearchFiles: the rankings are fixed for the request, so writes and deletes that land in the index between two passes are not modelled; the two reads of a pass see one state of each file; roots are not deleted.
- ProviderSubmission.StepKeeps: the input manifest and its refresh, reconciliation paging, and job cancellation are not modelled; the currency of the source is a nondeterministic failure.
- ProviderAssembly.BatchChunks: the memory size of a chunk is an arbitrary weight.
- ProviderAssembly.AssembleExtraction: turns follow each other directly; the indexing turns between them are in `Publication`.
- CatalogFeed.StepKeeps: cursor signing and encoding, root deletion and validation of received paths are not modelled; one file per path.
- IndexContents.ActKeeps: a write that is acknowledged lands in the same step; one that is never acknowledged may land at any time; the index holds rows of one file.
- IndexWrites.WriteBatches: settlement of reservations and the pauses it asks for are not modelled; time is a counter that the environment is asked at.
- LineReads.Reassemble: rows without an extraction (an older row format) are not modelled.
- SegmentReads.ReadFileLines: the access filter and page reads are not modelled; it also needs the extraction's segments to hold the chunks of a pass, which `SegmentReads.CompletedIsReadable` provides.
- Generators are eager: spans, chunks and rows are returned as sequences, so laziness and interleaving with consumers are not captured.
- Replay of a capture request and the compare-and-set conflict answers of registration.
- Object storage, HTTP, SQL text, SHA-256, HMAC, base64, gzip and JSON encodings.
- Document, media, spreadsheet, mail and calendar decoders: a decoder is any fixed list of chunks.
- The capture client's spool, journal, upload, retention and watching; authentication, access lists, billing, administration, metrics and rank fusion.
