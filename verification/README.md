# TurkRAG: a verified model of its core

TurkRAG answers questions over a tenant's documents. This project models the parts of it that carry
state, concurrency or arithmetic, and proves what they promise:

* **Ingestion queue.** `JobQueue` holds the job table with the statements of `ingestion/queue.py` as
  methods that update it; `QueueRuns` runs any number of workers on it, slow and crashing ones included;
  `QueueLaws` says in the table's columns what each step does to a job and what ends one.
* **Index files.** `Bm25Index` is the read-modify-write of a tenant's BM25 file; `Bm25Locking`
  interleaves any number of threads on it, with the lock lookup, the read and the write as separate
  steps. `IndexWriter` runs retried and crashing ingestion attempts over the vector collection, the
  BM25 file and the document table; `IndexContents` says which texts they hold, and `IngestionRuns` joins
  them with the queue.
* **Chunkers.** `TurkishChunker` (with the sizes of its chunks in `ChunkLimits`), `RecursiveChunker` (with
  what it cuts and what it leaves whole in `SplitLaws`), `FixedSizeChunker` and `ParagraphChunker`, over the
  Python string operations in `PyText`.
* **Ranking.** `Fusion` (Reciprocal Rank Fusion) and `FusionOrder` (the order of its list), `Mmr` (greedy
  diversity selection) and `MmrChoice` (what it chooses), `Retrieval` (the pipeline after the two searches),
  `RetrievalLaws` (what a query gets in each mode) and the method in `HybridRetriever`, with a stable sort in
  `Sorting`.
* **Evaluation.** `RetrievalMetrics` computes the ranking metrics and `MetricLaws` says what one more
  document is worth; `EvalJobs` holds the functions on `eval_runs`, `EvalJobRuns` interleaves creation
  transactions and duplicate invocations, and `EvalJobGuarantees` and `EvalJobLaws` say what holds of every
  interleaving.
* **Streaming and limits.** `Streamer` holds the producer and consumer loops, `StreamRuns` all their
  interleavings, `StreamLaws` when the producer is cancelled and what is sent. `RateLimiter` is the
  sliding-window limiter.

## How to read it

A function of the repository that updates something is a method, proved equal to a specification
function of the same step; the properties are lemmas about those functions. The modules named `Laws` say
what an operation does without its specification function: in the columns of a table, the characters of a
text, the places of a list. A protocol is a state
machine over the same functions: `Enabled` says when an event can happen, `Step` what it does, `Run` and
`After` follow a sequence of events, and a theorem about `Run` speaks of every interleaving. Each SQL
statement is one atomic event, `NOW()` is the state's clock, which never goes back, and a process that
dies simply takes no further step (events `Crash`, `Die`, `Abort`, `Kill`). Scores, times of the limiter
and metric values are reals; the base-2 logarithm in nDCG is any positive, strictly falling discount.

Where the code keeps less than its documentation or a reader might expect, the model follows the code
and proves the exact condition:

* The class comment of TurkishChunker promises chunks not exceeding MAX_CHARS. Whole chunks keep to it,
  for all sentences that do, exactly when MIN_SENTENCE_CHARS is at most 1 and OVERLAP_CHARS at most 0
  (`DocumentedLimitIff`); for all merged sentences that do, exactly when OVERLAP_CHARS or MAX_CHARS is
  below the larger of MIN_SENTENCE_CHARS and 1 (`MergedLimitIff`). The class's own values 800, 150 and 40 fail both
  (`DefaultsExceedMaxChars`). The own texts of the chunks keep to a limit exactly when the sentences do
  (`OwnTextFitsIff`).
* FixedSizeChunker's loop ends exactly when the overlap is smaller than the window or the text fits one
  window (`TerminatesIff`).
* A completed or failed job keeps its row in every run exactly when nobody holds it
  (`EndedRowFixedIff`). Exclusive holding survives a recovery exactly when the held jobs' heartbeats are
  recent (`ExclusiveStep`); without that a late writer can reopen a completed job
  (`SlowWorkerReopensCompletedJob`).
* "Found by both beats found by one" holds for all lists of at most n hits exactly when n <= RRF_K if no
  list repeats a key (`AgreementWinsIff`), and exactly when n <= 2 if lists may
  (`AgreementWinsWithRepeatsIff`).
* The fusion key tells documents apart exactly when both hits carry a chunk number
  (`KeyTellsDocumentsApartIff`); both stores always supply one.
* Precision is a share exactly when the cut-off is not negative or nothing is found
  (`PrecisionIsShareIff`).
* A `done` frame means that the generator ended normally, in all runs, exactly when the generator is never
  interrupted by a throwable that is not an `Exception` (`DoneMeansExhaustedIff`, and run by run
  `DoneSaysExhausted`); the shown run interrupts it before any token (`InterruptedGeneratorLooksDone`).
* Callers from two hosts have separate rate-limit buckets, whatever their keys, exactly when neither host's
  text followed by a colon begins the other's (`HostsApartIff`).
* A ready document, not marked as failed meanwhile, stays as it is in both stores in every run exactly when
  no attempt on it has still to append, or it has no chunks (`ReadyDocumentFixedIff`).

## Model

| member | source | states |
|---|---|---|
| JobQueue.IngestionJobs.EnqueueJob | ingestion/queue.py:19-29 | inserts one pending job with no attempts made, and changes no other row |
| JobQueue.IngestionJobs.PickNextJob | ingestion/queue.py:32-66 | moves an oldest runnable, unlocked job to processing and counts the attempt; returns nothing exactly when there is none, and then changes nothing |
| JobQueue.IngestionJobs.HeartbeatJob | ingestion/queue.py:69-77 | refreshes the heartbeat of a processing job only |
| JobQueue.IngestionJobs.CompleteJob | ingestion/queue.py:80-91 | completes the job whatever its status is |
| JobQueue.IngestionJobs.FailJob | ingestion/queue.py:94-133 | requeues with a delay while attempts remain and a retry is wanted, otherwise fails the job; reports the row it wrote, or nothing for an unknown id |
| JobQueue.IngestionJobs.RecoverStaleJobs | ingestion/queue.py:136-181 | column by column: an unlocked processing job without a recent heartbeat goes back to pending at once, keeping its error, if it has attempts left, and fails as timed out otherwise; every other row stays; each recovered job is reported once |
| JobQueue.Report | ingestion/queue.py:172-181 | the returned list names each recovered row exactly once, as it now is |
| QueueRuns.WritesKeepRowOk | ingestion/queue.py:36-131 | every statement keeps the row invariant of the row it writes, with no assumption on who writes |
| QueueRuns.InvRun | ingestion/queue.py:19-170 | the row invariant in every run: pending jobs have attempts left, completed_at is null iff the job is open, a processing job has started_at <= last_heartbeat <= now, retry_after is set only on open jobs and is in the past on processing ones |
| QueueRuns.BudgetStep | ingestion/queue.py:36-114 | 3 * (attempts left) + holders + [processing] never grows and falls strictly on each pick, complete, fail, stale recovery and crash of the job |
| QueueRuns.JobWorkIsBounded | ingestion/worker.py:82-138 | in every interleaving a job takes at most 3 * max_attempts such steps, and its pipeline starts at most max_attempts times |
| QueueRuns.NoJobIsStuck | ingestion/queue.py:32-50 | every pending job can be picked after a while, by picks that lock nothing and take the older jobs first, and every processing one is taken back by a recovery after a while without a heartbeat |
| QueueRuns.NoPickBeforeDelay | ingestion/queue.py:94-114 | after a failure the job is not picked before the retry delay is over, in any run and whatever other holders of the same job write meanwhile |
| QueueRuns.ExclusiveStep | ingestion/queue.py:140-168 | "each held job is processing, with one holder" survives a step if and only if the step is no recovery of a held job whose heartbeat is too old |
| QueueRuns.ExclusiveRun | ingestion/worker.py:34-79 | if heartbeats keep up at every recovery, holding stays exclusive throughout the run and ended jobs never change again |
| QueueRuns.EndedRowFixedIff | ingestion/queue.py:80-114 | a completed or failed row stays as it is in every run, heartbeats or not, if and only if nobody holds the job |
| QueueRuns.SlowWorkerReopensCompletedJob | ingestion/queue.py:80-114 | a run in which a silent worker and a second one hold the same job, the second completes it, and the late failure of the first reopens it |
| QueueLaws.StatusLaw | ingestion/queue.py:36-170 | for every status, the exact steps that bring a job to it: processing only by its pick, completed only by its completion, failed exactly by a failure that wants no retry or has no attempt left, or by a stale recovery without an attempt left, pending exactly by a failure that wants a retry or by a stale recovery, with an attempt left |
| QueueLaws.ColumnsLaw | ingestion/queue.py:36-170 | every other column after every step: the attempt count, the exact retry time, the time stamps, and the first 500 characters of the message |
| QueueLaws.PickableIff | ingestion/queue.py:42-50 | a worker that finds the other rows locked can pick a job if and only if it is pending and its retry time has come |
| QueueLaws.RetryDelayIsExact | ingestion/queue.py:94-114 | a requeued failure can be picked again from the end of the retry delay on, and not before |
| QueueLaws.RecoveredJobIsPickable | ingestion/queue.py:148-166 | a job that a recovery requeues can be picked at once |
| QueueLaws.FailedMeansAllAttemptsMade | ingestion/worker.py:82-138 | in every run, a failed job has been started max_attempts times, unless one of its workers wanted no retry |
| QueueLaws.FirstComeFirstServed | ingestion/queue.py:42-50 | in every run, until a job is first picked no job created after it is, except by a worker that finds its row locked |
| Bm25Index.IndexDirectory.UpdateBm25 | ingestion/indexer.py:163-203 | the tenant's file starts with all it held and goes on with the new chunks; no other file is touched |
| Bm25Index.IndexDirectory.RemoveFromBm25 | ingestion/indexer.py:237-272 | the tenant's file keeps the other documents' entries in their order, and is gone exactly if there are none; no other file is touched |
| Bm25Index.Keep | ingestion/indexer.py:252-263 | the two lists kept after a removal stay aligned and hold exactly the other documents' entries |
| Bm25Index.ApplyKeepsAligned | retrieval/bm25_store.py:65-72 | texts[i] == payloads[i].text survives both operations |
| Bm25Index.RemovalIsExact | ingestion/indexer.py:252-256 | after a removal each chunk is counted zero times if it was the document's, and as before otherwise |
| Bm25Index.CountsAfter | ingestion/indexer.py:182-263 | an update adds to the count of every chunk what it brings, a removal makes it 0 for its document, and nothing else changes |
| Bm25Locking.NothingLostNothingRevived | ingestion/indexer.py:182-269 | in every interleaving each file holds each chunk as often as the log counts it: an update stays in with all its chunks until a removal of the document follows it, and a removed document stays away until an update follows |
| Bm25Locking.Serializable | ingestion/indexer.py:182-201 | with any number of threads, the files are what the logged operations make one after the other, and every file is aligned; the log holds the operation each thread was started with, once if it has taken effect and not at all otherwise |
| Bm25Locking.SerialOrderIsRealTime | ingestion/indexer.py:245-269 | the serial order respects real time |
| Bm25Locking.MutualExclusion | ingestion/indexer.py:25-29 | two threads never hold the same tenant's lock |
| IndexWriter.StoresGrow | ingestion/indexer.py:133-201 | no step of an attempt takes a point or an entry away |
| IndexWriter.RetriesAreBounded | ingestion/indexer.py:140-190 | with any crashes and overlaps, a chunk has at most one point, and at most one BM25 entry per started attempt |
| IngestionRuns.CopiesWithinMaxAttempts | ingestion/worker.py:115-138 | queue and stores in one run: a chunk has at most max_attempts BM25 entries for each job of its document, and at most one point |
| IndexWriter.ReadyMeansSameKeys | ingestion/indexer.py:90-92 | while a document is ready both stores hold exactly its chunks |
| IndexWriter.ReadyDocumentIsLeftAlone | ingestion/worker.py:106-111 | once a document is ready and no attempt on it has still to append, further attempts change neither store for it |
| IndexWriter.ReadyDocumentFixedIff | ingestion/indexer.py:90-92 | a ready document stays as it is in both stores in every run without an error mark, if and only if no attempt on it has still to append, or it has no chunks |
| IndexWriter.LateAttemptWritesNothing | ingestion/worker.py:106-111 | an attempt that starts while its document is ready writes to neither store in any later run, whatever other attempts do |
| IndexContents.BatchLaw | ingestion/indexer.py:156-159 | one call to the collection writes exactly the attempt's next hundred chunks, or what is left of them, with its texts |
| IndexContents.StatusLaw | ingestion/indexer.py:205-215 | only an attempt whose status update takes effect makes its document ready, and only an error mark takes that back |
| IndexContents.StoresHoldBroughtTexts | ingestion/indexer.py:133-201 | in every run both stores hold only texts that an attempt brought for that very chunk, and the file keeps texts and payloads side by side |
| IndexContents.ReadyStoresAgree | ingestion/indexer.py:86-92 | if all attempts on a ready document brought the same texts, both stores hold exactly these, however many attempts it took |
| IndexContents.ReadyDocumentHasChunks | ingestion/indexer.py:69-71 | a document without chunks never becomes ready |
| TurkishChunker.MergeShort | ingestion/chunker.py:75-93 | the merged list joins consecutive runs of sentences, each closed as soon as it reaches the minimum length, with a short rest joined to the last run |
| TurkishChunker.MergeKeepsTextAndLength | ingestion/chunker.py:46-47 | merging keeps the text, and every merged sentence reaches the minimum length unless it is the only one |
| ChunkLimits.MergeIsUnique | ingestion/chunker.py:75-93 | what comes out of merging is determined by its description |
| TurkishChunker.BuildChunks | ingestion/chunker.py:101-123 | the loop yields one chunk per greedy group, with its overlap prefix and offsets |
| TurkishChunker.GreedyIsOptimal | ingestion/chunker.py:109-121 | the chunks' groups are admissible and partition the sentences, and no partition into admissible groups has fewer |
| TurkishChunker.GroupsFillInTurn | ingestion/chunker.py:109-121 | the groups take the sentences in turn; more than one of them keep below MAX_CHARS, and a group is closed exactly when the next sentence would not have fitted |
| TurkishChunker.ChunkCarriesOverlap | ingestion/chunker.py:96-134 | a chunk is the longest fitting suffix of the group before it, then its own group; the first one carries nothing |
| TurkishChunker.BuildOverlap | ingestion/chunker.py:125-134 | the loop from the back returns the Overlap of the group, the suffix that OverlapIsLongest describes |
| TurkishChunker.OverlapIsLongest | ingestion/chunker.py:49-50 | the overlap is the longest whole-sentence suffix whose join fits OVERLAP_CHARS |
| TurkishChunker.ChunkSentences | ingestion/chunker.py:69-73 | chunks are those of the greedy groups of a merge of the sentences |
| TurkishChunker.OffsetsAreExact | ingestion/chunker.py:95-99 | with J the joined sentences and p the prefix length, a chunk's text is J[start - p .. end - p] and its own part is J[start .. end - p] |
| TurkishChunker.OwnPartsTile | ingestion/chunker.py:113-121 | the own parts tile J: they start at 0, follow each other after one separator, and end at its end |
| ChunkLimits.ChunkSize | ingestion/chunker.py:101-134 | a chunk is at most max(MAX_CHARS - 1, longest sentence) + OVERLAP_CHARS + 1 long |
| ChunkLimits.ChunkSizeOfShortSentences | ingestion/chunker.py:53-55 | with sentences below MAX_CHARS, at most MAX_CHARS + OVERLAP_CHARS |
| ChunkLimits.OwnTextFitsIff | ingestion/chunker.py:48 | for any limit from MAX_CHARS - 1 up, every chunk's own text keeps to it if and only if every sentence does |
| ChunkLimits.DocumentedLimitIff | ingestion/chunker.py:46-55 | whole chunks keep to MAX_CHARS for every list of sentences that do if and only if MAX_CHARS < 1, or MIN_SENTENCE_CHARS <= 1 and OVERLAP_CHARS <= 0 |
| ChunkLimits.MergedLimitIff | ingestion/chunker.py:101-134 | whole chunks keep to MAX_CHARS for all merged sentences that do if and only if OVERLAP_CHARS or MAX_CHARS is below the larger of MIN_SENTENCE_CHARS and 1 |
| ChunkLimits.DefaultsExceedMaxChars | ingestion/chunker.py:53-55 | with 800, 150 and 40 both fail |
| RecursiveChunker.SplitText | ingestion/chunker.py:192-206 | returns exactly the pieces Split specifies, which the rows of SplitLaws describe |
| PyText.StripSlice | ingestion/chunker.py:198 | stripping takes whitespace from both ends and nothing else |
| SplitLaws.FindIsFirst | ingestion/chunker.py:196 | splitting looks for the first occurrence of the separator |
| SplitLaws.FittingPartsAreThePieces | ingestion/chunker.py:195-205 | if all parts at the coarsest separator fit, the pieces are exactly these parts, stripped, without the blank ones |
| SplitLaws.PieceIff | ingestion/chunker.py:192-206 | the pieces are exactly the coarsest units that fit: a unit is split on if and only if it is too long and a separator is left |
| SplitLaws.WordsAreNotCut | ingestion/chunker.py:174-206 | a stretch without spaces and line breaks that is at most max_chars long goes into one piece whole, but for whitespace and punctuation at its ends |
| RecursiveChunker.SplitThenJoin | ingestion/chunker.py:196 | joining the split parts on the separator restores the text |
| RecursiveChunker.SplitPartsFree | ingestion/chunker.py:196 | no part still holds the separator |
| RecursiveChunker.PieceSize | ingestion/chunker.py:193-205 | no piece is longer than max_chars (than one character, below that), whatever the separators before the empty one |
| RecursiveChunker.SplitKeepsCore | ingestion/chunker.py:192-206 | every character that is neither whitespace nor `.`, `!`, `?` survives, in order |
| RecursiveChunker.SplitByDefault | ingestion/chunker.py:174-190 | both, for the documented separators and any text |
| RecursiveChunker.MergeWithOverlap | ingestion/chunker.py:208-223 | returns exactly the chunks Merge specifies, whose pieces and sizes the next rows describe |
| RecursiveChunker.MergedMadeOfPieces | ingestion/chunker.py:208-223 | the pieces fall into consecutive groups, one a chunk, and a chunk is its group's join after at most the overlap |
| SplitLaws.ChunksAreFilledInTurn | ingestion/chunker.py:208-223 | a piece joins the chunk before it exactly if it fits, and a new chunk starts with exactly the last overlap_chars characters of the one before, less blanks in front, and a space |
| SplitLaws.ChunksKeepWords | ingestion/chunker.py:180-223 | the chunks of any text keep its words whole |
| RecursiveChunker.MergeSize | ingestion/chunker.py:211-222 | every merged chunk is at most max_chars + overlap_chars + 1 long |
| RecursiveChunker.ChunkTexts | ingestion/chunker.py:180-183 | the texts are the merge of the pieces of the stripped text, for the documented separators |
| RecursiveChunker.ChunksBoundedAndComplete | ingestion/chunker.py:180-190 | for any text: bounded chunks, and without overlap no core character lost or doubled |
| FixedSizeChunker.ChunkText | ingestion/chunker.py:150-164 | returns exactly the chunks ChunksFrom specifies, whenever the loop ends |
| FixedSizeChunker.TerminatesIff | ingestion/chunker.py:154-161 | the loop leaves the text behind if and only if overlap < max or the text fits one window |
| FixedSizeChunker.ChunksAreWindows | ingestion/chunker.py:155-160 | each chunk is the non-blank stripped text between its offsets, at most max_chars wide, numbered without gaps |
| FixedSizeChunker.ChunksCover | ingestion/chunker.py:154-161 | every non-blank character lies in some chunk's window |
| FixedSizeChunker.StartsAreEvenlySpaced | ingestion/chunker.py:161 | window n starts at n * (max - overlap) |
| FixedSizeChunker.ChunksAreTheWindows | ingestion/chunker.py:150-164 | the chunks are exactly the windows of max_chars characters, max - overlap apart, up to the first that reaches the end, less the blank ones, in order |
| ParagraphChunker.MergeParagraphs | ingestion/chunker.py:242-254 | returns exactly the paragraphs MergeFrom specifies, which the next two rows describe |
| ParagraphChunker.MergeKeepsText | ingestion/chunker.py:243-254 | joined on blank lines, the merged paragraphs are the paragraphs |
| ParagraphChunker.MergedFitOrAreSingle | ingestion/chunker.py:247-252 | a merged paragraph that is too long is a single paragraph of the text |
| ParagraphChunker.ParagraphsMergeInTurn | ingestion/chunker.py:242-254 | a paragraph joins the merged one before it exactly if the two fit with a blank line |
| ParagraphChunker.ChunkParagraphs | ingestion/chunker.py:256-278 | returns exactly ChunksOf the merged paragraphs, whenever every long one can be cut into windows |
| ParagraphChunker.ParagraphChunksAreExact | ingestion/chunker.py:239-281 | every chunk is the stripped text between its offsets in the concatenated merged paragraphs, at most max_chars wide and numbered without gaps, and every non-blank character is covered |
| ParagraphChunker.ParagraphsAreCutIntoWindows | ingestion/chunker.py:256-278 | the chunks are, paragraph by paragraph, its own windows: one for a paragraph that fits, and one every max - overlap characters for a longer one |
| Sorting.SortFacts | retrieval/hybrid.py:238 | the sort is a descending permutation |
| Sorting.SortStable | retrieval/hybrid.py:175 | and it is stable |
| Sorting.SortKeepsOrder | retrieval/hybrid.py:238 | of two elements with equal keys the earlier stays the earlier |
| Sorting.SortHasPlaces | retrieval/hybrid.py:175 | each element is taken from its own place: higher keys first, equal keys by place |
| Fusion.KeyInjective | retrieval/hybrid.py:222-223 | the key tells (document id, chunk number) pairs apart, whatever the id contains |
| Fusion.KeyTellsDocumentsApartIff | retrieval/hybrid.py:223 | equal keys mean the same document if and only if both hits have a chunk number |
| Fusion.RrfFusion | retrieval/hybrid.py:216-244 | returns FusionOf: one entry for each key, first hit and summed score, sorted stably by score |
| Fusion.UnnumberedKeysAgreeIff | retrieval/hybrid.py:222-223 | hits of one document without numbers count as one if and only if their first 30 characters agree |
| Fusion.FusedEntry | retrieval/hybrid.py:225-240 | an entry is the first hit with its key in the BM25 list and then the dense one, and its score is the sum of that key's terms |
| Fusion.FusedScore | retrieval/hybrid.py:225-240 | in lists without repeats the score is 1 / (60 + rank) from each list that holds the key |
| Fusion.FusionListsEachKeyOnce | retrieval/hybrid.py:237-240 | every distinct key exactly once, in descending score |
| FusionOrder.TwoTermsBeatOneIff | retrieval/hybrid.py:23-233 | two smallest terms of n ranks beat one largest if and only if n <= RRF_K |
| FusionOrder.FoundByBothComesFirst | retrieval/hybrid.py:216-244 | with at most RRF_K distinct hits a list, chunks found by both retrievers precede all others |
| FusionOrder.AgreementWinsIff | retrieval/hybrid.py:216-244 | in all pairs of lists of at most n hits without repeated keys, chunks found by both precede all others, if and only if n <= RRF_K |
| FusionOrder.AgreementWinsWithRepeatsIff | retrieval/hybrid.py:225-240 | the same with lists that may repeat a key, if and only if n <= 2 |
| FusionOrder.FusionRespectsAgreement | retrieval/hybrid.py:216-244 | a chunk above another in every list that contains the other precedes it |
| FusionOrder.DuplicateOutranksAgreement | retrieval/hybrid.py:225-229 | a chunk twice in one list is listed before one found by both |
| Mmr.MmrSelect | retrieval/hybrid.py:247-288 | returns Select, the one selection that the rows of MmrChoice describe, and the input itself if it has no more than k |
| Mmr.JaccardBounds | retrieval/hybrid.py:277-280 | the similarity lies between 0 and 1, empty texts included |
| MmrChoice.JaccardMeaning | retrieval/hybrid.py:277-280 | the similarity is the shared part of all tokens: 0 exactly for texts that share none, 1 exactly for texts with the same tokens |
| MmrChoice.SelectionIsGreedy | retrieval/hybrid.py:266-286 | k candidates at different places: the most relevant first, then always one that maximises lambda * relevance - (1 - lambda) * its highest similarity to those chosen; of equally good ones the first |
| MmrChoice.GreedyIsUnique | retrieval/hybrid.py:263-286 | that leaves no choice: two selections of one length with this property are the same |
| MmrChoice.LessSimilarFirst | retrieval/hybrid.py:271-284 | with lambda below 1, of the equally relevant candidates left one with the lowest similarity to those chosen comes next |
| MmrChoice.CopyNeedsMoreRelevance | retrieval/hybrid.py:271-284 | a copy of something chosen comes before something new if and only if lambda times its lead in relevance makes up for 1 - lambda |
| Mmr.SelectsKCandidates | retrieval/hybrid.py:257-288 | exactly k of the candidates (all, if no more than k), none taken twice |
| Mmr.SelectionNearOptimal | retrieval/hybrid.py:266-286 | if i + 1 candidates have relevance r or more, pick i has at least r - (1 - lambda) / lambda |
| Mmr.LambdaOneIsTopK | retrieval/hybrid.py:250 | lambda = 1 gives the k most relevant, in non-increasing order |
| HybridRetriever.Retrieve | retrieval/hybrid.py:96-207 | in each of the four modes the outcome that the next rows describe, from the hits of the searches on; any other mode is rejected |
| RetrievalLaws.AccessibleFilters | retrieval/hybrid.py:209-214 | the filter drops exactly the hits outside the scope and keeps the order of the others |
| RetrievalLaws.SingleSearchModes | retrieval/hybrid.py:125-149 | sparse and dense: the first final_k accessible hits of that search, in its order and with its scores |
| RetrievalLaws.HybridMode | retrieval/hybrid.py:151-197 | hybrid: the first final_k of the ten best fused hits, in fused order |
| RetrievalLaws.OtherModesRejected | retrieval/hybrid.py:96-97 | a mode is rejected if and only if it is none of the four |
| RetrievalLaws.FullMode | retrieval/hybrid.py:162-195 | hybrid+rerank: nothing unless a score reaches the threshold; otherwise the ten best by falling score, those of equal score in fused order, or the greedy choice with lambda one half if there are more than final_k; the score is the reranker's, 0 where it gave none, and the fusion's if it raised |
| RetrievalLaws.FullModeAnswersIff | retrieval/hybrid.py:186-195 | it returns nothing if and only if nothing accessible was found, final_k is not positive, or no score reaches the threshold, and otherwise min(final_k, number of candidates) results |
| Retrieval.ResultsAreAccessible | retrieval/hybrid.py:209-214 | every result is one of the hits, and of an accessible document |
| Retrieval.InsertedHiddenHit | retrieval/hybrid.py:125-156 | in all modes, inserting a hit of an inaccessible document anywhere in either list changes nothing |
| Retrieval.HiddenHitsDoNotInterfere | retrieval/hybrid.py:125-200 | two pairs of lists with the same accessible hits give the same outcome: a corollary of how the outcome is specified, to which Retrieve is held |
| Retrieval.AtMostFinalK | retrieval/hybrid.py:132-197 | at most final_k results, and at most ten in the fused modes |
| Retrieval.FullModeNearOptimal | retrieval/hybrid.py:187-195 | in the full pipeline each pick is within 1 of the best relevance its place allows |
| RetrievalMetrics.RecallIsShare | eval/retrieval_metrics.py:32-37 | recall lies in [0, 1] for lists with duplicates and any cut-off |
| RetrievalMetrics.PrecisionIsShareIff | eval/retrieval_metrics.py:62-67 | precision lies in [0, 1] if and only if the cut-off is not negative or nothing is found |
| MetricLaws.RecallGain | eval/retrieval_metrics.py:32-37 | recall starts at 0 and grows by 1 / number of relevant with each rank that holds a new relevant document, and by nothing with any other |
| MetricLaws.RecallIsOneIff | eval/retrieval_metrics.py:32-37 | recall is 1 exactly when every relevant document is among the first k |
| MetricLaws.PrecisionAgainstRecall | eval/retrieval_metrics.py:32-67 | precision times the cut-off is recall times the number of relevant documents, for any cut-off but 0, where it is 0 |
| MetricLaws.NegativeCutOff | eval/retrieval_metrics.py:32-37 | a negative cut-off counts from the end of the list |
| RetrievalMetrics.MeanReciprocalRank | eval/retrieval_metrics.py:40-45 | 1 / the first relevant rank, 0 exactly when there is none |
| RetrievalMetrics.ComputeNdcg | eval/retrieval_metrics.py:48-59 | returns the credit of first occurrences over the ideal credit, 0 when that is 0 |
| RetrievalMetrics.NdcgIsShare | eval/retrieval_metrics.py:48-59 | nDCG lies in [0, 1] for lists with duplicates and any cut-off |
| RetrievalMetrics.NdcgIsOneIff | eval/retrieval_metrics.py:56-59 | nDCG is 1 exactly when the first min(number of relevant, k) ranks hold that many different relevant documents |
| MetricLaws.NdcgGain | eval/retrieval_metrics.py:48-59 | one more document adds the discount of its own rank over the discounts of the ideal ranks if it is new, relevant and within the cut-off, and nothing otherwise |
| RetrievalMetrics.ComputeAveragePrecision | eval/retrieval_metrics.py:70-82 | returns the precision credit of first occurrences over the number of relevant documents |
| RetrievalMetrics.AveragePrecisionIsShare | eval/retrieval_metrics.py:70-82 | average precision lies in [0, 1] for lists with duplicates |
| RetrievalMetrics.AveragePrecisionIsOneIff | eval/retrieval_metrics.py:70-82 | average precision is 1 exactly when the relevant documents fill the first ranks |
| MetricLaws.AveragePrecisionGain | eval/retrieval_metrics.py:70-82 | one more document adds the precision at its own rank over the number of relevant documents if it is new and relevant, and nothing otherwise |
| RetrievalMetrics.SwapNeverLowers | eval/retrieval_metrics.py:48-82 | moving a relevant document above a non-relevant one lowers neither average precision nor nDCG |
| EvalJobs.EvalRuns.NewestActive | eval/auto_eval.py:92-99 | finds a newest active run of the tenant, or that there is none |
| EvalJobs.EvalRuns.CreateEvalJob | eval/auto_eval.py:69-122 | fails the stale runs, and is refused exactly when the tenant has an active run that is not stale; otherwise adds one queued run |
| EvalJobs.EvalRuns.ClaimJob | eval/auto_eval.py:153-170 | claims exactly a queued run of the tenant |
| EvalJobs.EvalRuns.SetJobStatus | eval/auto_eval.py:138-150 | writes the status of that tenant's run whatever it was |
| EvalJobs.EvalRuns.RunEvalJob | eval/auto_eval.py:225-255 | run alone, ends a queued run by its evaluation's outcome, and leaves any other run alone |
| EvalJobGuarantees.InvRun | eval/auto_eval.py:81-116 | what a creation has seen inside its transaction stays true until it ends, in every interleaving |
| EvalJobGuarantees.OneActivePerTenant | eval/auto_eval.py:69-122 | no tenant ever has two queued or running runs |
| EvalJobGuarantees.EnteredAtMostOnce | eval/auto_eval.py:230-240 | the evaluation of a run is entered at most once, with any number of invocations |
| EvalJobGuarantees.ClaimShutsOthersOut | eval/auto_eval.py:230-232 | after a claim has returned, every later claim of the id is turned away and changes nothing |
| EvalJobGuarantees.EndedNeverReturns | eval/auto_eval.py:138-170 | a run that has left queued and running never returns, and no row loses its tenant or age |
| EvalJobGuarantees.CreatedRunIsTheActiveOne | eval/auto_eval.py:102-122 | when a creation commits a run, it is queued and the tenant's only active one |
| EvalJobGuarantees.RefusedOnlyByRecentRun | eval/auto_eval.py:83-101 | a creation is refused only because of a run of its tenant created within the stale timeout before it began, the only active one when it looked |
| EvalJobLaws.StatusLaw | eval/auto_eval.py:81-170 | for every status, the exact steps that bring a run to it, and none brings one back to queued; tenant and age stay |
| EvalJobLaws.NewRowLaw | eval/auto_eval.py:92-116 | a run comes into the table only by the commit of its creation, queued, and only if the tenant's other runs had ended or were too old |
| EvalJobLaws.CompletedMeansEvaluatedOnce | eval/auto_eval.py:225-255 | in every interleaving a completed run has been evaluated exactly once |
| Streamer.Produce | generation/streamer.py:77-86 | the queue holds the tokens up to the one at which the flag is seen, an error if the generator raised before that, and the closing entry |
| Streamer.Consume | generation/streamer.py:106-117 | response, sent tokens and end are those Consumed specifies for the items and send outcomes |
| Streamer.LoopClosesIff | generation/streamer.py:77-117 | the two loops together: the loop closes exactly when every send of a token returns and the generator has raised no `Exception`, and then the response is every token before the one at which the flag was seen; if a send raises, the response ends with its token; the client has seen the tokens whose send reached it |
| StreamRuns.InvRun | generation/streamer.py:71-156 | the invariant that ties producer, queue, consumer and frames together, in every interleaving |
| StreamRuns.NothingLostOrReordered | generation/streamer.py:106-114 | response + waiting tokens are the tokens put, in order, and those are the tokens generated but for the one in hand |
| StreamRuns.FrameGrammar | generation/streamer.py:111-156 | the frames whose send returned are token* (done attribution? follow_ups? or error)?, the tokens being the response but for a last one lost to an exception |
| StreamRuns.ClientSeesGrammar | generation/streamer.py:46-48 | what the client sees of a socket that stays closed once it drops a frame is a prefix of those frames, with the same grammar |
| StreamRuns.DoneMeansComplete | generation/streamer.py:119-151 | a done frame and a returned answer mean that the generator ran out and all of its tokens were collected and sent before |
| StreamRuns.DoneMeansExhaustedIff | generation/streamer.py:77-86 | over all runs, a done frame means that the generator ended normally if and only if throwables outside `Exception` are excluded |
| StreamRuns.DoneSaysExhausted | generation/streamer.py:77-124 | in each run with a done frame, the generator ended normally if and only if no such throwable occurred |
| StreamRuns.CancelStopsTheProducer | generation/streamer.py:79-82 | after the cancel flag is set, at most one more token is put, and only if its check had passed; the producer ends within five steps |
| StreamRuns.ConsumerIsNeverStranded | generation/streamer.py:83-108 | while the consumer waits and nothing waits for it, the producer is at work |
| StreamLaws.SendLaw | generation/streamer.py:46-155 | a returned send adds one frame, that of the consumer's phase; nothing else adds any |
| StreamLaws.CancelledIff | generation/streamer.py:106-117 | once the consumer has given up on an answer, the cancel flag is set if and only if the producer was started and the loop had not closed |
| StreamLaws.NoAnswerIsReported | generation/streamer.py:56-156 | a request that ends without an answer ends with an error frame, unless a send raised |
| StreamRuns.InterruptedGeneratorLooksDone | generation/streamer.py:83-86 | a run in which such a throwable comes before any token, and the client is told that an empty answer is done |
| RateLimiter.Limiter.WebsocketRateLimited | api/limits.py:49-66 | one call: its verdict and the new queue of its bucket; other buckets keep theirs |
| RateLimiter.SameVerdict | api/limits.py:61-64 | a queue that represents a history gives the verdict of that history |
| RateLimiter.HitRefines | api/limits.py:61-66 | after a call it represents the history again |
| RateLimiter.LimiterRefinesHistory | api/limits.py:49-66 | in any run over any buckets every verdict is that of a counter over the full history of accepted hits |
| RateLimiter.WindowNeverExceedsLimit | api/limits.py:49-66 | no closed interval of the window's length holds more than `limit` accepted hits of a bucket |
| RateLimiter.RefusedIff | api/limits.py:55-66 | in any run a call is refused if and only if `limit` calls on its bucket have been let through within the window that ends with it |
| RateLimiter.KeysShareBucketIff | api/limits.py:57-58 | two keys from one host share a bucket if and only if they are the same or both stand for no key |
| RateLimiter.HostsApartIff | api/limits.py:57-58 | callers from two hosts never share a bucket if and only if neither host's text with the colon begins the other's |

## Left out

- QueueRuns: rows deleted by a cascade, and a worker whose `complete_job` commits but raises and which then writes `fail_job` as well (a holder writes once here).
- QueueRuns: `NOW()` is the clock at the statement; a transaction that waits before its statement would see an earlier time.
- HiddenHitsDoNotInterfere: the two searches cut to `top_k` before the access filter, so hidden hits can still crowd accessible ones out of the searches' own lists; the lists are inputs here.
- ReadyDocumentFixedIff: runs in which the document is marked as failed, after which a new attempt writes it again.
- RetriesAreBounded: assumes that the hashed point ids of different chunks differ and that no document is deleted meanwhile.
- Serializable: threads of one process; the lock does not reach other processes, and a reader or a crash in the middle of writing a file is not modelled.
- EvalJobs: the metrics, error texts and time stamps in a run's JSON; rows written by `save_to_db`, which have no status and which a claim would take for queued ones.
- EvalJobRuns: "at most one evaluator executing" is not claimed: an evaluation that outlives the stale timeout runs on beside its successor.
- StreamRuns: the texts of frames, citations and timing; a send that raises is taken not to have reached the client, and the generator may yield and end at any point, whatever `generation/llm.py` makes of it (there every token is collected before the first yield).
- RecursiveChunker: `start_char` and `end_char`, which subtract the overlap, can go negative and are no offsets into the text.
- ChunkSentences: the sentence splitting by regular expression; clean sentences are the input. Likewise ParagraphChunker starts from the split, stripped paragraphs.
- FixedSizeChunker: a negative window or overlap.
- "Job completed implies document ready" is not kept by the code: `ingest` returns early without chunks, and the status update swallows its errors (ingestion/indexer.py:69-71, ingestion/indexer.py:214-215).
- RetrievalMetrics: rounding of floating-point numbers; scores and sums are exact reals, here and in Fusion, Mmr and Retrieval.
- Retrieval: embeddings, hypothetical answers, the cross-encoder, the scoring of the two searches and the tokenisation are inputs or uninterpreted functions.
- IndexWriter: embeddings, enrichment by a language model (its texts may differ from attempt to attempt) and the collection's creation.
- RateLimiter: concurrent calls; the function never yields inside one event loop.
- Not modelled: parsing and cleaning of documents, the semantic cache, prompts and citations, the inline ingestion path of `api/routers/documents.py`, which uploads do not use, authentication, schemas, routers and dashboards.
