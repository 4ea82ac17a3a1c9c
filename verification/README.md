# shrag: models and proofs

shrag is a service for retrieval-augmented generation. It ingests documents in the background and on request,
chunks and embeds them, stores the chunks, retrieves and fuses ranked results, and answers queries behind
admission control. This project models the stateful and algorithmic core of the service in Dafny and proves
what it keeps over every run, every interleaving and every input.

`dafny verify dfyconfig.toml` checks all of it.

## How the models are built

- **Concurrent parts are step machines.** `LocalQueue`, `RedisQueue` with `RedisJobs`, `Admission`, `DocsIdempotency`,
  `ConcurrentEmbed` and `ConcurrentIngest` have a `State`, a `Step` for each atomic action (a locked section, one Redis
  command, one table statement), an `Apply` function, and `Run` for a whole interleaving. Every theorem about them is
  about all runs from the initial state. Components of a state that the program does not have (which thread holds a job,
  how often something was started) are history: no step depends on them.
- **Objects that the program updates are classes.** The job objects and the worker (`IngestWorkerObjects`), the
  embedding cache, the rate limiter, the in-flight guard, the job registry, the key store and the chunk store have
  the fields of the original, and their methods are proved against functions on values. In `IngestWorkerObjects`
  each method, by itself, is proved to move the heap from one state of the `LocalQueue` machine to another by named
  steps. The interleaving of several methods is the business of the machine: its theorems are about all
  interleavings of these steps, but no theorem here runs two methods on one heap at the same time.
- **Loops stay loops.** `LuhnCheck`, `DetectPii`, `RedactPii`, `ComputeRetrievalMetrics`, `Rrf`, `Materialise`,
  `RerankChunks`, `DedupeChunks`, `CapPerSource`, `DeltaSince`, `ChunkNaive`, `ChunkMarkdown`, `EmbedBatch` and
  `Ingest` follow the loops of the source and are proved equal to a specification function, about which the
  theorems are stated.
- **What is taken as given.** The result of `_process_job`, of a provider call and of every stage is arbitrary. The
  chunker, the embedder and the attachment parser are parameters of the ingest stage, given for each document; the
  answer of the embedder is given for each piece of each part and that of the parser for each attachment, so every
  call may raise or not on its own, also for equal texts. Pattern matches (personal
  data, headings) are lists of positions. SHA-256 and uuid5 are injective. Floating-point numbers are reals, and the
  discount `1 / log2(i + 1)` is any positive, strictly decreasing function. Characters count as white space when
  ASCII white space does.

## What the proofs found

Where the code does not do what its names or comments say, the model follows the code, and the exact condition
under which the promise holds is proved.

- **Redis acknowledgement.** The worker promises reliable queueing (`src/shrag/ingest/worker.py:12-13`), but the
  `lrem` of an acknowledgement names the job serialised after its status changed, so it never removes anything
  (`AckRemovesNothing`). No payload is ever lost from the lists (`NothingIsLost`), yet nothing ever reads the
  processing list: a job is lost exactly when the thread that holds it dies before completing, requeueing or burying
  it (`LostIffThreadDied`), and all other jobs end completed or as dead letters (`EachJobEnds`). Whatever fails, a run
  has at most 4 * limit + 2 steps for each job (`RunsAreBounded`), and for every limit that is reached (`BoundIsReached`).
- **Completion on Redis is not final.** A job that was processed to the end is put back into the queue, or buried,
  exactly when an acknowledgement of it raised (`ReturnedIffRecalled`); there is such a run for every retry limit
  (`CompletedJobComesBack`).
- **Status polling.** Callers may choose job ids; every job's own status is visible exactly when the ids are
  distinct (`StatusVisibleIffIdsDistinct`).
- **Failed document ingest.** A job is completed exactly when the call that created it got as far as storing the status
  (`CompletedIffStored`). When that call raises before, because ingest raised or its bulkhead was full, no later
  call with the same key starts ingest again and the job stays "accepted" for ever (`FailedIngestIsNeverRetried`).
  That also happens when ingest returned and only storing the status raised (`StrandedRuns`), and when the bulkhead was
  full and ingest was never started (`TurnedAwayRun`).
- **Duplicate answers.** A call is told that it is a duplicate exactly when its key was marked at the moment it looked
  and it did not create the job (`DuplicateIff`), so two overlapping calls need not be told (`OverlapIsNotReported`).
- **Keys of document ingest.** Two tenants can share a composite key exactly when one tenant's name followed by ':'
  starts the other's (`TenantsShareKeyIff`). Without a key from the caller, two requests of a tenant have the same key
  exactly when their ids and texts, written one after the other, are the same string: attachments, borders between
  ids and texts, and the number of documents do not matter (`SameDerivedKeyIff`).
- **503 from a stage.** A request is answered that a stage is unavailable exactly when the stage was full as the request
  tried to enter, or when its body raised any RuntimeError, such as the one for a failed embedding
  (`UnavailableIffFullOrRaised`).
- **Short answers of a provider.** The batch embedder pairs texts and vectors and drops what has no partner, so the result
  is the embedding of every text exactly when the provider gave a vector for each missing one (`EachIffAllGiven`).
- **Embedding cache keys.** Two configurations share a key exactly when the head of one begins the head of the other,
  which takes a model name with a ':' (`ConfigurationsShareKeyIff`). The backend is not part of the key at all. Concurrent
  calls of some configurations each get their own embeddings, however they interleave, if and only if no head of one
  begins that of another (`NeverMixedUpIff`).
- **Chunk ids.** Chunks of two documents can share an id exactly when one document's id is the other's followed by
  ":att:" and a number from one on (`ApartIff`). What the store holds after an ingest is nevertheless stated for all
  ids, with and without clashes (`StoreHoldsExactly`).
- **Markdown.** A text without headings has no chunks at all (`NoChunksIffNoHeadings`), so an ingest of such a document
  reports it as indexed and removes what was stored for it (`HeadlessDocumentVanishes`), and exactly such a document
  vanishes (`VanishesIffHeadless`).
- **Concurrent ingests of one document.** The store is locked for each statement only. Two calls never leave a mixture of
  their versions if and only if the versions differ under at most one chunk id (`NeverMixIff`); any number of calls with
  the same version leave exactly that version (`SameVersionsConverge`).
- **Chunk offsets.** All chunks are reported where their first sentences were taken from if and only if the text does not
  begin with white space and no window's first sentence occurs between where the window before begins and where it was
  taken from (`AllStartsTrueIff`). In `RepeatedSentenceStartsEarly` one does.
- **Limiter backends.** The SQLite and the Redis limiter agree exactly when the limit is at least one: SQLite always
  admits the first call of a window (`BackendsAgreeIffPositive`).
- **Redaction.** The comment says that the longest of overlapping spans is kept; the code keeps the one that starts first,
  and the longest only among spans with the same start. Whichever of some spans are detected, the longest are kept if
  and only if none that starts inside another is longer than it (`LongestKeptIff`), and every detected character is
  hidden if and only if no two spans overlap partially (`HiddenIffNoPartialOverlap`). Of 0..5 and 3..8 the characters
  from 5 on stay in the text (`LeakAtSix`).
- **Retrieval metrics.** Recall and nDCG stay within one, for all sets of relevant ids, exactly when the results are
  distinct (`BoundsIffDistinct`).
- **Channel label.** A chunk found by sparse and graph retrieval but not by dense retrieval is labelled sparse, not
  hybrid (`HybridIff`).
- **Object references.** Repository, path and ref of a printed reference are read back if and only if the repository has
  no ':', the path is not empty and has no '@', none of the three brings in "#commit=", and the reference is no tombstone
  without a commit (`RoundTripIff`). The path filter lets paths with an '@' through: `packages/@s/a.ts` at `main` is read
  back as the path `packages/` at `s/a.ts@main` (`ScopedPathIsMisread`).

## Model

| member | source | states |
|---|---|---|
| LocalQueue.StepKeepsInv | src/shrag/ingest/worker.py:270-368 | every step of a producer, a worker loop or a pool thread keeps the whole invariant: containers without copies, status matching place, attempts matching retries, store matching jobs |
| LocalQueue.ExactlyOnePlace | src/shrag/ingest/worker.py:323-355 | over every interleaving, each job is in exactly one of the queue, the executors' backlog, one thread's hands, or a terminal status |
| LocalQueue.AttemptsBounded | src/shrag/ingest/worker.py:323-347 | over every interleaving, at most one thread processes a job, exactly while its status says processing; it is attempted at most max_retries times (once if that is below one), and failed means all attempts were used |
| LocalQueue.FirstInFirstOut | src/shrag/ingest/worker.py:142-149 | over every interleaving, jobs are claimed exactly in the order in which they were appended, retries included; those not yet claimed are the queue |
| LocalQueue.TerminalIsForever | src/shrag/ingest/worker.py:332-347 | completed and failed are absorbing: no later step of any thread changes such a job |
| LocalQueue.RunCosts | src/shrag/ingest/worker.py:323-355 | a measure pays for every worker step of every run, whatever the outcomes, so no run works for ever |
| LocalQueue.WorkIsPossible | src/shrag/ingest/worker.py:357-368 | while a job is neither completed nor failed, some worker step is enabled |
| LocalQueue.MaximalRunsFinish | src/shrag/ingest/worker.py:357-368 | every maximal run is bounded in length by the jobs created and ends with each job completed or failed, failed exactly when all attempts were used |
| LocalQueue.StatusVisibleIffIdsDistinct | src/shrag/ingest/worker.py:301-304 | polling by id shows every job's own record exactly when no two jobs have the same id |
| IngestWorkerObjects.IngestWorker.StatusSet | src/shrag/ingest/worker.py:82-84 | stores the job object under its id and nothing else |
| IngestWorkerObjects.IngestWorker.EnqueueLocal | src/shrag/ingest/worker.py:142-144 | the job becomes the last of the queue, and the heap moves by the machine's append step |
| IngestWorkerObjects.IngestWorker.EnqueueIngestJob | src/shrag/ingest/worker.py:270-298 | returns the requested or a generated id and moves the heap by creating and appending a fresh job |
| IngestWorkerObjects.IngestWorker.DequeueLocal | src/shrag/ingest/worker.py:147-149 | returns the first job of the queue and leaves the others in order, which is the claim step, or null exactly when the queue is empty |
| IngestWorkerObjects.IngestWorker.CompleteJob | src/shrag/ingest/worker.py:332-336 | moves the heap by the success step |
| IngestWorkerObjects.IngestWorker.HandleJobFailure | src/shrag/ingest/worker.py:338-355 | moves the heap by a failure step, followed by an append exactly when the retry limit is not reached |
| IngestWorkerObjects.IngestWorker.ProcessOne | src/shrag/ingest/worker.py:323-330 | one attempt is a start step, then success, or failure with or without a retry |
| RedisQueue.RunKeepsInv | src/shrag/ingest/worker.py:108-355 | every run, with crashes between any two commands, keeps the invariant, and pushes and deliveries only grow |
| RedisQueue.NothingIsLost | src/shrag/ingest/worker.py:108-120 | each payload ever pushed is in the queue or the processing list with its multiplicity; delivery is first in, first out |
| RedisQueue.PushedStays | src/shrag/ingest/worker.py:112-120 | a pushed payload is still in one of the two lists at every later point of every run |
| RedisQueue.AckRemovesNothing | src/shrag/ingest/worker.py:123-131 | in every reachable state both lrem commands leave all lists exactly as a crash would |
| RedisQueue.DeadLettersFailedOften | src/shrag/ingest/worker.py:338-347 | a dead letter has at least as many failures behind it as the limit allows attempts |
| RedisQueue.ProcessedUnlessCrashed | src/shrag/ingest/worker.py:357-368 | counted over all jobs, when workers have nothing left to do, enqueued is completed plus dead letters exactly if no thread died with a job |
| RedisJobs.EveryRunIsTracked | src/shrag/ingest/worker.py:108-131 | numbering the jobs restricts no run: every run of the list machine is the run of a tracked one |
| RedisJobs.ExactlyOnePlace | src/shrag/ingest/worker.py:108-131 | over every run each job is in exactly one of queue, hands of one thread, dead-letter list, completed, lost; its deliveries are at most the attempts that the limit allows |
| RedisJobs.EndIsForever | src/shrag/ingest/worker.py:332-347 | completed with its thread gone, buried and lost are absorbing |
| RedisJobs.PayloadsAreTheJobs | src/shrag/ingest/worker.py:338-355 | over every run, wherever a job's payload is, it carries the id and the fields that the job was enqueued with |
| RedisJobs.EachJobEnds | src/shrag/ingest/worker.py:357-368 | when workers have nothing left to do, each job was processed to the end, is a dead letter, or is lost |
| RedisJobs.RunsAreBounded | src/shrag/ingest/worker.py:323-355 | every run, whatever raises and whichever threads die, has at most 4 * limit + 2 steps for each job |
| RedisJobs.BoundIsReached | src/shrag/ingest/worker.py:323-355 | for every limit a run of one job has exactly that many steps |
| RedisJobs.LostIffThreadDied | src/shrag/ingest/worker.py:112-120 | a job is lost exactly when at some point of the run the thread that held it died before it was completed, put back or buried |
| RedisJobs.ReturnedIffRecalled | src/shrag/ingest/worker.py:327-330 | a job that was processed to the end is put back or buried exactly when an acknowledgement of it raised, but for a thread that died or has yet to act; without such a raise it is completed or about to be acknowledged |
| RedisJobs.CompletedJobComesBack | src/shrag/ingest/worker.py:332-355 | for every limit a run from the start in which a completed job is delivered a second time or, below a limit of two, becomes a dead letter |
| RedisJobs.CrashLosesJob | src/shrag/ingest/worker.py:112-120 | for every limit a run from the start that loses a job at its first delivery |
| EmbedCache.CacheKeyInjective | src/shrag/ingest/embed.py:37-39 | equal keys come from equal texts, models and dimensions, for one configuration or for model names without ':' |
| EmbedCache.ConfigurationsShareKeyIff | src/shrag/ingest/embed.py:37-39 | two configurations share a key for some texts exactly when the head of one begins the head of the other |
| EmbedCache.PutKeepsTable | src/shrag/ingest/embed.py:47-54 | after an insertion with any eviction the cache is consistent, within its bound, holds the new entry, and every other entry is an old one |
| EmbedCache.PutIs | src/shrag/ingest/embed.py:47-54 | an insertion into a full cache drops exactly the 3276 oldest of 32768 entries, any other none; a new key becomes the youngest, one that stays keeps its place |
| EmbedCache.PutKeepsSound | src/shrag/ingest/embed.py:47-54 | inserting a text's embedding keeps "entry = embedding of its key" |
| EmbedCache.PutKeepsOthersHonest | src/shrag/ingest/embed.py:47-54 | it keeps the entries of other configurations honest, for model names without ':' |
| EmbedCache.MissingIsUncached | src/shrag/ingest/embed.py:206-213 | a position is pending exactly when its text is not cached |
| EmbedCache.SecondTimeIsFree | src/shrag/ingest/embed.py:200-230 | if the missing texts fit into the cache, encoding the same texts again asks the provider for nothing |
| EmbedCache.Cache.CachePut | src/shrag/ingest/embed.py:47-54 | the in-place insertion with eviction is the table function |
| EmbedCache.Backend.WithRetry | src/shrag/ingest/embed.py:60-75 | returns the first answer within the allowed attempts, makes no further call, and fails exactly after all of them gave none |
| EmbedCache.EachIffAllGiven | src/shrag/ingest/embed.py:224-230 | the result is the plain embedding of every text, in order, exactly when the provider gave a vector for each missing text |
| EmbedCache.StoredKeepsSound | src/shrag/ingest/embed.py:224-228 | whatever vectors are given, storing them keeps the cache honest |
| EmbedCache.Cache.Scatter | src/shrag/ingest/embed.py:224-228 | the loop over the shorter of texts and vectors caches and scatters exactly the given vectors |
| EmbedCache.Cache.EmbedBatch | src/shrag/ingest/embed.py:180-230 | for every list of texts, every honest cache and every length of the answers, success returns exactly the embeddings of the texts that were cached or answered, in order, which is all of them for a provider that answers in full; the cache stays honest and has seen exactly the given vectors, on failure those of the batches before |
| ConcurrentEmbed.StepKeepsInv | src/shrag/ingest/embed.py:42-54 | every look-up and insertion of every call keeps the cache honest for all configurations in use and each slot of each call right |
| ConcurrentEmbed.EveryCallIsEmbedded | src/shrag/ingest/embed.py:180-230 | over every interleaving of calls whose configurations share no key, a finished call returns the plain embedding of all its texts, in order, exactly when each missing text was given a vector |
| ConcurrentEmbed.NeverMixedUpIff | src/shrag/ingest/embed.py:37-39 | calls of some configurations each return their own embeddings, for all providers, texts and interleavings, if and only if no head of one begins that of another |
| ChunkIds.SameIdIff | src/shrag/ingest/pipeline.py:73 | two chunk ids are equal exactly when rank, template and rendered prefix agree |
| ChunkIds.ApartIff | src/shrag/ingest/pipeline.py:110 | chunks of two documents can share an id exactly when one document id is the other followed by ":att:" and a number from one on |
| ChunkIds.WithoutColonApart | src/shrag/ingest/pipeline.py:73-110 | documents whose ids have no ':' never clash |
| ChunkStore.ReplacedIsExact | src/shrag/ingest/store.py:58-85 | deleting a source and upserting new rows leaves of that source exactly the new rows, and of others exactly those whose id is not taken |
| ChunkStore.SQLiteChunkStore.Upsert | src/shrag/ingest/store.py:58-80 | the row is stored under its id, all others stay |
| ChunkStore.SQLiteChunkStore.DeleteBySource | src/shrag/ingest/store.py:82-85 | exactly the rows of the source go |
| ChunkStore.SQLiteChunkStore.All | src/shrag/ingest/store.py:87-102 | every row exactly once |
| DocumentRows.ProducedDistinct | src/shrag/ingest/pipeline.py:69-129 | the ids of all chunks of one document and its attachments are distinct, whatever its id is |
| RowContents.ProducedIs | src/shrag/ingest/pipeline.py:69-129 | when nothing raised, the rows of a document are exactly those that store a piece of its text, or of a long enough attachment's text by that attachment's template: its text, place, embedding, lineage and the document's metadata |
| RowContents.ProducedInOrder | src/shrag/ingest/pipeline.py:69-129 | they come in the order of text, attachments and pieces, and there are as many as pieces |
| RowContents.ProducedWarns | src/shrag/ingest/pipeline.py:91-95 | exactly the attachments whose text is too short are warned about |
| RowContents.LongEnoughIff | src/shrag/ingest/pipeline.py:57 | a text is long enough when two of its characters that are not white space are at least 19 places apart |
| Replacement.OneVersion | src/shrag/ingest/pipeline.py:60-130 | an accepted document replaces the rows of its source; another source's row is lost exactly when a new row takes its id |
| Replacement.HoldsExactly | src/shrag/ingest/pipeline.py:52-130 | after any number of documents a row is held exactly when it is of the version of its source that took effect, or was held and there is none, and no later row took its id; for all ids, and also after a raise |
| Replacement.HeldWithoutClash | src/shrag/ingest/pipeline.py:52-130 | without clashing ids that is the version that took effect, or what was held |
| Replacement.AgainChangesNothing | src/shrag/ingest/pipeline.py:52-130 | replacing by the same versions again changes nothing, for all ids and also when both raise |
| IngestStage.StoreHoldsExactly | src/shrag/ingest/pipeline.py:45-131 | the store after an ingest, for all document and source ids, raising or not |
| IngestStage.StoreHoldsThePieces | src/shrag/ingest/pipeline.py:45-131 | when nothing raised and ids do not clash, the store holds of each source whose first document is long enough exactly the rows that store a piece of this document, with the embedding that the piece got, and of every other source what it held |
| IngestStage.WhatARaiseLeaves | src/shrag/ingest/pipeline.py:60-129 | an embedder or parser that raises at any one call in one document leaves the documents before it current, an initial part of its own rows, and everything else untouched |
| IngestStage.HeadlessDocumentVanishes | src/shrag/ingest/pipeline.py:57-70 | a long enough markdown document without headings is reported as indexed and nothing of its source is held |
| IngestStage.VanishesIffHeadless | src/shrag/ingest/pipeline.py:57-70 | without clashing ids an ingest leaves nothing of such a markdown document, which it reports as indexed, if and only if the document has no headings |
| DocumentRows.ProducedPartOf | src/shrag/ingest/pipeline.py:69-129 | what is stored of a document before a raise is an initial part of what would have been |
| IngestStage.IndexedIffTaken | src/shrag/ingest/pipeline.py:52-59 | when nothing raised, an id is reported as indexed exactly when the first document with it is long enough |
| IngestStage.IndexedInDocumentOrder | src/shrag/ingest/pipeline.py:130 | the ids are indexed in the order of their documents |
| IngestStage.WarnsIffDeserved | src/shrag/ingest/pipeline.py:53-96 | when nothing raised, an ingest warns exactly of repeated ids, of ids whose first document is too short, and of too short attachments of the documents it takes |
| Replacement.IndexedOnce | src/shrag/ingest/pipeline.py:53-56 | no id is indexed twice |
| IngestStage.StoreHoldsCurrentVersions | src/shrag/ingest/pipeline.py:45-131 | in particular, when nothing raised and the ids do not clash, the store holds of each source whose first document is long enough exactly the rows that document produced, and of every other source exactly what it held |
| IngestStage.SecondIngestChangesNothing | src/shrag/ingest/pipeline.py:45-131 | a second identical ingest leaves the whole store unchanged, whatever the ids |
| IngestStage.Replace | src/shrag/ingest/pipeline.py:60-129 | the delete and the loops over chunks and attachments store exactly the produced rows in order, up to a raise, and warn about short attachments |
| IngestStage.Ingest | src/shrag/ingest/pipeline.py:45-131 | the loop over the documents computes rows, indexed ids and warnings of the fold, and stops where something raises |
| ConcurrentIngest.EachIdIsSomeones | src/shrag/ingest/store.py:58-85 | whichever ingests of one document interleave, under each chunk id the source holds what one of them has there, a row or none |
| ConcurrentIngest.SameVersionsConverge | src/shrag/ingest/pipeline.py:60-129 | any number of interleaved ingests of the same version leave exactly this version |
| ConcurrentIngest.SameUploadsConverge | src/shrag/ingest/pipeline.py:60-129 | in particular those of one document that is handled alike |
| ConcurrentIngest.AloneReplaces | src/shrag/ingest/pipeline.py:60-129 | an ingest that is alone replaces the rows at once, as the stage's meaning says |
| ConcurrentIngest.NeverMixIff | src/shrag/ingest/pipeline.py:60-129 | two interleaved ingests never leave a mixture of their versions if and only if these differ under at most one chunk id |
| ConcurrentIngest.OthersUntouched | src/shrag/ingest/store.py:58-85 | at every point of every interleaving a row of another source is held exactly when it was and no written row took its id |
| Sentences.SplitExact | src/shrag/ingest/chunker.py:59-60 | the sentences follow each other in text order, separated by breaks only, without a break inside, and leave out white space only |
| Sentences.BreakIff | src/shrag/ingest/chunker.py:59 | a break is where one of ".!?" comes before white space and a capital letter or a quote after it |
| Sentences.ExactIsUnique | src/shrag/ingest/chunker.py:59-60 | no other list of sentences has these properties |
| Windows.WindowsAreGreedy | src/shrag/ingest/chunker.py:99-112 | the windows form a greedy chain: each takes every sentence that fits and stops only before one that does not |
| Windows.GreedyIsUnique | src/shrag/ingest/chunker.py:99-112 | there is only one greedy chain |
| Windows.EveryWindow | src/shrag/ingest/chunker.py:99-112 | each window has at most chunk_size words or at most k + 1 sentences; the next ends later and repeats exactly the last min(k, length) sentences, k = max(1, overlap // 20); the last one ends with the text |
| Windows.WindowsRebuild | src/shrag/ingest/chunker.py:99-112 | dropping the repeated sentences and concatenating gives back all sentences, each once and in order |
| Chunker.EmptyIffBlank | src/shrag/ingest/chunker.py:80-82 | no chunks exactly for blank texts |
| Chunker.ChunkSizes | src/shrag/ingest/chunker.py:99-112 | the word limit, for the words of the chunk's joined text |
| Chunker.ChunkIsJoined | src/shrag/ingest/chunker.py:89-97 | each chunk's text is its window's sentences joined by single spaces |
| Chunker.JoinConcat | src/shrag/ingest/chunker.py:89 | joining two lists of sentences puts one space between them and nothing else |
| Chunker.WordsAcross | src/shrag/ingest/chunker.py:63-64 | the words of two texts with a white-space character between them are those of both |
| Chunker.OneWordOrNone | src/shrag/ingest/chunker.py:63-64 | a text without white space is one word, a blank one is none |
| Chunker.ChunksRebuildText | src/shrag/ingest/chunker.py:84-114 | the windows of the chunks rebuild the sentences of the text |
| Chunker.StartBound | src/shrag/ingest/chunker.py:106-107 | `find` never fails, and the reported start never exceeds the true one |
| Chunker.ChunkInRange | src/shrag/ingest/chunker.py:89-97 | offsets lie within the text and match the chunk's length and index |
| Chunker.BeginsWithSentence | src/shrag/ingest/chunker.py:89-97 | a chunk's text begins with the first sentence of its window |
| Chunker.FirstStartIff | src/shrag/ingest/chunker.py:84-112 | the first chunk is reported where its first sentence was taken from exactly when the text does not begin with white space |
| Chunker.RepeatedSentenceStartsEarly | src/shrag/ingest/chunker.py:106-107 | a text whose third chunk is reported before the place it was taken from |
| Chunker.ChunkStarts | src/shrag/ingest/chunker.py:100-107 | starts do not decrease; every later chunk starts at an occurrence of its first sentence, the true one exactly when there is none in between |
| Chunker.AllStartsTrueIff | src/shrag/ingest/chunker.py:84-112 | all chunks are reported at the true places of their first sentences if and only if the text does not begin with white space and no window's first sentence occurs between the beginning of the window before and its own place |
| Chunker.Advance | src/shrag/ingest/chunker.py:99-109 | one round of the loop keeps "emitted chunks, open window and cursor are those of the window plan" |
| Chunker.ChunkNaive | src/shrag/ingest/chunker.py:76-114 | the loop produces exactly the chunks of the window plan |
| Markdown.SectionsTile | src/shrag/ingest/chunker.py:120-127 | every position from the first heading on is in exactly one section |
| Markdown.SectionOccurs | src/shrag/ingest/chunker.py:127 | stripping never moves the start of a section, so shifted offsets are offsets in the text |
| Markdown.MarkdownOffsets | src/shrag/ingest/chunker.py:123-146 | chunk indexes are positions, starts do not decrease, all offsets lie between the first heading and the end |
| Markdown.NoChunksIffNoHeadings | src/shrag/ingest/chunker.py:120-124 | a text has no chunks exactly when it has no headings |
| Markdown.ShiftedAt | src/shrag/ingest/chunker.py:139-145 | the chunks of an oversized section are its naive chunks moved by the section's start |
| Markdown.ShiftedStartOccurs | src/shrag/ingest/chunker.py:139-143 | each of them, the first included, starts where its first sentence occurs in the whole text |
| Markdown.EveryChunkStartsThere | src/shrag/ingest/chunker.py:123-146 | every chunk comes from a section: it is all of a small enough one and occurs at its start, or it has the text of a chunk of a larger one and that chunk's first sentence, a non-empty beginning of it, occurs at its start |
| Markdown.EverySectionIsThere | src/shrag/ingest/chunker.py:123-146 | no section is lost: there are as many chunks as the sections have, and each chunk of each section stands in its place, with the section's text and extent, or the text and the moved offsets of its naive chunk, and with its title |
| Markdown.ChunkMarkdown | src/shrag/ingest/chunker.py:117-146 | the loop over the sections produces exactly the specified chunks |
| Admission.InflightGuard.TryEnter | src/shrag/api/backpressure.py:16-21 | succeeds and counts exactly below the maximum |
| Admission.InflightGuard.Exit | src/shrag/api/backpressure.py:23-26 | counts down, never below zero |
| Admission.StepKeepsInv | src/shrag/api/routes.py:371-430 | every step of every request keeps each counter equal to the number of requests inside |
| Admission.CountersAreExact | src/shrag/api/backpressure.py:43-50 | over every interleaving and exit path, each counter is the number of requests inside it |
| Admission.CapsHold | src/shrag/api/backpressure.py:16-21 | no counter exceeds its cap |
| Admission.ExitsAreMatched | src/shrag/api/backpressure.py:23-26 | exit is never unmatched: its guard is always true |
| Admission.RejectedIffFull | src/shrag/api/routes.py:177-180 | a request is turned away exactly when as many requests as allowed are inside |
| Admission.AnsweredAfterItsPlan | src/shrag/api/routes.py:371-430 | over every run, a request enters the stages of its plan in their order, and is answered only after all of them |
| Admission.SaturatedIffStageFull | src/shrag/api/backpressure.py:43-46 | on entry a stage turns a request away exactly when its cap of requests is within it |
| Admission.UnavailableIffFullOrRaised | src/shrag/api/routes.py:306-313 | over every run, a request is answered 503 for a stage exactly when the stage was full as it tried to enter, or its body raised a RuntimeError for it |
| Admission.StagesWithinTotal | src/shrag/api/routes.py:371-430 | the stage counters together never exceed the global counter |
| Admission.QuiescentIsEmpty | src/shrag/api/routes.py:429-430 | all counters are zero when every request has finished, on whatever path |
| Admission.MaximalRunsFinish | src/shrag/api/routes.py:371-430 | every run has at most 14 steps for each request, and one that can go on only with new arrivals has finished every request, with all counters at zero |
| DocsIdempotency.SameDerivedKeyIff | src/shrag/api/routes.py:482-489 | without a key from the caller two requests of a tenant have the same key exactly when the concatenations of their ids and texts are equal |
| DocsIdempotency.KeyAfterReplacing | src/shrag/api/routes.py:484-487 | every document enters the key: replacing one keeps it exactly when its id and text together stay the same |
| DocsIdempotency.KeyAfterAdding | src/shrag/api/routes.py:484-487 | adding a document keeps the key exactly when it has neither id nor text |
| DocsIdempotency.ContentsConcat | src/shrag/api/routes.py:484-487 | what is hashed of a list of documents is what is hashed of its parts, one after the other |
| DocsIdempotency.DigestsDifferByTenant | src/shrag/api/routes.py:482-487 | the same documents have different digests for different tenants |
| DocsIdempotency.GivenKeyMeetsDerivedIff | src/shrag/api/routes.py:488-489 | a request with a key meets one without exactly when the key is the digest of the other |
| DocsIdempotency.AttachmentsDoNotMatter | src/shrag/api/routes.py:484-486 | so other attachments make no other request |
| DocsIdempotency.BorderDoesNotMatter | src/shrag/api/routes.py:484-487 | nor does another border between an id and its text |
| DocsIdempotency.TenantsShareKeyIff | src/shrag/api/routes.py:489 | two tenants share a composite key of non-empty effective keys exactly when one name followed by ':' starts the other |
| DocsIdempotency.JobRegistry.CreateDeterministic | src/shrag/api/jobs.py:47-62 | inserts an accepted row exactly when there is none, otherwise returns the row that is there |
| DocsIdempotency.JobRegistry.UpdateStatus | src/shrag/api/jobs.py:72-75 | changes the status of that row only, and nothing for an unknown id |
| DocsIdempotency.IdempotencyStore.Mark | src/shrag/api/idempotency.py:37-43 | adds the key |
| DocsIdempotency.StepKeepsInv | src/shrag/api/routes.py:488-533 | every step of every call keeps marks, rows, creators, starts and returns in agreement |
| DocsIdempotency.StartedAtMostOnce | src/shrag/api/routes.py:511-518 | over all interleavings ingest is started at most once per key |
| DocsIdempotency.SameJobIffSameKey | src/shrag/api/routes.py:527-533 | two answers carry the same job id exactly when the calls have the same key |
| DocsIdempotency.SameJobIffSameContents | src/shrag/api/routes.py:482-533 | two uploads of a tenant without keys get the same job exactly when their contents are equal |
| DocsIdempotency.RowsAreAccountedFor | src/shrag/api/routes.py:488-519 | a job row implies a marked key and a creating call; completed implies that ingest was started and returned |
| DocsIdempotency.StatusOnlyRises | src/shrag/api/jobs.py:72-75 | a row's status only moves from accepted to completed; nothing else of it changes |
| DocsIdempotency.DuplicateMeansAnother | src/shrag/api/routes.py:532 | a duplicate answer implies that another call created the job; the creating call answers only when completed |
| DocsIdempotency.WithoutFailureIngestedOnce | src/shrag/api/routes.py:515-533 | if all calls with a key were answered, ingest ran exactly once, returned, and the job is completed |
| DocsIdempotency.CompletedIffStored | src/shrag/api/routes.py:515-520 | over every run a job is completed exactly when the call that created it got as far as storing the status |
| DocsIdempotency.FailedIngestIsNeverRetried | src/shrag/api/routes.py:515-519 | after the creating call of any run raised before that, no later call starts ingest and the job stays accepted |
| DocsIdempotency.StrandedRuns | src/shrag/api/routes.py:515-519 | for every key there are such runs: ingest raised, or it returned and only storing the status raised |
| DocsIdempotency.TurnedAwayRun | src/shrag/api/routes.py:515-518 | and one in which the bulkhead was full and ingest was never started |
| DocsIdempotency.LaterCallIsDuplicate | src/shrag/api/routes.py:490-532 | a call that begins after one with the same key was answered is answered as a duplicate |
| DocsIdempotency.DuplicateIff | src/shrag/api/routes.py:490-532 | a call is answered as a duplicate exactly when its key was marked at the moment it looked and it did not create the job |
| DocsIdempotency.OverlapIsNotReported | src/shrag/api/routes.py:490-532 | so for every key there is an interleaving in which the second call is answered as accepted |
| RateLimiter.SqliteIsExact | src/shrag/api/rate_limit.py:64-84 | the SQLite counter admits exactly the first calls of a window, as many as the limit and at least one |
| RateLimiter.RedisIsExact | src/shrag/api/rate_limit.py:57-62 | with a clock that does not run backwards the Redis counter admits exactly the first calls of a window; expiry never resets a live one |
| RateLimiter.AllowedIs | src/shrag/api/rate_limit.py:54-84 | with either backend a call is admitted exactly when fewer calls of its key than the limit came before it in its minute; below a limit of one SQLite admits the first and Redis none |
| RateLimiter.BackendsAgreeIffPositive | src/shrag/api/rate_limit.py:54-84 | the backends decide every ordered sequence alike exactly when the limit is positive |
| RateLimiter.AdmissionsPerWindow | src/shrag/api/rate_limit.py:54-84 | with either backend the admissions per key and window are the smaller of calls and quota, which is the limit if that is positive |
| RateLimiter.AnySpanAtMostTwice | src/shrag/api/rate_limit.py:54-84 | with either backend any 60 seconds admit at most twice the quota |
| RateLimiter.TwiceIsReached | src/shrag/api/rate_limit.py:54-84 | and that is reached, for every positive limit and with either backend |
| RateLimiter.Limiter.Allow | src/shrag/api/rate_limit.py:54-84 | the stateful limiter decides each call as the count of earlier calls in its window says |
| Luhn.LuhnCheck | src/shrag/security/pii.py:64-75 | the loop from the right computes validity of the digits, at least 13 of them |
| Luhn.DigitsAre | src/shrag/security/pii.py:65 | the digits are the values of all characters '0' to '9', in order |
| Luhn.TotalInPairs | src/shrag/security/pii.py:68-74 | from the right, digits count as they are and by the digit sum of their double, in turn |
| Luhn.SingleErrorDetected | src/shrag/security/pii.py:64-75 | every single wrong digit makes a valid number invalid |
| Luhn.TranspositionDetectedIff | src/shrag/security/pii.py:64-75 | swapping adjacent digits goes unnoticed exactly for equal digits or 0 and 9 |
| Luhn.CheckDigitUnique | src/shrag/security/pii.py:64-75 | every prefix has exactly one valid check digit |
| Redaction.DetectPii | src/shrag/security/pii.py:118-126 | the loop keeps exactly the greedy selection of the sorted spans |
| Redaction.KeptAreDisjoint | src/shrag/security/pii.py:119-126 | kept spans are detected ones, in order and pairwise disjoint |
| Redaction.EveryStartIsCovered | src/shrag/security/pii.py:119-126 | the first character of every detected span lies in a kept span, at least as long if it starts there |
| Redaction.KeptIff | src/shrag/security/pii.py:118-126 | what the selection satisfies: a span's extent is kept exactly when it starts inside no other kept span and no longer one starts with it |
| Redaction.NestedSpansFullyCovered | src/shrag/security/pii.py:118-126 | without partial overlaps every character of every detected span is covered |
| Redaction.HiddenIffNoPartialOverlap | src/shrag/security/pii.py:118-126 | whichever of some spans are detected, all their characters are hidden if and only if no two of the spans overlap partially |
| Redaction.OverlapLeaks | src/shrag/security/pii.py:118-126 | of two partially overlapping spans everything after the first stays in the text |
| Redaction.LeakAtSix | src/shrag/security/pii.py:118-126 | for example 0..5 and 3..8 expose position 6 |
| Redaction.LongestKeptIff | src/shrag/security/pii.py:118-126 | whichever of some spans are detected, each overlaps a kept one that is at least as long, if and only if none that starts inside another is longer than it |
| Redaction.ShorterIsKept | src/shrag/security/pii.py:118-126 | for example 0..3 is kept and 1..9 is dropped |
| Redaction.FirstMatchNamesSpan | src/shrag/security/pii.py:119 | among spans of the same extent the first match gives the label |
| Redaction.RewritingIsPointwise | src/shrag/security/pii.py:135-143 | rewriting from left to right equals the fate of each character: token, nothing, or itself |
| Redaction.RedactPii | src/shrag/security/pii.py:129-143 | the output is the text outside the kept spans in order with one token for each kept span |
| RetrievalMetrics.ComputeRetrievalMetrics | src/shrag/eval/retrieval_metrics.py:15-48 | the loops compute precision, recall, reciprocal rank and nDCG as specified, zeros for no results |
| RetrievalMetrics.MetricsAre | src/shrag/eval/retrieval_metrics.py:21-33 | precision is the share of relevant results, recall the share of relevant ids, and the reciprocal rank that of the first relevant result |
| RetrievalMetrics.DcgUpdate | src/shrag/eval/retrieval_metrics.py:35-41 | a result adds the discount of its rank to the gain exactly when it is relevant |
| RetrievalMetrics.OneHitNdcg | src/shrag/eval/retrieval_metrics.py:35-41 | for one relevant id nDCG is the discount of its rank over that of the first |
| RetrievalMetrics.GainAtMostIdeal | src/shrag/eval/retrieval_metrics.py:35-41 | for distinct results the gain is at most the ideal gain, with equality exactly when hits fill the first places |
| RetrievalMetrics.MetricsInUnit | src/shrag/eval/retrieval_metrics.py:25-41 | all four metrics lie in [0, 1] for distinct results |
| RetrievalMetrics.NdcgOneIff | src/shrag/eval/retrieval_metrics.py:35-41 | nDCG is one exactly when hits fill the first min(relevant, results) places |
| RetrievalMetrics.PromotionImproves | src/shrag/eval/retrieval_metrics.py:35-41 | exchanging a hit with an earlier miss strictly increases nDCG |
| RetrievalMetrics.BoundsIffDistinct | src/shrag/eval/retrieval_metrics.py:21-41 | recall and nDCG stay within one for all relevant sets exactly when results are distinct |
| RankFusion.Rrf | src/shrag/retrieve/graphrag.py:155-164 | the accumulation and the sort give the stable sort of the scored ids |
| RankFusion.FusedIsComplete | src/shrag/retrieve/graphrag.py:160-164 | the fused list has exactly the ids of the lists |
| RankFusion.FusedIsExact | src/shrag/retrieve/graphrag.py:160-164 | each id once, in non-increasing score order, with the sum of 1/(k+rank) as its score |
| RankFusion.OneMoreRank | src/shrag/retrieve/graphrag.py:155-164 | one more rank adds 1/(k + rank) to the score of its id and nothing to others, which determines all scores |
| RankFusion.TiesKeepFirstOrder | src/shrag/retrieve/graphrag.py:164 | equal scores keep the order of first mention |
| RankFusion.TiesInOrderOfMention | src/shrag/retrieve/graphrag.py:164 | of two entries with equal scores the first is the one that the lists, read one after the other, mention first |
| RankFusion.UnanimousOrderIsKept | src/shrag/retrieve/graphrag.py:155-164 | an id ahead of another in every list that has the other is ahead in the fused list |
| RankFusion.Materialise | src/shrag/retrieve/graphrag.py:237-263 | the loop over the first top_k entries makes each chunk once, with its label, entities, and stored text and source or placeholders |
| RankFusion.HybridReturnsBest | src/shrag/retrieve/graphrag.py:226-263 | in hybrid mode the chunks are exactly the top_k best fused ids in order |
| ChunkSelection.RerankChunks | src/shrag/retrieve/rerank.py:8-37 | the loop, the sort and the renumbering give the specified list |
| ChunkSelection.RerankedIsExact | src/shrag/retrieve/rerank.py:26-37 | a permutation of the rescored chunks in score order, ties in the old order, numbered from one |
| ChunkSelection.RerankedIs | src/shrag/retrieve/rerank.py:8-37 | each chunk of the result is one of the chunks that come in, with a tenth added to its score for each shared word and its new rank; scores do not increase, ties keep the old order, and of chunks that scored alike the one with more shared words comes first |
| ChunkSelection.DedupeChunks | src/shrag/retrieve/pipeline.py:144-153 | the loop keeps the first chunk of each key |
| ChunkSelection.DedupedIsExact | src/shrag/retrieve/pipeline.py:144-153 | keys are distinct afterwards, and no key is lost |
| ChunkSelection.DedupedAre | src/shrag/retrieve/pipeline.py:144-153 | deduplication keeps, in order, exactly the chunks before which no chunk of their source has the same text |
| ChunkSelection.DedupeIdempotent | src/shrag/retrieve/pipeline.py:144-153 | deduplicating again changes nothing |
| ChunkSelection.CapPerSource | src/shrag/retrieve/pipeline.py:156-165 | the loop keeps the first chunks of each source up to the cap |
| ChunkSelection.CappedCounts | src/shrag/retrieve/pipeline.py:156-165 | each source keeps exactly the smaller of the cap and what it had |
| ChunkSelection.DroppedForBetter | src/shrag/retrieve/pipeline.py:156-165 | a dropped chunk has cap kept chunks of its source that score at least as high |
| ChunkSelection.CapIdempotent | src/shrag/retrieve/pipeline.py:156-165 | capping again changes nothing |
| ChunkSelection.Select | src/shrag/retrieve/pipeline.py:102-105 | rerank, optional dedupe, cap and truncate in this order |
| ChunkSelection.SelectedIsSound | src/shrag/retrieve/pipeline.py:102-105 | the selection is a score-ordered subsequence of the reranked chunks without repeated texts and within the cap |
| ChunkSelection.SelectedIs | src/shrag/retrieve/pipeline.py:102-105 | exactly which reranked chunks are selected: those that repeat no text of their source and have fewer than cap such chunks of it before them, and of these the first top_k |
| ObjectRef.RoundTripIff | src/shrag/ingest/connectors/github.py:112-121 | parsing a printed reference gives back repository, path and ref if and only if the repository has no ':', the path is not empty and has no '@', none of them brings in a commit marker, and it is no tombstone without a commit |
| ObjectRef.CommitReadsBackIff | src/shrag/ingest/connectors/github.py:123-127 | the commit is given back exactly when it has no '#', if the stem brings in no other |
| ObjectRef.AtSignIsMisread | src/shrag/ingest/connectors/github.py:119-120 | a path with an '@' is read up to there, and the rest of it as part of the ref |
| ObjectRef.ScopedPathIsMisread | src/shrag/ingest/connectors/github.py:119-120 | for example the path of a file in a scoped package |
| ObjectRef.PrintedAlikeIff | src/shrag/ingest/connectors/github.py:69-74 | two references whose parts can be told apart are printed alike exactly when they are equal, or one is a tombstone without a commit and the other's ref ends with the marker |
| ObjectRef.AtSignPrintsAlike | src/shrag/ingest/connectors/github.py:69-74 | every reference whose path has an '@' is printed like one whose path has none |
| ObjectRef.DeltaSince | src/shrag/ingest/connectors/github.py:50-76 | the loop prints exactly the listed changes of the stripped fields in order, skips entries that are no files, and returns the head commit or the payload's cursor |
| ObjectRef.ChangesAre | src/shrag/ingest/connectors/github.py:54-75 | the changes are the references of exactly the files that pass the filter, in order, with the filtered path, the head commit if there is one, and a tombstone for what was removed or deleted |
| ObjectRef.ListedChangesParseBackIff | src/shrag/ingest/connectors/github.py:50-74 | all listed changes parse back exactly when each entry that passes the filter has a path without '@' and without a commit marker, and a head commit if it is a deletion, and the repository has no ':' |

## Left out

- DocsIdempotency.OverlapIsNotReported: one run for every key; which calls are told is DuplicateIff.
- EmbedCache.Cache.EmbedBatch: stated for one caller on the heap; its interleavings are those of the ConcurrentEmbed machine.
- Methods of the worker objects that interleave on one heap: each method is proved alone, and the interleavings are those of the LocalQueue machine.
- A provider whose vectors are not those of the texts, in order.
- Calls of language models, embedding providers, HTTP, webhooks, Qdrant, Neo4j and spaCy are arbitrary outcomes or parameters.
- Regular expressions of the personal-data and heading patterns: match lists are given. The sentence pattern is modelled.
- The NLTK sentence splitter, which the chunker prefers when it is installed: its rules are not part of this repository.
- The templates qa, laws, presentation and code: they cut at pattern matches as markdown does, with simpler offsets. A book is the naive chunker with a larger size.
- The hash in the chunker's own chunk ids, which the ingest stage does not use, and, in a stored row, the tenant, the offsets and the token estimate of its chunk, which are copied into its metadata, where entries of the document's own metadata with the same names win.
- Unicode: white space and digits beyond ASCII, case folding and encodings.
- Rounding of floating-point scores and of the seconds of the clock.
- The Redis worker has no class of its own: its steps are commands on the server's lists, modelled one by one.
- Redis payloads that cannot be decoded, which stay in the processing list, and a crash between the INCR and the EXPIRE of the limiter, after which that key never expires.
- Processes that share the SQLite files: locks are per process, and a lost race between two inserts is one of the exceptions that may be raised anywhere in a call.
- ConcurrentIngest.NeverMixIff: for two calls; for more, EachIdIsSomeones says what is left under each id. A call that raises is one whose version is what it has written.
- Executor shutdown racing with the worker loop after stop.
- Scoring before reranking, the synthetic fill and the web fallback of retrieval: single expressions or one branch.
- The dry-run listings of the connector, which are constants.
- Attachment parsing, URL fetching, settings, authorisation, prompt guards, gates, caches of other modules and operational scripts.
