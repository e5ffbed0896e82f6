# EVM ingestion pipeline: model and proofs

The repository ingests the blocks of a chain in order, keeps each of them first under its own key and later inside
a compressed batch of one hundred, and streams them to clients that may connect at any height and at any time. It
does so in two settings: a standalone service over a Pebble database (`evm-ingestion`), and a plugin that indexes
inside a node's consensus `Accept`, over the uncommitted overlay of avalanchego's versiondb
(`indexing-subnet-evm`). This project models both, the client, the RPC fetcher that feeds the service and the
controller that limits it, and proves what they promise.

`dafny verify dfyconfig.toml` checks everything.

## How the model is built

| files | part of the system |
|---|---|
| `Prelude.dfy`, `Keys.dfy`, `Framing.dfy` | Go's uint64, sorting and splitting; database keys; batch arithmetic and JSONL framing |
| `StoreModel.dfy`, `Iteration.dfy`, `PebbleStorage.dfy`, `VersionDBStorage.dfy`, `Refinement.dfy` | the abstract store, its two implementations over byte maps, and their agreement on whole runs |
| `Compaction.dfy`, `Compactor.dfy`, `Pipeline.dfy`, `PipelineGap.dfy`, `Soundness.dfy` | the compactor as single steps and as the code's loops; ingester, compactor, failures and crashes as one transition system; the run that loses the shape; what every store keeps on every run |
| `Wire.dfy`, `Link.dfy`, `EndToEnd.dfy`, `ExampleClient.dfy` | the server's read loop, the client's loop, one client's connections as steps, the end-to-end theorem, and the example program |
| `Plugin.dfy`, `PluginLoss.dfy`, `PluginStream.dfy`, `IndexingVM.dfy` | the accept protocol over the overlay, the run that loses blocks, the stream read from it, and the VM object |
| `SlidingWindow.dfy`, `Decoding.dfy`, `Rpc.dfy`, `Gather.dfy` | in-order streaming from out-of-order fetches; decoding into a reused slice; JSON-RPC batches with retries; scatter and gather of receipts and traces |
| `TokenPool.dfy`, `Controller.dfy`, `AtomicMax.dfy` | the token pool, the adjustment decision, and the compare-and-swap maximum |

Code that updates state is a class or a method with a loop, proved against a specification function; protocols
whose steps interleave are transition systems whose labels carry what the outside decides (whether an operation
fails, when a crash happens), and the properties are about every sequence of labels. Methods take the outcome of the
operations they call as parameters. The two views meet: `CompactOneBatch` and the compactor's steps make the same three
writes, `IndexingVM.Accept` moves as the plugin's steps do, and `Controller.Adjust` takes steps of the token pool.
`Framing.FaithfulWorldExists` shows that what the theorems assume of the outside can be met.

## Main results

* **End to end** (`EndToEnd.HandlerSeesTheChain`, `PluginStream.HandlerSeesTheChain`). For every interleaving of
  ingestion, single compactor writes, single server reads, failures of any of them, disconnections, reconnections and
  crashes, the packs given to the client's handler, joined, are the chain's blocks from `max(1, from)` upward, in order, each
  once, with the saved bytes. `EndToEnd.EverythingSavedArrives` and `PluginStream.EverythingIndexedArrives` add that no
  reachable state is stuck, and `PluginStream.PassSends` says exactly when a pass of the server sends.
* **Coverage** (`Pipeline.EveryRunIsCovered`, `Pipeline.SavedStaysReadable`). After every prefix of every run each
  height ever saved is readable, under its own key or as its line of its batch, and stays so, whichever lookups and
  writes fail. `Pipeline.EveryRunKeepsShape` and `Pipeline.ResumesExactly` give the exact conditions for the shape of the
  store and for the resume rule to find the next height.
* **Compaction** (`CompactorLoop.LoopEndsExactly`, `CompactorLoop.CallsBounded`). On every store, and whatever it answers
  as its latest height, the loop ends exactly when deletions do not fail for ever on a ready batch, after at most one
  call for every hundred blocks and every failed deletion.
* **Plugin** (`Plugin.IndexKeepsUp`, `Plugin.RestartRestoresTop`, `Plugin.CoverageExactly`). The index never falls
  behind the chain and the gap error is unreachable, whatever is aborted. Coverage holds throughout a run if and
  only if no orphan deletion happens in it.
* **Two stores** (`Refinement.SameBytes`, `Refinement.BothRefine`). On every sequence of writes, Commits and Aborts
  versiondb's disk and view hold byte for byte what Pebble would hold, and both refine one specification.
* **Fetcher** (`SlidingWindow.StreamBlocks`, `Gather.FetchSingleBlock`). Blocks leave the window in order for every
  completion order; a gathered block equals the sequentially fetched one for every permutation, except that traces may
  be empty after a retried error, and is returned whenever there is one and each call succeeds within its retries.
  `Decoding.DecodeExactly` and `Rpc.CleanCallDecides` say when the reuse of the response slice does not matter.
* **Controller** (`TokenPool.LimitHoldsExactly`, `Control.Controller.Adjust`, `Control.SortedElementIsP95`).

## Findings

Properties that are false of the code, each with the run that shows it and the exact condition where there is one:

* An accept that *succeeds* can lose blocks. The inner block's deferred `Abort` also runs after its `Commit`; when
  the compactor has saved a batch between the two, that batch is discarded and the later deletion is not.
  `PluginLoss.SuccessfulAcceptLosesBlocks` is such a run, without a failure or a crash; `Plugin.CoverageExactly`
  says that this orphan deletion is the only cause, and `Plugin.NoAbortNoLoss` that runs without an Abort between a
  batch's `SaveBatch` and its deletion are safe.
* All attempts of a batch call decode into the same slice, and a field that a response leaves out keeps what an earlier
  attempt put there. A retried reply with an error makes a later faultless reply fail, or carry that error
  (`Rpc.StaleErrorSurvives`), and so does an error of the wrong type, such as a string (`Rpc.MistypedErrorSurvives`); in the per-transaction route a transaction with a trace then gets an empty one
  (`Gather.StaleErrorEmptiesTrace`). `Decoding.DecodeExactly` is the exact condition for one reply to be read as it was
  sent, `Decoding.CompliantExactly` the one for all replies of a node that follows the JSON-RPC 2.0 Specification: no
  error in the cells. It holds in every call that has not retried a reply with an error (`Rpc.CleanCallDecides`).
  As long as the node's answers are fixed, receipts and blocks are never wrong, and a trace is right or empty
  (`Gather.FetchSingleBlock`). A node that answers `null` for a receipt it has not indexed yet does not give a fixed
  answer: the strict decoder accepts `null` as an empty receipt.
* `compactOneBatch` reports progress after a failed deletion, so `compactAll` repeats the same batch for as long as
  the deletion fails (`CompactorLoop.FailedDeletionRepeats`). It is harmless to the data, and the only way in which the
  loop does not end (`CompactorLoop.LoopEndsExactly`).
* When the lookup of the latest block fails, the ingester resumes at an earlier height and saves blocks again.
  `Pipeline.ResumesExactly` is the exact condition. The store keeps its shape throughout a run if and only if no save is
  low, that is below the first individual block (`Pipeline.EveryRunKeepsShape`). `PipelineGap.FailedLookupsLoseShape` is
  a run from the empty store that makes a low save. Compaction then stands still until the hundred heights around the
  saved one are all there again (`PipelineGap.LowSaveStopsCompaction`, `PipelineGap.HoleStopsCompaction`). Coverage and
  the stream are not affected.
* Requests in flight are not bounded by `currentParallel`, nor by the maximum: `TokenPool.LimitHoldsExactly` gives
  the exact condition and `TokenPool.ExcessIsUnbounded` a family of runs with arbitrarily many in flight.
* With a maximum parallelism of 1 the constructor blocks (`TokenPool.FillChannel`).
* The example program started with `-from 0` ends fatally on the first frame, and never otherwise
  (`Example.ExampleClient.Run`).
* Deleting up to height 2^64 - 1 removes nothing from Pebble (`Refinement.DeletesAgreeExactly`), and it is the one end
  at which versiondb's loop does not end (`VersionDB.DeleteLoopEndsExactly`).

Where code and documentation disagree the model follows the code:

* `evm-ingestion/README.md:117` says that only the first frame can hold blocks below the requested height. Any batch
  frame can: after single blocks have been sent, the batch around the cursor may have been compacted meanwhile.
* `evm-ingestion/rpc/controller.go:224` announces growth by about 10, 2 and 1 at 10, 50 and 90 percent of the target;
  the code grows by 5, 1 and 1 (`Control.GrowthAtCommentedPoints`). The clamp at 20 is unreachable
  (`Control.GrowthBounds`).
* `evm-ingestion/README.md:123-124` names 1.2 s and 2 s; the defaults in `evm-ingestion/consts` give 0.5 s and 1 s.
* `indexing-subnet-evm/block.go:40` says that Accept's failure is what clears the overlay; its success does too.

## Assumptions

* Ingestion and indexing start at block 1, and heights stay at most 2^64 - 200.
* The chain's content at a height is fixed, and the node's answers about one block do not change.
* A block's JSON is non-empty and contains no newline; `Framing.ScannerRoundTrip` states what the store's own reader
  needs in addition. The JSON reader yields the height that the block was saved under.
* zstd is an encoder and a decoder that round-trip; encoded data is not empty.
* `encoding/json` decodes element i of an array into cell i of the slice it is given, leaves fields that are not sent as
  they are, keeps cells beyond the array's length, and replaces the slice when the array is empty or `null` is sent
  instead. A field of the wrong type makes it fail after it has read the rest: a mistyped id stays as it is, and a
  mistyped error leaves an error in the cell, without a message of its own.
* A node that is asked for receipts or traces follows section 5 of the JSON-RPC 2.0 Specification in the replies that
  can be decoded: a response has its id, and a result or else an error with a message.
* The databases are byte maps ordered by key, durable at each write (Pebble) or at each Commit (versiondb), and both
  a Commit and a batch of deletes are atomic.
* A WebSocket delivers frames in order until it breaks off; frames in flight are then lost.
* Consensus accepts heights in order, possibly repeating some, and after a crash restarts at the committed height.
* The clock read while recording a metric does not go backwards.

## Model

| member | source | states |
|---|---|---|
| Keys.RangeIsPrefix | evm-ingestion/storage/pebble.go:95-112 | the iterator bounds `p:` and `p;` enclose exactly the keys with prefix `p:` |
| Keys.ValueOfDigits | evm-ingestion/storage/pebble.go:16-20 | fixed-width digits are read back to the number they were written from |
| Keys.DigitsOrder | evm-ingestion/storage/pebble.go:16-20 | zero-padded digits compare lexicographically exactly as the numbers do |
| Keys.ParseDecimal20 | evm-ingestion/storage/pebble.go:67-73 | reading a 20-digit number succeeds for all of uint64 and inverts the formatting |
| Keys.BlockKeyRoundTrip | evm-ingestion/storage/pebble.go:42-54 | a block key parses back to its height, for every uint64 |
| Keys.BlockKeyOrder | evm-ingestion/storage/pebble.go:42-44 | block keys are injective and ordered as heights, over all of uint64 |
| Keys.BatchKeyRoundTrip | evm-ingestion/storage/pebble.go:46-75 | a batch key parses back to both of its bounds |
| Keys.ParsesBatchExactly | evm-ingestion/storage/pebble.go:56-75 | a batch key is accepted if and only if it is the literal, a number, a dash and a number, and nothing else |
| Keys.BatchKeyOrder | evm-ingestion/storage/pebble.go:46-48 | batch keys are injective and ordered by start, then end |
| Keys.FamiliesApart | evm-ingestion/storage/pebble.go:16-20 | block, batch and meta keys never coincide and lie on known sides of each other's ranges |
| Keys.BigEndianRoundTrip | evm-ingestion/storage/pebble.go:196-215 | the eight bytes stored for meta are read back to the number |
| Framing.BatchesPartition | evm-ingestion/storage/batch.go:11-23 | a height belongs to an aligned batch if and only if its BatchStart is that batch's start; height 0 falls to the first batch |
| Framing.CompressBlocks | evm-ingestion/storage/batch.go:25-49 | the loop over writes encodes every payload followed by a newline, in order |
| Framing.DecompressBlocks | evm-ingestion/storage/batch.go:51-78 | the scanner loop yields the scanned lines, or an error on undecodable data or a line at the limit |
| Framing.ClientRoundTrip | evm-ingestion-client/client.go:151-155 | splitting and skipping empty lines recovers the payloads if and only if each is non-empty and on one line |
| Framing.ScannerRoundTrip | evm-ingestion/storage/batch.go:59-77 | the store's scanner recovers the payloads if and only if each is moreover below 10 MB and does not end in a carriage return |
| Framing.FramesDecode | evm-ingestion/api/server.go:151-164 | batch frames and live frames decode to exactly the true blocks they were made from |
| Framing.FaithfulWorldExists | evm-ingestion/storage/batch.go:25-78 | there is a chain, a JSON reader and a codec that meet all that the theorems assume of them |
| StoreModel.PutBlockAbs | evm-ingestion/storage/pebble.go:78-80 | writing a block key changes that block and nothing else of the abstract store |
| StoreModel.PutBatchAbs | evm-ingestion/storage/pebble.go:140-143 | writing a batch key changes that batch and nothing else |
| StoreModel.PutMetaAbs | evm-ingestion/storage/pebble.go:210-215 | writing meta changes neither blocks nor batches |
| StoreModel.RangeDeleteIsLoop | evm-ingestion/storage/pebble.go:133-138 | one range delete over [key(start), key(end+1)) equals the deletes one by one |
| StoreModel.DeleteKeysAbs | evm-ingestion/storage/versiondb.go:80-88 | deleting the block keys of a range deletes those blocks and nothing of another family |
| StoreModel.WrappedRangeDeletesNothing | evm-ingestion/storage/pebble.go:133-138 | when end + 1 wraps to 0 the range delete removes nothing |
| Pebble.PebbleStorage.SaveBlock | evm-ingestion/storage/pebble.go:78-80 | stores the block, or fails and changes nothing |
| Pebble.PebbleStorage.GetBlock | evm-ingestion/storage/pebble.go:83-93 | returns what the abstract store holds for the height, nothing on a read error |
| Pebble.PebbleStorage.FirstBlock | evm-ingestion/storage/pebble.go:95-112 | the least stored height, none exactly when there is no block or the iterator cannot be opened |
| Pebble.PebbleStorage.LatestBlock | evm-ingestion/storage/pebble.go:114-131 | the greatest stored height, none exactly when there is no block or the iterator cannot be opened |
| Pebble.PebbleStorage.DeleteBlockRange | evm-ingestion/storage/pebble.go:133-138 | removes the blocks start..end and nothing else; nothing at all when it fails or end + 1 wraps |
| Pebble.PebbleStorage.SaveBatch | evm-ingestion/storage/pebble.go:140-143 | stores the batch under both of its bounds, or fails and changes nothing |
| Pebble.PebbleStorage.GetBatchCompressed | evm-ingestion/storage/pebble.go:145-157 | returns the batch whose bounds are start and start + 99, nothing on a read error |
| Pebble.PebbleStorage.FirstBatch | evm-ingestion/storage/pebble.go:159-176 | the least batch start, none when there is no batch or the iterator cannot be opened |
| Pebble.PebbleStorage.LatestBatch | evm-ingestion/storage/pebble.go:178-195 | the end of the batch that starts last, none when there is no batch or the iterator cannot be opened |
| Pebble.PebbleStorage.GetMeta | evm-ingestion/storage/pebble.go:197-208 | the meta height, zero when missing, unreadable or shorter than eight bytes |
| Pebble.PebbleStorage.SaveMeta | evm-ingestion/storage/pebble.go:210-215 | sets the meta height and nothing else |
| VersionDB.VersionDBStorage.constructor | evm-ingestion/storage/versiondb.go:21-25 | the cached tip is the greatest stored height, zero when there is none; with a broken scan zero or a stored height |
| VersionDB.VersionDBStorage.InitLatestBlockCache | evm-ingestion/storage/versiondb.go:29-40 | keeping the last key of the scan finds the greatest height; a scan that breaks off finds zero or a stored height |
| VersionDB.VersionDBStorage.SaveBlock | evm-ingestion/storage/versiondb.go:42-57 | readers see the block, the disk does not, and the cached tip is the larger of itself and the height; a failed write changes neither |
| VersionDB.VersionDBStorage.GetBlock | evm-ingestion/storage/versiondb.go:59-61 | returns what the overlay over the disk holds, nothing on a read error |
| VersionDB.VersionDBStorage.FirstBlock | evm-ingestion/storage/versiondb.go:63-71 | the first key of the prefix scan is the least visible height; none on an iterator error |
| VersionDB.VersionDBStorage.LatestBlock | evm-ingestion/storage/versiondb.go:73-76 | the greatest height readers see if and only if the cache is what a scan would find now |
| VersionDB.VersionDBStorage.DeleteBlockRange | evm-ingestion/storage/versiondb.go:80-88 | the loop of single deletes removes the visible blocks start..end and nothing else, or nothing when it fails, the disk unchanged |
| VersionDB.VersionDBStorage.SaveBatch | evm-ingestion/storage/versiondb.go:90-92 | readers see the batch, the disk does not; a failed write changes nothing |
| VersionDB.VersionDBStorage.GetBatchCompressed | evm-ingestion/storage/versiondb.go:94-97 | returns the visible batch from start to start + 99, nothing on a read error |
| VersionDB.VersionDBStorage.FirstBatch | evm-ingestion/storage/versiondb.go:99-108 | the least visible batch start; none on an iterator error |
| VersionDB.VersionDBStorage.LatestBatch | evm-ingestion/storage/versiondb.go:110-130 | scanning to the last batch key finds the end of the batch that starts last; a scan that breaks off finds none or the end of a stored batch |
| VersionDB.VersionDBStorage.GetMeta | evm-ingestion/storage/versiondb.go:132-138 | the visible meta height, zero on a read error |
| VersionDB.VersionDBStorage.SaveMeta | evm-ingestion/storage/versiondb.go:140-144 | sets the visible meta height, the disk unchanged; a failed write changes nothing |
| VersionDB.Database.Commit | indexing-subnet-evm/notes/01_speedup_proposal.md:53-71 | the disk becomes what readers saw, in one step; readers see no change |
| VersionDB.Database.Abort | indexing-subnet-evm/notes/01_speedup_proposal.md:53-71 | readers fall back to the disk, which does not change |
| VersionDB.LastKeyIsGreatest | evm-ingestion/storage/versiondb.go:27-40 | in an ascending scan of block keys the last is the greatest height |
| VersionDB.DeleteLoopEndsExactly | evm-ingestion/storage/versiondb.go:80-88 | the counter of the delete loop leaves its range if and only if end is below 2^64 - 1 |
| Refinement.PebbleRunRefines | evm-ingestion/storage/pebble.go:77-215 | on any run of writes Pebble's bytes represent what the specification holds |
| Refinement.SameBytes | evm-ingestion/storage/versiondb.go:42-144 | on any run of writes, Commits and Aborts versiondb's disk equals Pebble after the committed writes, its view Pebble after the pending ones too |
| Refinement.BothRefine | evm-ingestion/storage/interface.go:5-28 | both stores refine one abstract store on every such run |
| Refinement.DeletesAgreeExactly | evm-ingestion/storage/pebble.go:132-138 | the range delete removes the set of block keys of start..end if and only if end is below 2^64 - 1 or no block is stored from start on; at that end versiondb's loop, which visits the same keys, does not return |
| Compaction.GatesAgree | evm-ingestion/storage/compactor.go:125-138 | with an aligned first block the two size tests say the same |
| CompactorLoop.Compactor.ReadHundred | evm-ingestion/storage/compactor.go:140-149 | the read loop returns the hundred blocks, or nothing exactly when one is missing or cannot be read |
| CompactorLoop.Compactor.PickBatch | evm-ingestion/storage/compactor.go:115-138 | the tests select the one batch the store is ready to compact, on uint64 with wrap-around |
| CompactorLoop.Compactor.WriteThree | evm-ingestion/storage/compactor.go:158-177 | the writes that took effect are a prefix of batch, meta, deletion; progress is reported from the second on |
| CompactorLoop.Compactor.CompactOneBatch | evm-ingestion/storage/compactor.go:114-178 | for every combination of failures: a prefix of the three writes for the one batch that is ready, and progress reported from the second write on; nothing when none is ready or an earlier operation fails |
| CompactorLoop.Compactor.CompactAll | evm-ingestion/storage/compactor.go:99-111 | whichever operations fail, unless the loop is stuck, it ends at the first call that reports no work; a store with its shape keeps it and a covered store stays covered |
| CompactorLoop.ReportsExactly | evm-ingestion/storage/compactor.go:114-178 | call n of the loop reports progress exactly when 1100 individual blocks remain, it gets to write and its first two writes succeed |
| CompactorLoop.CallsBounded | evm-ingestion/storage/compactor.go:99-111 | on every store and for every answer to the lookup of the latest block the loop makes at most one call per hundred individual blocks and per failed deletion, and a last one |
| CompactorLoop.LoopEndsExactly | evm-ingestion/storage/compactor.go:99-111 | on every such store some call reports no work if and only if there is no call from which on a batch is ready, everything up to the second write succeeds and every deletion fails |
| CompactorLoop.CallRemoves | evm-ingestion/storage/compactor.go:114-178 | a call that reports progress removes a hundred individual blocks unless its deletion fails, and any other call none |
| CompactorLoop.CallKeepsCover | evm-ingestion/storage/versiondb.go:73-76 | a call keeps true data and coverage even when the latest height answered is one too high, as that of the cache can be |
| CompactorLoop.ReadyExactly | evm-ingestion/storage/compactor.go:114-138 | there is work exactly while 1100 individual blocks remain, and it is the next batch |
| CompactorLoop.WritesShape | evm-ingestion/storage/compactor.go:140-177 | the first write advances the tiling by one batch and the third the deletion, whichever prefix takes effect |
| CompactorLoop.FailedDeletionRepeats | evm-ingestion/storage/compactor.go:170-177 | as long as only deletions fail, each of any number of calls reports progress and leaves the store as the first one left it |
| CompactorLoop.StepsRead | evm-ingestion/storage/compactor.go:115-149 | the protocol's read steps, uninterrupted, read what one call reads |
| CompactorLoop.StepsWrite | evm-ingestion/storage/compactor.go:151-173 | the protocol's write steps, uninterrupted, write what one call writes |
| CompactorLoop.StepsInOrder | evm-ingestion/storage/compactor.go:114-178 | the steps of a call come in order: one out of its turn changes nothing |
| CompactorLoop.StepsFail | evm-ingestion/storage/compactor.go:115-173 | at every step each failure ends the call with the store as it is; a failed deletion is not tried again |
| Pipeline.SaveBatchShape | evm-ingestion/storage/compactor.go:158-162 | the first write extends the tiling by one aligned hundred |
| Pipeline.SaveMetaShape | evm-ingestion/storage/compactor.go:164-168 | the second write keeps the shape, meta then naming the last batch |
| Pipeline.DeleteShape | evm-ingestion/storage/compactor.go:170-173 | the third write leaves the individual blocks one interval right above the last batch |
| Pipeline.StepKeeps | evm-ingestion/storage/compactor.go:114-178 | every step but a low save, whichever lookups fail, keeps the invariant of the shape, and nothing saved or tiled is taken back |
| Pipeline.StepSafe | evm-ingestion/storage/compactor.go:114-178 | every step, any lookup failing, keeps true data, coverage and an ingester that is never ahead, and no batch disappears |
| Pipeline.ShapeCovers | evm-ingestion/storage/compactor.go:140-173 | a store of that shape covers every height and holds only the chain's data |
| Pipeline.EveryRunIsCovered | evm-ingestion/storage/compactor.go:140-173 | after every prefix of every run every height ever saved is readable with its bytes |
| Pipeline.SavedStaysReadable | evm-ingestion/main.go:169-177 | a saved height is readable in every later state of the run |
| Pipeline.EveryRunKeepsShape | evm-ingestion/storage/compactor.go:99-177 | individual blocks are one interval, batches tile aligned hundreds, meta lags by at most one, 1000 blocks stay above a batch: in every state of a run if and only if no save in it is below the first individual block, so whenever first lookups do not fail |
| Pipeline.LowSaveBreaks | evm-ingestion/main.go:119-177 | after a save below the first individual block the store has no shape |
| Pipeline.ResumesExactly | evm-ingestion/main.go:119-132 | on every run the resume rule yields at most one plus the greatest height ever saved, and exactly that if and only if the lookup of the latest block tells the truth; otherwise what follows the batch end it is told, or else meta |
| Pipeline.RestartResumes | evm-ingestion/main.go:110-147 | a crash at any point leaves the store and nothing in memory; the three lookups then start the stream where the rule says |
| Pipeline.InterruptedExactly | evm-ingestion/main.go:149-211 | a streaming ingester goes back to its lookups exactly for the end of the stream, a height out of order, a failed save or a crash |
| Pipeline.SavesAreConsecutive | evm-ingestion/main.go:149-177 | when the first lookups do not fail, every successful save is for exactly the height after the greatest one saved |
| Pipeline.SavesAreNotAhead | evm-ingestion/main.go:149-177 | whatever fails, a save is for a height at most one above the greatest one saved and changes no stored block |
| PipelineGap.FailedLookupsLoseShape | evm-ingestion/main.go:119-132 | a run from the empty store whose failing lookups lead to a low save: the shape is lost and no batch is ready, every height readable |
| PipelineGap.LowSaveStopsCompaction | evm-ingestion/storage/compactor.go:140-149 | after a low save no batch is ready, whatever the lookup of the latest block answers |
| PipelineGap.HoleStopsCompaction | evm-ingestion/storage/compactor.go:140-149 | no batch is ready while one of the hundred heights around the first individual block is missing |
| Wire.LiveFrameReads | evm-ingestion-client/client.go:140-167 | reading a live frame gives the one block in it |
| Wire.BatchFrameReads | evm-ingestion-client/client.go:140-167 | reading a batch frame gives the hundred blocks of the batch |
| Wire.ReadPackExactly | evm-ingestion-client/client.go:140-167 | a frame is read if and only if it decompresses and every non-empty line has a height; then those lines are the pack, in order |
| Wire.SpanFilters | evm-ingestion-client/client.go:101-107 | of a frame that spans the cursor the filter keeps exactly what the handler is owed |
| Wire.BatchSpans | evm-ingestion/api/server.go:160-168 | a whole batch spans from any height inside it |
| Wire.StreamFrames | evm-ingestion/api/server.go:104-174 | the frames of a connection chain from the requested height to the cursor, for any history of the store; each pass that finds data sends one, one that finds none waits, and only a failing write ends the connection |
| Wire.FilterInPlace | evm-ingestion-client/client.go:101-107 | the in-place compaction keeps exactly the blocks not below the cursor, in order |
| Wire.Client.ReadPacks | evm-ingestion-client/client.go:83-116 | every frame makes a pack; the handler's error ends the loop exactly when a pack is refused, right after the first refused one, and otherwise all frames have been handed over and accepted |
| Wire.Client.Stream | evm-ingestion-client/client.go:65-118 | the handler gets the chain from max(1, from) on, each block once and in order; all that arrived, unless and until it refuses a pack, which ends the stream with its error and is the last; one attempt without reconnecting |
| Wire.ReachesOnce | evm-ingestion-client/client.go:65-118 | what arrives determines how far the client gets and in how many packs |
| Wire.RefusedUnique | evm-ingestion-client/client.go:107-111 | only one pack is the first refused, in one attempt |
| Links.LinkKeeps | evm-ingestion/api/server.go:137-174 | every step of server, wire and client keeps what was delivered a gapless part of the chain |
| Links.RefusalEnds | evm-ingestion-client/client.go:107-111 | a refused pack has been handed over to its end, closes the connection and ends the client |
| Links.UnreadableCloses | evm-ingestion-client/client.go:90-98 | a frame that cannot be read costs the connection and what is in flight, and leaves what was delivered and the height expected |
| Links.SeenIsHonest | evm-ingestion/api/server.go:148-164 | over a sound store both lookups return only the chain's data |
| EndToEnd.HandlerSeesTheChain | evm-ingestion-client/client.go:65-118 | the end-to-end property over every interleaving |
| EndToEnd.RefusalIsFinal | evm-ingestion-client/client.go:107-111 | once a pack has been refused no run hands over anything more |
| EndToEnd.CrashCloses | evm-ingestion/api/server.go:104-133 | a crash of the service ends the connection and keeps what was delivered and stored |
| EndToEnd.SavedHeightIsSent | evm-ingestion/api/server.go:141-173 | a pass begun at a saved height sends a frame containing it whatever happens between its two lookups, and the cursor never passes an unsaved block |
| Links.RoundAdvances | evm-ingestion/api/server.go:141-173 | over a sound and covered store one pass and one read at a stored height advance the cursor, at most to the one after the last |
| Links.PassPrefersBlock | evm-ingestion/api/server.go:145-172 | a pass sends the block if it is stored and not empty, else the batch that holds the height, else nothing, and moves the cursor past what it sent |
| Links.LookupsAlternate | evm-ingestion/api/server.go:140-173 | the loop looks for the block and, only after a miss, for the batch; after a second miss it starts again at the same height |
| Links.PassSendsExactly | evm-ingestion/api/server.go:148-172 | a pass sends a frame if and only if one of its two lookups finds data, and otherwise changes nothing |
| Links.Reconnects | evm-ingestion-client/client.go:75-99 | breaking off and connecting again starts at the height the client expects |
| EndToEnd.EverythingSavedArrives | evm-ingestion-client/client.go:65-118 | from every reachable state, reconnecting and reading on delivers everything saved |
| Example.ExampleClient.Callback | evm-ingestion-client/example/main.go:48-54 | from 1 on, accepts exactly the next height owed and then owes the one after; any other block is fatal and changes nothing |
| Example.ExampleClient.HandleFrame | evm-ingestion-client/example/main.go:136-161 | one frame advances to its end without a fatal error, unless the start was height 0 |
| Example.ExampleClient.Run | evm-ingestion-client/example/main.go:26-89 | the order check fires if and only if the start is 0 and a frame arrives; otherwise the chain is delivered from the start on |
| Plugin.StepKeeps | indexing-subnet-evm/block.go:21-51 | every step of accept, compactor, crash and restart keeps the protocol's invariant |
| Plugin.IndexKeepsUp | indexing-subnet-evm/block.go:21-51 | the accepted height never exceeds the indexed one, the skip branch only skips indexed heights, the gap error is unreachable, the cached tip is exact or one too high after a failed accept |
| Plugin.RestartRestoresTop | indexing-subnet-evm/vm.go:138-167 | a restart restores exactly the greatest committed index and finds no gap |
| Soundness.CoverIsReadable | evm-ingestion/api/server.go:148-164 | having a block or its batch is the same as being readable with the chain's bytes |
| Plugin.StepCovers | evm-ingestion/storage/versiondb.go:78-92 | every step but an orphan deletion keeps disk and view covered, and an orphan deletion never does |
| Plugin.CoverageExactly | evm-ingestion/storage/versiondb.go:78-92 | coverage holds throughout a run if and only if no orphan deletion occurs in it |
| Plugin.AcceptedIsIndexed | indexing-subnet-evm/block.go:21-51 | without orphan deletions every accepted height is on disk with its indexed bytes |
| Plugin.NoAbortNoLoss | indexing-subnet-evm/notes/01_speedup_proposal.md:70-85 | without an Abort between a SaveBatch and its DeleteBlockRange disk and view stay covered |
| PluginLoss.SuccessfulAcceptLosesBlocks | indexing-subnet-evm/notes/01_speedup_proposal.md:70-85 | a run without failures or crashes after which an accepted height is readable nowhere |
| PluginStream.HandlerSeesTheChain | evm-ingestion-client/client.go:65-118 | the end-to-end property over the plugin's overlay, aborted accepts, crashes and orphan deletions included |
| PluginStream.RestartCloses | indexing-subnet-evm/vm.go:99-113 | a restart of the node ends the connection, drops the overlay, and keeps what was delivered |
| PluginStream.PassSends | evm-ingestion/api/server.go:148-172 | whatever the VM does between the lookups of a pass, it sends if and only if the block is there at the first or its batch at the second |
| PluginStream.CoveredHeightIsSent | evm-ingestion/api/server.go:148-172 | a pass at a covered height sends unless an Abort between its lookups drops an uncommitted batch; an undisturbed pass sends |
| PluginStream.EverythingIndexedArrives | evm-ingestion-client/client.go:65-118 | after every run without an orphan deletion, reconnecting and reading on delivers every height that readers see |
| Indexing.IndexingVM.constructor | indexing-subnet-evm/vm.go:138-150 | the restored height is the larger of meta and the scanned tip |
| Indexing.IndexingVM.GapDetected | indexing-subnet-evm/vm.go:152-167 | a reported gap is a height missing from an index that is not empty; on a database that any run of the protocol leaves, with the chain at the committed height, none is reported |
| Indexing.NoGapAfterRun | indexing-subnet-evm/vm.go:138-167 | after any run what is restored is the greatest committed index, and the committed height is not above it |
| Indexing.IndexingVM.InnerAccept | indexing-subnet-evm/notes/01_speedup_proposal.md:70-85 | commits overlay and accepted height together or neither; the overlay is empty afterwards in both cases |
| Indexing.IndexingVM.IndexBlock | indexing-subnet-evm/indexer.go:26-95 | with block, receipts, tracer, traces, JSON and a working write, puts the block into the overlay only and raises the announced tip; otherwise changes nothing |
| Indexing.IndexingVM.Accept | indexing-subnet-evm/block.go:21-51 | moves as the protocol's steps; on success the block is on disk with the accepted height; on failure disk and both heights are as before, and so are the heights when the block is skipped |
| Indexing.RestoredIsRestart | indexing-subnet-evm/vm.go:138-167 | what is restored and whether a gap is reported agree with the protocol's restart step |
| SlidingWindow.Streamer.Fill | evm-ingestion/rpc/fetcher.go:337-342 | the refill loop extends the pending interval as far as window and head allow, keeping what was pending |
| SlidingWindow.Streamer.RefreshAndFill | evm-ingestion/rpc/fetcher.go:328-344 | the known head only grows, and an unreadable head changes nothing |
| SlidingWindow.Streamer.Deliver | evm-ingestion/rpc/fetcher.go:374-388 | the head of the window is taken out and, when it is a block that is taken, sent as the next one |
| SlidingWindow.Streamer.Pass | evm-ingestion/rpc/fetcher.go:352-401 | one pass sends the next block exactly when it has arrived and is taken, waits while its fetch runs, and ends exactly for a cancelled context, an unreadable head with nothing pending, a fetch that ended in an error, or a block not taken; pending stays the interval from the next height on |
| SlidingWindow.StreamBlocks | evm-ingestion/rpc/fetcher.go:292-402 | for every completion order and growth of the head the output is from, from + 1, ..., as many as there are turns that send, and the outcome is that of the first turn that ends the stream |
| SlidingWindow.OutcomeWhen | evm-ingestion/rpc/fetcher.go:352-386 | the exact condition of every outcome of a pass |
| SlidingWindow.EveryTurnSends | evm-ingestion/rpc/fetcher.go:292-402 | with the head far enough ahead and every fetch done in its turn, every turn sends a block |
| Decoding.DecodeExactly | evm-ingestion/rpc/fetcher.go:138-139 | an array is read as sent if and only if no field left out meets a stale value in its cell |
| Decoding.OverlayGenuine | evm-ingestion/rpc/types.go:137-147 | a compliant response is only falsified by a stale error, when it leaves the error out |
| Decoding.CompliantExactly | evm-ingestion/rpc/fetcher.go:224-225 | every compliant array of a length is read as sent if and only if the cells up to it hold no error |
| Rpc.SortedFacts | evm-ingestion/rpc/fetcher.go:154-156 | any arrangement that sorts the ids, equal ones in any order, permutes the responses and puts their ids in order |
| Rpc.JudgeAccepts | evm-ingestion/rpc/fetcher.go:154-181 | a reply is accepted if and only if all ids match and, for the strict caller, no response has an error or an empty result |
| Rpc.AcceptsExactly | evm-ingestion/rpc/fetcher.go:154-260 | the strict caller accepts exactly right ids without errors and empty results, the debug caller exactly right ids |
| Rpc.FatalExactly | evm-ingestion/rpc/fetcher.go:159-173 | a strict call fails for good exactly at an error or empty result that all before it, and its own id, let the loop reach |
| Rpc.LeftBehind | evm-ingestion/rpc/fetcher.go:111-156 | a lost reply leaves the slice alone and an empty array clears it; after a reply of the wrong length the strict caller leaves the elements as they came, the debug caller sorted, and cells beyond them stay |
| Rpc.Validate | evm-ingestion/rpc/fetcher.go:158-178 | the validation loop reaches that verdict, the first defect deciding |
| Rpc.BatchCall | evm-ingestion/rpc/fetcher.go:101-263 | the first attempt that is not retried decides, judged on what the reused slice then holds; the call succeeds if and only if that one is accepted within the retries |
| Rpc.AcceptedIsSaid | evm-ingestion/rpc/fetcher.go:138-181 | whatever the slice holds, an accepted response without an error is one the reply contains; so is every one when no stale error is in the slice |
| Rpc.PermutedReplyAccepted | evm-ingestion/rpc/fetcher.go:138-181 | every permutation of the complete reply is accepted and put back into request order, unless a stale error is in the slice |
| Rpc.CleanBefore | evm-ingestion/rpc/fetcher.go:111-181 | the slice holds no error as long as no earlier attempt has read one |
| Rpc.CleanCallDecides | evm-ingestion/rpc/fetcher.go:101-263 | when no reply with an error is retried, the call succeeds if and only if it does with each reply read on its own, with the same ids, errors and results |
| Rpc.StaleErrorSurvives | evm-ingestion/rpc/fetcher.go:197-259 | after a retried one-element error reply, and any number of lost ones, a complete reply fails the strict call, and gets that error in the debug call |
| Rpc.MistypedErrorSurvives | evm-ingestion/rpc/types.go:137-147 | a retried reply whose error has the wrong type fails the next complete reply of the strict call, and puts an empty error into that of the debug call |
| Rpc.ChunksOf | evm-ingestion/rpc/fetcher.go:270-283 | the loop cuts the items into the specified pieces |
| Rpc.Chunked | evm-ingestion/rpc/fetcher.go:270-283 | the pieces join up to the items, and none is empty or longer than the size |
| Rpc.ChunkedSizes | evm-ingestion/rpc/fetcher.go:270-283 | all pieces but the last have the full size |
| Gather.RecognisedExactly | evm-ingestion/rpc/fetcher.go:803-805 | the precompile error is recognised in exactly the messages that contain its text |
| Gather.CallChunks | evm-ingestion/rpc/fetcher.go:557-582 | succeeds if and only if the call for every chunk does; then every transaction has a response with its id |
| Gather.CompleteRepliesDeliver | evm-ingestion/rpc/fetcher.go:557-582 | complete first replies, in any order, make all chunks succeed |
| Gather.FetchReceipts | evm-ingestion/rpc/fetcher.go:540-605 | for every order of replies and stores and whatever was retried, the receipts asked for one by one; succeeds if and only if the calls, judged on the reused slices, and that do |
| Gather.CleanChunksDeliver | evm-ingestion/rpc/fetcher.go:557-582 | when no call retries a reply with an error, all chunks succeed if and only if each does with replies read on their own |
| Gather.TraceChunk | evm-ingestion/rpc/fetcher.go:713-757 | ends with the first call that settles or else the last, judged on its reused slice, and without a harmful error if and only if one settles; responses without an error are the node's, and all are when no reply with an error was retried |
| Gather.LastErrorDecides | evm-ingestion/rpc/fetcher.go:719-777 | for a transaction always answered with one error the goroutine settles if and only if it is the precompile error, and ends with it |
| Gather.CleanCallSettles | evm-ingestion/rpc/fetcher.go:719-749 | when no reply with an error is retried, a call settles if and only if it does with replies read on their own |
| Gather.TracesByTransaction | evm-ingestion/rpc/fetcher.go:693-800 | succeeds only if every goroutine settles, and then each entry is what its last response says; every entry is the node's or empty, and all are the node's when no call retried a reply with an error; succeeds when calls settle and all traces can be read |
| Gather.StaleErrorEmptiesTrace | evm-ingestion/rpc/fetcher.go:719-777 | two faultless exchanges after which a transaction with a trace gets an empty one |
| Gather.TracesByPosition | evm-ingestion/rpc/fetcher.go:679-690 | entry i goes to transaction i, and the route fails exactly when the block trace is too short |
| Gather.FetchTraces | evm-ingestion/rpc/fetcher.go:607-801 | the block route is taken exactly when the block's trace can be had, and fails exactly when that is too short; otherwise the fallback decides; an entry for every hash and no other, the node's or empty; both routes give the map of the one-by-one traces when no call of the fallback retried a reply with an error |
| Gather.OneByOneIs | evm-ingestion/rpc/fetcher.go:540-605 | the reference map is the one with exactly the given hashes and the node's answer for each |
| Gather.OneFetchOnly | evm-ingestion/rpc/fetcher.go:404-473 | the sequential fetch determines the block |
| Gather.Assemble | evm-ingestion/rpc/fetcher.go:449-472 | receipts and traces in transaction order, entry j answering transaction j |
| Gather.FetchSingleBlock | evm-ingestion/rpc/fetcher.go:404-473 | a returned block equals the sequential fetch but for empty traces, and entirely when no trace call retried a reply with an error; it is returned when there is one and all calls succeed within their retries |
| TokenPool.FillChannel | evm-ingestion/rpc/controller.go:37-69 | the fill loop blocks on the full channel if and only if the maximum is configured as 1, and otherwise leaves the minimum of tokens |
| TokenPool.MinimumIsTenth | evm-ingestion/rpc/controller.go:50-51 | the pool starts at a tenth of the maximum, but not below two |
| TokenPool.Conserved | evm-ingestion/rpc/controller.go:111-128 | tokens idle, held, owed and turned away together always equal currentParallel plus all cuts |
| TokenPool.PoolInvariant | evm-ingestion/rpc/controller.go:51-128 | in every reachable state the bounds hold and at least currentParallel tokens exist |
| TokenPool.LostExactly | evm-ingestion/rpc/controller.go:121-128 | a token is turned away exactly when it meets a full channel |
| TokenPool.SurplusStays | evm-ingestion/rpc/controller.go:121-128 | in runs in which the channel is never full everything that reductions cut stays in the pool |
| TokenPool.LimitHoldsExactly | evm-ingestion/rpc/controller.go:121-128 | requests in flight stay within currentParallel until the next adjustment if and only if every token cut so far was turned away |
| TokenPool.NoReductionNoExcess | evm-ingestion/rpc/controller.go:51-128 | in runs without a reduction the tokens number exactly currentParallel and bound the requests in flight |
| TokenPool.ExcessIsUnbounded | evm-ingestion/rpc/controller.go:244-257 | for every number there is a run of growths and reductions with that many requests in flight |
| Control.ErrorsSplit | evm-ingestion/rpc/controller.go:192-200 | the errors of a window are its failed requests, by position; with the successes they make up the window |
| Control.NoErrorsExactly | evm-ingestion/rpc/controller.go:192-200 | a window has no errors if and only if every request in it succeeded |
| Control.SortedElementIsP95 | evm-ingestion/rpc/controller.go:202-210 | the element picked from the sorted window is the only value with at most floor(0.95 n) elements below it and more at or below it |
| Control.P95Depends | evm-ingestion/rpc/controller.go:86-109 | the percentile does not depend on the order of the metrics |
| Control.GrowthExactly | evm-ingestion/rpc/controller.go:222-232 | growth reaches g exactly when the latency is at most 1/g - 1/10 of the target |
| Control.GrowthBounds | evm-ingestion/rpc/controller.go:222-232 | growth lies in 1..10 and never increases with latency |
| Control.GrowthAtCommentedPoints | evm-ingestion/rpc/controller.go:223-226 | growth at 10, 50 and 90 percent of the target is 5, 1 and 1 |
| Control.DecisionMonotone | evm-ingestion/rpc/controller.go:215-242 | worse latency and no fewer errors over the limit never give a higher parallelism |
| Control.DecisionDirection | evm-ingestion/rpc/controller.go:215-242 | the result is within bounds, and rises or falls exactly under the stated conditions |
| Control.DecisionAmounts | evm-ingestion/rpc/controller.go:215-242 | half after more than ten errors; else down by two above the maximum, up by the growth below half of it, unchanged between; within bounds |
| Control.DirectionInMilliseconds | evm-ingestion/rpc/controller.go:43-48 | with the limit in milliseconds as configured, 1000 unless positive, the pool grows exactly below half of it and shrinks exactly above it or after more than ten errors, within its bounds |
| Control.Controller.constructor | evm-ingestion/rpc/controller.go:37-76 | starts with the minimum of tokens and no metrics |
| Control.NewController | evm-ingestion/rpc/controller.go:37-76 | does not return if and only if the maximum is configured as 1, and otherwise starts with the minimum of tokens and no metrics |
| Control.Controller.RecordMetric | evm-ingestion/rpc/controller.go:130-139 | appends the metric, keeping the metrics ordered in time |
| Control.Controller.P95Latency | evm-ingestion/rpc/controller.go:86-109 | the percentile of the window, zero below ten metrics |
| Control.Controller.Prune | evm-ingestion/rpc/controller.go:173-185 | the loop keeps exactly the metrics newer than the cutoff, in order |
| Control.Controller.Adjust | evm-ingestion/rpc/controller.go:169-258 | takes the pool steps of the decision on the pruned window's errors and percentile: half after more than ten failures, else by the percentile, unchanged between target and maximum; none below ten metrics |
| Control.Controller.Resize | evm-ingestion/rpc/controller.go:244-257 | stores the new value and adds the slots it brings, as far as the channel has room |
| AtomicMax.RunKeeps | evm-ingestion/api/server.go:50-61 | under any schedule the value never falls and is no less than any finished caller's |
| AtomicMax.QuiescentIsMaximum | evm-ingestion/storage/versiondb.go:46-55 | when all calls have returned the value is the greatest of the initial one and all arguments |
| AtomicMax.CallsFinish | evm-ingestion/api/server.go:50-61 | n calls in progress finish within 3n + 3n^2 moves, however scheduled |

## Left out

- HTTP, the WebSocket protocol, JSON and zstd are opaque functions or outcomes chosen by the environment.
- Pebble's and avalanchego's internals: a database is the byte map described under Assumptions.
- `fmt.Sscanf` skips leading white space; the model parses only keys that the program writes.
- `BlockCount` of both stores: a diagnostic that nothing uses for a decision.
- Delays, timeouts and tickers; a step happens whenever it may. Context cancellation appears as a step that ends a loop.
- Progress statistics, metrics, logging, environment parsing and the formatting helpers.
- The head tracker's connection handling (`evm-ingestion/rpc/heads.go`): the head is a number that may be refreshed to any value.
- `indexing-subnet-evm/marshal.go` and `validate.go`: field copying and a diagnostic.
- The inner VM: its code is not in the repository, and only the quoted contract of its Accept is modelled.
- Plugins first enabled in the middle of a chain: compaction there stops at a missing block.
- Genesis (block 0), which neither the service nor the plugin stores.
- In the plugin the individual blocks need not be one interval after an Abort; `Plugin` states coverage and the extrema, not the interval shape of `Pipeline`.
- VersionDB.VersionDBStorage.DeleteBlockRange: requires an end below 2^64 - 1, the exact condition of DeleteLoopEndsExactly for the source's loop to end.
- Indexing.IndexingVM.constructor: the startup scan does not break off; one that does would restore an earlier height.
- CompactorLoop.Compactor: the methods are written over Pebble; over versiondb a call is `AfterCall` with the cached height, to which the results about the loop apply.
- CompactorLoop.Compactor.CompactAll: requires that the loop is not stuck, the exact condition of LoopEndsExactly for it to end; nothing else writes to the store meanwhile.
- Wire.Client.Stream: the endless loop is bounded by a number of connection attempts that the statement quantifies over.
- Wire.StreamFrames: the endless loop is bounded by a number of passes that the statement quantifies over.
- SlidingWindow.StreamBlocks: the endless loop is bounded by a list of turns that the statement quantifies over, and a fetch that never completes is a turn that brings nothing.
- Gather.FetchSingleBlock: `fetchBlocksBatch` and the block route of `fetchTracesBatch` are modelled for the one block they are called with.
- Gather.TracesByTransaction: the goroutines' responses are collected before they are parsed; stores to the shared map happen in any order either way.
- Control.Controller.Adjust: runs alone; the interleaving of its stores and sends with Acquire and Release is the subject of TokenPool.
- Control.Growth: real arithmetic instead of float64, so a quotient within rounding of an integer may fall on the other side.
- Control.Controller.constructor: NewController calls it once the channel is filled, so never for a maximum of 1; maxima are taken to fit int32.
