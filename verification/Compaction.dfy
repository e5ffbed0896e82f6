/** The compactor of evm-ingestion/storage/compactor.go, one store access at a time. */
module Compaction {
  import opened Prelude
  import opened Framing
  import opened StoreModel

  const MIN_BLOCKS: int := 1000

  /** The two size tests of compactOneBatch, on uint64: the start of the batch to compact, if any. */
  function Gate(first: u64, latest: u64): Option<u64> {
    var blockCount := Wrap(latest - first + 1);
    if blockCount < MIN_BLOCKS + BATCH_SIZE then None
    else
      var start := BatchStart(first);
      if latest < Wrap(BatchEnd(start) + MIN_BLOCKS) then None else Some(start)
  }

  /** With an aligned first block the second test never refuses what the first lets through. */
  lemma GatesAgree(first: u64, latest: u64)
    requires first <= latest <= MAX_HEIGHT && first % BATCH_SIZE == 1
    ensures latest - first + 1 >= MIN_BLOCKS + BATCH_SIZE <==> latest >= BatchEnd(first) + MIN_BLOCKS
    ensures Gate(first, latest) == if latest >= first + 1099 then Some(first) else None
  {
    BatchesPartition(first, first);
  }

  // Where a compaction stands between two store accesses.
  datatype Pc =
    | Idle
    | GotFirst(first: u64)
    | Reading(start: u64, got: seq<Bytes>)
    | Packed(start: u64, data: Bytes)
    | BatchSaved(start: u64)
    | MetaSaved(start: u64)

  // One access and its outcome; ok is false when the operation returns an error.
  datatype CompactorLabel =
    | ReadFirst(first: Option<u64>)
    | ReadLatest(latest: Option<u64>)
    | ReadBlock(ok: bool)
    | Compress(ok: bool)
    | WriteBatch(ok: bool)
    | WriteMeta(ok: bool)
    | WriteDelete(ok: bool)

  ghost function AfterFirst(pc: Pc, first: Option<u64>): Pc {
    if pc.Idle? && first.Some? then GotFirst(first.value) else if pc.Idle? then Idle else pc
  }

  ghost function AfterLatest(pc: Pc, latest: Option<u64>): Pc {
    if !pc.GotFirst? then pc
    else if latest.None? || Gate(pc.first, latest.value).None? then Idle
    else Reading(Gate(pc.first, latest.value).value, [])
  }

  /** The height the read loop asks for next. */
  function NextRead(start: u64, got: seq<Bytes>): u64 {
    Wrap(start + |got|)
  }

  ghost function CompactorStep(w: World, st: Store, pc: Pc, l: CompactorLabel): (Store, Pc) {
    match l
    case ReadFirst(first) => (st, AfterFirst(pc, first))
    case ReadLatest(latest) => (st, AfterLatest(pc, latest))
    case ReadBlock(ok) =>
      if !pc.Reading? || |pc.got| == BATCH_SIZE then (st, pc)
      else
        var data := if ok then st.GetBlock(NextRead(pc.start, pc.got)) else None;
        (st, if data.None? then Idle else pc.(got := pc.got + [data.value]))
    case Compress(ok) =>
      if !pc.Reading? || |pc.got| != BATCH_SIZE then (st, pc)
      else (st, if ok then Packed(pc.start, w.encBatch(Jsonl(pc.got))) else Idle)
    case WriteBatch(ok) =>
      if !pc.Packed? then (st, pc)
      else if !ok then (st, Idle)
      else (st.SaveBatch(pc.start, BatchEnd(pc.start), pc.data), BatchSaved(pc.start))
    case WriteMeta(ok) =>
      if !pc.BatchSaved? then (st, pc)
      else if !ok then (st, Idle)
      else (st.SaveMeta(BatchEnd(pc.start)), MetaSaved(pc.start))
    case WriteDelete(ok) =>
      if !pc.MetaSaved? then (st, pc)
      else (if ok then st.DeleteBlocks(pc.start, BatchEnd(pc.start)) else st, Idle)
  }

  // ----- what a reader can still find -----

  /** d is stored for height n under its own key. */
  ghost predicate InBlocks(st: Store, n: u64, d: Bytes) {
    st.GetBlock(n) == Some(d)
  }

  /** d is line n - BatchStart(n) of the batch that n falls in. */
  ghost predicate InBatch(w: World, st: Store, n: u64, d: Bytes) {
    var s := BatchStart(n);
    && st.GetBatch(s).Some?
    && w.dec(st.GetBatch(s).value).Some?
    && var lines := ClientLines(w.dec(st.GetBatch(s).value).value);
       0 <= n - s < |lines| && lines[n - s] == d
  }

  ghost predicate Readable(w: World, st: Store, n: u64, d: Bytes) {
    InBlocks(st, n, d) || InBatch(w, st, n, d)
  }

  /** Every height in 1..top is readable with the chain's own bytes. */
  ghost predicate Covered(w: World, st: Store, top: int) {
    forall n: u64 :: 1 <= n <= top ==> Readable(w, st, n, w.chain(n))
  }

  /** Nothing in the store contradicts the chain. */
  ghost predicate Truthful(w: World, st: Store) {
    && (forall n: u64 :: n in st.blocks ==> 1 <= n <= MAX_HEIGHT && st.blocks[n] == w.chain(n))
    && (forall p :: p in st.batches ==> TrueBatch(w, p, st.batches[p]))
  }

  ghost predicate TrueBatch(w: World, p: (u64, u64), data: Bytes) {
    p.0 % BATCH_SIZE == 1 && p.1 == p.0 + BATCH_SIZE - 1 && p.1 <= MAX_HEIGHT && data == w.BatchBytes(p.0)
  }

  lemma TrueBatchIsReadable(w: World, st: Store, n: u64)
    requires w.Faithful() && 1 <= n <= MAX_HEIGHT
    requires st.GetBatch(BatchStart(n)) == Some(w.BatchBytes(BatchStart(n)))
    ensures InBatch(w, st, n, w.chain(n))
  {
    var s := BatchStart(n);
    FramesDecode(w, s, s + BATCH_SIZE);
  }
}
