/** compactOneBatch and compactAll of evm-ingestion/storage/compactor.go, over the Pebble store. */
module CompactorLoop {
  import opened Prelude
  import opened Framing
  import opened Keys
  import opened StoreModel
  import opened Compaction
  import opened Soundness
  import opened Pebble
  import opened Pipeline

  ghost predicate InModelRange(st: Store) {
    forall n :: n in st.blocks ==> n <= MAX_HEIGHT
  }

  /**
   * The store asks for start to be compacted when the lookup of the latest block answers seen: both size tests pass
   * and all hundred blocks are there. Pebble answers the last block it stores, versiondb its cached height.
   */
  ghost predicate Ready(st: Store, seen: Option<u64>, start: u64) {
    && seen.Some?
    && (exists first: u64 :: IsFirstBlock(st, Some(first)) && Gate(first, seen.value) == Some(start))
    && HasHundred(st, start)
  }

  ghost predicate HasHundred(st: Store, start: u64) {
    start <= MAX_HEIGHT && forall n: u64 :: start <= n < start + BATCH_SIZE ==> n in st.blocks
  }

  ghost function Gathered(st: Store, start: u64): (r: seq<Bytes>)
    requires HasHundred(st, start)
    ensures |r| == BATCH_SIZE
  {
    seq(BATCH_SIZE, i requires 0 <= i < BATCH_SIZE => st.blocks[start + i])
  }

  /** The store after the first k of the three writes: the batch, meta, the deletion. */
  ghost function AfterWrites(w: World, st: Store, start: u64, k: nat): Store
    requires HasHundred(st, start)
  {
    var saved := st.SaveBatch(start, BatchEnd(start), w.encBatch(Jsonl(Gathered(st, start))));
    var noted := saved.SaveMeta(BatchEnd(start));
    if k == 0 then st
    else if k == 1 then saved
    else if k == 2 then noted
    else noted.DeleteBlocks(start, BatchEnd(start))
  }

  lemma ExtremaAreUnique(st: Store, a: u64, b: u64)
    ensures IsFirstBlock(st, Some(a)) && IsFirstBlock(st, Some(b)) ==> a == b
    ensures IsLastBlock(st, Some(a)) && IsLastBlock(st, Some(b)) ==> a == b
  {
  }

  lemma LastOnce(st: Store, a: Option<u64>, b: Option<u64>)
    requires IsLastBlock(st, a) && IsLastBlock(st, b)
    ensures a == b
  {
  }

  // ----- one call -----

  // What one call of compactOneBatch meets: whether the loop's context is cancelled before it, and which of its
  // operations succeed.
  datatype Call = Call(cancelled: bool, first: bool, latest: bool, blocks: nat -> bool, compress: bool,
                       batch: bool, meta: bool, delete: bool)

  /** Nothing keeps the call from its first write but the store itself. */
  ghost predicate GetsToWrite(c: Call) {
    !c.cancelled && c.first && c.latest && c.compress && forall i: nat :: i < BATCH_SIZE ==> c.blocks(i)
  }

  function Writes(c: Call): nat {
    if !c.batch then 0 else if !c.meta then 1 else if !c.delete then 2 else 3
  }

  /** The store after a call, and whether the call reports that more work remains. */
  ghost function AfterCall(w: World, st: Store, seen: Option<u64>, c: Call): (Store, bool) {
    if GetsToWrite(c) && exists s: u64 :: Ready(st, seen, s) then
      var s: u64 :| Ready(st, seen, s);
      (AfterWrites(w, st, s, Writes(c)), Writes(c) >= 2)
    else (st, false)
  }

  lemma ReadyOnce(st: Store, seen: Option<u64>, a: u64, b: u64)
    requires Ready(st, seen, a) && Ready(st, seen, b)
    ensures a == b
  {
    hide Gate, HasHundred;
    var f: u64 :| IsFirstBlock(st, Some(f)) && Gate(f, seen.value) == Some(a);
    var g: u64 :| IsFirstBlock(st, Some(g)) && Gate(g, seen.value) == Some(b);
    ExtremaAreUnique(st, f, g);
  }

  lemma AfterReady(w: World, st: Store, seen: Option<u64>, c: Call, s: u64)
    requires Ready(st, seen, s) && GetsToWrite(c)
    ensures AfterCall(w, st, seen, c) == (AfterWrites(w, st, s, Writes(c)), Writes(c) >= 2)
  {
    hide Ready, AfterWrites, GetsToWrite;
    forall t: u64 | Ready(st, seen, t) ensures t == s {
      ReadyOnce(st, seen, t, s);
    }
  }

  lemma NotReady(w: World, st: Store, seen: Option<u64>, c: Call)
    requires GetsToWrite(c) ==> forall s: u64 :: !Ready(st, seen, s)
    ensures AfterCall(w, st, seen, c) == (st, false)
  {
    hide Ready, GetsToWrite;
  }

  lemma AfterReadyIf(w: World, st: Store, seen: Option<u64>, c: Call, s: u64)
    requires Ready(st, seen, s) && (!c.cancelled ==> GetsToWrite(c))
    ensures !c.cancelled ==> AfterCall(w, st, seen, c) == (AfterWrites(w, st, s, Writes(c)), Writes(c) >= 2)
  {
    hide Ready, AfterWrites, GetsToWrite;
    if !c.cancelled {
      AfterReady(w, st, seen, c, s);
    }
  }

  lemma CancelledCall(w: World, st: Store, seen: Option<u64>, c: Call)
    requires c.cancelled
    ensures AfterCall(w, st, seen, c) == (st, false)
  {
  }

  class Compactor {
    const store: PebbleStorage
    const w: World

    constructor (store: PebbleStorage, w: World)
      ensures this.store == store && this.w == w
    {
      this.store := store;
      this.w := w;
    }

    /** The read loop: blocks start..start+99, or nothing when one of them is missing or cannot be read. */
    method ReadHundred(start: u64, readable: nat -> bool) returns (blocks: Option<seq<Bytes>>)
      requires store.Valid() && start <= MAX_HEIGHT
      ensures blocks.Some? <==> HasHundred(store.Contents(), start) && forall i: nat :: i < BATCH_SIZE ==> readable(i)
      ensures blocks.Some? ==> blocks.value == Gathered(store.Contents(), start)
    {
      hide BlockKey, BatchKey;
      var got: seq<Bytes> := [];
      for i := 0 to BATCH_SIZE
        invariant |got| == i
        invariant forall j: nat :: j < i ==> readable(j)
        invariant forall n: u64 :: start <= n < start + i ==> n in store.Contents().blocks
        invariant forall j :: 0 <= j < i ==> got[j] == store.Contents().blocks[start + j]
      {
        var n: u64 := start + i;
        var data := store.GetBlock(n, readable(i));
        if data.None? {
          return None;
        }
        got := got + [data.value];
      }
      blocks := Some(got);
    }

    /** The two size tests. */
    method PickBatch(c: Call, ghost seen: Option<u64>) returns (start: Option<u64>)
      requires store.Valid() && IsLastBlock(store.Contents(), seen)
      ensures c.first && c.latest ==> forall s: u64 :: Ready(store.Contents(), seen, s) ==> start == Some(s)
      ensures start.Some? ==> c.first && c.latest
      ensures start.Some? ==>
                (HasHundred(store.Contents(), start.value) <==> Ready(store.Contents(), seen, start.value))
      ensures start.Some? && InModelRange(store.Contents()) ==> start.value <= MAX_HEIGHT
    {
      hide HasHundred, Abs;
      var first := store.FirstBlock(c.first);
      if first.None? {
        return None;
      }
      var latest := store.LatestBlock(c.latest);
      if latest.None? {
        return None;
      }
      LastOnce(store.Contents(), latest, seen);
      FirstDecides(store.Contents(), first.value, seen);
      var blockCount: u64 := Wrap(latest.value - first.value + 1);
      if blockCount < MIN_BLOCKS + BATCH_SIZE {
        return None;
      }
      var batchStart := BatchStart(first.value);
      var batchEnd := BatchEnd(batchStart);
      if latest.value < Wrap(batchEnd + MIN_BLOCKS) {
        return None;
      }
      return Some(batchStart);
    }

    /** The three writes, in order, each only after the one before it succeeded; a failed deletion is not reported. */
    method WriteThree(start: u64, compressed: Bytes, c: Call) returns (more: bool)
      requires store.Valid() && HasHundred(store.Contents(), start)
      requires compressed == w.encBatch(Jsonl(Gathered(store.Contents(), start)))
      modifies store
      ensures store.Valid() && store.Contents() == AfterWrites(w, old(store.Contents()), start, Writes(c))
      ensures more <==> Writes(c) >= 2
    {
      var ok := store.SaveBatch(start, BatchEnd(start), compressed, c.batch);
      if !ok {
        return false;
      }
      ok := store.SaveMeta(BatchEnd(start), c.meta);
      if !ok {
        return false;
      }
      ok := store.DeleteBlockRange(start, BatchEnd(start), c.delete);
      more := true;
    }

    /** One call does what AfterCall says, for every combination of failures; seen is the last block of the store. */
    method CompactOneBatch(c: Call, ghost seen: Option<u64>) returns (more: bool)
      requires store.Valid() && InModelRange(store.Contents()) && IsLastBlock(store.Contents(), seen)
      modifies store
      ensures store.Valid() && (!c.cancelled ==> (store.Contents(), more) == AfterCall(w, old(store.Contents()), seen, c))
    {
      hide AfterWrites, HasHundred, Abs, AfterCall, Gate, InModelRange;
      var batchStart := PickBatch(c, seen);
      if batchStart.None? {
        NotReady(w, store.Contents(), seen, c);
        return false;
      }
      var blocks := ReadHundred(batchStart.value, c.blocks);
      if blocks.None? || !c.compress {
        NotReady(w, store.Contents(), seen, c);
        return false;
      }
      var compressed := CompressBlocks(w, blocks.value);
      AfterReadyIf(w, store.Contents(), seen, c, batchStart.value);
      more := WriteThree(batchStart.value, compressed, c);
    }

    /**
     * The loop, call k meeting calls(k). It ends because it is not stuck, at the first call that reports no work; a
     * store that has its shape keeps it, and a store that is covered loses no block, whichever operations failed.
     */
    method CompactAll(calls: nat -> Call, ghost seen: Option<u64>) returns (ghost n: nat)
      requires store.Valid() && InModelRange(store.Contents()) && IsLastBlock(store.Contents(), seen)
      requires forall from: nat :: !Stuck(w, store.Contents(), seen, calls, from)
      modifies store
      ensures store.Valid() && store.Contents() == StoreAfter(w, old(store.Contents()), seen, calls, n + 1)
      ensures AllReport(w, old(store.Contents()), seen, calls, n) && !Reports(w, old(store.Contents()), seen, calls, n)
      ensures forall top: int, cut: int, tiled: int :: Shape(w, old(store.Contents()), top, cut, tiled) ==>
                Shape(w, store.Contents(), top, CutAfter(calls, top, cut, n + 1), TiledAfter(calls, top, cut, tiled, n + 1))
      ensures forall top: int :: Sound(w, old(store.Contents()), top) && Cover(old(store.Contents()), top) ==>
                Sound(w, store.Contents(), top) && Cover(store.Contents(), top)
    {
      hide Abs, AfterCall, StoreAfter, Stuck, Reports, InModelRange, Shape, Sound, Cover, CutAfter, TiledAfter, AllReport;
      ghost var st := store.Contents();
      ghost var last := SomeCallEnds(w, st, seen, calls);
      ReportsIs(w, st, seen, calls, last);
      n := 0;
      var i: nat := 0;
      NoneYet(w, st, seen, calls);
      while true
        invariant store.Valid() && store.Contents() == StoreAfter(w, st, seen, calls, i)
        invariant i <= last && AllReport(w, st, seen, calls, i)
        decreases last - i
      {
        RunKeepsRange(w, st, seen, calls, i);
        ReportsIs(w, st, seen, calls, i);
        KeptUntil(w, st, seen, calls, i + 1);
        n := i;
        if calls(i).cancelled {
          CancelledCall(w, store.Contents(), seen, calls(i));
          return;
        }
        var more := CompactOneBatch(calls(i), seen);
        if !more {
          return;
        }
        MoreReports(w, st, seen, calls, i, last);
        i := i + 1;
      }
    }
  }

  // ----- the loop -----

  /** The store when call n begins, were the loop to go on for ever. The latest block answered does not change. */
  ghost function StoreAfter(w: World, st: Store, seen: Option<u64>, calls: nat -> Call, n: nat): Store {
    if n == 0 then st else AfterCall(w, StoreAfter(w, st, seen, calls, n - 1), seen, calls(n - 1)).0
  }

  /** Call n reports that more work remains, so the loop goes on after it. */
  ghost predicate Reports(w: World, st: Store, seen: Option<u64>, calls: nat -> Call, n: nat) {
    AfterCall(w, StoreAfter(w, st, seen, calls, n), seen, calls(n)).1
  }

  /** The first n calls all report more work, so the loop makes call n. */
  ghost predicate AllReport(w: World, st: Store, seen: Option<u64>, calls: nat -> Call, n: nat) {
    forall k: nat :: k < n ==> Reports(w, st, seen, calls, k)
  }

  lemma NoneYet(w: World, st: Store, seen: Option<u64>, calls: nat -> Call)
    ensures AllReport(w, st, seen, calls, 0)
  {
  }

  lemma MoreReports(w: World, st: Store, seen: Option<u64>, calls: nat -> Call, i: nat, last: nat)
    requires AllReport(w, st, seen, calls, i) && Reports(w, st, seen, calls, i)
    requires i <= last && !Reports(w, st, seen, calls, last)
    ensures AllReport(w, st, seen, calls, i + 1) && i < last
  {
    hide Reports;
  }

  lemma ReportsIs(w: World, st: Store, seen: Option<u64>, calls: nat -> Call, n: nat)
    ensures Reports(w, st, seen, calls, n) == AfterCall(w, StoreAfter(w, st, seen, calls, n), seen, calls(n)).1
    ensures StoreAfter(w, st, seen, calls, n + 1) == AfterCall(w, StoreAfter(w, st, seen, calls, n), seen, calls(n)).0
    ensures StoreAfter(w, st, seen, calls, 0) == st
  {
    hide AfterCall;
  }

  // ----- what a call removes -----

  ghost predicate Stored(st: Store, n: u64) {
    n in st.blocks
  }

  /** The heights that have individual blocks; there are never more than uint64 has values. */
  ghost function Heights(st: Store): (r: set<u64>)
    ensures forall n: u64 :: n in r <==> n in st.blocks
  {
    var r := set n: u64 | 0 <= n < 0x1_0000_0000_0000_0000 && Stored(st, n);
    assert forall n: u64 :: n in r <==> Stored(st, n);
    r
  }

  /** A call that reports progress removes a hundred blocks, unless its deletion fails; any other call removes none. */
  lemma CallRemoves(w: World, st: Store, seen: Option<u64>, c: Call)
    ensures var (st', more) := AfterCall(w, st, seen, c);
            |Heights(st')| == |Heights(st)| - if more && c.delete then BATCH_SIZE else 0
    ensures InModelRange(st) ==> InModelRange(AfterCall(w, st, seen, c).0)
  {
    hide Ready, GetsToWrite, Gathered;
    if GetsToWrite(c) && exists s: u64 :: Ready(st, seen, s) {
      var s: u64 :| Ready(st, seen, s);
      AfterReady(w, st, seen, c, s);
      ReadyHasHundred(st, seen, s);
      WritesRemove(w, st, s, Writes(c));
    }
  }

  lemma ReadyHasHundred(st: Store, seen: Option<u64>, s: u64)
    requires Ready(st, seen, s)
    ensures HasHundred(st, s)
  {
  }

  lemma WritesRemove(w: World, st: Store, s: u64, k: nat)
    requires HasHundred(st, s)
    ensures |Heights(AfterWrites(w, st, s, k))| == |Heights(st)| - if k >= 3 then BATCH_SIZE else 0
    ensures forall n :: n in AfterWrites(w, st, s, k).blocks ==> n in st.blocks
  {
    hide Gathered;
    var st' := AfterWrites(w, st, s, k);
    if k >= 3 {
      var gone := Stretch(s, BATCH_SIZE);
      assert Heights(st') == Heights(st) - gone && gone <= Heights(st);
    } else {
      assert Heights(st') == Heights(st);
    }
  }

  function FailedDeletions(calls: nat -> Call, n: nat): nat {
    if n == 0 then 0 else FailedDeletions(calls, n - 1) + if calls(n - 1).delete then 0 else 1
  }

  lemma {:induction false} RunRemoves(w: World, st: Store, seen: Option<u64>, calls: nat -> Call, n: nat)
    requires AllReport(w, st, seen, calls, n)
    ensures |Heights(StoreAfter(w, st, seen, calls, n))| == |Heights(st)| - BATCH_SIZE * (n - FailedDeletions(calls, n))
  {
    hide AfterCall, Reports, Heights, StoreAfter;
    ReportsIs(w, st, seen, calls, n);
    if n > 0 {
      RunRemoves(w, st, seen, calls, n - 1);
      ReportsIs(w, st, seen, calls, n - 1);
      CallRemoves(w, StoreAfter(w, st, seen, calls, n - 1), seen, calls(n - 1));
    }
  }

  /** On every store the loop makes at most one call per hundred blocks, one per failed deletion, and a last one. */
  lemma CallsBounded(w: World, st: Store, seen: Option<u64>, calls: nat -> Call, n: nat)
    requires AllReport(w, st, seen, calls, n)
    ensures n <= |Heights(st)| / BATCH_SIZE + FailedDeletions(calls, n)
  {
    hide AllReport;
    RunRemoves(w, st, seen, calls, n);
  }

  // ----- when it ends -----

  /**
   * From call from on the loop is stuck: a batch is ready, every call gets to write, its first two writes succeed and
   * its deletion fails.
   */
  ghost predicate Stuck(w: World, st: Store, seen: Option<u64>, calls: nat -> Call, from: nat) {
    && AllReport(w, st, seen, calls, from)
    && (exists s: u64 :: Ready(StoreAfter(w, st, seen, calls, from), seen, s))
    && (forall k: nat :: from <= k ==> GetsToWrite(calls(k)) && Writes(calls(k)) == 2)
  }

  lemma FailedDeletionKeeps(w: World, st: Store, seen: Option<u64>, s: u64)
    requires Ready(st, seen, s)
    ensures Ready(AfterWrites(w, st, s, 2), seen, s)
    ensures AfterWrites(w, AfterWrites(w, st, s, 2), s, 2) == AfterWrites(w, st, s, 2)
  {
    hide Gate, Gathered;
    var st' := AfterWrites(w, st, s, 2);
    assert st'.blocks == st.blocks;
    SameGathered(st, st', s);
    var f: u64 :| IsFirstBlock(st, Some(f)) && Gate(f, seen.value) == Some(s);
    assert IsFirstBlock(st', Some(f));
  }

  lemma SameGathered(st: Store, st': Store, s: u64)
    requires st'.blocks == st.blocks && HasHundred(st, s)
    ensures HasHundred(st', s) && Gathered(st', s) == Gathered(st, s)
  {
  }

  /**
   * As long as only deletions fail, every call reports progress and, from the first on, leaves the store as it is:
   * harmless, but without an end.
   */
  lemma {:induction false} FailedDeletionRepeats(w: World, st: Store, seen: Option<u64>, calls: nat -> Call, from: nat, s: u64, n: nat)
    requires Ready(StoreAfter(w, st, seen, calls, from), seen, s) && from <= n
    requires forall k: nat :: from <= k <= n ==> GetsToWrite(calls(k)) && Writes(calls(k)) == 2
    ensures Reports(w, st, seen, calls, n)
    ensures var after := StoreAfter(w, st, seen, calls, n + 1);
            after == AfterWrites(w, StoreAfter(w, st, seen, calls, from), s, 2) && Ready(after, seen, s)
  {
    hide Ready, AfterWrites, GetsToWrite, AfterCall, StoreAfter;
    FailedDeletionKeeps(w, StoreAfter(w, st, seen, calls, from), seen, s);
    ReportsIs(w, st, seen, calls, n);
    if n > from {
      FailedDeletionRepeats(w, st, seen, calls, from, s, n - 1);
      AfterReady(w, StoreAfter(w, st, seen, calls, n), seen, calls(n), s);
      FailedDeletionKeeps(w, StoreAfter(w, st, seen, calls, from), seen, s);
    } else {
      AfterReady(w, StoreAfter(w, st, seen, calls, n), seen, calls(n), s);
    }
  }

  lemma {:induction false} SuccessesGrow(calls: nat -> Call, n: nat, m: nat)
    requires n <= m
    ensures n - FailedDeletions(calls, n) <= m - FailedDeletions(calls, m)
  {
    if n < m {
      SuccessesGrow(calls, n, m - 1);
    }
  }

  /** After the last successful deletion of a loop that never ends, all deletions fail. */
  lemma {:induction false} LastDeletion(w: World, st: Store, seen: Option<u64>, calls: nat -> Call, n: nat) returns (from: nat)
    requires forall k: nat :: Reports(w, st, seen, calls, k)
    ensures forall k: nat :: from <= k ==> !calls(k).delete
    decreases |Heights(st)| / BATCH_SIZE - (n - FailedDeletions(calls, n))
  {
    hide Reports, Heights;
    CallsBounded(w, st, seen, calls, n);
    if k: nat :| n <= k && calls(k).delete {
      SuccessesGrow(calls, n, k);
      CallsBounded(w, st, seen, calls, k + 1);
      from := LastDeletion(w, st, seen, calls, k + 1);
    } else {
      from := n;
    }
  }

  lemma ReportsOnly(w: World, st: Store, seen: Option<u64>, calls: nat -> Call, n: nat)
    requires Reports(w, st, seen, calls, n)
    ensures GetsToWrite(calls(n)) && Writes(calls(n)) >= 2
    ensures exists s: u64 :: Ready(StoreAfter(w, st, seen, calls, n), seen, s)
  {
    hide Ready, GetsToWrite, AfterWrites;
  }

  lemma EndlessIsStuck(w: World, st: Store, seen: Option<u64>, calls: nat -> Call) returns (from: nat)
    requires forall n: nat :: Reports(w, st, seen, calls, n)
    ensures Stuck(w, st, seen, calls, from)
  {
    hide Reports, GetsToWrite, Ready;
    from := LastDeletion(w, st, seen, calls, 0);
    forall k: nat | from <= k ensures GetsToWrite(calls(k)) && Writes(calls(k)) == 2 {
      ReportsOnly(w, st, seen, calls, k);
    }
    ReportsOnly(w, st, seen, calls, from);
  }

  /**
   * compactAll ends exactly when deletions do not fail for ever on a ready batch, on every store and whatever height the
   * store answers as its latest.
   */
  lemma LoopEndsExactly(w: World, st: Store, seen: Option<u64>, calls: nat -> Call)
    ensures (exists n: nat :: !Reports(w, st, seen, calls, n)) <==> forall from: nat :: !Stuck(w, st, seen, calls, from)
  {
    hide Reports, Ready, GetsToWrite;
    if from: nat :| Stuck(w, st, seen, calls, from) {
      var s: u64 :| Ready(StoreAfter(w, st, seen, calls, from), seen, s);
      forall n: nat ensures Reports(w, st, seen, calls, n) {
        if n >= from { FailedDeletionRepeats(w, st, seen, calls, from, s, n); }
      }
    }
    hide Stuck;
    if forall n: nat :: Reports(w, st, seen, calls, n) {
      var from := EndlessIsStuck(w, st, seen, calls);
    }
  }

  lemma SomeCallEnds(w: World, st: Store, seen: Option<u64>, calls: nat -> Call) returns (last: nat)
    requires forall from: nat :: !Stuck(w, st, seen, calls, from)
    ensures !Reports(w, st, seen, calls, last)
  {
    hide Reports, Stuck;
    LoopEndsExactly(w, st, seen, calls);
    last :| !Reports(w, st, seen, calls, last);
  }

  // ----- what the loop keeps -----

  lemma GateInRange(first: u64, latest: u64, s: u64)
    requires first <= MAX_HEIGHT && latest <= MAX_HEIGHT + 1 && Gate(first, latest) == Some(s) && first <= latest
    ensures s % BATCH_SIZE == 1 && s + BATCH_SIZE - 1 + MIN_BLOCKS <= latest
  {
  }

  /** Compaction stays a thousand heights below the answer, so the last block stays the last. */
  lemma CallKeepsLast(w: World, st: Store, seen: Option<u64>, c: Call)
    requires InModelRange(st) && IsLastBlock(st, seen)
    ensures InModelRange(AfterCall(w, st, seen, c).0) && IsLastBlock(AfterCall(w, st, seen, c).0, seen)
  {
    hide Gate, GetsToWrite, Gathered, HasHundred;
    CallRemoves(w, st, seen, c);
    if GetsToWrite(c) && exists s: u64 :: Ready(st, seen, s) {
      var s: u64 :| Ready(st, seen, s);
      AfterReady(w, st, seen, c, s);
      var f: u64 :| IsFirstBlock(st, Some(f)) && Gate(f, seen.value) == Some(s);
      GateInRange(f, seen.value, s);
      WritesRemove(w, st, s, Writes(c));
      assert seen.value in AfterWrites(w, st, s, Writes(c)).blocks;
    }
  }

  lemma {:induction false} RunKeepsRange(w: World, st: Store, seen: Option<u64>, calls: nat -> Call, n: nat)
    requires InModelRange(st) && IsLastBlock(st, seen)
    ensures InModelRange(StoreAfter(w, st, seen, calls, n)) && IsLastBlock(StoreAfter(w, st, seen, calls, n), seen)
  {
    hide AfterCall, InModelRange, IsLastBlock;
    if n > 0 {
      RunKeepsRange(w, st, seen, calls, n - 1);
      CallKeepsLast(w, StoreAfter(w, st, seen, calls, n - 1), seen, calls(n - 1));
    }
  }

  lemma TrueHundred(w: World, st: Store, top: int, s: u64)
    requires Sound(w, st, top) && HasHundred(st, s)
    ensures Gathered(st, s) == w.Run(s, s + BATCH_SIZE)
  {
    forall i | 0 <= i < BATCH_SIZE ensures Gathered(st, s)[i] == w.chain(s + i) {
      var n: u64 := s + i;
      assert n in st.blocks;
    }
  }

  /**
   * Whatever prefix of the writes takes effect, true data and coverage are kept, even when the height answered is one
   * too high, as that of versiondb's cache can be.
   */
  lemma CallKeepsCover(w: World, st: Store, seen: Option<u64>, c: Call, top: int)
    requires Sound(w, st, top) && Cover(st, top) && (seen.Some? ==> top <= seen.value <= top + 1)
    ensures Sound(w, AfterCall(w, st, seen, c).0, top) && Cover(AfterCall(w, st, seen, c).0, top)
  {
    hide GetsToWrite, Gate;
    if GetsToWrite(c) && exists s: u64 :: Ready(st, seen, s) {
      var s: u64 :| Ready(st, seen, s);
      AfterReady(w, st, seen, c, s);
      var f: u64 :| IsFirstBlock(st, Some(f)) && Gate(f, seen.value) == Some(s);
      WritesKeepCover(w, st, f, seen.value, top, s, Writes(c));
    }
  }

  lemma WritesKeepCover(w: World, st: Store, first: u64, latest: u64, top: int, s: u64, k: nat)
    requires Sound(w, st, top) && Cover(st, top) && HasHundred(st, s) && first in st.blocks
    requires top <= latest <= top + 1 && Gate(first, latest) == Some(s)
    ensures Sound(w, AfterWrites(w, st, s, k), top) && Cover(AfterWrites(w, st, s, k), top)
  {
    assert first <= top <= MAX_HEIGHT;
    GateInRange(first, latest, s);
    TrueHundred(w, st, top, s);
    PrefixKeepsCover(w, st, top, s, k);
  }

  lemma PrefixKeepsCover(w: World, st: Store, top: int, s: u64, k: nat)
    requires Sound(w, st, top) && Cover(st, top) && HasHundred(st, s) && Gathered(st, s) == w.Run(s, s + BATCH_SIZE)
    requires s % BATCH_SIZE == 1 && s + BATCH_SIZE - 1 + KEEP <= top
    ensures Sound(w, AfterWrites(w, st, s, k), top) && Cover(AfterWrites(w, st, s, k), top)
  {
    hide Gathered, w.BatchBytes, HasHundred, Sound, Cover;
    BytesOf(w, s);
    var one, two := AfterWrites(w, st, s, 1), AfterWrites(w, st, s, 2);
    assert HasBatch(one, s) && HasBatch(two, s);
    BatchSound(w, st, top, s);
    GrowthCovers(st, top, 1, w.BatchBytes(s), (s, BatchEnd(s)), 1);
    BatchSound(w, one, top, s);
    GrowthCovers(one, top, 1, [], (1, 1), BatchEnd(s));
    DeleteSound(w, two, top, s);
    DeleteCovers(w, two, top, s);
  }

  lemma BytesOf(w: World, s: u64)
    ensures w.BatchBytes(s) == w.encBatch(Jsonl(w.Run(s, s + BATCH_SIZE)))
  {
  }

  lemma {:induction false} RunKeepsCover(w: World, st: Store, seen: Option<u64>, calls: nat -> Call, top: int, n: nat)
    requires Sound(w, st, top) && Cover(st, top) && (seen.Some? ==> top <= seen.value <= top + 1)
    ensures Sound(w, StoreAfter(w, st, seen, calls, n), top) && Cover(StoreAfter(w, st, seen, calls, n), top)
  {
    hide AfterCall, Sound, Cover;
    if n > 0 {
      RunKeepsCover(w, st, seen, calls, top, n - 1);
      CallKeepsCover(w, StoreAfter(w, st, seen, calls, n - 1), seen, calls(n - 1), top);
    }
  }

  /** What is true if the loop ends before call n. */
  lemma KeptUntil(w: World, st: Store, seen: Option<u64>, calls: nat -> Call, n: nat)
    requires InModelRange(st) && IsLastBlock(st, seen)
    ensures forall top: int, cut: int, tiled: int :: Shape(w, st, top, cut, tiled) ==>
              Shape(w, StoreAfter(w, st, seen, calls, n), top, CutAfter(calls, top, cut, n), TiledAfter(calls, top, cut, tiled, n))
    ensures forall top: int :: Sound(w, st, top) && Cover(st, top) ==>
              Sound(w, StoreAfter(w, st, seen, calls, n), top) && Cover(StoreAfter(w, st, seen, calls, n), top)
  {
    hide Shape, Sound, Cover, StoreAfter, CutAfter, TiledAfter, InModelRange, IsLastBlock;
    forall top: int, cut: int, tiled: int | Shape(w, st, top, cut, tiled)
      ensures Shape(w, StoreAfter(w, st, seen, calls, n), top, CutAfter(calls, top, cut, n), TiledAfter(calls, top, cut, tiled, n))
    {
      ShapeLast(w, st, top, cut, tiled);
      LastOnce(st, seen, TopSeen(top));
      RunShape(w, st, calls, top, cut, tiled, n);
    }
    forall top: int | Sound(w, st, top) && Cover(st, top)
      ensures Sound(w, StoreAfter(w, st, seen, calls, n), top) && Cover(StoreAfter(w, st, seen, calls, n), top)
    {
      TopIsLast(w, st, top);
      SoundTop(w, st, top);
      LastOnce(st, seen, TopSeen(top));
      RunKeepsCover(w, st, seen, calls, top, n);
    }
  }

  lemma SoundTop(w: World, st: Store, top: int)
    requires Sound(w, st, top)
    ensures 0 <= top <= MAX_HEIGHT
  {
  }

  // ----- on a store that has its shape -----

  /** What the lookup of the latest block answers when top is the last. */
  function TopSeen(top: int): Option<u64>
    requires 0 <= top <= MAX_HEIGHT
  {
    if top == 0 then None else Some(top)
  }

  /** A batch is ready when the individual blocks begin above cut, and the call gets to its first write. */
  ghost predicate Begins(c: Call, top: int, cut: int) {
    GetsToWrite(c) && top >= cut + MIN_BLOCKS + BATCH_SIZE
  }

  /** How far deletions and batches have got after n calls, from the outcomes alone. */
  ghost function CutAfter(calls: nat -> Call, top: int, cut: int, n: nat): int {
    if n == 0 then cut
    else
      var c := CutAfter(calls, top, cut, n - 1);
      if Begins(calls(n - 1), top, c) && Writes(calls(n - 1)) == 3 then c + BATCH_SIZE else c
  }

  ghost function TiledAfter(calls: nat -> Call, top: int, cut: int, tiled: int, n: nat): int {
    if n == 0 then tiled
    else
      var c := CutAfter(calls, top, cut, n - 1);
      if Begins(calls(n - 1), top, c) && Writes(calls(n - 1)) >= 1 then c + BATCH_SIZE
      else TiledAfter(calls, top, cut, tiled, n - 1)
  }

  lemma CallShape(w: World, st: Store, c: Call, top: int, cut: int, tiled: int)
    requires Shape(w, st, top, cut, tiled) && 0 <= top <= MAX_HEIGHT
    ensures AfterCall(w, st, TopSeen(top), c).1 <==> Begins(c, top, cut) && Writes(c) >= 2
    ensures Shape(w, AfterCall(w, st, TopSeen(top), c).0, top,
                  if Begins(c, top, cut) && Writes(c) == 3 then cut + BATCH_SIZE else cut,
                  if Begins(c, top, cut) && Writes(c) >= 1 then cut + BATCH_SIZE else tiled)
  {
    hide Shape, Ready, GetsToWrite;
    ShapeFacts(w, st, top, cut, tiled);
    if Begins(c, top, cut) {
      NextIsReady(w, st, top, cut, tiled);
      AfterReady(w, st, TopSeen(top), c, cut + 1);
      WritesShape(w, st, top, cut, tiled, cut + 1, Writes(c));
    } else {
      forall s: u64 ensures Ready(st, TopSeen(top), s) ==> top >= cut + MIN_BLOCKS + BATCH_SIZE {
        ReadyExactly(w, st, top, cut, tiled, s);
      }
      NotReady(w, st, TopSeen(top), c);
    }
  }

  /** After n calls, whatever failed in them, the store has its shape. */
  lemma {:induction false} RunShape(w: World, st: Store, calls: nat -> Call, top: int, cut: int, tiled: int, n: nat)
    requires Shape(w, st, top, cut, tiled) && 0 <= top <= MAX_HEIGHT
    ensures Shape(w, StoreAfter(w, st, TopSeen(top), calls, n), top,
                  CutAfter(calls, top, cut, n), TiledAfter(calls, top, cut, tiled, n))
  {
    hide Shape, AfterCall, Begins, TopSeen;
    if n > 0 {
      RunShape(w, st, calls, top, cut, tiled, n - 1);
      CallShape(w, StoreAfter(w, st, TopSeen(top), calls, n - 1), calls(n - 1), top,
                CutAfter(calls, top, cut, n - 1), TiledAfter(calls, top, cut, tiled, n - 1));
    }
  }

  /** A call reports progress exactly when a batch is ready, it gets to write and its first two writes succeed. */
  lemma ReportsExactly(w: World, st: Store, calls: nat -> Call, top: int, cut: int, tiled: int, n: nat)
    requires Shape(w, st, top, cut, tiled) && 0 <= top <= MAX_HEIGHT
    ensures Reports(w, st, TopSeen(top), calls, n) <==>
            Begins(calls(n), top, CutAfter(calls, top, cut, n)) && calls(n).batch && calls(n).meta
  {
    hide Shape, AfterCall, Begins, TopSeen;
    RunShape(w, st, calls, top, cut, tiled, n);
    CallShape(w, StoreAfter(w, st, TopSeen(top), calls, n), calls(n), top,
              CutAfter(calls, top, cut, n), TiledAfter(calls, top, cut, tiled, n));
  }

  // ----- which batch is ready -----

  lemma FirstDecides(st: Store, first: u64, seen: Option<u64>)
    requires IsFirstBlock(st, Some(first)) && seen.Some?
    ensures forall s: u64 :: Ready(st, seen, s) <==> Gate(first, seen.value) == Some(s) && HasHundred(st, s)
  {
    hide Gate, HasHundred;
    forall s: u64 | Ready(st, seen, s) ensures Gate(first, seen.value) == Some(s) {
      var f: u64 :| IsFirstBlock(st, Some(f)) && Gate(f, seen.value) == Some(s);
      ExtremaAreUnique(st, first, f);
    }
  }

  lemma ShapeFacts(w: World, st: Store, top: int, cut: int, tiled: int)
    requires Shape(w, st, top, cut, tiled)
    ensures InModelRange(st) && 0 <= cut <= top <= MAX_HEIGHT && cut % BATCH_SIZE == 0 && (cut + 1) % BATCH_SIZE == 1
    ensures cut == top ==> top == 0
  {
  }

  lemma ShapeExtrema(w: World, st: Store, top: int, cut: int, tiled: int)
    requires Shape(w, st, top, cut, tiled) && cut < top
    ensures IsFirstBlock(st, Some(cut + 1)) && IsLastBlock(st, Some(top))
  {
    hide BatchTiling;
    var f: u64, l: u64 := cut + 1, top;
    assert f in st.blocks && l in st.blocks;
  }

  lemma ShapeLast(w: World, st: Store, top: int, cut: int, tiled: int)
    requires Shape(w, st, top, cut, tiled)
    ensures 0 <= top <= MAX_HEIGHT && IsLastBlock(st, TopSeen(top))
  {
    hide BatchTiling;
    if top > 0 {
      var l: u64 := top;
      assert l in st.blocks;
    }
  }

  lemma NoneSeen(st: Store, s: u64)
    ensures !Ready(st, None, s)
  {
  }

  lemma ShapeGate(w: World, st: Store, top: int, cut: int, tiled: int)
    requires Shape(w, st, top, cut, tiled) && 0 < top
    ensures 0 <= cut < top <= MAX_HEIGHT && IsFirstBlock(st, Some(cut + 1))
    ensures Gate(cut + 1, top) == if top >= cut + MIN_BLOCKS + BATCH_SIZE then Some(cut + 1) else None
  {
    hide Gate;
    ShapeFacts(w, st, top, cut, tiled);
    hide Shape;
    ShapeExtrema(w, st, top, cut, tiled);
    GatesAgree(cut + 1, top);
  }

  /** In a well-shaped store there is work exactly while 1100 individual blocks remain. */
  lemma ReadyExactly(w: World, st: Store, top: int, cut: int, tiled: int, s: u64)
    requires Shape(w, st, top, cut, tiled) && 0 <= top <= MAX_HEIGHT
    ensures Ready(st, TopSeen(top), s) <==> s == cut + 1 && top >= cut + MIN_BLOCKS + BATCH_SIZE
  {
    ShapeFacts(w, st, top, cut, tiled);
    hide Shape, Gate, HasHundred, Ready;
    if top == 0 {
      NoneSeen(st, s);
    } else {
      ShapeGate(w, st, top, cut, tiled);
      FirstDecides(st, cut + 1, TopSeen(top));
      if top >= cut + MIN_BLOCKS + BATCH_SIZE { ShapeHasHundred(w, st, top, cut, tiled); }
    }
  }

  lemma ShapeHasHundred(w: World, st: Store, top: int, cut: int, tiled: int)
    requires Shape(w, st, top, cut, tiled) && top >= cut + MIN_BLOCKS + BATCH_SIZE
    ensures HasHundred(st, cut + 1)
  {
    hide BatchTiling;
  }

  lemma NextIsReady(w: World, st: Store, top: int, cut: int, tiled: int)
    requires Shape(w, st, top, cut, tiled) && 0 <= top <= MAX_HEIGHT && top >= cut + MIN_BLOCKS + BATCH_SIZE && 0 <= cut
    ensures Ready(st, TopSeen(top), cut + 1)
  {
    hide Ready, Shape;
    ReadyExactly(w, st, top, cut, tiled, cut + 1);
  }

  lemma GatheredIsTrue(w: World, st: Store, top: int, cut: int, tiled: int, s: u64)
    requires Shape(w, st, top, cut, tiled) && HasHundred(st, s)
    ensures Gathered(st, s) == w.Run(s, s + BATCH_SIZE)
  {
    hide BatchTiling;
    forall i | 0 <= i < BATCH_SIZE ensures Gathered(st, s)[i] == w.chain(s + i) {
      var n: u64 := s + i;
      assert n in st.blocks;
    }
  }

  /** A prefix of the three writes advances the tiling with the first of them and the deletion with the last. */
  lemma WritesShape(w: World, st: Store, top: int, cut: int, tiled: int, s: u64, k: nat)
    requires Shape(w, st, top, cut, tiled) && 0 <= top <= MAX_HEIGHT && Ready(st, TopSeen(top), s) && k <= 3
    ensures s == cut + 1
    ensures Shape(w, AfterWrites(w, st, s, k), top, if k == 3 then cut + BATCH_SIZE else cut,
                  if k >= 1 then cut + BATCH_SIZE else tiled)
  {
    hide BlockInterval, BatchTiling, Gate, Ready, HasHundred;
    assert HasHundred(st, s) by { ReadyHasHundred(st, TopSeen(top), s); }
    ReadyExactly(w, st, top, cut, tiled, s);
    GatheredIsTrue(w, st, top, cut, tiled, s);
    SaveBatchShape(w, st, top, cut, tiled, s);
    SaveMetaShape(w, AfterWrites(w, st, s, 1), top, cut, cut + BATCH_SIZE);
    DeleteShape(w, AfterWrites(w, st, s, 2), top, cut, s);
  }

  // ----- the call and the single steps agree -----

  ghost function CompactorExec(w: World, st: Store, pc: Pc, ls: seq<CompactorLabel>): (Store, Pc)
    decreases ls
  {
    if ls == [] then (st, pc)
    else
      var (st', pc') := CompactorStep(w, st, pc, ls[0]);
      CompactorExec(w, st', pc', ls[1..])
  }

  function Reads(k: nat): seq<CompactorLabel> {
    if k == 0 then [] else [ReadBlock(true)] + Reads(k - 1)
  }

  lemma {:induction false} ReadsGather(w: World, st: Store, s: u64, k: nat)
    requires HasHundred(st, s) && k <= BATCH_SIZE
    ensures CompactorExec(w, st, Reading(s, Gathered(st, s)[..BATCH_SIZE - k]), Reads(k)) ==
            (st, Reading(s, Gathered(st, s)))
    decreases k
  {
    var all := Gathered(st, s);
    if k == 0 {
      assert all[..BATCH_SIZE] == all;
    } else {
      var got := all[..BATCH_SIZE - k];
      assert NextRead(s, got) == s + |got|;
      assert got + [all[|got|]] == all[..BATCH_SIZE - (k - 1)];
      ReadsGather(w, st, s, k - 1);
      assert Reads(k)[1..] == Reads(k - 1);
    }
  }

  /** The step that comes next in a call. */
  predicate ComesNext(pc: Pc, l: CompactorLabel) {
    match pc
    case Idle => l.ReadFirst?
    case GotFirst(_) => l.ReadLatest?
    case Reading(_, got) => if |got| == BATCH_SIZE then l.Compress? else l.ReadBlock?
    case Packed(_, _) => l.WriteBatch?
    case BatchSaved(_) => l.WriteMeta?
    case MetaSaved(_) => l.WriteDelete?
  }

  /** The steps of a call come in order: one out of its turn changes nothing. */
  lemma StepsInOrder(w: World, st: Store, pc: Pc, l: CompactorLabel)
    requires !ComesNext(pc, l)
    ensures CompactorStep(w, st, pc, l) == (st, pc)
  {
  }

  /** The step that the compactor takes next, and the outcome that ends the call there. */
  ghost predicate FailsAt(st: Store, pc: Pc, l: CompactorLabel) {
    match pc
    case Idle => l == ReadFirst(None)
    case GotFirst(first) => l.ReadLatest? && (l.latest.None? || Gate(first, l.latest.value).None?)
    case Reading(start, got) =>
      if |got| == BATCH_SIZE then l == Compress(false)
      else l.ReadBlock? && (!l.ok || st.GetBlock(NextRead(start, got)).None?)
    case Packed(_, _) => l == WriteBatch(false)
    case BatchSaved(_) => l == WriteMeta(false)
    case MetaSaved(_) => l == WriteDelete(false)
  }

  /** Every failure ends the call where it is and leaves the store as it is; a failed deletion is not tried again. */
  lemma StepsFail(w: World, st: Store, pc: Pc, l: CompactorLabel)
    requires FailsAt(st, pc, l)
    ensures CompactorStep(w, st, pc, l) == (st, Idle)
  {
  }

  /** Taken without interruption, the labelled steps read what one call reads and write what it writes. */
  lemma StepsRead(w: World, st: Store, first: u64, latest: u64, s: u64)
    requires IsFirstBlock(st, Some(first)) && IsLastBlock(st, Some(latest)) && Gate(first, latest) == Some(s)
    requires HasHundred(st, s)
    ensures CompactorStep(w, st, Idle, ReadFirst(Some(first))) == (st, GotFirst(first))
    ensures CompactorStep(w, st, GotFirst(first), ReadLatest(Some(latest))) == (st, Reading(s, []))
    ensures CompactorExec(w, st, Reading(s, []), Reads(100)) == (st, Reading(s, Gathered(st, s)))
  {
    ReadsGather(w, st, s, 100);
    assert Gathered(st, s)[..0] == [];
  }

  lemma StepsWrite(w: World, st: Store, s: u64)
    requires HasHundred(st, s)
    ensures CompactorStep(w, st, Reading(s, Gathered(st, s)), Compress(true)) ==
            (st, Packed(s, w.encBatch(Jsonl(Gathered(st, s)))))
    ensures CompactorStep(w, st, Packed(s, w.encBatch(Jsonl(Gathered(st, s)))), WriteBatch(true)) ==
            (AfterWrites(w, st, s, 1), BatchSaved(s))
    ensures CompactorStep(w, AfterWrites(w, st, s, 1), BatchSaved(s), WriteMeta(true)) ==
            (AfterWrites(w, st, s, 2), MetaSaved(s))
    ensures CompactorStep(w, AfterWrites(w, st, s, 2), MetaSaved(s), WriteDelete(true)) ==
            (AfterWrites(w, st, s, 3), Idle)
  {
  }
}
