/**
 * What every store of the two settings keeps on every run, however lookups fail: the chain's own data, the newest
 * heights under their own keys, and for every height its block or its batch.
 */
module Soundness {
  import opened Prelude
  import opened Framing
  import opened StoreModel
  import opened Compaction

  // The cached tip may be one too high, so one block fewer than the compactor's minimum stays behind.
  const KEEP: int := MIN_BLOCKS - 1

  /** True data only, and the newest KEEP heights up to top under their own keys. */
  ghost predicate Sound(w: World, st: Store, top: int) {
    && 0 <= top <= MAX_HEIGHT
    && (forall n: u64 :: n in st.blocks ==> 1 <= n <= top && st.blocks[n] == w.chain(n))
    && (forall n: u64 :: 1 <= n <= top && top - KEEP < n ==> n in st.blocks)
    && (forall p: (u64, u64) :: p in st.batches ==> TrueBatch(w, p, st.batches[p]) && p.1 + KEEP <= top)
    && (st.meta == 0 || st.meta + KEEP <= top)
  }

  ghost predicate HasBatch(st: Store, s: u64) {
    (s, BatchEnd(s)) in st.batches
  }

  lemma SaveSound(w: World, st: Store, top: int)
    requires Sound(w, st, top) && top < MAX_HEIGHT
    ensures Sound(w, st.SaveBlock(top + 1, w.chain(top + 1)), top + 1)
  {
  }

  lemma DeleteSound(w: World, st: Store, top: int, s: u64)
    requires Sound(w, st, top) && s + BATCH_SIZE - 1 + KEEP <= top
    ensures Sound(w, st.DeleteBlocks(s, BatchEnd(s)), top)
  {
  }

  lemma BatchSound(w: World, st: Store, top: int, s: u64)
    requires Sound(w, st, top) && s % BATCH_SIZE == 1 && s + BATCH_SIZE - 1 + KEEP <= top
    ensures Sound(w, st.SaveBatch(s, BatchEnd(s), w.BatchBytes(s)), top)
    ensures Sound(w, st.SaveMeta(BatchEnd(s)), top)
  {
  }

  lemma ResaveSound(w: World, st: Store, top: int, n: u64)
    requires Sound(w, st, top) && 1 <= n <= top
    ensures Sound(w, st.SaveBlock(n, w.chain(n)), top)
  {
  }

  lemma MetaBelow(w: World, st: Store, top: int)
    requires Sound(w, st, top)
    ensures 0 <= st.meta <= top <= MAX_HEIGHT
  {
  }

  lemma GatePicks(first: u64, latest: u64, s: u64)
    requires 1 <= first <= latest <= MAX_HEIGHT && Gate(first, latest) == Some(s)
    ensures s % BATCH_SIZE == 1 && s + BATCH_SIZE - 1 + MIN_BLOCKS <= latest
  {
  }

  lemma ReadsTrue(w: World, st: Store, top: int, n: u64)
    requires Sound(w, st, top)
    ensures st.GetBlock(n).Some? ==> st.GetBlock(n).value == w.chain(n)
  {
  }

  lemma TopIsLast(w: World, st: Store, top: int)
    requires Sound(w, st, top)
    ensures IsLastBlock(st, if top == 0 then None else Some(top))
  {
    if top > 0 {
      var n: u64 := top;
      assert n in st.blocks;
    }
  }

  // ----- coverage -----

  ghost predicate Cover(st: Store, top: int) {
    forall n: u64 :: 1 <= n <= top ==> n in st.blocks || HasBatch(st, BatchStart(n))
  }

  lemma CoverIsReadable(w: World, st: Store, top: int)
    requires w.Faithful() && Sound(w, st, top)
    ensures Cover(st, top) <==> Covered(w, st, top)
  {
    hide w.BatchBytes, InBatch;
    if Cover(st, top) {
      forall n: u64 | 1 <= n <= top ensures Readable(w, st, n, w.chain(n)) {
        if n !in st.blocks { TrueBatchIsReadable(w, st, n); }
      }
    }
    if Covered(w, st, top) {
      forall n: u64 | 1 <= n <= top ensures n in st.blocks || HasBatch(st, BatchStart(n)) {
        if !InBlocks(st, n, w.chain(n)) { BatchIsThere(w, st, n); }
      }
    }
  }

  lemma BatchIsThere(w: World, st: Store, n: u64)
    requires InBatch(w, st, n, w.chain(n))
    ensures HasBatch(st, BatchStart(n))
  {
  }

  lemma DeleteCovers(w: World, st: Store, top: int, s: u64)
    requires Sound(w, st, top) && Cover(st, top) && s % BATCH_SIZE == 1 && s + BATCH_SIZE - 1 <= top
    ensures Cover(st.DeleteBlocks(s, BatchEnd(s)), top) <==> HasBatch(st, s)
  {
    hide w.BatchBytes;
    var st' := st.DeleteBlocks(s, BatchEnd(s));
    BatchesPartition(s, s);
    if HasBatch(st, s) {
      forall n: u64 | 1 <= n <= top ensures n in st'.blocks || HasBatch(st', BatchStart(n)) {
        BatchesPartition(n, s);
      }
    } else {
      assert s !in st'.blocks && !HasBatch(st', BatchStart(s));
    }
  }

  lemma GrowthCovers(st: Store, top: int, n: u64, data: Bytes, p: (u64, u64), m: u64)
    requires Cover(st, top)
    ensures Cover(st.SaveBatch(p.0, p.1, data), top) && Cover(st.SaveMeta(m), top) && Cover(st.SaveBlock(n, data), top)
    ensures n == top + 1 ==> Cover(st.SaveBlock(n, data), top + 1)
  {
  }
}
