/** The storage contract of evm-ingestion/storage/interface.go, and the byte maps that implement it. */
module StoreModel {
  import opened Prelude
  import opened Keys
  import opened Framing

  /** What a Storage holds: individual blocks, batches by their two bounds, the last compacted height. */
  datatype Store = Store(blocks: imap<u64, Bytes>, batches: imap<(u64, u64), Bytes>, meta: u64)
  {
    ghost function SaveBlock(n: u64, data: Bytes): Store {
      this.(blocks := blocks[n := data])
    }

    ghost function DeleteBlocks(start: u64, end: u64): Store {
      this.(blocks := imap n | n in blocks && !(start <= n <= end) :: blocks[n])
    }

    ghost function SaveBatch(start: u64, end: u64, data: Bytes): Store {
      this.(batches := batches[(start, end) := data])
    }

    ghost function SaveMeta(m: u64): Store {
      this.(meta := m)
    }

    ghost function GetBlock(n: u64): Option<Bytes> {
      if n in blocks then Some(blocks[n]) else None
    }

    ghost function GetBatch(start: u64): Option<Bytes> {
      if (start, BatchEnd(start)) in batches then Some(batches[(start, BatchEnd(start))]) else None
    }
  }

  ghost const EMPTY_STORE: Store := Store(imap[], imap[], 0)

  // ----- extrema, which every iterator-based lookup must agree with -----

  ghost predicate IsFirstBlock(st: Store, r: Option<u64>) {
    match r
    case None => forall m :: m !in st.blocks
    case Some(n) => n in st.blocks && forall m :: m in st.blocks ==> n <= m
  }

  ghost predicate IsLastBlock(st: Store, r: Option<u64>) {
    match r
    case None => forall m :: m !in st.blocks
    case Some(n) => n in st.blocks && forall m :: m in st.blocks ==> m <= n
  }

  /** The least batch start. */
  ghost predicate IsFirstBatch(st: Store, r: Option<u64>) {
    match r
    case None => forall p :: p !in st.batches
    case Some(s) => (exists e :: (s, e) in st.batches) && forall p :: p in st.batches ==> s <= p.0
  }

  /** The end of a batch whose start is greatest. */
  ghost predicate IsLastBatch(st: Store, r: Option<u64>) {
    match r
    case None => forall p :: p !in st.batches
    case Some(e) => exists s :: (s, e) in st.batches && forall p :: p in st.batches ==> p.0 <= s
  }

  // ----- the byte map below it -----

  type Db = map<string, Bytes>

  ghost predicate IsBlockKey(k: string) {
    exists n: u64 :: k == BlockKey(n)
  }

  ghost predicate IsBatchKey(k: string) {
    exists s: u64, e: u64 :: k == BatchKey(s, e)
  }

  /** Every key belongs to one of the three families. */
  ghost predicate WellKeyed(keys: set<string>) {
    forall k :: k in keys ==> IsBlockKey(k) || IsBatchKey(k) || k == META_KEY
  }

  function ReadMeta(db: Db): u64 {
    if META_KEY !in db || |db[META_KEY]| < 8 then 0 else ReadBigEndian(db[META_KEY])
  }

  ghost function Abs(db: Db): Store {
    Store(
      imap n: u64 | BlockKey(n) in db :: db[BlockKey(n)],
      imap p: (u64, u64) | BatchKey(p.0, p.1) in db :: db[BatchKey(p.0, p.1)],
      ReadMeta(db))
  }

  lemma BlockKeyApart(n: u64)
    ensures forall i: u64 :: BlockKey(i) == BlockKey(n) <==> i == n
    ensures forall p: (u64, u64) :: BatchKey(p.0, p.1) != BlockKey(n)
    ensures BlockKey(n) != META_KEY
  {
    forall i: u64 ensures BlockKey(i) == BlockKey(n) <==> i == n { BlockKeyOrder(i, n); }
    forall p: (u64, u64) ensures BatchKey(p.0, p.1) != BlockKey(n) { FamiliesApart(n, p.0, p.1); }
    FamiliesApart(n, 0, 0);
  }

  lemma BatchKeyApart(s: u64, e: u64)
    ensures forall p: (u64, u64) :: BatchKey(p.0, p.1) == BatchKey(s, e) <==> p == (s, e)
    ensures forall i: u64 :: BlockKey(i) != BatchKey(s, e)
    ensures BatchKey(s, e) != META_KEY
  {
    forall p: (u64, u64) ensures BatchKey(p.0, p.1) == BatchKey(s, e) <==> p == (s, e) {
      BatchKeyOrder(p.0, p.1, s, e);
    }
    forall i: u64 ensures BlockKey(i) != BatchKey(s, e) { FamiliesApart(i, s, e); }
    FamiliesApart(0, s, e);
  }

  lemma PutBlockBlocks(db: Db, n: u64, data: Bytes)
    ensures Abs(db[BlockKey(n) := data]).blocks == Abs(db).blocks[n := data]
  {
    forall i: u64 ensures BlockKey(i) == BlockKey(n) <==> i == n { BlockKeyOrder(i, n); }
  }

  lemma PutBlockAbs(db: Db, n: u64, data: Bytes)
    ensures Abs(db[BlockKey(n) := data]) == Abs(db).SaveBlock(n, data)
    ensures WellKeyed(db.Keys) ==> WellKeyed(db[BlockKey(n) := data].Keys)
  {
    PutBlockBlocks(db, n, data);
    BlockKeyApart(n);
    assert Abs(db[BlockKey(n) := data]).batches == Abs(db).batches;
  }

  lemma PutBatchBatches(db: Db, start: u64, end: u64, data: Bytes)
    ensures Abs(db[BatchKey(start, end) := data]).batches == Abs(db).batches[(start, end) := data]
  {
    hide BatchKey, BlockKey, ReadMeta;
    BatchKeyApart(start, end);
    var db', k := db[BatchKey(start, end) := data], BatchKey(start, end);
    forall p: (u64, u64)
      ensures p in Abs(db').batches <==> p in Abs(db).batches || p == (start, end)
      ensures p in Abs(db').batches ==> Abs(db').batches[p] == if p == (start, end) then data else Abs(db).batches[p]
    {
      assert BatchKey(p.0, p.1) == k <==> p == (start, end);
    }
  }

  lemma PutBatchOthers(db: Db, start: u64, end: u64, data: Bytes)
    ensures Abs(db[BatchKey(start, end) := data]).blocks == Abs(db).blocks
    ensures Abs(db[BatchKey(start, end) := data]).meta == Abs(db).meta
  {
    hide BatchKey, BlockKey;
    BatchKeyApart(start, end);
  }

  lemma PutBatchAbs(db: Db, start: u64, end: u64, data: Bytes)
    ensures Abs(db[BatchKey(start, end) := data]) == Abs(db).SaveBatch(start, end, data)
    ensures WellKeyed(db.Keys) ==> WellKeyed(db[BatchKey(start, end) := data].Keys)
  {
    hide Abs, BatchKey;
    PutBatchBatches(db, start, end, data);
    PutBatchOthers(db, start, end, data);
  }

  lemma PutMetaAbs(db: Db, m: u64)
    ensures Abs(db[META_KEY := BigEndian(m)]) == Abs(db).SaveMeta(m)
    ensures WellKeyed(db.Keys) ==> WellKeyed(db[META_KEY := BigEndian(m)].Keys)
  {
    BigEndianRoundTrip(m);
    forall i: u64 ensures BlockKey(i) != META_KEY { BlockKeyApart(i); }
    forall p: (u64, u64) ensures BatchKey(p.0, p.1) != META_KEY { BatchKeyApart(p.0, p.1); }
  }

  // ----- deletion -----

  predicate InRange(k: string, lo: string, hi: string) {
    !LexLess(k, lo) && LexLess(k, hi)
  }

  /** pebble's DeleteRange: every key in [lo, hi). */
  function DeleteRange(db: Db, lo: string, hi: string): Db {
    map k | k in db && !InRange(k, lo, hi) :: db[k]
  }

  /** The keys a loop of single deletes over start..end visits. */
  function BlockKeysFrom(start: u64, end: u64): (ks: set<string>)
    ensures forall n: u64 :: BlockKey(n) in ks <==> start <= n <= end
    ensures forall k :: k in ks ==> IsBlockKey(k)
  {
    var ks := set n: u64 | start <= n <= end :: BlockKey(n);
    assert forall n: u64 :: BlockKey(n) in ks <==> start <= n <= end by {
      forall i: u64, n: u64 ensures BlockKey(i) == BlockKey(n) <==> i == n { BlockKeyOrder(i, n); }
    }
    ks
  }

  lemma DeleteKeysAbs(db: Db, start: u64, end: u64)
    ensures Abs(db - BlockKeysFrom(start, end)) == Abs(db).DeleteBlocks(start, end)
    ensures WellKeyed(db.Keys) ==> WellKeyed((db - BlockKeysFrom(start, end)).Keys)
  {
    var ks := BlockKeysFrom(start, end);
    forall p: (u64, u64) ensures BatchKey(p.0, p.1) !in ks {
      forall n: u64 ensures BatchKey(p.0, p.1) != BlockKey(n) { BlockKeyApart(n); }
    }
    forall n: u64 ensures META_KEY != BlockKey(n) { BlockKeyApart(n); }
  }

  lemma BlockKeyInRange(start: u64, end: u64, k: string)
    requires end < TWO64 - 1 && WellKeyed({k})
    ensures InRange(k, BlockKey(start), BlockKey(end + 1)) <==> k in BlockKeysFrom(start, end)
  {
    var lo, hi := BlockKey(start), BlockKey(end + 1);
    assert k in {k};
    if IsBlockKey(k) {
      var n: u64 :| k == BlockKey(n);
      BlockKeyOrder(n, start);
      BlockKeyOrder(n, end + 1);
    } else if IsBatchKey(k) {
      var s: u64, e: u64 :| k == BatchKey(s, e);
      FamiliesApart(start, s, e);
    } else {
      FamiliesApart(end + 1, 0, 0);
      LexTotal(k, hi);
    }
  }

  /** On a well-keyed database one range delete does what the per-key loop does. */
  lemma RangeDeleteIsLoop(db: Db, start: u64, end: u64)
    requires WellKeyed(db.Keys) && end < TWO64 - 1
    ensures DeleteRange(db, BlockKey(start), BlockKey(end + 1)) == db - BlockKeysFrom(start, end)
  {
    forall k | k in db
      ensures InRange(k, BlockKey(start), BlockKey(end + 1)) <==> k in BlockKeysFrom(start, end)
    {
      BlockKeyInRange(start, end, k);
    }
  }

  /** At end = 2^64 - 1 the bound end + 1 wraps to 0 and the range is empty. */
  lemma WrappedRangeDeletesNothing(db: Db, start: u64)
    ensures DeleteRange(db, BlockKey(start), BlockKey(0)) == db
  {
    forall k | k in db ensures !InRange(k, BlockKey(start), BlockKey(0)) {
      if LexLess(k, BlockKey(0)) && start > 0 {
        BlockKeyOrder(0, start);
        LexTransitive(k, BlockKey(0), BlockKey(start));
      }
    }
  }

  // ----- an overlay of uncommitted writes: None is a delete -----

  type Overlay = map<string, Option<Bytes>>

  function View(disk: Db, mem: Overlay): Db {
    map k | k in disk.Keys + mem.Keys && (k in mem ==> mem[k].Some?) :: if k in mem then mem[k].value else disk[k]
  }

  function Deletes(ks: set<string>): Overlay {
    map k | k in ks :: None
  }

  lemma ViewPut(disk: Db, mem: Overlay, k: string, v: Bytes)
    ensures View(disk, mem[k := Some(v)]) == View(disk, mem)[k := v]
  {
  }

  lemma ViewDelete(disk: Db, mem: Overlay, ks: set<string>)
    ensures View(disk, mem + Deletes(ks)) == View(disk, mem) - ks
  {
  }

  lemma ViewNothing(disk: Db)
    ensures View(disk, map[]) == disk
  {
  }
}
