/**
 * evm-ingestion/storage/pebble.go over an ordered byte map. io says whether the database does what a call asks of
 * it; an iterator that cannot be opened reads as "nothing there".
 */
module Pebble {
  import opened Prelude
  import opened Keys
  import opened Framing
  import opened StoreModel
  import opened Iteration

  class PebbleStorage {
    var db: Db

    ghost predicate Valid()
      reads this
    {
      WellKeyed(db.Keys)
    }

    ghost function Contents(): Store
      reads this
    {
      Abs(db)
    }

    constructor ()
      ensures Valid() && Contents() == EMPTY_STORE
    {
      db := map[];
    }

    method SaveBlock(n: u64, data: Bytes, io: bool) returns (ok: bool)
      requires Valid()
      modifies this
      ensures Valid() && ok == io
      ensures Contents() == if ok then old(Contents()).SaveBlock(n, data) else old(Contents())
    {
      ok := io;
      if ok {
        PutBlockAbs(db, n, data);
        db := db[BlockKey(n) := data];
      }
    }

    method GetBlock(n: u64, io: bool) returns (data: Option<Bytes>)
      ensures data == if io then Contents().GetBlock(n) else None
    {
      data := if io && BlockKey(n) in db then Some(db[BlockKey(n)]) else None;
    }

    /** A range iterator's First. */
    method SeekFirst(lo: string, hi: string) returns (k: Option<string>)
      ensures k.None? ==> forall j :: j in db ==> !InRange(j, lo, hi)
      ensures k.Some? ==> k.value in db && InRange(k.value, lo, hi)
      ensures k.Some? ==> forall j :: j in db && InRange(j, lo, hi) ==> !LexLess(j, k.value)
    {
      var ks := set j | j in db && InRange(j, lo, hi);
      if ks == {} {
        assert forall j :: j in db && InRange(j, lo, hi) ==> j in ks;
        return None;
      }
      ghost var least := LeastKeyExists(ks);
      var first :| first in ks && forall j :: j in ks ==> !LexLess(j, first);
      return Some(first);
    }

    /** A range iterator's Last. */
    method SeekLast(lo: string, hi: string) returns (k: Option<string>)
      ensures k.None? ==> forall j :: j in db ==> !InRange(j, lo, hi)
      ensures k.Some? ==> k.value in db && InRange(k.value, lo, hi)
      ensures k.Some? ==> forall j :: j in db && InRange(j, lo, hi) ==> !LexLess(k.value, j)
    {
      var ks := set j | j in db && InRange(j, lo, hi);
      if ks == {} {
        assert forall j :: j in db && InRange(j, lo, hi) ==> j in ks;
        return None;
      }
      ghost var greatest := GreatestKeyExists(ks);
      var last :| last in ks && forall j :: j in ks ==> !LexLess(last, j);
      return Some(last);
    }

    method FirstBlock(io: bool) returns (n: Option<u64>)
      requires Valid()
      ensures if io then IsFirstBlock(Contents(), n) else n.None?
    {
      if !io {
        return None;
      }
      var k := SeekFirst("block:", "block;");
      BlockRange(db);
      if k.None? {
        return None;
      }
      n := ParseBlockKey(k.value);
      BlockRangeOrder(db, k.value);
    }

    method LatestBlock(io: bool) returns (n: Option<u64>)
      requires Valid()
      ensures if io then IsLastBlock(Contents(), n) else n.None?
    {
      if !io {
        return None;
      }
      var k := SeekLast("block:", "block;");
      BlockRange(db);
      if k.None? {
        return None;
      }
      n := ParseBlockKey(k.value);
      BlockRangeOrder(db, k.value);
    }

    method DeleteBlockRange(start: u64, end: u64, io: bool) returns (ok: bool)
      requires Valid()
      modifies this
      ensures Valid() && ok == io
      ensures Contents() == if ok && end < TWO64 - 1 then old(Contents()).DeleteBlocks(start, end) else old(Contents())
    {
      ok := io;
      if ok {
        DeleteRangeAbs(db, start, end);
        db := DeleteRange(db, BlockKey(start), BlockKey(Wrap(end + 1)));
      }
    }

    method SaveBatch(start: u64, end: u64, data: Bytes, io: bool) returns (ok: bool)
      requires Valid()
      modifies this
      ensures Valid() && ok == io
      ensures Contents() == if ok then old(Contents()).SaveBatch(start, end, data) else old(Contents())
    {
      ok := io;
      if ok {
        PutBatchAbs(db, start, end, data);
        db := db[BatchKey(start, end) := data];
      }
    }

    method GetBatchCompressed(start: u64, io: bool) returns (data: Option<Bytes>)
      ensures data == if io then Contents().GetBatch(start) else None
    {
      var end: u64 := Wrap(start + BATCH_SIZE - 1);
      data := if io && BatchKey(start, end) in db then Some(db[BatchKey(start, end)]) else None;
    }

    method FirstBatch(io: bool) returns (start: Option<u64>)
      requires Valid()
      ensures if io then IsFirstBatch(Contents(), start) else start.None?
    {
      if !io {
        return None;
      }
      var k := SeekFirst("batch:", "batch;");
      BatchRange(db);
      if k.None? {
        return None;
      }
      var bounds := ParseBatchKey(k.value);
      BatchRangeOrder(db, k.value);
      start := Some(bounds.value.0);
    }

    method LatestBatch(io: bool) returns (end: Option<u64>)
      requires Valid()
      ensures if io then IsLastBatch(Contents(), end) else end.None?
    {
      if !io {
        return None;
      }
      var k := SeekLast("batch:", "batch;");
      BatchRange(db);
      if k.None? {
        return None;
      }
      var bounds := ParseBatchKey(k.value);
      BatchRangeOrder(db, k.value);
      end := Some(bounds.value.1);
    }

    method GetMeta(io: bool) returns (m: u64)
      ensures m == if io then Contents().meta else 0
    {
      m := if io then ReadMeta(db) else 0;
    }

    method SaveMeta(m: u64, io: bool) returns (ok: bool)
      requires Valid()
      modifies this
      ensures Valid() && ok == io
      ensures Contents() == if ok then old(Contents()).SaveMeta(m) else old(Contents())
    {
      ok := io;
      if ok {
        PutMetaAbs(db, m);
        db := db[META_KEY := BigEndian(m)];
      }
    }
  }

  lemma DeleteRangeAbs(db: Db, start: u64, end: u64)
    requires WellKeyed(db.Keys)
    ensures WellKeyed(DeleteRange(db, BlockKey(start), BlockKey(Wrap(end + 1))).Keys)
    ensures Abs(DeleteRange(db, BlockKey(start), BlockKey(Wrap(end + 1)))) ==
            if end < TWO64 - 1 then Abs(db).DeleteBlocks(start, end) else Abs(db)
  {
    var db' := DeleteRange(db, BlockKey(start), BlockKey(Wrap(end + 1)));
    if end < TWO64 - 1 {
      RangeDeleteIsLoop(db, start, end);
      assert db' == db - BlockKeysFrom(start, end);
      DeleteKeysAbs(db, start, end);
    } else {
      WrappedRangeDeletesNothing(db, start);
      assert db' == db;
    }
  }

  /** The iterator bounds "block:" and "block;" enclose the block keys and nothing else. */
  lemma BlockRange(db: Db)
    requires WellKeyed(db.Keys)
    ensures forall k :: k in db ==> (InRange(k, "block:", "block;") <==> IsBlockKey(k))
  {
    forall k | k in db ensures InRange(k, "block:", "block;") <==> IsBlockKey(k) {
      assert "block" + ":" == "block:" && "block" + ";" == "block;";
      RangeIsPrefix("block", k);
      assert WellKeyed({k});
      PrefixTellsFamily(k);
    }
  }

  lemma BatchRange(db: Db)
    requires WellKeyed(db.Keys)
    ensures forall k :: k in db ==> (InRange(k, "batch:", "batch;") <==> IsBatchKey(k))
  {
    forall k | k in db ensures InRange(k, "batch:", "batch;") <==> IsBatchKey(k) {
      assert "batch" + ":" == "batch:" && "batch" + ";" == "batch;";
      RangeIsPrefix("batch", k);
      assert WellKeyed({k});
      PrefixTellsFamily(k);
    }
  }

  /** A block key of db parses to a stored height, and key order against it is height order. */
  lemma BlockRangeOrder(db: Db, k: string)
    requires k in db && IsBlockKey(k)
    ensures ParseBlockKey(k).Some? && ParseBlockKey(k).value in Abs(db).blocks
    ensures forall m :: m in Abs(db).blocks ==> BlockKey(m) in db && IsBlockKey(BlockKey(m))
    ensures forall m :: m in Abs(db).blocks ==>
              (LexLess(BlockKey(m), k) <==> m < ParseBlockKey(k).value) &&
              (LexLess(k, BlockKey(m)) <==> ParseBlockKey(k).value < m)
  {
    var n: u64 :| k == BlockKey(n);
    BlockKeyRoundTrip(n);
    forall m: u64
      ensures (LexLess(BlockKey(m), k) <==> m < n) && (LexLess(k, BlockKey(m)) <==> n < m)
    {
      BlockKeyOrder(m, n);
      BlockKeyOrder(n, m);
    }
  }

  lemma BatchRangeOrder(db: Db, k: string)
    requires k in db && IsBatchKey(k)
    ensures ParseBatchKey(k).Some? && ParseBatchKey(k).value in Abs(db).batches
    ensures forall p :: p in Abs(db).batches ==> BatchKey(p.0, p.1) in db && IsBatchKey(BatchKey(p.0, p.1))
    ensures forall p :: p in Abs(db).batches ==>
              (p.0 < ParseBatchKey(k).value.0 ==> LexLess(BatchKey(p.0, p.1), k)) &&
              (ParseBatchKey(k).value.0 < p.0 ==> LexLess(k, BatchKey(p.0, p.1)))
  {
    var s: u64, e: u64 :| k == BatchKey(s, e);
    BatchKeyRoundTrip(s, e);
    assert BatchKey((s, e).0, (s, e).1) in db;
    forall p: (u64, u64)
      ensures p.0 < s ==> LexLess(BatchKey(p.0, p.1), k)
      ensures s < p.0 ==> LexLess(k, BatchKey(p.0, p.1))
    {
      BatchKeyOrder(p.0, p.1, s, e);
      BatchKeyOrder(s, e, p.0, p.1);
    }
  }
}
