/**
 * evm-ingestion/storage/versiondb.go over avalanchego's versiondb: committed bytes under an overlay. io says whether
 * the database does what a call asks of it; a scan with an error ends after the keys it has seen.
 */
module VersionDB {
  import opened Prelude
  import opened Keys
  import opened Framing
  import opened StoreModel
  import opened Iteration

  class Database {
    var disk: Db
    var mem: Overlay

    ghost predicate Valid()
      reads this
    {
      WellKeyed(disk.Keys) && WellKeyed(View(disk, mem).Keys)
    }

    constructor (disk: Db)
      requires WellKeyed(disk.Keys)
      ensures Valid() && this.disk == disk && mem == map[]
    {
      this.disk := disk;
      mem := map[];
      new;
      ViewNothing(disk);
    }

    method Put(k: string, v: Bytes)
      modifies this
      ensures disk == old(disk) && View(disk, mem) == View(old(disk), old(mem))[k := v]
    {
      ViewPut(disk, mem, k, v);
      mem := mem[k := Some(v)];
    }

    method Get(k: string) returns (v: Option<Bytes>)
      ensures v == if k in View(disk, mem) then Some(View(disk, mem)[k]) else None
    {
      if k in mem {
        v := mem[k];
      } else {
        v := if k in disk then Some(disk[k]) else None;
      }
    }

    /** Batch.Write for a batch of deletes: all of them or, on error, none. */
    method WriteDeletes(ks: set<string>)
      modifies this
      ensures disk == old(disk) && View(disk, mem) == View(old(disk), old(mem)) - ks
    {
      ViewDelete(disk, mem, ks);
      mem := mem + Deletes(ks);
    }

    /** One atomic write of the whole overlay, which is then empty. */
    method Commit()
      requires Valid()
      modifies this
      ensures Valid() && disk == View(old(disk), old(mem)) && View(disk, mem) == View(old(disk), old(mem))
    {
      disk := View(disk, mem);
      mem := map[];
      ViewNothing(disk);
    }

    method Abort()
      requires Valid()
      modifies this
      ensures Valid() && disk == old(disk) && View(disk, mem) == disk
    {
      mem := map[];
      ViewNothing(disk);
    }
  }

  class VersionDBStorage {
    const db: Database
    var latestBlock: u64

    ghost predicate Valid()
      reads this, db
    {
      db.Valid()
    }

    /** What readers see: the overlay on top of the disk. */
    ghost function Contents(): Store
      reads this, db
    {
      Abs(View(db.disk, db.mem))
    }

    constructor (db: Database, fault: Option<nat>)
      requires db.Valid()
      ensures Valid() && this.db == db
      ensures if fault.None? then ScanResult(Contents(), latestBlock) else BrokenScan(Contents(), latestBlock)
    {
      this.db := db;
      latestBlock := 0;
      new;
      latestBlock := InitLatestBlockCache(fault);
    }

    /** With a fault the scan ends early, at zero or at a stored height. */
    method InitLatestBlockCache(fault: Option<nat>) returns (latest: u64)
      requires Valid()
      ensures if fault.None? then ScanResult(Contents(), latest) else BrokenScan(Contents(), latest)
    {
      var view := View(db.disk, db.mem);
      var ks := KeysWithPrefix(view, "block:");
      BlocksByPrefix(view, ks);
      var seen := Seen(ks, fault);
      latest := ScanLatest(seen);
      if fault.None? {
        LastKeyIsGreatest(view, ks, latest);
      } else if |seen| > 0 {
        assert BlockKey(latest) in ks;
      }
    }

    static method ScanLatest(ks: seq<string>) returns (latest: u64)
      requires forall k :: k in ks ==> IsBlockKey(k)
      ensures if |ks| == 0 then latest == 0 else ks[|ks| - 1] == BlockKey(latest)
    {
      latest := 0;
      for i := 0 to |ks|
        invariant if i == 0 then latest == 0 else ks[i - 1] == BlockKey(latest)
      {
        BlockKeyParses(ks[i]);
        var num := ParseBlockKey(ks[i]);
        if num.Some? {
          latest := num.value;
        }
      }
    }

    method SaveBlock(n: u64, data: Bytes, io: bool) returns (ok: bool)
      requires Valid()
      modifies this, db
      ensures Valid() && db.disk == old(db.disk) && ok == io
      ensures Contents() == if ok then old(Contents()).SaveBlock(n, data) else old(Contents())
      ensures latestBlock == if ok then Max(old(latestBlock), n) else old(latestBlock)
    {
      if !io {
        return false;
      }
      ok := true;
      PutBlockAbs(View(db.disk, db.mem), n, data);
      db.Put(BlockKey(n), data);
      if n > latestBlock {
        latestBlock := n;
      }
    }

    method GetBlock(n: u64, io: bool) returns (data: Option<Bytes>)
      ensures data == if io then Contents().GetBlock(n) else None
    {
      if !io {
        return None;
      }
      data := db.Get(BlockKey(n));
    }

    method FirstBlock(io: bool) returns (n: Option<u64>)
      requires Valid()
      ensures if io then IsFirstBlock(Contents(), n) else n.None?
    {
      if !io {
        return None;
      }
      var ks := KeysWithPrefix(View(db.disk, db.mem), "block:");
      BlocksByPrefix(View(db.disk, db.mem), ks);
      if |ks| == 0 {
        return None;
      }
      n := ParseBlockKey(ks[0]);
      BlockKeyParses(ks[0]);
      FirstKeyIsLeast(View(db.disk, db.mem), ks, n.value);
    }

    /**
     * The cached height; zero stands for no block. It is the greatest height that readers see if and only if the cache
     * is what a scan would find now.
     */
    method LatestBlock() returns (n: Option<u64>)
      ensures 0 !in Contents().blocks ==> (IsLastBlock(Contents(), n) <==> ScanResult(Contents(), latestBlock))
      ensures (n.None? <==> latestBlock == 0) && (n.Some? ==> n.value == latestBlock)
    {
      n := if latestBlock > 0 then Some(latestBlock) else None;
    }

    /** At end = 2^64 - 1 the source's loop never ends, so callers must stay below it. */
    method DeleteBlockRange(start: u64, end: u64, io: bool) returns (ok: bool)
      requires Valid() && end < TWO64 - 1
      modifies db
      ensures Valid() && db.disk == old(db.disk) && ok == io
      ensures Contents() == if ok then old(Contents()).DeleteBlocks(start, end) else old(Contents())
    {
      var batch: set<string> := {};
      var i: u64 := start;
      while i <= end
        invariant start <= i && (start <= end ==> i <= end + 1) && (start > end ==> i == start)
        invariant forall k :: k in batch <==> exists n: u64 :: start <= n < i && k == BlockKey(n)
      {
        batch := batch + {BlockKey(i)};
        i := i + 1;
      }
      ok := io;
      if !ok {
        return;
      }
      SameKeySet(batch, start, end);
      DeleteKeysAbs(View(db.disk, db.mem), start, end);
      db.WriteDeletes(batch);
    }

    method SaveBatch(start: u64, end: u64, data: Bytes, io: bool) returns (ok: bool)
      requires Valid()
      modifies db
      ensures Valid() && db.disk == old(db.disk) && ok == io
      ensures Contents() == if ok then old(Contents()).SaveBatch(start, end, data) else old(Contents())
    {
      ok := io;
      if !ok {
        return;
      }
      PutBatchAbs(View(db.disk, db.mem), start, end, data);
      db.Put(BatchKey(start, end), data);
    }

    method GetBatchCompressed(start: u64, io: bool) returns (data: Option<Bytes>)
      ensures data == if io then Contents().GetBatch(start) else None
    {
      if !io {
        return None;
      }
      var end: u64 := Wrap(start + BATCH_SIZE - 1);
      data := db.Get(BatchKey(start, end));
    }

    method FirstBatch(io: bool) returns (start: Option<u64>)
      requires Valid()
      ensures if io then IsFirstBatch(Contents(), start) else start.None?
    {
      if !io {
        return None;
      }
      var ks := KeysWithPrefix(View(db.disk, db.mem), "batch:");
      BatchesByPrefix(View(db.disk, db.mem), ks);
      if |ks| == 0 {
        return None;
      }
      var bounds := ParseBatchKey(ks[0]);
      BatchKeyParses(ks[0]);
      FirstBatchKeyIsLeast(View(db.disk, db.mem), ks, bounds.value.0, bounds.value.1);
      start := Some(bounds.value.0);
    }

    /** Scans to the last batch key: the iterator cannot seek backwards. With a fault it finds an earlier one or none. */
    method LatestBatch(fault: Option<nat>) returns (end: Option<u64>)
      requires Valid()
      ensures if fault.None? then IsLastBatch(Contents(), end) else BrokenBatchScan(Contents(), end)
    {
      var ks := KeysWithPrefix(View(db.disk, db.mem), "batch:");
      BatchesByPrefix(View(db.disk, db.mem), ks);
      hide Abs, BatchKey, BlockKey, View, WellKeyed, Seen, IsLastBatch;
      var seen := Seen(ks, fault);
      var found, lastStart, lastEnd := ScanLastBatch(seen);
      if !found {
        return None;
      }
      if fault.None? {
        LastBatchKeyIsGreatest(View(db.disk, db.mem), ks, lastStart, lastEnd);
      } else {
        SeenBatchIsStored(View(db.disk, db.mem), ks, seen, lastStart, lastEnd);
      }
      return Some(lastEnd);
    }

    static method ScanLastBatch(ks: seq<string>) returns (found: bool, lastStart: u64, lastEnd: u64)
      requires forall k :: k in ks ==> IsBatchKey(k)
      ensures found <==> |ks| > 0
      ensures found ==> ks[|ks| - 1] == BatchKey(lastStart, lastEnd)
    {
      found, lastStart, lastEnd := false, 0, 0;
      for i := 0 to |ks|
        invariant found <==> i > 0
        invariant i > 0 ==> ks[i - 1] == BatchKey(lastStart, lastEnd)
      {
        var num := ParseBatchKey(ks[i]);
        BatchKeyParses(ks[i]);
        if num.Some? {
          lastStart, lastEnd, found := num.value.0, num.value.1, true;
        }
      }
    }

    method GetMeta(io: bool) returns (m: u64)
      ensures m == if io then Contents().meta else 0
    {
      if !io {
        return 0;
      }
      var data := db.Get(META_KEY);
      m := if data.None? || |data.value| < 8 then 0 else ReadBigEndian(data.value);
    }

    method SaveMeta(m: u64, io: bool) returns (ok: bool)
      requires Valid()
      modifies db
      ensures Valid() && db.disk == old(db.disk) && ok == io
      ensures Contents() == if ok then old(Contents()).SaveMeta(m) else old(Contents())
    {
      ok := io;
      if !ok {
        return;
      }
      PutMetaAbs(View(db.disk, db.mem), m);
      db.Put(META_KEY, BigEndian(m));
    }
  }

  /** What the startup scan leaves in the cache: the greatest stored height, zero when there is none. */
  ghost predicate ScanResult(st: Store, latest: u64) {
    if exists n :: n in st.blocks then IsLastBlock(st, Some(latest)) else latest == 0
  }

  /** What a scan that breaks off finds: nothing, or a height that is stored. */
  ghost predicate BrokenScan(st: Store, latest: u64) {
    latest == 0 || latest in st.blocks
  }

  ghost predicate BrokenBatchScan(st: Store, end: Option<u64>) {
    end.Some? ==> exists s :: (s, end.value) in st.batches
  }

  lemma SeenBatchIsStored(db: Db, ks: seq<string>, seen: seq<string>, s: u64, e: u64)
    requires forall p: (u64, u64) :: p in Abs(db).batches <==> BatchKey(p.0, p.1) in ks
    requires (forall k :: k in seen ==> k in ks) && |seen| > 0 && seen[|seen| - 1] == BatchKey(s, e)
    ensures BrokenBatchScan(Abs(db), Some(e))
  {
    assert BatchKey((s, e).0, (s, e).1) in ks;
    assert (s, e) in Abs(db).batches;
  }

  /** The keys a scan gets to before its fault, if it has one. */
  function Seen(ks: seq<string>, fault: Option<nat>): (seen: seq<string>)
    ensures forall k :: k in seen ==> k in ks
    ensures fault.None? ==> seen == ks
  {
    if fault.Some? && fault.value < |ks| then ks[..fault.value] else ks
  }

  // ----- the loop of single deletes -----

  /** The counter of the delete loop after n rounds. */
  function CounterAfter(start: u64, n: nat): u64 {
    if n == 0 then start else Wrap(CounterAfter(start, n - 1) + 1)
  }

  lemma {:induction false} CounterCounts(start: u64, n: nat)
    requires start + n < TWO64
    ensures CounterAfter(start, n) == start + n
  {
    if n > 0 {
      CounterCounts(start, n - 1);
    }
  }

  /** The loop leaves its range, and so ends, exactly when end is not the last height of all. */
  lemma DeleteLoopEndsExactly(start: u64, end: u64)
    ensures (exists n: nat :: CounterAfter(start, n) > end) <==> end < TWO64 - 1
  {
    if end < TWO64 - 1 {
      var n: nat := if start > end then 0 else end + 1 - start;
      CounterCounts(start, n);
      assert CounterAfter(start, n) > end;
    }
  }

  lemma BlockKeyParses(k: string)
    requires IsBlockKey(k)
    ensures ParseBlockKey(k).Some? && BlockKey(ParseBlockKey(k).value) == k
  {
    var n: u64 :| k == BlockKey(n);
    BlockKeyRoundTrip(n);
  }

  lemma BatchKeyParses(k: string)
    requires IsBatchKey(k)
    ensures ParseBatchKey(k).Some? && BatchKey(ParseBatchKey(k).value.0, ParseBatchKey(k).value.1) == k
  {
    var s: u64, e: u64 :| k == BatchKey(s, e);
    BatchKeyRoundTrip(s, e);
  }

  lemma BlocksByPrefix(db: Db, ks: seq<string>)
    requires WellKeyed(db.Keys) && forall k :: k in ks <==> k in db && "block:" <= k
    ensures forall k :: k in ks ==> IsBlockKey(k)
    ensures forall n: u64 :: n in Abs(db).blocks <==> BlockKey(n) in ks
  {
    forall k | k in ks ensures IsBlockKey(k) {
      assert WellKeyed({k});
      PrefixTellsFamily(k);
    }
    forall n: u64 ensures "block:" <= BlockKey(n) { FamiliesApart(n, 0, 0); }
  }

  lemma BatchesByPrefix(db: Db, ks: seq<string>)
    requires WellKeyed(db.Keys) && forall k :: k in ks <==> k in db && "batch:" <= k
    ensures forall k :: k in ks ==> IsBatchKey(k)
    ensures forall p: (u64, u64) :: p in Abs(db).batches <==> BatchKey(p.0, p.1) in ks
  {
    forall k | k in ks ensures IsBatchKey(k) {
      assert WellKeyed({k});
      PrefixTellsFamily(k);
    }
    forall p: (u64, u64) ensures "batch:" <= BatchKey(p.0, p.1) { FamiliesApart(0, p.0, p.1); }
  }

  /** Scan order is numeric order, so keeping the last key seen keeps the greatest height. */
  lemma LastKeyIsGreatest(db: Db, ks: seq<string>, latest: u64)
    requires StrictlyAscending(ks) && forall n: u64 :: n in Abs(db).blocks <==> BlockKey(n) in ks
    requires if |ks| == 0 then latest == 0 else ks[|ks| - 1] == BlockKey(latest)
    ensures ScanResult(Abs(db), latest)
  {
    forall m: u64 | BlockKey(m) in ks ensures m <= latest {
      BlockKeyOrder(m, latest);
    }
    if |ks| > 0 {
      assert BlockKey(latest) in ks;
    }
  }

  lemma FirstKeyIsLeast(db: Db, ks: seq<string>, first: u64)
    requires StrictlyAscending(ks) && forall n: u64 :: n in Abs(db).blocks <==> BlockKey(n) in ks
    requires |ks| > 0 && ks[0] == BlockKey(first)
    ensures IsFirstBlock(Abs(db), Some(first))
  {
    forall m: u64 | BlockKey(m) in ks ensures first <= m {
      BlockKeyOrder(first, m);
    }
    assert BlockKey(first) in ks;
  }

  lemma LastBatchKeyIsGreatest(db: Db, ks: seq<string>, s: u64, e: u64)
    requires StrictlyAscending(ks) && forall p: (u64, u64) :: p in Abs(db).batches <==> BatchKey(p.0, p.1) in ks
    requires |ks| > 0 && ks[|ks| - 1] == BatchKey(s, e)
    ensures IsLastBatch(Abs(db), Some(e))
  {
    assert BatchKey((s, e).0, (s, e).1) in ks;
    forall p: (u64, u64) | p in Abs(db).batches ensures p.0 <= s {
      BatchKeyOrder(s, e, p.0, p.1);
      LexTotal(BatchKey(s, e), BatchKey(p.0, p.1));
    }
    assert (s, e) in Abs(db).batches;
  }

  lemma FirstBatchKeyIsLeast(db: Db, ks: seq<string>, s: u64, e: u64)
    requires StrictlyAscending(ks) && forall p: (u64, u64) :: p in Abs(db).batches <==> BatchKey(p.0, p.1) in ks
    requires |ks| > 0 && ks[0] == BatchKey(s, e)
    ensures IsFirstBatch(Abs(db), Some(s))
  {
    assert BatchKey((s, e).0, (s, e).1) in ks;
    forall p: (u64, u64) | p in Abs(db).batches ensures s <= p.0 {
      BatchKeyOrder(p.0, p.1, s, e);
      LexTotal(BatchKey(s, e), BatchKey(p.0, p.1));
    }
    assert (s, e) in Abs(db).batches;
  }

  lemma SameKeySet(batch: set<string>, start: u64, end: u64)
    requires forall k :: k in batch <==> exists n: u64 :: start <= n <= end && k == BlockKey(n)
    ensures batch == BlockKeysFrom(start, end)
  {
    var ks := BlockKeysFrom(start, end);
    forall k ensures k in batch <==> k in ks {
      if k in ks {
        var n: u64 :| k == BlockKey(n);
      }
    }
  }
}
