/** IndexingVM: Accept of indexing-subnet-evm/block.go and the restore step of Initialize in vm.go. */
module Indexing {
  import opened Prelude
  import opened Framing
  import opened StoreModel
  import opened VersionDB
  import Compaction
  import P = Plugin

  /**
   * What indexBlock meets: whether the chain has the block and its receipts, whether there is a tracer and tracing
   * succeeds, the JSON of the three if they can be marshalled, and whether the database accepts the write.
   */
  datatype Parts = Parts(block: bool, receipts: bool, tracer: bool, traces: bool, json: Option<Bytes>, io: bool)

  predicate Indexes(p: Parts) {
    p.block && p.receipts && p.tracer && p.traces && p.json.Some? && p.io
  }

  class IndexingVM {
    const w: World
    const store: VersionDBStorage
    // The height the inner VM has committed; it lives in the same database as the index.
    var accepted: u64
    var lastIndexedHeight: u64
    var lastAcceptedHeight: u64
    // The tip the stream server announces.
    var served: u64

    ghost predicate Valid()
      reads this, store, store.db
    {
      store.Valid()
    }

    /** This object between two calls, as a state of the protocol in module Plugin. */
    ghost function Snapshot(): P.Vm
      reads this, store, store.db
    {
      P.Vm(Abs(store.db.disk), store.Contents(), accepted, store.latestBlock, lastIndexedHeight,
           P.Ready, Compaction.Idle, 0, false, false, false)
    }

    /**
     * Initialize on a database that holds the committed index: opening the store scans for the cached tip,
     * then the indexed height is the larger of meta and that tip, and the chain must not be ahead of it.
     */
    constructor (w: World, db: Database, tip: u64)
      requires db.Valid() && View(db.disk, db.mem) == db.disk
      ensures Valid() && fresh(store) && store.db == db && this.w == w && accepted == tip
      ensures ScanResult(store.Contents(), store.latestBlock)
      ensures lastIndexedHeight == Max(store.Contents().meta, store.latestBlock) && lastAcceptedHeight == tip
      ensures store.Contents() == Abs(db.disk) && served == lastIndexedHeight
    {
      hide Abs, View, ScanResult, WellKeyed;
      var s := new VersionDBStorage(db, None);
      this.w, this.store, accepted := w, s, tip;
      lastAcceptedHeight := tip;
      lastIndexedHeight, served := 0, 0;
      new;
      var lastIndexed := store.GetMeta(true);
      var latest := store.LatestBlock();
      if latest.Some? && latest.value > lastIndexed {
        lastIndexed := latest.value;
      }
      if lastIndexed > 0 {
        lastIndexedHeight := lastIndexed;
        served := lastIndexed;
      }
    }

    /**
     * The fatal check at the end of the restore step: heights are missing from the index of a chain that has one. It
     * cannot fire on a database that a run of the protocol has left behind, with the chain at the height committed
     * there.
     */
    method GapDetected(ghost ls: seq<P.VmLabel>) returns (gap: bool)
      requires ScanResult(store.Contents(), store.latestBlock) && P.AllowedRun(w, P.FRESH, ls)
      requires lastIndexedHeight == Max(store.Contents().meta, store.latestBlock)
      ensures gap ==> exists h: u64 :: lastIndexedHeight < h <= lastAcceptedHeight && h !in store.Contents().blocks
      ensures lastIndexedHeight == 0 ==> !gap
      ensures !gap ==> lastIndexedHeight == 0 || lastAcceptedHeight <= lastIndexedHeight
      ensures var v := P.Exec(w, P.FRESH, ls);
              store.Contents() == v.disk && lastAcceptedHeight == v.accepted ==>
                !gap && lastIndexedHeight == v.top && lastAcceptedHeight <= lastIndexedHeight
    {
      gap := lastIndexedHeight > 0 && lastAcceptedHeight > lastIndexedHeight;
      if gap {
        AboveScan(store.Contents(), store.latestBlock, lastAcceptedHeight);
      }
      NoGapAfterRun(w, ls, store.latestBlock);
    }

    /** The inner block's Accept: commit or not, and Abort on the way out in either case. */
    method InnerAccept(height: u64, succeeds: bool)
      requires Valid()
      modifies this`accepted, store.db
      ensures Valid() && View(store.db.disk, store.db.mem) == store.db.disk
      ensures store.db.disk == if succeeds then View(old(store.db.disk), old(store.db.mem)) else old(store.db.disk)
      ensures accepted == if succeeds then height else old(accepted)
    {
      if succeeds {
        store.db.Commit();
        accepted := height;
      }
      store.db.Abort();
    }

    /** indexBlock: nothing is written or announced unless block, receipts and traces were all obtained. */
    method IndexBlock(height: u64, p: Parts) returns (ok: bool)
      requires Valid()
      modifies this`served, store, store.db
      ensures Valid() && store.db.disk == old(store.db.disk) && (ok <==> Indexes(p))
      ensures !ok ==> store.Contents() == old(store.Contents()) && store.latestBlock == old(store.latestBlock)
      ensures ok ==> store.Contents() == old(store.Contents()).SaveBlock(height, p.json.value)
      ensures ok ==> store.latestBlock == Max(old(store.latestBlock), height)
      ensures served == if ok then Max(old(served), height) else old(served)
    {
      if !p.block {
        return false;
      }
      if !p.receipts {
        return false;
      }
      if !p.tracer {
        return false;
      }
      if !p.traces {
        return false;
      }
      if p.json.None? {
        return false;
      }
      ok := store.SaveBlock(height, p.json.value, p.io);
      if !ok {
        return;
      }
      if height > served {
        served := height;
      }
    }

    /**
     * Accept. p is what indexing meets for the height and inner whether the chain's own Accept succeeds.
     * The object moves as the protocol's Begin, Commit or Fail, and DeferredAbort steps say.
     */
    method Accept(height: u64, p: Parts, inner: bool) returns (ok: bool)
      requires Valid() && P.Allowed(Snapshot(), P.Begin(height, Indexes(p)))
      requires p.json.Some? ==> p.json.value == w.chain(height)
      modifies this, store, store.db
      ensures Valid()
      ensures SameState(Snapshot(), AcceptRun(w, old(Snapshot()), height, Indexes(p), inner))
      ensures ok <==> inner && (height <= old(lastIndexedHeight) || Indexes(p))
      ensures ok && height > old(lastIndexedHeight) ==>
                lastIndexedHeight == lastAcceptedHeight == accepted == height
      ensures ok && height > old(lastIndexedHeight) ==>
                Abs(store.db.disk) == old(store.Contents()).SaveBlock(height, w.chain(height))
      ensures !ok ==> store.db.disk == old(store.db.disk) && accepted == old(accepted)
      ensures !ok || height <= old(lastIndexedHeight) ==>
                lastIndexedHeight == old(lastIndexedHeight) && lastAcceptedHeight == old(lastAcceptedHeight)
      ensures served == if height > old(lastIndexedHeight) && Indexes(p) then Max(old(served), height) else old(served)
    {
      if height <= lastIndexedHeight {
        InnerAccept(height, inner);
        return inner;
      }
      var indexed := IndexBlock(height, p);
      if !indexed {
        return false;
      }
      InnerAccept(height, inner);
      if !inner {
        return false;
      }
      lastIndexedHeight := height;
      lastAcceptedHeight := height;
      return true;
    }
  }

  lemma AboveScan(st: Store, latest: u64, h: u64)
    requires ScanResult(st, latest) && h > latest
    ensures h !in st.blocks
  {
  }

  /** Initialize succeeds on every database that the protocol leaves behind, and finds the indexed height in it. */
  lemma NoGapAfterRun(w: World, ls: seq<P.VmLabel>, latest: u64)
    requires P.AllowedRun(w, P.FRESH, ls)
    ensures var v := P.Exec(w, P.FRESH, ls);
            ScanResult(v.disk, latest) ==> Max(v.disk.meta, latest) == v.top && v.accepted <= v.top
  {
    var v := P.Exec(w, P.FRESH, ls);
    if ScanResult(v.disk, latest) {
      var r: Option<u64> := if exists n :: n in v.disk.blocks then Some(latest) else None;
      P.RestartRestoresTop(w, ls, r);
      RestoredIsRestart(w, v, r, latest);
    }
  }

  /** What the constructor restores and GapDetected reports is what the protocol's Restart step says. */
  lemma RestoredIsRestart(w: World, v: P.Vm, r: Option<u64>, latest: u64)
    requires P.Allowed(v, P.Restart(r)) && ScanResult(v.disk, latest)
    ensures var z := P.Step(w, v, P.Restart(r));
            && z.disk == v.disk == z.view && z.accepted == v.accepted && z.phase.Ready?
            && z.cache == latest && z.lastIndexed == Max(v.disk.meta, latest)
            && (z.gap <==> v.gap || (z.lastIndexed > 0 && z.accepted > z.lastIndexed))
  {
    if r.Some? {
      assert r.value in v.disk.blocks;
    }
  }

  /** Equal in everything but the record the protocol keeps of its run. */
  ghost predicate SameState(a: P.Vm, b: P.Vm) {
    && a.disk == b.disk && a.view == b.view && a.accepted == b.accepted && a.cache == b.cache
    && a.lastIndexed == b.lastIndexed && a.phase == b.phase
  }

  ghost function AcceptRun(w: World, v: P.Vm, height: u64, indexes: bool, inner: bool): P.Vm
    requires P.Allowed(v, P.Begin(height, indexes))
  {
    var begun := P.Step(w, v, P.Begin(height, indexes));
    if inner then P.Step(w, P.Step(w, begun, P.Commit), P.DeferredAbort) else P.Step(w, begun, P.Fail)
  }
}
