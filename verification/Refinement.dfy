/**
 * The two Storage implementations side by side: pebble's range delete and versiondb's overlay of single
 * deletes, run on the same operations, hold the same bytes and the same abstract store.
 */
module Refinement {
  import opened Prelude
  import opened Keys
  import opened StoreModel

  datatype Write =
    | SaveBlock(n: u64, data: Bytes)
    | DeleteBlockRange(start: u64, end: u64)
    | SaveBatch(start: u64, end: u64, data: Bytes)
    | SaveMeta(m: u64)

  // What happens to versiondb: a write to the overlay, or the end of a block's accept.
  datatype Event = Write(op: Write) | Commit | Abort

  ghost function SpecApply(st: Store, op: Write): Store {
    match op
    case SaveBlock(n, data) => st.SaveBlock(n, data)
    case DeleteBlockRange(start, end) => st.DeleteBlocks(start, end)
    case SaveBatch(start, end, data) => st.SaveBatch(start, end, data)
    case SaveMeta(m) => st.SaveMeta(m)
  }

  ghost function SpecRun(st: Store, ops: seq<Write>): Store
    decreases ops
  {
    if ops == [] then st else SpecRun(SpecApply(st, ops[0]), ops[1..])
  }

  /** pebble.go: every operation is one write, DeleteBlockRange one range delete. */
  function PebbleApply(db: Db, op: Write): Db {
    match op
    case SaveBlock(n, data) => db[BlockKey(n) := data]
    case DeleteBlockRange(start, end) => DeleteRange(db, BlockKey(start), BlockKey(Wrap(end + 1)))
    case SaveBatch(start, end, data) => db[BatchKey(start, end) := data]
    case SaveMeta(m) => db[META_KEY := BigEndian(m)]
  }

  function PebbleRun(db: Db, ops: seq<Write>): Db
    decreases ops
  {
    if ops == [] then db else PebbleRun(PebbleApply(db, ops[0]), ops[1..])
  }

  /** versiondb.go: writes go to the overlay, DeleteBlockRange as one delete for every key. */
  function OverlayApply(mem: Overlay, op: Write): Overlay {
    match op
    case SaveBlock(n, data) => mem[BlockKey(n) := Some(data)]
    case DeleteBlockRange(start, end) => mem + Deletes(BlockKeysFrom(start, end))
    case SaveBatch(start, end, data) => mem[BatchKey(start, end) := Some(data)]
    case SaveMeta(m) => mem[META_KEY := Some(BigEndian(m))]
  }

  datatype Versioned = Versioned(disk: Db, mem: Overlay)

  function VersionedStep(v: Versioned, e: Event): Versioned {
    match e
    case Write(op) => v.(mem := OverlayApply(v.mem, op))
    case Commit => Versioned(View(v.disk, v.mem), map[])
    case Abort => v.(mem := map[])
  }

  function VersionedRun(v: Versioned, es: seq<Event>): Versioned
    decreases es
  {
    if es == [] then v else VersionedRun(VersionedStep(v, es[0]), es[1..])
  }

  /** The bound below which pebble's end + 1 does not wrap and versiondb's loop ends. */
  predicate Bounded(op: Write) {
    op.DeleteBlockRange? ==> op.end < TWO64 - 1
  }

  predicate BoundedEvents(es: seq<Event>) {
    forall e :: e in es && e.Write? ==> Bounded(e.op)
  }

  // ----- one write -----

  lemma PebbleRefines(db: Db, op: Write)
    requires WellKeyed(db.Keys) && Bounded(op)
    ensures WellKeyed(PebbleApply(db, op).Keys) && Abs(PebbleApply(db, op)) == SpecApply(Abs(db), op)
  {
    hide Abs, WellKeyed, BlockKey, BatchKey, DeleteRange;
    match op
    case SaveBlock(n, data) => PutBlockAbs(db, n, data);
    case DeleteBlockRange(start, end) =>
      RangeDeleteIsLoop(db, start, end);
      DeleteKeysAbs(db, start, end);
    case SaveBatch(start, end, data) => PutBatchAbs(db, start, end, data);
    case SaveMeta(m) => PutMetaAbs(db, m);
  }

  lemma OverlayMatches(disk: Db, mem: Overlay, op: Write)
    requires WellKeyed(View(disk, mem).Keys) && Bounded(op)
    ensures View(disk, OverlayApply(mem, op)) == PebbleApply(View(disk, mem), op)
  {
    hide View, WellKeyed, BlockKey, BatchKey, DeleteRange, Deletes;
    match op
    case SaveBlock(n, data) => ViewPut(disk, mem, BlockKey(n), data);
    case DeleteBlockRange(start, end) =>
      RangeDeleteIsLoop(View(disk, mem), start, end);
      ViewDelete(disk, mem, BlockKeysFrom(start, end));
    case SaveBatch(start, end, data) => ViewPut(disk, mem, BatchKey(start, end), data);
    case SaveMeta(m) => ViewPut(disk, mem, META_KEY, BigEndian(m));
  }

  // ----- whole runs -----

  lemma {:induction false} PebbleRunRefines(db: Db, ops: seq<Write>)
    requires WellKeyed(db.Keys) && forall op :: op in ops ==> Bounded(op)
    ensures WellKeyed(PebbleRun(db, ops).Keys) && Abs(PebbleRun(db, ops)) == SpecRun(Abs(db), ops)
    decreases ops
  {
    hide Abs, WellKeyed, PebbleApply, SpecApply;
    if ops != [] {
      PebbleRefines(db, ops[0]);
      PebbleRunRefines(PebbleApply(db, ops[0]), ops[1..]);
    }
  }

  /** The writes that Commits have made durable, and those still pending; an Abort forgets the pending ones. */
  function Committed(es: seq<Event>): seq<Write> {
    if es == [] then []
    else
      var before := es[..|es| - 1];
      match es[|es| - 1]
      case Commit => Committed(before) + Pending(before)
      case _ => Committed(before)
  }

  function Pending(es: seq<Event>): seq<Write> {
    if es == [] then []
    else
      var before := es[..|es| - 1];
      match es[|es| - 1]
      case Write(op) => Pending(before) + [op]
      case _ => []
  }

  lemma {:induction false} PebbleRunConcat(db: Db, a: seq<Write>, b: seq<Write>)
    ensures PebbleRun(db, a + b) == PebbleRun(PebbleRun(db, a), b)
    decreases a
  {
    hide PebbleApply;
    if a == [] {
      assert a + b == b;
    } else {
      PebbleRunConcat(PebbleApply(db, a[0]), a[1..], b);
      assert (a + b)[1..] == a[1..] + b;
    }
  }

  lemma {:induction false} VersionedRunSnoc(v: Versioned, es: seq<Event>, e: Event)
    ensures VersionedRun(v, es + [e]) == VersionedStep(VersionedRun(v, es), e)
    decreases es
  {
    hide VersionedStep;
    if es == [] {
      assert [e][1..] == [];
    } else {
      VersionedRunSnoc(VersionedStep(v, es[0]), es[1..], e);
      assert (es + [e])[1..] == es[1..] + [e];
    }
  }

  lemma {:induction false} OnlyBounded(es: seq<Event>)
    requires BoundedEvents(es)
    ensures forall op :: op in Committed(es) ==> Bounded(op)
    ensures forall op :: op in Pending(es) ==> Bounded(op)
    decreases |es|
  {
    if es != [] {
      OnlyBounded(es[..|es| - 1]);
      assert es[|es| - 1] in es;
    }
  }

  /**
   * On any run of writes, Commits and Aborts versiondb's disk holds byte for byte what pebble would hold after
   * the committed writes, and its view what pebble would hold after the pending ones as well.
   */
  lemma {:induction false} SameBytes(disk: Db, es: seq<Event>)
    requires WellKeyed(disk.Keys) && BoundedEvents(es)
    ensures var v := VersionedRun(Versioned(disk, map[]), es);
            && v.disk == PebbleRun(disk, Committed(es))
            && View(v.disk, v.mem) == PebbleRun(disk, Committed(es) + Pending(es))
    decreases |es|
  {
    hide View, WellKeyed, PebbleApply, OverlayApply;
    var start := Versioned(disk, map[]);
    if es == [] {
      ViewNothing(disk);
    } else {
      var before, e := es[..|es| - 1], es[|es| - 1];
      assert es == before + [e];
      SameBytes(disk, before);
      VersionedRunSnoc(start, before, e);
      var u := VersionedRun(start, before);
      match e
      case Write(op) =>
        OnlyBounded(before);
        var done := Committed(before) + Pending(before);
        PebbleRunRefines(disk, done);
        OverlayMatches(u.disk, u.mem, op);
        PebbleRunConcat(disk, done, [op]);
        assert PebbleRun(PebbleRun(disk, done), [op]) == PebbleApply(PebbleRun(disk, done), op) by {
          assert [op][1..] == [];
        }
        assert Committed(es) + Pending(es) == done + [op];
      case Commit =>
        assert Committed(es) + Pending(es) == Committed(before) + Pending(before);
        ViewNothing(View(u.disk, u.mem));
      case Abort =>
        assert Committed(es) + Pending(es) == Committed(before);
        ViewNothing(u.disk);
    }
  }

  /** Both stores refine one specification on every run. */
  lemma BothRefine(disk: Db, es: seq<Event>)
    requires WellKeyed(disk.Keys) && BoundedEvents(es)
    ensures var v := VersionedRun(Versioned(disk, map[]), es);
            && Abs(v.disk) == SpecRun(Abs(disk), Committed(es))
            && Abs(View(v.disk, v.mem)) == SpecRun(Abs(disk), Committed(es) + Pending(es))
            && Abs(PebbleRun(disk, Committed(es) + Pending(es))) == Abs(View(v.disk, v.mem))
  {
    hide View, WellKeyed, PebbleApply, OverlayApply, Abs;
    SameBytes(disk, es);
    OnlyBounded(es);
    PebbleRunRefines(disk, Committed(es));
    PebbleRunRefines(disk, Committed(es) + Pending(es));
  }

  // ----- where the two part -----

  /** A range delete agrees with the deletes one by one unless it reaches the last height and finds blocks there. */
  lemma DeletesAgreeExactly(db: Db, start: u64, end: u64)
    requires WellKeyed(db.Keys)
    ensures PebbleApply(db, DeleteBlockRange(start, end)) == db - BlockKeysFrom(start, end) <==>
            end < TWO64 - 1 || forall n: u64 :: n >= start ==> BlockKey(n) !in db
  {
    hide WellKeyed, BlockKey, DeleteRange;
    if end < TWO64 - 1 {
      RangeDeleteIsLoop(db, start, end);
    } else {
      WrappedRangeDeletesNothing(db, start);
      assert PebbleApply(db, DeleteBlockRange(start, end)) == db;
      var ks := BlockKeysFrom(start, end);
      if n: u64 :| n >= start && BlockKey(n) in db {
        assert BlockKey(n) in ks && BlockKey(n) !in db - ks;
      } else {
        assert forall k :: k in db ==> k !in ks;
      }
    }
  }
}
