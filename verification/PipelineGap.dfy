/**
 * A run of the service in which failing lookups send the ingester back below the first individual block, and what its
 * save costs: the store loses its shape, and compaction stands still until the hole is filled again.
 */
module PipelineGap {
  import opened Prelude
  import opened Framing
  import opened StoreModel
  import opened Compaction
  import opened Soundness
  import opened Pipeline
  import opened CompactorLoop

  // ----- what a low save costs -----

  /** No batch is ready while one of the hundred heights around the first individual block is missing. */
  lemma HoleStopsCompaction(st: Store, first: u64)
    requires IsFirstBlock(st, Some(first)) && !HasHundred(st, BatchStart(first))
    ensures forall seen: Option<u64>, s: u64 :: !Ready(st, seen, s)
  {
    hide HasHundred;
    forall seen: Option<u64>, s: u64 ensures !Ready(st, seen, s) {
      if seen.Some? { FirstDecides(st, first, seen); }
    }
  }

  /** After a low save the saved height is alone in its hundred, so compaction stands still. */
  lemma LowSaveStopsCompaction(w: World, c: Core, l: CoreLabel)
    requires Inv(w, c) && Allowed(c, l) && LowSave(c, l)
    ensures var st := Step(w, c, l).store;
            IsFirstBlock(st, Some(l.height)) && forall seen: Option<u64>, s: u64 :: !Ready(st, seen, s)
  {
    hide BatchTiling, w.BatchBytes, BelowFirst, PcFits;
    LowIsBelowCut(w, c, l.height);
    var st := Step(w, c, l).store;
    var s := BatchStart(l.height);
    var other: u64 := if l.height == s then s + 1 else s;
    assert other !in st.blocks;
    HoleStopsCompaction(st, l.height);
  }

  // ----- the run -----

  ghost function Plain(w: World, n: u64): Store {
    Store(imap i: u64 | 1 <= i <= n :: w.chain(i), imap[], 0)
  }

  ghost function Streamed(w: World, n: u64): Core {
    Core(Plain(w, n), Idle, Streaming(Wrap(n + 1)), n, 0, 0)
  }

  lemma {:induction false} RunAppend(w: World, c: Core, a: seq<CoreLabel>, b: seq<CoreLabel>)
    requires AllowedRun(w, c, a) && AllowedRun(w, Exec(w, c, a), b)
    ensures AllowedRun(w, c, a + b) && Exec(w, c, a + b) == Exec(w, Exec(w, c, a), b)
    decreases a
  {
    hide Allowed, Step;
    if a == [] {
      assert a + b == b;
    } else {
      RunAppend(w, Step(w, c, a[0]), a[1..], b);
      assert (a + b)[1..] == a[1..] + b;
    }
  }

  lemma RunSnoc(w: World, c: Core, a: seq<CoreLabel>, l: CoreLabel)
    requires AllowedRun(w, c, a) && Allowed(Exec(w, c, a), l)
    ensures AllowedRun(w, c, a + [l]) && Exec(w, c, a + [l]) == Step(w, Exec(w, c, a), l)
  {
    hide Allowed, Step;
    var z := Exec(w, c, a);
    assert [l][1..] == [] && AllowedRun(w, Step(w, z, l), [l][1..]);
    RunAppend(w, c, a, [l]);
  }

  /** The three lookups, all of them failing. */
  const BLIND: seq<CoreLabel> := [LookBlock(None)] + [LookBatch(None)] + [LookMeta(0)]

  lemma BlindRun(w: World, c: Core)
    requires c.ingester.SeekBlock?
    ensures AllowedRun(w, c, BLIND) && Exec(w, c, BLIND) == c.(ingester := Streaming(1))
  {
    assert AllowedRun(w, c, []) && Exec(w, c, []) == c;
    RunSnoc(w, c, [], LookBlock(None));
    assert [] + [LookBlock(None)] == [LookBlock(None)];
    RunSnoc(w, c, [LookBlock(None)], LookBatch(None));
    RunSnoc(w, c, [LookBlock(None)] + [LookBatch(None)], LookMeta(0));
  }

  lemma SaveNext(w: World, n: u64)
    requires 1 <= n <= MAX_HEIGHT
    ensures Allowed(Streamed(w, n - 1), Deliver(n, true))
    ensures Step(w, Streamed(w, n - 1), Deliver(n, true)) == Streamed(w, n)
  {
    hide Plain, w.BatchBytes;
    PlainGrows(w, n);
  }

  lemma PlainGrows(w: World, n: u64)
    requires 1 <= n <= MAX_HEIGHT
    ensures Plain(w, n - 1).SaveBlock(n, w.chain(n)) == Plain(w, n)
  {
    hide w.BatchBytes;
    var a, b := Plain(w, n - 1).SaveBlock(n, w.chain(n)).blocks, Plain(w, n).blocks;
    forall i: u64 ensures (i in a <==> i in b) && (i in b ==> a[i] == b[i]) {
    }
    assert a == b;
  }

  lemma {:induction false} Saving(w: World, n: u64) returns (ls: seq<CoreLabel>)
    requires n <= MAX_HEIGHT
    ensures AllowedRun(w, INITIAL, ls) && Exec(w, INITIAL, ls) == Streamed(w, n)
    decreases n
  {
    if n == 0 {
      BlindRun(w, INITIAL);
      assert Plain(w, 0) == EMPTY_STORE;
      ls := BLIND;
    } else {
      hide AllowedRun, Exec, Streamed, Step, Allowed;
      ls := Saving(w, n - 1);
      SaveNext(w, n);
      RunSnoc(w, INITIAL, ls, Deliver(n, true));
      ls := ls + [Deliver(n, true)];
    }
  }

  function ReadLabels(k: nat): seq<CoreLabel> {
    if k == 0 then [] else ReadLabels(k - 1) + [Compactor(ReadBlock(true))]
  }

  lemma {:induction false} ReadingOn(w: World, k: nat)
    requires k <= BATCH_SIZE
    ensures var c := Streamed(w, 1100).(pc := Reading(1, []));
            AllowedRun(w, c, ReadLabels(k)) && Exec(w, c, ReadLabels(k)) == c.(pc := Reading(1, w.Run(1, 1 + k)))
  {
    var c := Streamed(w, 1100).(pc := Reading(1, []));
    if k == 0 {
      assert w.Run(1, 1) == [];
    } else {
      ReadingOn(w, k - 1);
      var z := c.(pc := Reading(1, w.Run(1, k)));
      var n: u64 := k;
      assert n in z.store.blocks && NextRead(1, w.Run(1, k)) == n;
      assert w.Run(1, k) + [w.chain(k)] == w.Run(1, 1 + k);
      RunSnoc(w, c, ReadLabels(k - 1), Compactor(ReadBlock(true)));
    }
  }

  lemma ReadRun(w: World) returns (ls: seq<CoreLabel>)
    ensures AllowedRun(w, INITIAL, ls) && Exec(w, INITIAL, ls) == Streamed(w, 1100).(pc := Reading(1, w.Run(1, 101)))
  {
    hide AllowedRun, Exec;
    ls := Saving(w, 1100);
    var one: u64, last: u64 := 1, 1100;
    assert one in Plain(w, 1100).blocks && last in Plain(w, 1100).blocks;
    RunSnoc(w, INITIAL, ls, Compactor(ReadFirst(Some(1))));
    ls := ls + [Compactor(ReadFirst(Some(1)))];
    GatesAgree(1, 1100);
    RunSnoc(w, INITIAL, ls, Compactor(ReadLatest(Some(1100))));
    ls := ls + [Compactor(ReadLatest(Some(1100)))];
    ReadingOn(w, 100);
    RunAppend(w, INITIAL, ls, ReadLabels(100));
    ls := ls + ReadLabels(100);
  }

  /** Heights 1..100 in a batch, 101..1100 under their own keys. */
  ghost function Compacted(w: World): Core {
    Core(Plain(w, 1100).SaveBatch(1, 100, w.BatchBytes(1)).SaveMeta(100).DeleteBlocks(1, 100), Idle,
         Streaming(1101), 1100, 100, 100)
  }

  lemma CompactedRun(w: World) returns (ls: seq<CoreLabel>)
    ensures AllowedRun(w, INITIAL, ls) && Exec(w, INITIAL, ls) == Compacted(w)
  {
    hide AllowedRun, Exec, Plain;
    ls := ReadRun(w);
    RunSnoc(w, INITIAL, ls, Compactor(Compress(true)));
    ls := ls + [Compactor(Compress(true))];
    hide w.BatchBytes;
    RunSnoc(w, INITIAL, ls, Compactor(WriteBatch(true)));
    ls := ls + [Compactor(WriteBatch(true))];
    RunSnoc(w, INITIAL, ls, Compactor(WriteMeta(true)));
    ls := ls + [Compactor(WriteMeta(true))];
    RunSnoc(w, INITIAL, ls, Compactor(WriteDelete(true)));
    ls := ls + [Compactor(WriteDelete(true))];
  }

  /**
   * From the empty store: 1100 blocks are saved and the first batch is compacted, the stream ends, and three failing
   * lookups send the ingester to block 1. The save that follows is low: the store has no shape and no batch is ready,
   * although every height stays readable.
   */
  lemma FailedLookupsLoseShape(w: World) returns (ls: seq<CoreLabel>)
    requires w.Faithful()
    ensures AllowedRun(w, INITIAL, ls) && Allowed(Exec(w, INITIAL, ls), Deliver(1, true))
    ensures LowSave(Exec(w, INITIAL, ls), Deliver(1, true))
    ensures var c := Step(w, Exec(w, INITIAL, ls), Deliver(1, true));
            && c.top == 1100 && !Shaped(w, c.store) && Covered(w, c.store, 1100)
            && forall seen: Option<u64>, s: u64 :: !Ready(c.store, seen, s)
  {
    hide AllowedRun, Exec, Compacted, Inv, Sound, Cover, PcSafe, Covered, w.Faithful, Ready, Shaped, LowSave;
    ls := CompactedRun(w);
    RunSnoc(w, INITIAL, ls, StreamEnds);
    ls := ls + [StreamEnds];
    CompactedFacts(w);
    CompactedInv(w);
    var c := Exec(w, INITIAL, ls);
    BlindRun(w, c);
    RunAppend(w, INITIAL, ls, BLIND);
    ls := ls + BLIND;
    var z := Exec(w, INITIAL, ls);
    LowSaveBreaks(w, z, Deliver(1, true));
    LowSaveStopsCompaction(w, z, Deliver(1, true));
    InitialSafe(w);
    RunSafe(w, INITIAL, ls);
    StepSafe(w, z, Deliver(1, true));
    CoverIsReadable(w, Step(w, z, Deliver(1, true)).store, 1100);
  }

  lemma CompactedFacts(w: World)
    ensures Compacted(w).ingester == Streaming(1101) && Compacted(w).top == 1100
  {
  }

  lemma CompactedInv(w: World)
    ensures Inv(w, Compacted(w).(ingester := Streaming(1)))
    ensures LowSave(Compacted(w).(ingester := Streaming(1)), Deliver(1, true))
  {
    var c := Compacted(w).(ingester := Streaming(1));
    CompactedBlocks(w);
    CompactedBatches(w);
    hide BlockInterval, BatchTiling, Plain, BelowFirst;
    LowIsBelowCut(w, c, 1);
  }

  lemma CompactedBlocks(w: World)
    ensures BlockInterval(w, Compacted(w).store.blocks, 100, 1100)
  {
    hide w.BatchBytes;
    assert BatchEnd(1) == 100;
  }

  lemma CompactedBatches(w: World)
    ensures BatchTiling(w, Compacted(w).store.batches, 100)
  {
    hide w.BatchBytes;
    forall p: (u64, u64) ensures Tile(p, 100) <==> p == (1, 100) {
    }
  }
}
