/**
 * The accept protocol of indexing-subnet-evm (block.go, indexer.go, vm.go) over versiondb, with the compactor
 * writing through the same overlay. disk is what is committed, view what readers see on top of it; a write
 * changes view, Commit copies view to disk together with the accepted height, Abort copies disk to view.
 */
module Plugin {
  import opened Prelude
  import opened Framing
  import opened StoreModel
  import opened Compaction
  import opened Soundness

  // Where the consensus thread stands in Accept. skip: the height was indexed before, so only the inner
  // accept runs. Committed: the inner accept's deferred Abort is still to come.
  datatype Phase = Ready | Inner(height: u64, skip: bool) | Committed(height: u64, skip: bool)

  /**
   * accepted is the height committed with disk; cache, lastIndexed, phase and pc live in memory. The rest
   * records the run: top is the greatest height whose index was committed, failed that an indexed accept
   * failed and was not retried yet, dropped that an Abort discarded the batch the compactor is working on,
   * gap that a restart reported an index gap. No step reads them.
   */
  datatype Vm = Vm(disk: Store, view: Store, accepted: u64, cache: u64, lastIndexed: u64,
                   phase: Phase, pc: Pc, top: int, failed: bool, dropped: bool, gap: bool)

  datatype VmLabel =
    | Begin(height: u64, indexes: bool)   // indexes is false when indexBlock returns an error
    | Commit                              // the inner accept succeeds
    | Fail                                // the inner accept fails: its deferred Abort runs
    | DeferredAbort                       // the same Abort after a commit, and the return to Accept
    | Compactor(step: CompactorLabel)
    | Restart(latest: Option<u64>)        // a crash, then Initialize with the startup scan's result

  ghost const FRESH: Vm := Vm(EMPTY_STORE, EMPTY_STORE, 0, 0, 0, Ready, Idle, 0, false, false, false)

  /**
   * Consensus accepts heights in order, possibly again from an earlier one; lookups return what is stored, and that
   * of the first block may fail and find nothing.
   */
  ghost predicate Allowed(v: Vm, l: VmLabel) {
    match l
    case Begin(h, _) => 1 <= h <= v.accepted + 1 && h <= MAX_HEIGHT
    case Compactor(ReadFirst(r)) => r.None? || IsFirstBlock(v.view, r)
    case Compactor(ReadLatest(r)) => r == if v.cache > 0 then Some(v.cache) else None
    case Restart(r) => IsLastBlock(v.disk, r)
    case _ => true
  }

  /** The batch a compaction has saved and not yet followed by its deletion. */
  function InFlight(pc: Pc): Option<u64> {
    match pc
    case BatchSaved(s) => Some(s)
    case MetaSaved(s) => Some(s)
    case _ => None
  }

  ghost function Aborted(v: Vm): Vm {
    v.(view := v.disk,
       phase := Ready,
       dropped := match InFlight(v.pc) case Some(s) => !HasBatch(v.disk, s) case None => false)
  }

  ghost function Step(w: World, v: Vm, l: VmLabel): Vm
    requires Allowed(v, l)
  {
    match l
    case Begin(h, indexes) =>
      if !v.phase.Ready? then v
      else if h <= v.lastIndexed then v.(phase := Inner(h, true))
      else if !indexes then v
      else v.(view := v.view.SaveBlock(h, w.chain(h)),
              cache := Max(v.cache, h), phase := Inner(h, false), failed := false)
    case Commit =>
      if !v.phase.Inner? then v
      else v.(disk := v.view, accepted := v.phase.height, phase := Committed(v.phase.height, v.phase.skip),
              top := if v.phase.skip then v.top else v.phase.height)
    case Fail =>
      if !v.phase.Inner? then v
      else Aborted(v).(failed := v.failed || !v.phase.skip)
    case DeferredAbort =>
      if !v.phase.Committed? then v
      else Aborted(v).(lastIndexed := if v.phase.skip then v.lastIndexed else v.phase.height)
    case Compactor(cl) =>
      var (st, pc) := CompactorStep(w, v.view, v.pc, cl);
      v.(view := st, pc := pc, dropped := v.dropped && InFlight(pc).Some?)
    case Restart(latest) =>
      var restored := Max(v.disk.meta, if latest.Some? then latest.value else 0);
      Vm(v.disk, v.disk, v.accepted, if latest.Some? then latest.value else 0, restored, Ready, Idle, v.top,
         false, false, v.gap || (restored > 0 && v.accepted > restored))
  }

  ghost predicate AllowedRun(w: World, v: Vm, ls: seq<VmLabel>)
    decreases ls
  {
    ls == [] || (Allowed(v, ls[0]) && AllowedRun(w, Step(w, v, ls[0]), ls[1..]))
  }

  ghost function Exec(w: World, v: Vm, ls: seq<VmLabel>): Vm
    requires AllowedRun(w, v, ls)
    decreases ls
  {
    if ls == [] then v else Exec(w, Step(w, v, ls[0]), ls[1..])
  }

  // ----- the invariant, which no Abort can break -----

  function ViewTop(v: Vm): int {
    if v.phase.Inner? && !v.phase.skip then v.top + 1 else v.top
  }

  ghost predicate StartFits(v: Vm, s: u64) {
    s % BATCH_SIZE == 1 && s + BATCH_SIZE - 1 + MIN_BLOCKS <= v.top + 1
  }

  ghost predicate PcFits(w: World, v: Vm) {
    match v.pc
    case Idle => true
    case GotFirst(f) => 1 <= f <= v.cache
    case Reading(s, got) => StartFits(v, s) && |got| <= BATCH_SIZE && got == w.Run(s, s + |got|)
    case Packed(s, data) => StartFits(v, s) && data == w.BatchBytes(s)
    case BatchSaved(s) => StartFits(v, s) && (v.dropped <==> !HasBatch(v.view, s))
    case MetaSaved(s) => StartFits(v, s) && (v.dropped <==> !HasBatch(v.view, s))
  }

  ghost predicate PhaseFits(v: Vm) {
    match v.phase
    case Ready => v.lastIndexed == v.top
    case Inner(h, skip) => v.lastIndexed == v.top && if skip then h <= v.top else h == v.top + 1 <= MAX_HEIGHT
    case Committed(h, skip) => v.accepted == h && if skip then v.lastIndexed == v.top else v.lastIndexed == v.top - 1 == h - 1
  }

  ghost predicate Inv(w: World, v: Vm) {
    && Sound(w, v.disk, v.top) && Sound(w, v.view, ViewTop(v))
    && v.accepted <= v.top
    && v.cache == ViewTop(v) + (if v.failed then 1 else 0)
    && (v.failed && v.phase.Inner? ==> v.phase.skip)
    && (v.failed ==> v.top < MAX_HEIGHT)
    && (InFlight(v.pc).None? ==> !v.dropped)
    && PhaseFits(v) && PcFits(w, v) && !v.gap
  }

  lemma LastIsTop(w: World, st: Store, top: int, r: Option<u64>)
    requires Sound(w, st, top) && IsLastBlock(st, r)
    ensures r == if top == 0 then None else Some(top)
  {
    if top > 0 {
      var n: u64 := top;
      assert n in st.blocks;
    }
  }

  lemma AcceptKeeps(w: World, v: Vm, l: VmLabel)
    requires Inv(w, v) && Allowed(v, l) && !l.Compactor?
    ensures Inv(w, Step(w, v, l))
  {
    hide Sound, w.BatchBytes;
    match l
    case Begin(h, indexes) =>
      if v.phase.Ready? && h > v.lastIndexed { SaveSound(w, v.view, v.top); }
    case Commit =>
    case Fail =>
    case DeferredAbort =>
    case Compactor(_) =>
    case Restart(r) =>
      LastIsTop(w, v.disk, v.top, r);
      MetaBelow(w, v.disk, v.top);
  }

  lemma LookupKeeps(w: World, v: Vm, l: CompactorLabel)
    requires Inv(w, v) && Allowed(v, Compactor(l)) && (l.ReadFirst? || l.ReadLatest?)
    ensures Inv(w, Step(w, v, Compactor(l)))
  {
    hide Gate, w.BatchBytes;
    assert v.cache <= v.top + 1 && v.cache <= MAX_HEIGHT;
    if l.ReadLatest? && v.pc.GotFirst? && l.latest.Some? && Gate(v.pc.first, l.latest.value).Some? {
      GatePicks(v.pc.first, v.cache, Gate(v.pc.first, v.cache).value);
    }
  }

  lemma ReadKeeps(w: World, v: Vm, ok: bool)
    requires Inv(w, v)
    ensures Inv(w, Step(w, v, Compactor(ReadBlock(ok))))
  {
    hide Sound;
    if v.pc.Reading? && |v.pc.got| < BATCH_SIZE {
      var s, k := v.pc.start, |v.pc.got|;
      assert w.Run(s, s + k + 1) == w.Run(s, s + k) + [w.chain(s + k)];
      ReadsTrue(w, v.view, ViewTop(v), NextRead(s, v.pc.got));
    }
  }

  lemma CompressKeeps(w: World, v: Vm, ok: bool)
    requires Inv(w, v)
    ensures Inv(w, Step(w, v, Compactor(Compress(ok))))
  {
    hide Sound;
  }

  lemma WriteKeeps(w: World, v: Vm, l: CompactorLabel)
    requires Inv(w, v) && (l.WriteBatch? || l.WriteMeta? || l.WriteDelete?)
    ensures Inv(w, Step(w, v, Compactor(l)))
  {
    hide Sound, w.BatchBytes;
    var t := ViewTop(v);
    match l
    case WriteBatch(_) => if v.pc.Packed? { BatchSound(w, v.view, t, v.pc.start); }
    case WriteMeta(_) => if v.pc.BatchSaved? { BatchSound(w, v.view, t, v.pc.start); }
    case WriteDelete(_) => if v.pc.MetaSaved? { DeleteSound(w, v.view, t, v.pc.start); }
  }

  lemma StepKeeps(w: World, v: Vm, l: VmLabel)
    requires Inv(w, v) && Allowed(v, l)
    ensures Inv(w, Step(w, v, l))
  {
    hide Inv, Allowed, Step;
    match l
    case Compactor(cl) =>
      if cl.ReadFirst? || cl.ReadLatest? { LookupKeeps(w, v, cl); }
      else if cl.ReadBlock? { ReadKeeps(w, v, cl.ok); }
      else if cl.Compress? { CompressKeeps(w, v, cl.ok); }
      else { WriteKeeps(w, v, cl); }
    case _ => AcceptKeeps(w, v, l);
  }

  lemma {:induction false} RunKeeps(w: World, v: Vm, ls: seq<VmLabel>)
    requires Inv(w, v) && AllowedRun(w, v, ls)
    ensures Inv(w, Exec(w, v, ls))
    decreases ls
  {
    hide Inv, Allowed, Step;
    if ls != [] {
      StepKeeps(w, v, ls[0]);
      RunKeeps(w, Step(w, v, ls[0]), ls[1..]);
    }
  }

  lemma FreshInv(w: World)
    ensures Inv(w, FRESH)
  {
  }

  // ----- what holds on every run, whatever is aborted -----

  /**
   * The index never falls behind the chain: the accepted height is at most the greatest indexed one, a block
   * skipped by Accept was indexed before, a restart restores exactly the indexed height and reports no gap,
   * and the cached tip is the greatest block readers see, or one more after a failed accept until its retry.
   */
  lemma IndexKeepsUp(w: World, ls: seq<VmLabel>)
    requires AllowedRun(w, FRESH, ls)
    ensures var v := Exec(w, FRESH, ls);
            && v.accepted <= v.top && !v.gap
            && (v.phase.Inner? && v.phase.skip ==> v.phase.height <= v.top)
            && (v.phase.Ready? ==> v.lastIndexed == v.top)
            && v.cache == ViewTop(v) + (if v.failed then 1 else 0)
            && IsLastBlock(v.view, if ViewTop(v) == 0 then None else Some(ViewTop(v)))
  {
    FreshInv(w);
    RunKeeps(w, FRESH, ls);
    TopIsLast(w, Exec(w, FRESH, ls).view, ViewTop(Exec(w, FRESH, ls)));
  }

  /** Initialize finds lastIndexed == top, so neither the gap error nor a second indexing can follow. */
  lemma RestartRestoresTop(w: World, ls: seq<VmLabel>, r: Option<u64>)
    requires AllowedRun(w, FRESH, ls) && IsLastBlock(Exec(w, FRESH, ls).disk, r)
    ensures var v := Step(w, Exec(w, FRESH, ls), Restart(r));
            v.lastIndexed == Exec(w, FRESH, ls).top && v.accepted <= v.lastIndexed && !v.gap
  {
    hide Sound, PcFits, IsLastBlock;
    FreshInv(w);
    RunKeeps(w, FRESH, ls);
    StepKeeps(w, Exec(w, FRESH, ls), Restart(r));
  }

  // ----- coverage, and the one thing that breaks it -----

  /** A deletion that takes effect although the batch it relies on was discarded by an Abort. */
  ghost predicate OrphanDelete(v: Vm, l: VmLabel) {
    l == Compactor(WriteDelete(true)) && v.pc.MetaSaved? && v.dropped
  }

  ghost predicate BothCover(v: Vm) {
    Cover(v.disk, v.top) && Cover(v.view, ViewTop(v))
  }

  /** Every other step keeps both the committed and the visible store covered; an orphan deletion never does. */
  lemma StepCovers(w: World, v: Vm, l: VmLabel)
    requires Inv(w, v) && Allowed(v, l) && BothCover(v)
    ensures if OrphanDelete(v, l) then !Cover(Step(w, v, l).view, ViewTop(Step(w, v, l))) else BothCover(Step(w, v, l))
  {
    hide Sound, Cover, w.BatchBytes, HasBatch;
    match l
    case Begin(h, _) =>
      if v.phase.Ready? { GrowthCovers(v.view, v.top, h, w.chain(h), (1, 1), 1); }
    case Compactor(WriteBatch(_)) =>
      if v.pc.Packed? {
        GrowthCovers(v.view, ViewTop(v), 1, v.pc.data, (v.pc.start, BatchEnd(v.pc.start)), 1);
      }
    case Compactor(WriteMeta(_)) =>
      if v.pc.BatchSaved? { GrowthCovers(v.view, ViewTop(v), 1, [], (1, 1), BatchEnd(v.pc.start)); }
    case Compactor(WriteDelete(_)) =>
      if v.pc.MetaSaved? { DeleteCovers(w, v.view, ViewTop(v), v.pc.start); }
    case _ =>
  }

  ghost predicate NoOrphans(w: World, v: Vm, ls: seq<VmLabel>)
    requires AllowedRun(w, v, ls)
    decreases ls
  {
    ls == [] || (!OrphanDelete(v, ls[0]) && NoOrphans(w, Step(w, v, ls[0]), ls[1..]))
  }

  /** In every state of the run readers find every height with its exact bytes. */
  ghost predicate AlwaysCovered(w: World, v: Vm, ls: seq<VmLabel>)
    requires AllowedRun(w, v, ls)
    decreases ls
  {
    Covered(w, v.view, ViewTop(v)) && (ls == [] || AlwaysCovered(w, Step(w, v, ls[0]), ls[1..]))
  }

  lemma {:induction false} CoveredExactly(w: World, v: Vm, ls: seq<VmLabel>)
    requires w.Faithful() && Inv(w, v) && BothCover(v) && AllowedRun(w, v, ls)
    ensures AlwaysCovered(w, v, ls) <==> NoOrphans(w, v, ls)
    ensures NoOrphans(w, v, ls) ==> BothCover(Exec(w, v, ls))
    decreases ls
  {
    hide Sound, Cover, Covered, Step, Allowed, PcFits, PhaseFits, w.Faithful;
    CoverIsReadable(w, v.view, ViewTop(v));
    if ls != [] {
      var v' := Step(w, v, ls[0]);
      StepKeeps(w, v, ls[0]);
      StepCovers(w, v, ls[0]);
      if OrphanDelete(v, ls[0]) {
        CoverIsReadable(w, v'.view, ViewTop(v'));
      } else {
        CoveredExactly(w, v', ls[1..]);
      }
    }
  }

  /** From an empty store, coverage holds throughout a run exactly when no orphan deletion occurs in it. */
  lemma CoverageExactly(w: World, ls: seq<VmLabel>)
    requires w.Faithful() && AllowedRun(w, FRESH, ls)
    ensures AlwaysCovered(w, FRESH, ls) <==> NoOrphans(w, FRESH, ls)
  {
    FreshInv(w);
    CoveredExactly(w, FRESH, ls);
  }

  /** The committed store then holds every indexed height too, so every accepted height is indexed on disk. */
  lemma AcceptedIsIndexed(w: World, ls: seq<VmLabel>)
    requires w.Faithful() && AllowedRun(w, FRESH, ls) && NoOrphans(w, FRESH, ls)
    ensures var v := Exec(w, FRESH, ls);
            Covered(w, v.disk, v.top) && v.accepted <= v.top && Covered(w, v.view, ViewTop(v))
  {
    FreshInv(w);
    RunKeeps(w, FRESH, ls);
    CoveredExactly(w, FRESH, ls);
    var v := Exec(w, FRESH, ls);
    CoverIsReadable(w, v.disk, v.top);
    CoverIsReadable(w, v.view, ViewTop(v));
  }

  // ----- a condition on the Aborts alone -----

  /** An Abort that runs while a batch is saved but not committed and its blocks are not yet deleted. */
  ghost predicate AbortInWindow(v: Vm, l: VmLabel) {
    && ((l.Fail? && v.phase.Inner?) || (l.DeferredAbort? && v.phase.Committed?))
    && InFlight(v.pc).Some? && !HasBatch(v.disk, InFlight(v.pc).value)
  }

  ghost predicate NoAbortInWindow(w: World, v: Vm, ls: seq<VmLabel>)
    requires AllowedRun(w, v, ls)
    decreases ls
  {
    ls == [] || (!AbortInWindow(v, ls[0]) && NoAbortInWindow(w, Step(w, v, ls[0]), ls[1..]))
  }

  lemma {:induction false} WindowSuffices(w: World, v: Vm, ls: seq<VmLabel>)
    requires AllowedRun(w, v, ls) && NoAbortInWindow(w, v, ls) && !v.dropped
    ensures NoOrphans(w, v, ls)
    decreases ls
  {
    hide Allowed, HasBatch;
    if ls != [] {
      WindowSuffices(w, Step(w, v, ls[0]), ls[1..]);
    }
  }

  /** Hence, with no Abort between a SaveBatch and its DeleteBlockRange, both stores keep everything. */
  lemma NoAbortNoLoss(w: World, ls: seq<VmLabel>)
    requires w.Faithful() && AllowedRun(w, FRESH, ls) && NoAbortInWindow(w, FRESH, ls)
    ensures var v := Exec(w, FRESH, ls); Covered(w, v.disk, v.top) && Covered(w, v.view, ViewTop(v))
    ensures AlwaysCovered(w, FRESH, ls)
  {
    WindowSuffices(w, FRESH, ls);
    CoverageExactly(w, ls);
    AcceptedIsIndexed(w, ls);
  }
}
