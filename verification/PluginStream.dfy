/** The same server and client over the plugin's store, which readers see through the uncommitted overlay. */
module PluginStream {
  import opened Prelude
  import opened Framing
  import opened Soundness
  import opened Plugin
  import opened Wire
  import opened Links

  datatype System = System(vm: Vm, link: Link)

  datatype Label =
    | VmMoves(step: VmLabel)
    | ClientMoves(accepted: Option<bool>)
    | LookUpBlock(ok: bool)
    | LookUpBatch(ok: bool)
    | Break

  ghost function ToLink(s: System, l: Label): LinkLabel
    requires !l.VmMoves?
  {
    match l
    case ClientMoves(None) => Connect
    case ClientMoves(Some(accepted)) => Receive(accepted)
    case LookUpBlock(ok) => ServeBlock(if ok then BlockSeen(s.vm.view, s.link) else None)
    case LookUpBatch(ok) => ServeBatch(if ok then BatchSeen(s.vm.view, s.link) else None)
    case Break => Drop
  }

  ghost predicate Enabled(s: System, l: Label) {
    l.VmMoves? ==> Allowed(s.vm, l.step)
  }

  ghost function Next(w: World, s: System, l: Label): System
    requires Enabled(s, l)
  {
    match l
    case VmMoves(step) =>
      System(Step(w, s.vm, step), if step.Restart? then s.link.(conn := Closed) else s.link)
    case _ => s.(link := LinkStep(w, s.link, ToLink(s, l)))
  }

  ghost predicate Trace(w: World, s: System, ls: seq<Label>)
    decreases ls
  {
    ls == [] || (Enabled(s, ls[0]) && Trace(w, Next(w, s, ls[0]), ls[1..]))
  }

  ghost function Final(w: World, s: System, ls: seq<Label>): System
    requires Trace(w, s, ls)
    decreases ls
  {
    if ls == [] then s else Final(w, Next(w, s, ls[0]), ls[1..])
  }

  ghost predicate SystemInv(w: World, from: u64, s: System) {
    Inv(w, s.vm) && LinkInv(w, from, s.link)
  }

  /** A restart of the node takes the connection and what is in flight on it; what the handler has been given stays. */
  lemma RestartCloses(w: World, s: System, latest: Option<u64>)
    requires Enabled(s, VmMoves(Restart(latest)))
    ensures var z := Next(w, s, VmMoves(Restart(latest)));
            z.link == s.link.(conn := Closed) && z.vm.view == z.vm.disk == s.vm.disk
  {
  }

  lemma ViewSound(w: World, v: Vm)
    requires Inv(w, v)
    ensures Sound(w, v.view, ViewTop(v))
  {
  }

  lemma NextKeeps(w: World, from: u64, s: System, l: Label)
    requires w.Faithful() && SystemInv(w, from, s) && Enabled(s, l)
    ensures SystemInv(w, from, Next(w, s, l))
  {
    hide Inv, LinkInv, LinkStep, Step, Allowed, Sound, w.Faithful, w.BatchBytes;
    if l.VmMoves? {
      StepKeeps(w, s.vm, l.step);
      assert LinkInv(w, from, s.link.(conn := Closed)) by { ClosedKeeps(w, from, s.link); }
    } else {
      ViewSound(w, s.vm);
      SeenIsHonest(w, s.vm.view, ViewTop(s.vm), s.link);
      LinkKeeps(w, from, s.link, ToLink(s, l));
    }
  }

  lemma ClosedKeeps(w: World, from: u64, k: Link)
    requires LinkInv(w, from, k)
    ensures LinkInv(w, from, k.(conn := Closed))
  {
  }

  lemma {:induction false} TraceKeeps(w: World, from: u64, s: System, ls: seq<Label>)
    requires w.Faithful() && SystemInv(w, from, s) && Trace(w, s, ls)
    ensures SystemInv(w, from, Final(w, s, ls))
    decreases ls
  {
    hide SystemInv, Next, w.Faithful;
    if ls != [] {
      NextKeeps(w, from, s, ls[0]);
      TraceKeeps(w, from, Next(w, s, ls[0]), ls[1..]);
    }
  }

  ghost function Start(from: u64): System {
    System(FRESH, NewLink(from))
  }

  lemma StartInv(w: World, from: u64)
    ensures SystemInv(w, from, Start(from)) && BothCover(Start(from).vm)
  {
    FreshInv(w);
    NewLinkInv(w, from);
  }

  /**
   * The end-to-end property for the plugin. The server may stream a block whose accept then fails, or that a
   * crash takes back; what the handler has been given is still the chain from max(1, from) on, each block once
   * and in order. Not even an orphan deletion changes that: it can stall the stream, not corrupt it.
   */
  lemma HandlerSeesTheChain(w: World, from: u64, ls: seq<Label>)
    requires w.Faithful() && Trace(w, Start(from), ls)
    ensures var got := Final(w, Start(from), ls).link.delivered;
            got == Blocks(w, Max(1, from), Max(1, from) + |got|)
  {
    hide Inv, Trace, Final, Next, Chained, w.Faithful;
    StartInv(w, from);
    TraceKeeps(w, from, Start(from), ls);
  }

  /** Once the handler has refused a pack, no run gives it anything more. */
  lemma {:induction false} RefusalIsFinal(w: World, s: System, ls: seq<Label>)
    requires !s.link.live && s.link.conn.Closed? && Trace(w, s, ls)
    ensures Final(w, s, ls).link == s.link
    decreases ls
  {
    if ls != [] {
      if !ls[0].VmMoves? { DeadStays(w, s.link, ToLink(s, ls[0])); }
      RefusalIsFinal(w, Next(w, s, ls[0]), ls[1..]);
    }
  }

  // ----- when a pass sends -----

  /** Only the VM and its compactor move, and the node does not restart. */
  predicate Quiet(ls: seq<Label>) {
    forall l :: l in ls ==> l.VmMoves? && !l.step.Restart?
  }

  /** An Abort that takes the batch from the readers because it is not committed. */
  ghost predicate Drops(v: Vm, l: VmLabel, b: u64) {
    ((l.Fail? && v.phase.Inner?) || (l.DeferredAbort? && v.phase.Committed?)) && !HasBatch(v.disk, b)
  }

  ghost predicate NoDrop(w: World, s: System, ls: seq<Label>, b: u64)
    requires Trace(w, s, ls)
    decreases ls
  {
    ls == [] || ((ls[0].VmMoves? ==> !Drops(s.vm, ls[0].step, b)) && NoDrop(w, Next(w, s, ls[0]), ls[1..], b))
  }

  lemma StepKeepsBatch(w: World, v: Vm, l: VmLabel, b: u64)
    requires Allowed(v, l) && !l.Restart? && !Drops(v, l, b) && HasBatch(v.view, b)
    ensures HasBatch(Step(w, v, l).view, b)
  {
    hide w.BatchBytes;
  }

  lemma {:induction false} QuietKeeps(w: World, from: u64, s: System, ls: seq<Label>, b: u64)
    requires w.Faithful() && SystemInv(w, from, s) && Trace(w, s, ls) && Quiet(ls)
    ensures SystemInv(w, from, Final(w, s, ls)) && Final(w, s, ls).link == s.link
    ensures NoDrop(w, s, ls, b) && HasBatch(s.vm.view, b) ==> HasBatch(Final(w, s, ls).vm.view, b)
    decreases ls
  {
    hide Inv, LinkInv, Step, Allowed, HasBatch, Drops, w.Faithful;
    if ls != [] {
      NextKeeps(w, from, s, ls[0]);
      if HasBatch(s.vm.view, b) && !Drops(s.vm, ls[0].step, b) {
        StepKeepsBatch(w, s.vm, ls[0].step, b);
      }
      QuietKeeps(w, from, Next(w, s, ls[0]), ls[1..], b);
    }
  }

  /**
   * Whatever the VM does between the two lookups of a pass, the pass sends a frame if and only if the block is there
   * at the first lookup or its batch at the second.
   */
  lemma PassSends(w: World, from: u64, s: System, between: seq<Label>)
    requires w.Faithful() && SystemInv(w, from, s) && s.link.conn.Open? && !s.link.conn.missed
    requires Quiet(between) && Trace(w, Next(w, s, LookUpBlock(true)), between)
    ensures var n := s.link.conn.cursor;
            var y := Final(w, Next(w, s, LookUpBlock(true)), between);
            var z := Next(w, y, LookUpBatch(true));
            z.link.conn.Open? &&
            (z.link.conn.sent != s.link.conn.sent <==> n in s.vm.view.blocks || HasBatch(y.vm.view, BatchStart(n)))
  {
    hide Inv, LinkInv, BatchStart, Quiet, Trace, Final, Step, w.Faithful, w.BatchBytes, LinkStep;
    var s1 := Next(w, s, LookUpBlock(true));
    NextKeeps(w, from, s, LookUpBlock(true));
    QuietKeeps(w, from, s1, between, 1);
    var s2 := Final(w, s1, between);
    var block, batch := BlockSeen(s.vm.view, s.link), BatchSeen(s2.vm.view, s1.link);
    PassSendsExactly(w, s.link, block, batch);
    FoundIsThere(w, from, s, s2, s1.link);
  }

  lemma FoundIsThere(w: World, from: u64, s: System, s2: System, k1: Link)
    requires w.Faithful() && SystemInv(w, from, s) && Inv(w, s2.vm) && s.link.conn.Open? && !s.link.conn.missed
    requires k1 == LinkStep(w, s.link, ServeBlock(BlockSeen(s.vm.view, s.link)))
    ensures Found(BlockSeen(s.vm.view, s.link)) <==> s.link.conn.cursor in s.vm.view.blocks
    ensures s.link.conn.cursor !in s.vm.view.blocks ==>
              (Found(BatchSeen(s2.vm.view, k1)) <==> HasBatch(s2.vm.view, BatchStart(s.link.conn.cursor)))
  {
    hide Inv, BatchStart;
    ViewSound(w, s.vm);
    ViewSound(w, s2.vm);
    SeenIsHonest(w, s.vm.view, ViewTop(s.vm), s.link);
    SeenIsHonest(w, s2.vm.view, ViewTop(s2.vm), k1);
    hide Sound;
    var n := s.link.conn.cursor;
    if n <= MAX_HEIGHT { FramedData(w, n); }
  }

  /**
   * Hence a pass at a covered height sends unless, after its first lookup has missed, an Abort drops the batch before
   * the second. A pass that nothing disturbs, such as the next one, sends.
   */
  lemma CoveredHeightIsSent(w: World, from: u64, s: System, between: seq<Label>)
    requires w.Faithful() && SystemInv(w, from, s) && Cover(s.vm.view, ViewTop(s.vm))
    requires s.link.conn.Open? && !s.link.conn.missed && s.link.conn.cursor <= ViewTop(s.vm)
    requires Quiet(between) && Trace(w, Next(w, s, LookUpBlock(true)), between)
    requires NoDrop(w, Next(w, s, LookUpBlock(true)), between, BatchStart(s.link.conn.cursor))
    ensures var z := Next(w, Final(w, Next(w, s, LookUpBlock(true)), between), LookUpBatch(true));
            z.link.conn.Open? && z.link.conn.sent != s.link.conn.sent
  {
    hide Inv, LinkInv, BatchStart, Quiet, Trace, Final, NoDrop, Step, w.Faithful, w.BatchBytes, LinkStep, HasBatch;
    CursorFacts(w, from, s.link);
    PassSends(w, from, s, between);
    NextKeeps(w, from, s, LookUpBlock(true));
    QuietKeeps(w, from, Next(w, s, LookUpBlock(true)), between, BatchStart(s.link.conn.cursor));
  }

  // ----- nothing gets stuck without an orphan deletion -----

  ghost predicate Orphanless(w: World, s: System, ls: seq<Label>)
    requires Trace(w, s, ls)
    decreases ls
  {
    ls == [] || ((ls[0].VmMoves? ==> !OrphanDelete(s.vm, ls[0].step)) && Orphanless(w, Next(w, s, ls[0]), ls[1..]))
  }

  lemma {:induction false} TraceCovers(w: World, from: u64, s: System, ls: seq<Label>)
    requires w.Faithful() && SystemInv(w, from, s) && BothCover(s.vm) && Trace(w, s, ls) && Orphanless(w, s, ls)
    ensures SystemInv(w, from, Final(w, s, ls)) && BothCover(Final(w, s, ls).vm)
    decreases ls
  {
    hide Inv, LinkInv, BothCover, Step, Allowed, OrphanDelete, LinkStep, w.Faithful;
    if ls != [] {
      NextKeeps(w, from, s, ls[0]);
      if ls[0].VmMoves? { StepCovers(w, s.vm, ls[0].step); }
      TraceCovers(w, from, Next(w, s, ls[0]), ls[1..]);
    }
  }

  const ROUND: seq<Label> := [LookUpBlock(true)] + [LookUpBatch(true)] + [ClientMoves(Some(true))]

  lemma OneStep(w: World, s: System, l: Label, rest: seq<Label>)
    requires Enabled(s, l) && Trace(w, Next(w, s, l), rest)
    ensures Trace(w, s, [l] + rest) && Final(w, s, [l] + rest) == Final(w, Next(w, s, l), rest)
  {
    assert ([l] + rest)[1..] == rest;
  }

  lemma RoundTrace(w: World, s: System, rest: seq<Label>)
    requires Trace(w, s.(link := RoundOf(w, s.vm.view, s.link)), rest)
    ensures Trace(w, s, ROUND + rest)
    ensures Final(w, s, ROUND + rest) == Final(w, s.(link := RoundOf(w, s.vm.view, s.link)), rest)
  {
    hide LinkStep;
    var s1 := Next(w, s, LookUpBlock(true));
    var s2 := Next(w, s1, LookUpBatch(true));
    OneStep(w, s2, ClientMoves(Some(true)), rest);
    OneStep(w, s1, LookUpBatch(true), [ClientMoves(Some(true))] + rest);
    OneStep(w, s, LookUpBlock(true), [LookUpBatch(true)] + ([ClientMoves(Some(true))] + rest));
    assert ROUND + rest == [LookUpBlock(true)] + ([LookUpBatch(true)] + ([ClientMoves(Some(true))] + rest));
  }

  lemma {:induction false} Rounds(w: World, from: u64, s: System) returns (ls: seq<Label>)
    requires w.Faithful() && SystemInv(w, from, s) && Cover(s.vm.view, ViewTop(s.vm))
    requires Drained(s.link) && s.link.conn.cursor <= ViewTop(s.vm) + 1
    ensures Trace(w, s, ls) && forall l :: l in ls ==> !l.VmMoves?
    ensures var z := Final(w, s, ls); LinkInv(w, from, z.link) && Drained(z.link) && z.link.conn.cursor == ViewTop(s.vm) + 1
    decreases ViewTop(s.vm) + 1 - s.link.conn.cursor
  {
    hide Inv, Cover, LinkInv, RoundOf, Next, w.Faithful;
    if s.link.conn.cursor == ViewTop(s.vm) + 1 {
      ls := [];
    } else {
      ViewSound(w, s.vm);
      RoundAdvances(w, from, s.vm.view, ViewTop(s.vm), s.link);
      var z := s.(link := RoundOf(w, s.vm.view, s.link));
      var rest := Rounds(w, from, z);
      RoundTrace(w, s, rest);
      ls := ROUND + rest;
    }
  }

  /**
   * After a run without an orphan deletion, as long as the handler has not failed, reconnecting and reading on gives
   * it every height that readers see, without a further step of the VM.
   */
  lemma EverythingIndexedArrives(w: World, from: u64, ls: seq<Label>) returns (more: seq<Label>)
    requires w.Faithful() && Trace(w, Start(from), ls) && Orphanless(w, Start(from), ls)
    requires var s := Final(w, Start(from), ls); s.link.live && Max(1, s.link.current) <= ViewTop(s.vm) + 1
    ensures Trace(w, Final(w, Start(from), ls), more) && forall l :: l in more ==> !l.VmMoves?
    ensures var s := Final(w, Start(from), ls);
            Max(1, from) <= ViewTop(s.vm) + 1 &&
            Final(w, s, more).link.delivered == Blocks(w, Max(1, from), ViewTop(s.vm) + 1)
  {
    hide Inv, Cover, LinkInv, w.Faithful, Chained, LinkStep;
    StartInv(w, from);
    TraceCovers(w, from, Start(from), ls);
    var s := Final(w, Start(from), ls);
    var s1 := Next(w, s, Break);
    var s2 := Next(w, s1, ClientMoves(None));
    Reconnects(w, from, s.link);
    var rest := Rounds(w, from, s2);
    OneStep(w, s1, ClientMoves(None), rest);
    OneStep(w, s, Break, [ClientMoves(None)] + rest);
    more := [Break] + ([ClientMoves(None)] + rest);
    DrainedIsDelivered(w, from, Final(w, s2, rest).link);
  }
}
