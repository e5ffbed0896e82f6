/**
 * A run of the plugin that loses blocks: the deferred Abort of an accept that succeeded discards a batch the
 * compactor has just saved, and the deletion that follows is committed with the next accept.
 */
module PluginLoss {
  import opened Prelude
  import opened Framing
  import opened StoreModel
  import opened Compaction
  import opened Soundness
  import opened Plugin

  /** Heights 1..n indexed and accepted, nothing compacted. */
  ghost function Plain(w: World, n: u64): Store {
    Store(imap i: u64 | 1 <= i <= n :: w.chain(i), imap[], 0)
  }

  ghost function Settled(w: World, n: u64): Vm {
    Vm(Plain(w, n), Plain(w, n), n, n, n, Ready, Idle, n, false, false, false)
  }

  /** Nothing fails and nothing crashes. */
  predicate Smooth(ls: seq<VmLabel>) {
    forall l :: l in ls ==> SmoothLabel(l)
  }

  predicate SmoothLabel(l: VmLabel) {
    match l
    case Begin(_, indexes) => indexes
    case Commit => true
    case DeferredAbort => true
    case Compactor(ReadFirst(_)) => true
    case Compactor(ReadLatest(_)) => true
    case Compactor(step) => step.ok
    case _ => false
  }

  function AcceptOne(n: u64): seq<VmLabel> {
    [Begin(n, true), Commit, DeferredAbort]
  }

  function AcceptUpTo(n: nat): seq<VmLabel>
    requires n <= MAX_HEIGHT
    ensures Smooth(AcceptUpTo(n))
  {
    if n == 0 then [] else AcceptUpTo(n - 1) + AcceptOne(n)
  }

  lemma {:induction false} RunAppend(w: World, v: Vm, a: seq<VmLabel>, b: seq<VmLabel>)
    requires AllowedRun(w, v, a) && AllowedRun(w, Exec(w, v, a), b)
    ensures AllowedRun(w, v, a + b) && Exec(w, v, a + b) == Exec(w, Exec(w, v, a), b)
    decreases a
  {
    hide Allowed, Step;
    if a == [] {
      assert a + b == b;
    } else {
      RunAppend(w, Step(w, v, a[0]), a[1..], b);
      assert (a + b)[1..] == a[1..] + b;
    }
  }

  lemma RunSnoc(w: World, v: Vm, a: seq<VmLabel>, l: VmLabel)
    requires AllowedRun(w, v, a) && Allowed(Exec(w, v, a), l)
    ensures AllowedRun(w, v, a + [l]) && Exec(w, v, a + [l]) == Step(w, Exec(w, v, a), l)
  {
    hide Allowed, Step;
    var z := Exec(w, v, a);
    assert [l][1..] == [] && AllowedRun(w, Step(w, z, l), [l][1..]);
    RunAppend(w, v, a, [l]);
  }

  lemma PlainGrows(w: World, n: u64)
    requires n < MAX_HEIGHT
    ensures Plain(w, n).SaveBlock(n + 1, w.chain(n + 1)) == Plain(w, n + 1)
  {
    hide w.BatchBytes;
    var a, b := Plain(w, n).SaveBlock(n + 1, w.chain(n + 1)).blocks, Plain(w, n + 1).blocks;
    forall i: u64 ensures (i in a <==> i in b) && (i in b ==> a[i] == b[i]) {
    }
    assert a == b;
  }

  lemma AcceptSteps(w: World, n: u64)
    requires 1 <= n <= MAX_HEIGHT
    ensures Allowed(Settled(w, n - 1), Begin(n, true)) && forall v :: Allowed(v, Commit) && Allowed(v, DeferredAbort)
    ensures Step(w, Step(w, Step(w, Settled(w, n - 1), Begin(n, true)), Commit), DeferredAbort) == Settled(w, n)
  {
    hide Plain;
    PlainGrows(w, n - 1);
  }

  lemma {:induction false} Accepting(w: World, n: u64)
    requires n <= MAX_HEIGHT
    ensures AllowedRun(w, FRESH, AcceptUpTo(n)) && Exec(w, FRESH, AcceptUpTo(n)) == Settled(w, n)
    decreases n
  {
    if n == 0 {
      assert Plain(w, 0) == EMPTY_STORE;
    } else {
      hide AllowedRun, Exec, Settled, Step, Allowed;
      Accepting(w, n - 1);
      AcceptSteps(w, n);
      var a := AcceptUpTo(n - 1);
      RunSnoc(w, FRESH, a, Begin(n, true));
      RunSnoc(w, FRESH, a + [Begin(n, true)], Commit);
      RunSnoc(w, FRESH, a + [Begin(n, true)] + [Commit], DeferredAbort);
      assert AcceptUpTo(n) == a + [Begin(n, true)] + [Commit] + [DeferredAbort];
    }
  }

  function ReadLabels(k: nat): seq<VmLabel>
    ensures Smooth(ReadLabels(k))
  {
    if k == 0 then [] else ReadLabels(k - 1) + [Compactor(ReadBlock(true))]
  }

  /** After 1101 accepts, with the deferred Abort of the last one still to run. */
  ghost function Loaded(w: World): Vm {
    Settled(w, 1101).(phase := Committed(1101, false), lastIndexed := 1100)
  }

  lemma {:induction false} ReadingOn(w: World, k: nat)
    requires k <= BATCH_SIZE
    ensures var v := Loaded(w).(pc := Reading(1, []));
            AllowedRun(w, v, ReadLabels(k)) && Exec(w, v, ReadLabels(k)) == v.(pc := Reading(1, w.Run(1, 1 + k)))
  {
    var v := Loaded(w).(pc := Reading(1, []));
    if k == 0 {
      assert w.Run(1, 1) == [];
    } else {
      ReadingOn(w, k - 1);
      var z := v.(pc := Reading(1, w.Run(1, k)));
      var n: u64 := k;
      assert n in z.view.blocks && NextRead(1, w.Run(1, k)) == n;
      assert w.Run(1, k) + [w.chain(k)] == w.Run(1, 1 + k);
      RunSnoc(w, v, ReadLabels(k - 1), Compactor(ReadBlock(true)));
    }
  }

  lemma GateAt1101()
    ensures Gate(1, 1101) == Some(1)
  {
  }

  lemma CommittedRun(w: World) returns (ls: seq<VmLabel>)
    ensures AllowedRun(w, FRESH, ls) && Exec(w, FRESH, ls) == Loaded(w)
    ensures Smooth(ls)
  {
    hide AllowedRun, Exec, AcceptUpTo, Plain;
    Accepting(w, 1100);
    PlainGrows(w, 1100);
    ls := AcceptUpTo(1100);
    RunSnoc(w, FRESH, ls, Begin(1101, true));
    ls := ls + [Begin(1101, true)];
    RunSnoc(w, FRESH, ls, Commit);
    ls := ls + [Commit];
  }

  lemma LoadedRun(w: World) returns (ls: seq<VmLabel>)
    ensures AllowedRun(w, FRESH, ls) && Exec(w, FRESH, ls) == Loaded(w).(pc := Reading(1, w.Run(1, 101)))
    ensures Smooth(ls)
  {
    hide AllowedRun, Exec;
    ls := CommittedRun(w);
    var one: u64 := 1;
    assert one in Plain(w, 1101).blocks;
    RunSnoc(w, FRESH, ls, Compactor(ReadFirst(Some(1))));
    ls := ls + [Compactor(ReadFirst(Some(1)))];
    GateAt1101();
    RunSnoc(w, FRESH, ls, Compactor(ReadLatest(Some(1101))));
    ls := ls + [Compactor(ReadLatest(Some(1101)))];
    assert Exec(w, FRESH, ls) == Loaded(w).(pc := Reading(1, []));
    ReadingOn(w, 100);
    RunAppend(w, FRESH, ls, ReadLabels(100));
    ls := ls + ReadLabels(100);
  }

  ghost function BatchOne(w: World): Store {
    Plain(w, 1101).SaveBatch(1, 100, w.BatchBytes(1))
  }

  lemma PackedRun(w: World) returns (ls: seq<VmLabel>)
    ensures AllowedRun(w, FRESH, ls) && Smooth(ls)
    ensures Exec(w, FRESH, ls) == Loaded(w).(pc := Packed(1, w.BatchBytes(1)))
  {
    ls := LoadedRun(w);
    RunSnoc(w, FRESH, ls, Compactor(Compress(true)));
    ls := ls + [Compactor(Compress(true))];
  }

  lemma SavedRun(w: World) returns (ls: seq<VmLabel>)
    ensures AllowedRun(w, FRESH, ls) && Smooth(ls)
    ensures Exec(w, FRESH, ls) == Loaded(w).(pc := BatchSaved(1), view := BatchOne(w))
  {
    hide w.BatchBytes;
    ls := PackedRun(w);
    RunSnoc(w, FRESH, ls, Compactor(WriteBatch(true)));
    ls := ls + [Compactor(WriteBatch(true))];
  }

  ghost function Holed(w: World): Store {
    Plain(w, 1101).SaveMeta(100).DeleteBlocks(1, 100)
  }

  /** The deferred Abort puts the plain store back; meta and the deletion are then written on top of it. */
  lemma DeletedRun(w: World) returns (ls: seq<VmLabel>)
    ensures AllowedRun(w, FRESH, ls) && Smooth(ls)
    ensures Exec(w, FRESH, ls) == Settled(w, 1101).(view := Holed(w))
  {
    hide AllowedRun, Exec;
    ls := SavedRun(w);
    assert !HasBatch(Plain(w, 1101), 1);
    RunSnoc(w, FRESH, ls, DeferredAbort);
    ls := ls + [DeferredAbort];
    assert Exec(w, FRESH, ls) == Settled(w, 1101).(pc := BatchSaved(1), dropped := true);
    RunSnoc(w, FRESH, ls, Compactor(WriteMeta(true)));
    ls := ls + [Compactor(WriteMeta(true))];
    RunSnoc(w, FRESH, ls, Compactor(WriteDelete(true)));
    ls := ls + [Compactor(WriteDelete(true))];
  }

  /**
   * No operation in this run fails and nothing crashes, yet when it ends height 1 is committed as accepted
   * and readable neither on disk nor in memory.
   */
  lemma SuccessfulAcceptLosesBlocks(w: World) returns (ls: seq<VmLabel>)
    ensures AllowedRun(w, FRESH, ls) && Smooth(ls)
    ensures var v := Exec(w, FRESH, ls);
            v.accepted == 1102 && forall d :: !Readable(w, v.disk, 1, d) && !Readable(w, v.view, 1, d)
  {
    hide AllowedRun, Exec;
    ls := DeletedRun(w);
    RunSnoc(w, FRESH, ls, Begin(1102, true));
    ls := ls + [Begin(1102, true)];
    RunSnoc(w, FRESH, ls, Commit);
    ls := ls + [Commit];
    var v := Exec(w, FRESH, ls);
    assert v.disk == v.view == Holed(w).SaveBlock(1102, w.chain(1102));
    var one: u64 := 1;
    assert one !in v.disk.blocks && v.disk.GetBatch(BatchStart(one)).None?;
  }
}
