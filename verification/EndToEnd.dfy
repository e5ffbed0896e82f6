/**
 * One client of the service while the ingester and the compactor run: the steps of its connections interleave freely
 * with the store's own, and any operation may fail.
 */
module EndToEnd {
  import opened Prelude
  import opened Framing
  import opened Soundness
  import opened Pipeline
  import opened Wire
  import opened Links

  datatype System = System(core: Core, link: Link)

  datatype Label =
    | StoreMoves(step: CoreLabel)
    | ClientMoves(accepted: Option<bool>)   // None connects, Some(verdict) receives the next frame
    | LookUpBlock(ok: bool)                 // the server's lookups; ok is false on a read error
    | LookUpBatch(ok: bool)
    | Break                                 // the connection breaks off; frames in flight are lost

  ghost function ToLink(s: System, l: Label): LinkLabel
    requires !l.StoreMoves?
  {
    match l
    case ClientMoves(None) => Connect
    case ClientMoves(Some(accepted)) => Receive(accepted)
    case LookUpBlock(ok) => ServeBlock(if ok then BlockSeen(s.core.store, s.link) else None)
    case LookUpBatch(ok) => ServeBatch(if ok then BatchSeen(s.core.store, s.link) else None)
    case Break => Drop
  }

  ghost predicate Enabled(s: System, l: Label) {
    l.StoreMoves? ==> Allowed(s.core, l.step)
  }

  /** A crash of the service also ends its connections. */
  ghost function Next(w: World, s: System, l: Label): System
    requires Enabled(s, l)
  {
    match l
    case StoreMoves(step) =>
      System(Step(w, s.core, step), if step.Crash? then s.link.(conn := Closed) else s.link)
    case _ => s.(link := LinkStep(w, s.link, ToLink(s, l)))
  }

  ghost predicate Trace(w: World, s: System, ls: seq<Label>)
    decreases ls
  {
    ls == [] || (Enabled(s, ls[0]) && Trace(w, Next(w, s, ls[0]), ls[1..]))
  }

  ghost function Final(w: World, s: System, ls: seq<Label>): System
    requires Trace(w, s, ls)
    decreases ls
  {
    if ls == [] then s else Final(w, Next(w, s, ls[0]), ls[1..])
  }

  ghost predicate SystemInv(w: World, from: u64, s: System) {
    Safe(w, s.core) && LinkInv(w, from, s.link)
  }

  lemma NextKeeps(w: World, from: u64, s: System, l: Label)
    requires w.Faithful() && SystemInv(w, from, s) && Enabled(s, l)
    ensures SystemInv(w, from, Next(w, s, l))
  {
    hide Sound, Cover, PcSafe, LinkInv, LinkStep, Step, Allowed, w.Faithful, w.BatchBytes;
    if l.StoreMoves? {
      StepSafe(w, s.core, l.step);
      assert l.step.Crash? ==> LinkInv(w, from, s.link.(conn := Closed)) by { ClosedKeeps(w, from, s.link); }
    } else {
      SeenIsHonest(w, s.core.store, s.core.top, s.link);
      LinkKeeps(w, from, s.link, ToLink(s, l));
    }
  }

  lemma ClosedKeeps(w: World, from: u64, k: Link)
    requires LinkInv(w, from, k)
    ensures LinkInv(w, from, k.(conn := Closed))
  {
  }

  /** A crash takes the connection and what is in flight on it; what the handler has been given stays. */
  lemma CrashCloses(w: World, s: System)
    requires Enabled(s, StoreMoves(Crash))
    ensures var z := Next(w, s, StoreMoves(Crash));
            z.link == s.link.(conn := Closed) && z.core.store == s.core.store && z.core.pc.Idle?
  {
  }

  lemma {:induction false} TraceKeeps(w: World, from: u64, s: System, ls: seq<Label>)
    requires w.Faithful() && SystemInv(w, from, s) && Trace(w, s, ls)
    ensures SystemInv(w, from, Final(w, s, ls))
    decreases ls
  {
    hide SystemInv, Next, w.Faithful;
    if ls != [] {
      NextKeeps(w, from, s, ls[0]);
      TraceKeeps(w, from, Next(w, s, ls[0]), ls[1..]);
    }
  }

  ghost function Start(from: u64): System {
    System(INITIAL, NewLink(from))
  }

  lemma StartInv(w: World, from: u64)
    ensures SystemInv(w, from, Start(from))
  {
    InitialSafe(w);
    NewLinkInv(w, from);
  }

  /**
   * The end-to-end property. For every interleaving of ingestion, store writes, lookups, frames, failures of any
   * operation, disconnections, reconnections and crashes, what the handler has been given, all packs joined, is the
   * chain's blocks from height max(1, from) upward: in order, none missing, none twice, bytes as saved.
   */
  lemma HandlerSeesTheChain(w: World, from: u64, ls: seq<Label>)
    requires w.Faithful() && Trace(w, Start(from), ls)
    ensures var got := Final(w, Start(from), ls).link.delivered;
            got == Blocks(w, Max(1, from), Max(1, from) + |got|)
  {
    hide Safe, w.Faithful, Chained, Next;
    StartInv(w, from);
    TraceKeeps(w, from, Start(from), ls);
  }

  /** Once the handler has refused a pack, no run gives it anything more. */
  lemma {:induction false} RefusalIsFinal(w: World, s: System, ls: seq<Label>)
    requires !s.link.live && s.link.conn.Closed? && Trace(w, s, ls)
    ensures Final(w, s, ls).link == s.link
    decreases ls
  {
    if ls != [] {
      if !ls[0].StoreMoves? { DeadStays(w, s.link, ToLink(s, ls[0])); }
      RefusalIsFinal(w, Next(w, s, ls[0]), ls[1..]);
    }
  }

  // ----- the race between the two lookups -----

  /** Only the ingester and the compactor move, and neither crashes. */
  predicate Quiet(ls: seq<Label>) {
    forall l :: l in ls ==> l.StoreMoves? && !l.step.Crash?
  }

  lemma {:induction false} QuietKeeps(w: World, from: u64, s: System, ls: seq<Label>, b: u64)
    requires w.Faithful() && SystemInv(w, from, s) && Trace(w, s, ls) && Quiet(ls)
    ensures var z := Final(w, s, ls);
            SystemInv(w, from, z) && z.link == s.link && (HasBatch(s.core.store, b) ==> HasBatch(z.core.store, b))
    ensures Final(w, s, ls).core.top >= s.core.top
    decreases ls
  {
    hide Safe, LinkInv, Step, Allowed, HasBatch, w.Faithful;
    if ls != [] {
      NextKeeps(w, from, s, ls[0]);
      StepSafe(w, s.core, ls[0].step);
      QuietKeeps(w, from, Next(w, s, ls[0]), ls[1..], b);
    }
  }

  /**
   * A pass that begins at a height already saved sends a frame that holds it, whatever the ingester and the
   * compactor do between its block lookup and its batch lookup.
   */
  lemma SavedHeightIsSent(w: World, from: u64, s: System, between: seq<Label>)
    requires w.Faithful() && SystemInv(w, from, s)
    requires s.link.conn.Open? && !s.link.conn.missed && s.link.conn.cursor <= s.core.top
    requires Quiet(between) && Trace(w, Next(w, s, LookUpBlock(true)), between)
    ensures var y := Final(w, Next(w, s, LookUpBlock(true)), between);
            var z := Next(w, y, LookUpBatch(true));
            && z.link.conn.Open? && !z.link.conn.missed
            && (exists f :: z.link.conn.sent == s.link.conn.sent + [f]
                         && Spans(w, f, s.link.conn.cursor, z.link.conn.cursor))
            && z.link.conn.cursor <= y.core.top + 1
  {
    hide Sound, Cover, PcSafe, LinkInv, Spans, w.BatchBytes, w.Faithful, BatchStart, Quiet, Trace, Final, LinkStep, HasBatch;
    var n := s.link.conn.cursor;
    var s1 := Next(w, s, LookUpBlock(true));
    CursorFacts(w, from, s.link);
    SeenAt(w, s.core.store, s.core.top, s.link);
    NextKeeps(w, from, s, LookUpBlock(true));
    QuietKeeps(w, from, s1, between, BatchStart(n));
    var s2 := Final(w, s1, between);
    BatchStays(w, s.core, s2.core, s.link, s1.link);
    PassSpans(w, from, s.link, BlockSeen(s.core.store, s.link), BatchSeen(s2.core.store, s1.link));
    PassSendsExactly(w, s.link, BlockSeen(s.core.store, s.link), BatchSeen(s2.core.store, s1.link));
  }

  /** A batch that was there at the first lookup is there at the second, with the chain's data. */
  lemma BatchStays(w: World, c: Core, z: Core, k: Link, k1: Link)
    requires Safe(w, c) && Safe(w, z) && z.top >= c.top && k.conn.Open? && !k.conn.missed && 1 <= k.conn.cursor <= c.top
    requires HasBatch(c.store, BatchStart(k.conn.cursor)) ==> HasBatch(z.store, BatchStart(k.conn.cursor))
    requires k1 == LinkStep(w, k, ServeBlock(BlockSeen(c.store, k)))
    ensures BlockSeen(c.store, k).None? ==>
              BatchSeen(z.store, k1) == Some(w.BatchBytes(BatchStart(k.conn.cursor))) &&
              BatchStart(k.conn.cursor) + BATCH_SIZE <= z.top + 1
  {
    hide w.BatchBytes, PcSafe;
    SeenAt(w, c.store, c.top, k);
    SeenIsHonest(w, z.store, z.top, k1);
  }

  // ----- nothing gets stuck -----

  /** One pass of the server and one frame read by the client, with the store at rest. */
  const ROUND: seq<Label> := [LookUpBlock(true)] + [LookUpBatch(true)] + [ClientMoves(Some(true))]

  lemma RoundTrace(w: World, s: System, rest: seq<Label>)
    requires Trace(w, s.(link := RoundOf(w, s.core.store, s.link)), rest)
    ensures Trace(w, s, ROUND + rest)
    ensures Final(w, s, ROUND + rest) == Final(w, s.(link := RoundOf(w, s.core.store, s.link)), rest)
  {
    hide LinkStep;
    var s1 := Next(w, s, LookUpBlock(true));
    var s2 := Next(w, s1, LookUpBatch(true));
    OneStep(w, s2, ClientMoves(Some(true)), rest);
    OneStep(w, s1, LookUpBatch(true), [ClientMoves(Some(true))] + rest);
    OneStep(w, s, LookUpBlock(true), [LookUpBatch(true)] + ([ClientMoves(Some(true))] + rest));
    assert ROUND + rest == [LookUpBlock(true)] + ([LookUpBatch(true)] + ([ClientMoves(Some(true))] + rest));
  }

  lemma OneStep(w: World, s: System, l: Label, rest: seq<Label>)
    requires Enabled(s, l) && Trace(w, Next(w, s, l), rest)
    ensures Trace(w, s, [l] + rest) && Final(w, s, [l] + rest) == Final(w, Next(w, s, l), rest)
  {
    assert ([l] + rest)[1..] == rest;
  }

  lemma {:induction false} Rounds(w: World, from: u64, s: System) returns (ls: seq<Label>)
    requires w.Faithful() && SystemInv(w, from, s) && Drained(s.link) && s.link.conn.cursor <= s.core.top + 1
    ensures Trace(w, s, ls) && forall l :: l in ls ==> !l.StoreMoves?
    ensures var z := Final(w, s, ls); LinkInv(w, from, z.link) && Drained(z.link) && z.link.conn.cursor == s.core.top + 1
    decreases s.core.top + 1 - s.link.conn.cursor
  {
    hide Sound, Cover, PcSafe, LinkInv, RoundOf, Next, w.Faithful;
    if s.link.conn.cursor == s.core.top + 1 {
      ls := [];
    } else {
      RoundAdvances(w, from, s.core.store, s.core.top, s.link);
      var z := s.(link := RoundOf(w, s.core.store, s.link));
      var rest := Rounds(w, from, z);
      RoundTrace(w, s, rest);
      ls := ROUND + rest;
    }
  }

  /**
   * From every state a run can reach, as long as the handler has not failed, reconnecting and reading on
   * gives the handler everything saved so far, without a further step of the ingester or the compactor.
   */
  lemma EverythingSavedArrives(w: World, from: u64, ls: seq<Label>) returns (more: seq<Label>)
    requires w.Faithful() && Trace(w, Start(from), ls)
    requires var s := Final(w, Start(from), ls); s.link.live && Max(1, s.link.current) <= s.core.top + 1
    ensures Trace(w, Final(w, Start(from), ls), more) && forall l :: l in more ==> !l.StoreMoves?
    ensures var s := Final(w, Start(from), ls);
            Max(1, from) <= s.core.top + 1 &&
            Final(w, s, more).link.delivered == Blocks(w, Max(1, from), s.core.top + 1)
  {
    hide Safe, LinkInv, w.Faithful, Chained, LinkStep;
    StartInv(w, from);
    TraceKeeps(w, from, Start(from), ls);
    var s := Final(w, Start(from), ls);
    var s1 := Next(w, s, Break);
    var s2 := Next(w, s1, ClientMoves(None));
    Reconnects(w, from, s.link);
    var rest := Rounds(w, from, s2);
    OneStep(w, s1, ClientMoves(None), rest);
    OneStep(w, s, Break, [ClientMoves(None)] + rest);
    more := [Break] + ([ClientMoves(None)] + rest);
    DrainedIsDelivered(w, from, Final(w, s2, rest).link);
  }
}
