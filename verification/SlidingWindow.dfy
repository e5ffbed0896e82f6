/** StreamBlocks of evm-ingestion/rpc/fetcher.go: fetches in any order, blocks out in order. */
module SlidingWindow {
  import opened Prelude
  import opened Framing

  // A pending fetch: still running, or its single result waiting in the channel. None is the error a
  // cancelled context leaves; other fetch errors are retried inside the fetch.
  datatype Fetch = Running | Done(block: Option<Bytes>)

  // What one pass of the loop meets: the context, the fetches that have completed meanwhile, the head that
  // each of its two refreshes would read (None when reading it fails) and whether the reader takes the block.
  datatype Turn = Turn(cancelled: bool, completed: map<u64, Option<Bytes>>, head: Option<u64>, taken: bool)

  datatype Outcome = Streaming | Cancelled | HeadError | FetchError | MissingPending

  lemma RemoveOne<V>(m: map<u64, V>, k: u64)
    requires k in m
    ensures |m - {k}| == |m| - 1
  {
    assert m.Keys == (m - {k}).Keys + {k};
    assert |m.Keys| == |m| && |(m - {k}).Keys| == |m - {k}|;
  }

  /** The keys are the interval of |m| heights that begins at from. */
  ghost predicate IsWindow(m: map<u64, Fetch>, from: u64) {
    forall n :: n in m <==> from <= n < from + |m|
  }

  lemma WindowGrows(m: map<u64, Fetch>, from: u64, n: u64)
    requires IsWindow(m, from) && n == from + |m|
    ensures n !in m && |m[n := Running]| == |m| + 1 && IsWindow(m[n := Running], from)
  {
    assert m[n := Running].Keys == m.Keys + {n};
    assert |m.Keys| == |m| && |m[n := Running].Keys| == |m[n := Running]|;
  }

  lemma RunSnoc(w: World, from: nat, n: nat)
    requires from <= n
    ensures w.Run(from, n + 1) == w.Run(from, n) + [w.chain(n)]
  {
  }

  // ----- the window as a value -----

  datatype Win = Win(next: u64, latest: u64, pending: map<u64, Fetch>)

  /** What is pending once the window has been filled: as many heights from next on as size and head allow. */
  function Filled(v: Win, size: int): Win {
    var count := Max(|v.pending|, Min(size, v.latest - v.next + 1));
    v.(pending := map n: u64 | v.next <= n < v.next + count :: if n in v.pending then v.pending[n] else Running)
  }

  function Landed(pending: map<u64, Fetch>, completed: map<u64, Option<Bytes>>): (r: map<u64, Fetch>)
    ensures r.Keys == pending.Keys
  {
    map n | n in pending :: if pending[n].Running? && n in completed then Done(completed[n]) else pending[n]
  }

  function Refreshed(v: Win, head: Option<u64>, size: int): Win {
    if head.None? then v else Filled(v.(latest := Max(v.latest, head.value)), size)
  }

  /** What the fetch for the next block has brought by the end of the turn, if it has ended. */
  function Result(v: Win, t: Turn): Option<Option<Bytes>> {
    if v.next !in v.pending then None
    else if v.pending[v.next].Done? then Some(v.pending[v.next].block)
    else if v.next in t.completed then Some(t.completed[v.next])
    else None
  }

  /** The next block is sent in this turn. */
  predicate SendsIn(v: Win, t: Turn) {
    !t.cancelled && t.taken && Result(v, t).Some? && Result(v, t).value.Some?
  }

  /** How the turn ends. Waiting for the next block, like sending it, is Streaming. */
  function OutcomeOf(v: Win, t: Turn): Outcome {
    if t.cancelled then Cancelled
    else if v.pending == map[] then if t.head.None? then HeadError else Streaming
    else if Result(v, t).None? then Streaming
    else if Result(v, t).value.None? then FetchError
    else if t.taken then Streaming
    else Cancelled
  }

  /** The window after a turn that ends in Streaming. */
  function NextWin(v: Win, t: Turn, size: int): Win {
    if v.pending == map[] then Refreshed(v, t.head, size)
    else if SendsIn(v, t) then AfterSend(v.(pending := Landed(v.pending, t.completed)), t, size)
    else v.(pending := Landed(v.pending, t.completed))
  }

  function AfterSend(v: Win, t: Turn, size: int): Win {
    var sent := Filled(Win(Wrap(v.next + 1), v.latest, v.pending - {v.next}), size);
    if |sent.pending| < size then Refreshed(sent, t.head, size) else sent
  }

  /** The fetch for the next block has delivered it, before this turn or in it. */
  predicate ArrivedIn(v: Win, t: Turn) {
    && v.next in v.pending
    && if v.pending[v.next].Running? then v.next in t.completed && t.completed[v.next].Some?
       else v.pending[v.next].block.Some?
  }

  /** The fetch for the next block has ended in an error, before this turn or in it. */
  predicate BrokeIn(v: Win, t: Turn) {
    && v.next in v.pending
    && if v.pending[v.next].Running? then v.next in t.completed && t.completed[v.next].None?
       else v.pending[v.next].block.None?
  }

  /** The four ways in which a turn can end; in every other case it streams on. */
  lemma OutcomeWhen(v: Win, t: Turn)
    requires IsWindow(v.pending, v.next)
    ensures OutcomeOf(v, t).Cancelled? <==> t.cancelled || (ArrivedIn(v, t) && !t.taken)
    ensures OutcomeOf(v, t).HeadError? <==> !t.cancelled && v.pending == map[] && t.head.None?
    ensures OutcomeOf(v, t).FetchError? <==> !t.cancelled && BrokeIn(v, t)
    ensures OutcomeOf(v, t) != MissingPending
    ensures SendsIn(v, t) <==> !t.cancelled && t.taken && ArrivedIn(v, t)
  {
    NextIsFirst(v.pending, v.next);
  }

  /** The run over all turns: the outcome, and in how many of them a block is sent. */
  function Outcomes(v: Win, turns: seq<Turn>, size: int): Outcome
    decreases turns
  {
    if turns == [] then Streaming
    else if OutcomeOf(v, turns[0]).Streaming? then Outcomes(NextWin(v, turns[0], size), turns[1..], size)
    else OutcomeOf(v, turns[0])
  }

  function Sends(v: Win, turns: seq<Turn>, size: int): nat
    decreases turns
  {
    if turns == [] || !OutcomeOf(v, turns[0]).Streaming? then 0
    else (if SendsIn(v, turns[0]) then 1 else 0) + Sends(NextWin(v, turns[0], size), turns[1..], size)
  }

  class Streamer {
    const w: World
    const windowSize: int
    const from: u64
    var pending: map<u64, Fetch>
    var nextToSend: u64
    var latestBlock: u64
    var out: seq<Bytes>

    /** The invariant of every loop head. */
    ghost predicate Valid()
      reads this
    {
      && from <= nextToSend && latestBlock <= MAX_HEIGHT
      && (pending != map[] ==> nextToSend + |pending| - 1 <= latestBlock)
      && |pending| <= Max(windowSize, 0)
      && IsWindow(pending, nextToSend)
      && (forall n :: n in pending && pending[n].Done? && pending[n].block.Some? ==> pending[n].block.value == w.chain(n))
      && out == w.Run(from, nextToSend)
    }

    ghost function Snapshot(): Win
      reads this
    {
      Win(nextToSend, latestBlock, pending)
    }

    /** The window is as full as its size and the known head allow. */
    ghost predicate Full()
      reads this
    {
      |pending| >= windowSize || nextToSend + |pending| > latestBlock
    }

    constructor (w: World, from: u64, windowSize: int)
      ensures Valid() && pending == map[] && nextToSend == from && latestBlock == 0
      ensures this.w == w && this.from == from && this.windowSize == windowSize
    {
      this.w, this.from, this.windowSize := w, from, windowSize;
      pending, nextToSend, latestBlock, out := map[], from, 0, [];
    }

    /** The refill loop: it counts up from nextToSend + len(pending) and skips what is already pending. */
    method Fill()
      requires Valid()
      modifies this`pending
      ensures Valid() && Full() && Snapshot() == Filled(old(Snapshot()), windowSize)
      ensures forall n :: n in old(pending) ==> n in pending && pending[n] == old(pending[n])
      ensures forall n :: n in pending && n !in old(pending) ==> pending[n] == Running
    {
      ghost var before := Snapshot();
      var blockNum: int := nextToSend + |pending|;
      while blockNum <= latestBlock && |pending| < windowSize
        invariant Valid()
        invariant blockNum == nextToSend + |pending|
        invariant forall n :: n in old(pending) ==> n in pending && pending[n] == old(pending[n])
        invariant forall n :: n in pending && n !in old(pending) ==> pending[n] == Running
        decreases windowSize - |pending|
      {
        hide w.Run, IsWindow;
        WindowGrows(pending, nextToSend, blockNum);
        if blockNum !in pending {
          pending := pending[blockNum := Running];
        }
        blockNum := blockNum + 1;
      }
      FilledIs(before, pending, windowSize);
    }

    method RefreshAndFill(head: Option<u64>) returns (ok: bool)
      requires Valid() && (head.Some? ==> head.value <= MAX_HEIGHT)
      modifies this`pending, this`latestBlock
      ensures Valid() && (ok <==> head.Some?)
      ensures Snapshot() == Refreshed(old(Snapshot()), head, windowSize)
      ensures ok ==> Full() && latestBlock == Max(old(latestBlock), head.value)
      ensures !ok ==> pending == old(pending) && latestBlock == old(latestBlock)
    {
      if head.None? {
        return false;
      }
      if head.value > latestBlock {
        latestBlock := head.value;
      }
      Fill();
      ok := true;
    }

    /** Running fetches deliver their results; nothing else about the window changes. */
    method Complete(completed: map<u64, Option<Bytes>>)
      requires Valid()
      requires forall n :: n in completed && completed[n].Some? ==> completed[n].value == w.chain(n)
      modifies this`pending
      ensures Valid() && pending.Keys == old(pending.Keys) && pending == Landed(old(pending), completed)
      ensures forall n :: n in pending ==>
                pending[n] == if old(pending[n]).Running? && n in completed then Done(completed[n]) else old(pending[n])
    {
      var was := pending;
      pending := map n | n in was :: if was[n].Running? && n in completed then Done(completed[n]) else was[n];
      assert pending.Keys == was.Keys;
      assert |pending| == |pending.Keys| == |was.Keys| == |was|;
    }

    /** Takes the head of the window out of pending; when it is a block that is taken, sends it and moves on. */
    method Deliver(taken: bool) returns (r: Outcome)
      requires Valid() && nextToSend in pending && pending[nextToSend].Done?
      modifies this`pending, this`nextToSend, this`out
      ensures r.Streaming? <==> old(pending)[old(nextToSend)].block.Some? && taken
      ensures r.FetchError? <==> old(pending)[old(nextToSend)].block.None?
      ensures pending == old(pending) - {old(nextToSend)}
      ensures r.Streaming? ==>
                Valid() && out == old(out) + [w.chain(old(nextToSend))] && nextToSend == old(nextToSend) + 1
      ensures !r.Streaming? ==> out == old(out) && r in {FetchError, Cancelled}
    {
      var result := pending[nextToSend].block;
      RemoveOne(pending, nextToSend);
      pending := pending - {nextToSend};
      if result.None? {
        return FetchError;
      }
      if !taken {
        return Cancelled;
      }
      RunSnoc(w, from, nextToSend);
      out := out + [result.value];
      nextToSend := nextToSend + 1;
      r := Streaming;
    }

    ghost predicate Arrived(turn: Turn)
      reads this
    {
      ArrivedIn(Snapshot(), turn)
    }

    ghost predicate Broke(turn: Turn)
      reads this
    {
      BrokeIn(Snapshot(), turn)
    }

    /** The end of a pass, once the fetch for the next block has ended: deliver, refill, look for a new head. */
    method Advance(turn: Turn) returns (r: Outcome)
      requires Valid() && nextToSend in pending && pending[nextToSend].Done?
      requires turn.head.Some? ==> turn.head.value <= MAX_HEIGHT
      modifies this
      ensures r.FetchError? <==> old(pending)[old(nextToSend)].block.None?
      ensures r.Cancelled? <==> old(pending)[old(nextToSend)].block.Some? && !turn.taken
      ensures r.Streaming? || r.FetchError? || r.Cancelled?
      ensures !r.Streaming? ==> out == old(out) && latestBlock == old(latestBlock)
      ensures r.Streaming? ==> Valid() && Full() && out == old(out) + [w.chain(old(nextToSend))]
      ensures r.Streaming? && |pending| < windowSize && turn.head.Some? ==> latestBlock >= turn.head.value
      ensures r.Streaming? ==> latestBlock >= old(latestBlock) && Snapshot() == AfterSend(old(Snapshot()), turn, windowSize)
    {
      hide w.Run, Filled, IsWindow, Refreshed;
      ghost var before := Snapshot();
      r := Deliver(turn.taken);
      if !r.Streaming? {
        return;
      }
      assert Snapshot() == Win(Wrap(before.next + 1), before.latest, before.pending - {before.next});
      Fill();
      ghost var sent := Snapshot();
      if |pending| < windowSize {
        var _ := RefreshAndFill(turn.head);
        assert Snapshot() == Refreshed(sent, turn.head, windowSize);
      }
      assert Snapshot() == AfterSend(before, turn, windowSize);
    }

    /**
     * One pass of the endless loop. It hands out the next block exactly when that block has arrived and is taken. It
     * ends the stream only for a cancelled context, an unreadable head with nothing pending, a fetch that ended in an
     * error, or a block that is not taken.
     */
    method Pass(turn: Turn) returns (r: Outcome)
      requires Valid()
      requires turn.head.Some? ==> turn.head.value <= MAX_HEIGHT
      requires forall n :: n in turn.completed && turn.completed[n].Some? ==> turn.completed[n].value == w.chain(n)
      modifies this
      ensures r.Streaming? ==> Valid()
      ensures r == OutcomeOf(old(Snapshot()), turn)
      ensures r.Streaming? ==> Snapshot() == NextWin(old(Snapshot()), turn, windowSize)
      ensures r != MissingPending
      ensures r.Cancelled? <==> turn.cancelled || (old(Arrived(turn)) && !turn.taken)
      ensures r.HeadError? <==> !turn.cancelled && old(pending) == map[] && turn.head.None?
      ensures r.FetchError? <==> !turn.cancelled && old(Broke(turn))
      ensures SendsIn(old(Snapshot()), turn) <==> !turn.cancelled && turn.taken && old(Arrived(turn))
      ensures !turn.cancelled && turn.taken && old(Arrived(turn)) ==>
                r.Streaming? && Full() && out == old(out) + [w.chain(old(nextToSend))]
      ensures !turn.cancelled && turn.taken && old(Arrived(turn)) && |pending| < windowSize && turn.head.Some? ==>
                latestBlock >= turn.head.value
      ensures !(!turn.cancelled && turn.taken && old(Arrived(turn))) ==> out == old(out)
      ensures old(pending) == map[] && r.Streaming? && !turn.cancelled ==> Full()
      ensures latestBlock >= old(latestBlock)
    {
      hide w.Run, Filled, Refreshed, AfterSend;
      OutcomeWhen(Snapshot(), turn);
      if turn.cancelled {
        return Cancelled;
      }
      NextIsFirst(pending, nextToSend);
      Complete(turn.completed);
      if |pending| == 0 {
        var ok := RefreshAndFill(turn.head);
        return if ok then Streaming else HeadError;
      }
      if nextToSend !in pending {
        return MissingPending;
      }
      if pending[nextToSend].Running? {
        return Streaming;   // blocked on the channel until a later turn
      }
      r := Advance(turn);
    }
  }

  lemma NextIsFirst(m: map<u64, Fetch>, from: u64)
    requires IsWindow(m, from)
    ensures m != map[] <==> from in m
  {
    if m != map[] {
      var n :| n in m;
      assert from <= n < from + |m|;
    }
  }

  /** The window's keys are an interval that filling prolongs. */
  lemma FilledIs(before: Win, after: map<u64, Fetch>, size: int)
    requires IsWindow(before.pending, before.next) && IsWindow(after, before.next)
    requires |after| == Max(|before.pending|, Min(size, before.latest - before.next + 1))
    requires forall n :: n in before.pending ==> n in after && after[n] == before.pending[n]
    requires forall n :: n in after && n !in before.pending ==> after[n] == Running
    ensures Filled(before, size) == before.(pending := after)
  {
  }

  /** A window of the given size below a known head, in which no fetch has failed. */
  ghost predicate Sane(v: Win, size: int) {
    && IsWindow(v.pending, v.next) && |v.pending| <= Max(size, 0) && v.latest <= MAX_HEIGHT
    && (v.pending != map[] ==> v.next + |v.pending| - 1 <= v.latest)
    && forall n :: n in v.pending && v.pending[n].Done? ==> v.pending[n].block.Some?
  }

  lemma FilledSane(v: Win, size: int)
    requires Sane(v, size)
    ensures Sane(Filled(v, size), size) && Filled(v, size).next == v.next && Filled(v, size).latest == v.latest
    ensures size >= 1 && v.next <= v.latest ==> v.next in Filled(v, size).pending
  {
    FilledWindow(v, size);
  }

  lemma RefreshedSane(v: Win, head: Option<u64>, size: int)
    requires Sane(v, size) && (head.Some? ==> head.value <= MAX_HEIGHT)
    ensures var u := Refreshed(v, head, size);
            && Sane(u, size) && u.next == v.next && u.latest >= v.latest
            && (size >= 1 && v.next in v.pending && v.next <= v.latest ==> u.next in u.pending)
  {
    hide Filled, IsWindow;
    if head.Some? {
      FilledSane(v.(latest := Max(v.latest, head.value)), size);
    }
  }

  /** With a head far enough ahead and every fetch done in its turn, every turn sends. */
  lemma {:induction false} EveryTurnSends(v: Win, turns: seq<Turn>, size: int)
    requires size >= 1 && Sane(v, size) && v.next in v.pending && v.next + |turns| <= v.latest
    requires forall t :: t in turns ==> !t.cancelled && t.taken && (t.head.Some? ==> t.head.value <= MAX_HEIGHT)
    requires forall t: Turn, n: u64 :: t in turns && v.next <= n < v.next + |turns| + size ==>
               n in t.completed && t.completed[n].Some?
    ensures Sends(v, turns, size) == |turns| && Outcomes(v, turns, size).Streaming?
    decreases turns
  {
    if turns != [] {
      var t := turns[0];
      assert t in turns;
      assert SendsIn(v, t) && OutcomeOf(v, t).Streaming?;
      SentWindow(v, t, size);
      EveryTurnSends(NextWin(v, t, size), turns[1..], size);
    }
  }

  lemma SentWindow(v: Win, t: Turn, size: int)
    requires size >= 1 && Sane(v, size) && v.next in v.pending && v.next + 1 <= v.latest && SendsIn(v, t)
    requires t.head.Some? ==> t.head.value <= MAX_HEIGHT
    requires forall n :: n in v.pending && n in t.completed ==> t.completed[n].Some?
    ensures var u := NextWin(v, t, size);
            Sane(u, size) && u.next == v.next + 1 && v.latest <= u.latest && u.next in u.pending
  {
    LandedRest(v, t, size);
    NextIsAfterSend(v, t, size);
    hide Landed, IsWindow, NextWin;
    AfterSendSane(v.(pending := Landed(v.pending, t.completed)), t, size);
  }

  lemma NextIsAfterSend(v: Win, t: Turn, size: int)
    requires v.next in v.pending && SendsIn(v, t)
    ensures NextWin(v, t, size) == AfterSend(v.(pending := Landed(v.pending, t.completed)), t, size)
  {
    hide Landed, AfterSend;
  }

  lemma AfterSendSane(v: Win, t: Turn, size: int)
    requires size >= 1 && v.next + 1 <= v.latest <= MAX_HEIGHT && (t.head.Some? ==> t.head.value <= MAX_HEIGHT)
    requires Sane(Win(v.next + 1, v.latest, v.pending - {v.next}), size)
    ensures var u := AfterSend(v, t, size);
            Sane(u, size) && u.next == v.next + 1 && v.latest <= u.latest && u.next in u.pending
  {
    hide Sane, Filled, Refreshed;
    var sent := Win(v.next + 1, v.latest, v.pending - {v.next});
    FilledSane(sent, size);
    RefreshedSane(Filled(sent, size), t.head, size);
  }

  lemma LandedRest(v: Win, t: Turn, size: int)
    requires v.next in v.pending && Sane(v, size) && v.next + 1 <= v.latest
    requires forall n :: n in v.pending && n in t.completed ==> t.completed[n].Some?
    ensures Sane(Win(v.next + 1, v.latest, Landed(v.pending, t.completed) - {v.next}), size)
  {
    LandedSize(v.pending, t.completed);
    RemoveOne(Landed(v.pending, t.completed), v.next);
  }

  lemma LandedSize(pending: map<u64, Fetch>, completed: map<u64, Option<Bytes>>)
    ensures |Landed(pending, completed)| == |pending|
  {
    assert |pending.Keys| == |pending| && |Landed(pending, completed).Keys| == |Landed(pending, completed)|;
  }

  lemma FilledWindow(v: Win, size: int)
    requires IsWindow(v.pending, v.next) && v.latest <= MAX_HEIGHT && |v.pending| <= Max(size, 0)
    requires v.pending != map[] ==> v.next + |v.pending| - 1 <= v.latest
    ensures var u := Filled(v, size);
            && u.next == v.next && u.latest == v.latest && IsWindow(u.pending, u.next)
            && |u.pending| == Max(|v.pending|, Min(size, v.latest - v.next + 1))
            && forall n :: n in u.pending && u.pending[n].Done? ==> n in v.pending && u.pending[n] == v.pending[n]
  {
    var count := Max(|v.pending|, Min(size, v.latest - v.next + 1));
    var u := Filled(v, size);
    assert u.pending.Keys == Stretch(v.next, count);
    assert |u.pending| == |u.pending.Keys|;
  }

  /**
   * StreamBlocks for a bounded number of turns. For every completion order and every growth of the head, the blocks
   * handed out are from, from + 1, ..., as many as there are turns in which the next block had arrived and was taken
   * before one of them ended the stream; the missing-fetch error does not occur.
   */
  method StreamBlocks(w: World, from: u64, windowSize: int, first: Option<u64>, turns: seq<Turn>)
    returns (out: seq<Bytes>, r: Outcome)
    requires first.Some? ==> first.value <= MAX_HEIGHT
    requires forall t :: t in turns && t.head.Some? ==> t.head.value <= MAX_HEIGHT
    requires forall t, n :: t in turns && n in t.completed && t.completed[n].Some? ==> t.completed[n].value == w.chain(n)
    ensures out == w.Run(from, from + |out|)
    ensures first.None? ==> out == [] && r.HeadError?
    ensures first.Some? ==> var v := Refreshed(Win(from, 0, map[]), first, windowSize);
                            |out| == Sends(v, turns, windowSize) && r == Outcomes(v, turns, windowSize)
    ensures r != MissingPending
    ensures windowSize <= 0 ==> out == []
  {
    hide Filled, Refreshed, NextWin, OutcomeOf, IsWindow, SendsIn, BrokeIn;
    var s := new Streamer(w, from, windowSize);
    var ok := s.RefreshAndFill(first);
    if !ok {
      return [], HeadError;
    }
    r := Streaming;
    ghost var v := s.Snapshot();
    assert turns[0..] == turns;
    for i := 0 to |turns|
      invariant Outcomes(s.Snapshot(), turns[i..], windowSize) == Outcomes(v, turns, windowSize)
      invariant |s.out| + Sends(s.Snapshot(), turns[i..], windowSize) == Sends(v, turns, windowSize)
      invariant s.Valid() && fresh(s) && s.from == from && s.w == w && s.windowSize == windowSize
      invariant r.Streaming? && (windowSize <= 0 ==> s.out == [])
    {
      ghost var n := s.nextToSend;
      assert s.out == w.Run(from, n) && turns[i] in turns;
      assert turns[i..][0] == turns[i] && turns[i..][1..] == turns[i + 1..];
      r := s.Pass(turns[i]);
      if !r.Streaming? {
        assert s.out == w.Run(from, n);
        return s.out, r;
      }
    }
    out := s.out;
  }
}
