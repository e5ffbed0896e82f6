/**
 * The token pool of evm-ingestion/rpc/controller.go as concurrent steps: Acquire, Release, and an adjust
 * whose store of currentParallel and sends of new tokens are separate steps.
 */
module TokenPool {
  import opened Prelude

  // MaxParallelism when the configuration leaves it out.
  const DEFAULT_MAX: int := 200

  function MaxParallelism(configured: int): int {
    if configured <= 0 then DEFAULT_MAX else configured
  }

  function MinParallelism(maxP: int): int {
    Max(2, maxP / 10)
  }

  /** The pool starts at a tenth of the maximum, but never below two. */
  lemma MinimumIsTenth(maxP: int)
    requires maxP >= 1
    ensures var minP := MinParallelism(maxP);
            if maxP < 20 then minP == 2 else 10 * minP <= maxP < 10 * minP + 10
  {
  }

  /** The constructor's loop over sends into the new channel; a send into a full one never returns. */
  method FillChannel(configured: int) returns (capacity: int, tokens: int, blocked: bool)
    ensures capacity == MaxParallelism(configured) == (if configured > 0 then configured else 200) && tokens <= capacity
    ensures blocked <==> configured == 1
    ensures !blocked ==> tokens == New(capacity).idle == MinParallelism(capacity)
  {
    capacity := if configured <= 0 then DEFAULT_MAX else configured;
    var minP := Max(2, capacity / 10);
    tokens := 0;
    for i := 0 to minP
      invariant tokens == i <= capacity
    {
      if tokens == capacity {
        return capacity, tokens, true;
      }
      tokens := tokens + 1;
    }
    blocked := false;
  }

  /**
   * current is currentParallel, idle the tokens in the channel, held the requests in flight, owed the sends an
   * adjust has still to make. cut and lost record the run: by how much reductions lowered current in all, and
   * how many tokens a full channel turned away.
   */
  datatype Pool = Pool(minP: int, maxP: int, current: int, idle: int, held: int, owed: int, cut: int, lost: int)

  datatype Label =
    | Acquire          // takes a token from the channel; waits while there is none
    | Release          // puts a token back, or drops it when the channel is full
    | Store(target: int)   // adjust stores the clamped new value
    | Send             // adjust sends one of the tokens it added, or drops it when the channel is full

  function New(maxP: int): Pool {
    var minP := MinParallelism(maxP);
    Pool(minP, maxP, minP, minP, 0, 0, 0, 0)
  }

  function Clamp(p: Pool, target: int): int {
    Min(p.maxP, Max(p.minP, target))
  }

  predicate Enabled(p: Pool, l: Label) {
    match l
    case Acquire => p.idle > 0
    case Release => p.held > 0
    case Store(_) => p.owed == 0
    case Send => p.owed > 0
  }

  function Step(p: Pool, l: Label): Pool
    requires Enabled(p, l)
  {
    match l
    case Acquire => p.(idle := p.idle - 1, held := p.held + 1)
    case Release =>
      if p.idle < p.maxP then p.(held := p.held - 1, idle := p.idle + 1)
      else p.(held := p.held - 1, lost := p.lost + 1)
    case Store(target) =>
      var next := Clamp(p, target);
      if next >= p.current then p.(current := next, owed := next - p.current)
      else p.(current := next, cut := p.cut + (p.current - next))
    case Send =>
      if p.idle < p.maxP then p.(owed := p.owed - 1, idle := p.idle + 1)
      else p.(owed := p.owed - 1, lost := p.lost + 1)
  }

  predicate Trace(p: Pool, ls: seq<Label>)
    decreases ls
  {
    ls == [] || (Enabled(p, ls[0]) && Trace(Step(p, ls[0]), ls[1..]))
  }

  function Final(p: Pool, ls: seq<Label>): Pool
    requires Trace(p, ls)
    decreases ls
  {
    if ls == [] then p else Final(Step(p, ls[0]), ls[1..])
  }

  /** Tokens are conserved: in the channel, in flight, still to send or turned away, against current and cuts. */
  predicate Inv(p: Pool) {
    && 2 <= p.minP <= p.current <= p.maxP
    && 0 <= p.idle <= p.maxP && p.held >= 0 && p.owed >= 0 && p.cut >= 0 && p.lost >= 0
    && p.idle + p.held + p.owed + p.lost == p.current + p.cut
    && p.idle + p.held + p.owed >= p.current
  }

  lemma {:induction false} Conserved(p: Pool, ls: seq<Label>)
    requires Inv(p) && Trace(p, ls)
    ensures Inv(Final(p, ls))
    decreases ls
  {
    if ls != [] {
      Conserved(Step(p, ls[0]), ls[1..]);
    }
  }

  /** In every reachable state: the bounds, the conservation law, and at least current tokens in the system. */
  lemma PoolInvariant(maxP: int, ls: seq<Label>)
    requires maxP >= 2 && Trace(New(maxP), ls)
    ensures var p := Final(New(maxP), ls);
            && MinParallelism(maxP) <= p.current <= maxP && 0 <= p.idle <= maxP
            && p.idle + p.held + p.owed >= p.current
            && p.idle + p.held + p.owed == p.current + p.cut - p.lost
  {
    SameBounds(New(maxP), ls);
    Conserved(New(maxP), ls);
  }

  lemma {:induction false} SameBounds(p: Pool, ls: seq<Label>)
    requires Trace(p, ls)
    ensures Final(p, ls).minP == p.minP && Final(p, ls).maxP == p.maxP && Final(p, ls).cut >= p.cut
    decreases ls
  {
    if ls != [] {
      SameBounds(Step(p, ls[0]), ls[1..]);
    }
  }

  // ----- when a token is turned away -----

  /** A token is turned away when it meets a full channel, and at no other time. */
  lemma LostExactly(p: Pool, l: Label)
    requires Inv(p) && Enabled(p, l)
    ensures Step(p, l).lost > p.lost <==> (l.Release? || l.Send?) && p.idle == p.maxP
    ensures Step(p, l).lost <= p.lost + 1
  {
  }

  predicate NeverFull(p: Pool, ls: seq<Label>)
    requires Trace(p, ls)
    decreases ls
  {
    p.idle < p.maxP && (ls == [] || NeverFull(Step(p, ls[0]), ls[1..]))
  }

  lemma {:induction false} NothingLost(p: Pool, ls: seq<Label>)
    requires Inv(p) && Trace(p, ls) && NeverFull(p, ls)
    ensures Final(p, ls).lost == p.lost
    decreases ls
  {
    if ls != [] {
      LostExactly(p, ls[0]);
      Conserved(p, [ls[0]]) by { OneStep(p, ls[0]); }
      OneStep(p, ls[0]);
      NothingLost(Step(p, ls[0]), ls[1..]);
    }
  }

  /** In a run in which the channel is never full, everything that reductions cut stays in the pool. */
  lemma SurplusStays(maxP: int, ls: seq<Label>)
    requires maxP >= 2 && Trace(New(maxP), ls) && NeverFull(New(maxP), ls)
    ensures var p := Final(New(maxP), ls); p.lost == 0 && p.idle + p.held + p.owed == p.current + p.cut
  {
    NothingLost(New(maxP), ls);
    Conserved(New(maxP), ls);
  }

  // ----- when the limit holds -----

  /** From p on, without a further adjust, more requests than current can be in flight. */
  predicate CanExceed(p: Pool) {
    p.idle + p.held + p.owed > p.current
  }

  function Grab(n: nat): seq<Label> {
    if n == 0 then [] else [Acquire] + Grab(n - 1)
  }

  lemma {:induction false} GrabTakes(p: Pool, n: nat)
    requires n <= p.idle
    ensures Trace(p, Grab(n)) && Final(p, Grab(n)) == p.(idle := p.idle - n, held := p.held + n)
    decreases n
  {
    if n > 0 {
      GrabTakes(Step(p, Acquire), n - 1);
      assert Grab(n)[1..] == Grab(n - 1);
    }
  }

  predicate NoStore(ls: seq<Label>) {
    forall l :: l in ls ==> !l.Store?
  }

  lemma {:induction false} BoundedWithoutStore(p: Pool, ls: seq<Label>)
    requires Inv(p) && !CanExceed(p) && Trace(p, ls) && NoStore(ls)
    ensures Final(p, ls).held <= Final(p, ls).current
    decreases ls
  {
    if ls != [] {
      BoundedWithoutStore(Step(p, ls[0]), ls[1..]);
    }
  }

  /**
   * Once an adjust has finished, the requests in flight stay within currentParallel until the next one if and
   * only if every token cut by a reduction has been turned away since: a reduction alone limits nothing.
   */
  lemma LimitHoldsExactly(p: Pool)
    requires Inv(p) && p.owed == 0
    ensures (forall ls :: Trace(p, ls) && NoStore(ls) ==> Final(p, ls).held <= Final(p, ls).current) <==>
            p.cut == p.lost
  {
    if p.cut == p.lost {
      forall ls | Trace(p, ls) && NoStore(ls) ensures Final(p, ls).held <= Final(p, ls).current {
        BoundedWithoutStore(p, ls);
      }
    } else {
      GrabTakes(p, p.idle);
      GrabIsNoStore(p.idle);
      assert Final(p, Grab(p.idle)).held > Final(p, Grab(p.idle)).current;
    }
  }

  lemma {:induction false} GrabIsNoStore(n: nat)
    ensures NoStore(Grab(n))
  {
    if n > 0 {
      GrabIsNoStore(n - 1);
    }
  }

  /** In a run without a reduction the tokens number exactly current, so the limit is never exceeded. */
  lemma NoReductionNoExcess(maxP: int, ls: seq<Label>)
    requires maxP >= 2 && Trace(New(maxP), ls) && Final(New(maxP), ls).cut == 0
    ensures var p := Final(New(maxP), ls); p.idle + p.held + p.owed == p.current && p.held <= p.current
  {
    Conserved(New(maxP), ls);
  }

  // ----- no limit survives reductions under load -----

  lemma {:induction false} Concat(p: Pool, a: seq<Label>, b: seq<Label>)
    requires Trace(p, a) && Trace(Final(p, a), b)
    ensures Trace(p, a + b) && Final(p, a + b) == Final(Final(p, a), b)
    decreases a
  {
    if a == [] {
      assert a + b == b;
    } else {
      Concat(Step(p, a[0]), a[1..], b);
      assert (a + b)[1..] == a[1..] + b;
    }
  }

  /** A pool at its minimum with every token in flight. */
  predicate Loaded(p: Pool) {
    p.current == p.minP < p.maxP && p.idle == 0 && p.owed == 0
  }

  /**
   * Growth by one, a request that takes the new token, and adjust's reduction by two, which the clamp turns
   * into a return to the minimum.
   */
  function Cycle(p: Pool): seq<Label> {
    [Store(p.minP + 1)] + [Send] + [Acquire] + [Store(p.minP - 1)]
  }

  lemma CycleAddsOne(p: Pool)
    requires Inv(p) && Loaded(p)
    ensures Trace(p, Cycle(p))
    ensures Final(p, Cycle(p)) == p.(held := p.held + 1, cut := p.cut + 1)
  {
    hide Trace, Final, Step, Enabled, Inv, Loaded;
    var grow := [Store(p.minP + 1)];
    CycleSteps(p);
    OneStep(p, Store(p.minP + 1));
    Snoc(p, grow, Send);
    Snoc(p, grow + [Send], Acquire);
    Snoc(p, grow + [Send] + [Acquire], Store(p.minP - 1));
  }

  lemma CycleSteps(p: Pool)
    requires Inv(p) && Loaded(p)
    ensures Enabled(p, Store(p.minP + 1))
    ensures Step(p, Store(p.minP + 1)) == p.(current := p.minP + 1, owed := 1)
    ensures Enabled(p.(current := p.minP + 1, owed := 1), Send)
    ensures Step(p.(current := p.minP + 1, owed := 1), Send) == p.(current := p.minP + 1, idle := 1)
    ensures Enabled(p.(current := p.minP + 1, idle := 1), Acquire)
    ensures Step(p.(current := p.minP + 1, idle := 1), Acquire) == p.(current := p.minP + 1, held := p.held + 1)
    ensures Enabled(p.(current := p.minP + 1, held := p.held + 1), Store(p.minP - 1))
    ensures Step(p.(current := p.minP + 1, held := p.held + 1), Store(p.minP - 1)) ==
            p.(held := p.held + 1, cut := p.cut + 1)
  {
  }

  lemma Snoc(p: Pool, a: seq<Label>, l: Label)
    requires Trace(p, a) && Enabled(Final(p, a), l)
    ensures Trace(p, a + [l]) && Final(p, a + [l]) == Step(Final(p, a), l)
  {
    OneStep(Final(p, a), l);
    Concat(p, a, [l]);
  }

  lemma OneStep(p: Pool, l: Label)
    requires Enabled(p, l)
    ensures Trace(p, [l]) && Final(p, [l]) == Step(p, l)
  {
    assert Trace(Step(p, l), [l][1..]);
  }

  /**
   * Under load, growth and reduction by turns put any number of requests in flight: when the pool can grow at
   * all, neither currentParallel nor the maximum bounds them.
   */
  lemma ExcessIsUnbounded(maxP: int, n: nat) returns (ls: seq<Label>)
    requires maxP >= 3
    ensures Trace(New(maxP), ls) && Final(New(maxP), ls).current == MinParallelism(maxP)
    ensures Final(New(maxP), ls).held >= n
  {
    ls := Grab(MinParallelism(maxP));
    GrabTakes(New(maxP), MinParallelism(maxP));
    var i: nat := 0;
    while i < n
      invariant i <= n
      invariant Trace(New(maxP), ls)
      invariant Inv(Final(New(maxP), ls)) && Loaded(Final(New(maxP), ls))
      invariant Final(New(maxP), ls).minP == MinParallelism(maxP)
      invariant Final(New(maxP), ls).held >= i
    {
      var p := Final(New(maxP), ls);
      CycleAddsOne(p);
      Concat(New(maxP), ls, Cycle(p));
      ls := ls + Cycle(p);
      i := i + 1;
    }
  }
}
