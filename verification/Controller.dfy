/**
 * How evm-ingestion/rpc/controller.go decides on a new parallelism: the pruned window of metrics, its 95th
 * percentile, and growth or reduction within bounds. Go's float64 is modelled by real.
 */
module Control {
  import opened Prelude
  import opened TokenPool

  // Durations in nanoseconds.
  const WINDOW: int := 60_000_000_000
  const DEFAULT_MAX_LATENCY: int := 1_000_000_000
  const MAX_ERRORS: int := 10
  const MIN_METRICS: int := 10

  function MaxLatency(configuredMs: int): nat {
    if configuredMs <= 0 then DEFAULT_MAX_LATENCY else configuredMs * 1_000_000
  }

  datatype Metric = Metric(timestamp: int, duration: nat, success: bool)

  predicate InOrder(ms: seq<Metric>) {
    forall i, j :: 0 <= i < j < |ms| ==> ms[i].timestamp <= ms[j].timestamp
  }

  function NewerThan(cutoff: int): Metric -> bool {
    (m: Metric) => m.timestamp > cutoff
  }

  function Durations(ms: seq<Metric>): (ds: seq<nat>)
    ensures |ds| == |ms|
  {
    seq(|ms|, i requires 0 <= i < |ms| => ms[i].duration)
  }

  /** The failed requests of the window, by position. */
  function Failures(ms: seq<Metric>): (r: set<int>)
    ensures forall i :: i in r <==> 0 <= i < |ms| && !ms[i].success
  {
    set i | 0 <= i < |ms| && !ms[i].success
  }

  function Errors(ms: seq<Metric>): nat {
    |Failures(ms)|
  }

  /** Failures and successes make up the window. */
  lemma ErrorsSplit(ms: seq<Metric>)
    ensures Errors(ms) == |set i | 0 <= i < |ms| && !ms[i].success|
    ensures Errors(ms) + |set i | 0 <= i < |ms| && ms[i].success| == |ms|
  {
    var good := set i | 0 <= i < |ms| && ms[i].success;
    PositionsCount(|ms|);
    assert Failures(ms) + good == Positions(|ms|) && Failures(ms) !! good;
    assert Failures(ms) == set i | 0 <= i < |ms| && !ms[i].success;
  }

  lemma ErrorsSnoc(ms: seq<Metric>, m: Metric)
    ensures Errors(ms + [m]) == Errors(ms) + if m.success then 0 else 1
  {
    if m.success {
      assert Failures(ms + [m]) == Failures(ms);
    } else {
      assert Failures(ms + [m]) == Failures(ms) + {|ms|};
    }
  }

  lemma NoErrorsExactly(ms: seq<Metric>)
    ensures (forall m :: m in ms ==> m.success) <==> Errors(ms) == 0
  {
    if m :| m in ms && !m.success {
      var i :| 0 <= i < |ms| && ms[i] == m;
      assert i in Failures(ms);
    }
    if i :| i in Failures(ms) {
      assert ms[i] in ms;
    }
  }

  function Positions(n: nat): (r: set<int>)
    ensures forall i :: i in r <==> 0 <= i < n
  {
    if n == 0 then {} else Positions(n - 1) + {n - 1}
  }

  lemma {:induction false} PositionsCount(n: nat)
    ensures |Positions(n)| == n
  {
    if n > 0 {
      PositionsCount(n - 1);
    }
  }

  // ----- ranks -----

  /** How many of ds are at or below v. */
  function AtMost(ds: seq<nat>, v: int): nat {
    if ds == [] then 0 else AtMost(ds[1..], v) + if ds[0] <= v then 1 else 0
  }

  lemma {:induction false} AtMostConcat(a: seq<nat>, b: seq<nat>, v: int)
    ensures AtMost(a + b, v) == AtMost(a, v) + AtMost(b, v)
  {
    if a == [] {
      assert a + b == b;
    } else {
      AtMostConcat(a[1..], b, v);
      assert (a + b)[1..] == a[1..] + b;
    }
  }

  lemma {:induction false} AtMostExtremes(ds: seq<nat>, v: int)
    ensures AtMost(ds, v) <= |ds|
    ensures (forall i :: 0 <= i < |ds| ==> ds[i] <= v) ==> AtMost(ds, v) == |ds|
    ensures (forall i :: 0 <= i < |ds| ==> ds[i] > v) ==> AtMost(ds, v) == 0
  {
    if ds != [] {
      AtMostExtremes(ds[1..], v);
    }
  }

  lemma {:induction false} AtMostGrows(ds: seq<nat>, v: int, w: int)
    requires v <= w
    ensures AtMost(ds, v) <= AtMost(ds, w)
  {
    if ds != [] {
      AtMostGrows(ds[1..], v, w);
    }
  }

  lemma {:induction false} AtMostPermuted(a: seq<nat>, b: seq<nat>, v: int)
    requires multiset(a) == multiset(b)
    ensures AtMost(a, v) == AtMost(b, v)
    decreases a
  {
    if a == [] {
      assert |multiset(b)| == 0;
    } else {
      assert a[0] in multiset(b);
      var j :| 0 <= j < |b| && b[j] == a[0];
      var rest := b[..j] + b[j + 1..];
      TailMultiset(a);
      RemoveAt(b, j);
      assert b == b[..j] + ([b[j]] + b[j + 1..]);
      AtMostPermuted(a[1..], rest, v);
      AtMostConcat(b[..j], [b[j]] + b[j + 1..], v);
      AtMostConcat(b[..j], b[j + 1..], v);
      assert ([b[j]] + b[j + 1..])[1..] == b[j + 1..];
    }
  }

  function Identity(): nat -> int {
    (d: nat) => d
  }

  predicate Ascending(s: seq<nat>) {
    forall i, j :: 0 <= i < j < |s| ==> s[i] <= s[j]
  }

  lemma SortedReaches(s: seq<nat>, k: nat)
    requires Ascending(s) && k < |s|
    ensures AtMost(s, s[k]) > k
  {
    hide AtMost;
    var low, high := s[..k + 1], s[k + 1..];
    assert s == low + high;
    AtMostConcat(low, high, s[k]);
    AtMostExtremes(low, s[k]);
  }

  lemma SortedStaysBelow(s: seq<nat>, k: nat)
    requires Ascending(s) && k < |s|
    ensures AtMost(s, s[k] as int - 1) <= k
  {
    hide AtMost, Ascending;
    var v := s[k] as int - 1;
    AtMostConcat(s[..k], s[k..], v);
    assert s[..k] + s[k..] == s;
    AtMostExtremes(s[..k], v);
    assert AtMost(s[k..], v) == 0 by {
      AscendingAbove(s, k);
      AtMostExtremes(s[k..], v);
    }
  }

  lemma AscendingAbove(s: seq<nat>, k: nat)
    requires Ascending(s) && k < |s|
    ensures forall i :: 0 <= i < |s[k..]| ==> s[k..][i] >= s[k]
  {
  }

  lemma SortedAscends(s: seq<nat>)
    requires SortedBy(s, Identity())
    ensures Ascending(s)
  {
    forall i, j | 0 <= i < j < |s| ensures s[i] <= s[j] {
      assert Identity()(s[i]) <= Identity()(s[j]);
    }
  }

  // ----- the 95th percentile -----

  function P95Index(n: nat): (i: nat)
    requires n > 0
    ensures i < n
  {
    Min((n as real * 0.95).Floor, n - 1)
  }

  /**
   * At most floor(0.95 n) of the durations are below v and more than floor(0.95 n) are at or below it. The
   * definition does not mention any order.
   */
  predicate IsP95(ds: seq<nat>, v: nat) {
    |ds| > 0 && AtMost(ds, v - 1) <= 95 * |ds| / 100 < AtMost(ds, v)
  }

  lemma P95Unique(ds: seq<nat>, v: nat, w: nat)
    requires IsP95(ds, v) && IsP95(ds, w)
    ensures v == w
  {
    if v < w {
      AtMostGrows(ds, v, w - 1);
    } else if w < v {
      AtMostGrows(ds, w, v - 1);
    }
  }

  /** The element that sorting and indexing pick is the percentile, and the only value that is. */
  lemma SortedElementIsP95(ds: seq<nat>, v: nat)
    requires ds != []
    ensures IsP95(ds, v) <==> v == SortBy(ds, Identity())[P95Index(|ds|)]
  {
    hide AtMost, SortBy, SortedBy, Ascending;
    var s := SortBy(ds, Identity());
    var k := P95Index(|ds|);
    assert k == 95 * |ds| / 100;
    SortedAscends(s);
    SortedReaches(s, k);
    SortedStaysBelow(s, k);
    AtMostPermuted(s, ds, s[k]);
    AtMostPermuted(s, ds, s[k] as int - 1);
    if IsP95(ds, v) {
      P95Unique(ds, v, s[k]);
    }
  }

  lemma P95Depends(a: seq<nat>, b: seq<nat>, v: nat)
    requires multiset(a) == multiset(b)
    ensures IsP95(a, v) <==> IsP95(b, v)
  {
    AtMostPermuted(a, b, v);
    AtMostPermuted(a, b, v - 1);
    assert |a| == |multiset(a)| == |multiset(b)| == |b|;
  }

  // ----- growth -----

  function Growth(p95: nat, target: nat): int
    requires p95 < target
  {
    var ratio := p95 as real / target as real;
    var growth := (1.0 / (ratio + 0.1)).Floor;
    if growth < 1 then 1 else if growth > 20 then 20 else growth
  }

  lemma FloorAtLeast(num: real, den: real, g: int)
    requires den > 0.0
    ensures (num / den).Floor >= g <==> g as real * den <= num
  {
    var q := num / den;
    assert q * den == num;
    if q >= g as real {
      assert (q - g as real) * den >= 0.0;
    } else {
      assert (g as real - q) * den > 0.0;
    }
  }

  /** Growth reaches g > 1 exactly when the latency is at most the 1/g - 1/10 part of the target. */
  lemma GrowthExactly(p95: nat, target: nat, g: int)
    requires p95 < target && 1 < g <= 20
    ensures Growth(p95, target) >= g <==> g * (10 * p95 + target) <= 10 * target
  {
    var den := p95 as real / target as real + 0.1;
    DividedTerms(p95 as real, target as real);
    FloorAtLeast(1.0, den, g);
    ScaledCompare(g as real, den, 10.0 * target as real, 10.0 * p95 as real + target as real);
    CastProduct(g, 10 * p95 + target);
  }

  lemma CastProduct(a: int, b: int)
    ensures (a * b) as real == a as real * b as real
  {
  }

  lemma DividedTerms(p: real, t: real)
    requires p >= 0.0 && t > 0.0
    ensures p / t + 0.1 > 0.0
    ensures (p / t + 0.1) * (10.0 * t) == 10.0 * p + t
  {
    var ratio := p / t;
    assert ratio * t == p;
    assert ratio >= 0.0;
  }

  lemma ScaledCompare(g: real, den: real, s: real, product: real)
    requires s > 0.0 && den * s == product
    ensures g * den <= 1.0 <==> g * product <= s
  {
    var e := g * den;
    assert e * s == g * product;
    if e <= 1.0 {
      assert (1.0 - e) * s >= 0.0;
    } else {
      assert (e - 1.0) * s > 0.0;
    }
  }

  /** The step is between 1 and 10, so the clamp at 20 never acts; it shrinks as latency rises. */
  lemma GrowthBounds(p: nat, q: nat, target: nat)
    requires p <= q < target
    ensures 1 <= Growth(q, target) <= Growth(p, target) <= 10
  {
    GrowthExactly(p, target, 11);
    var g := Growth(q, target);
    if g > 1 {
      GrowthExactly(q, target, g);
      GrowthExactly(p, target, g);
      assert g * (10 * p + target) <= g * (10 * q + target);
    }
  }

  /** What the code does at the three latencies its comment names: 5, 1 and 1, not 10, 2 and 1. */
  lemma GrowthAtCommentedPoints(target: nat)
    requires target > 0 && target % 10 == 0
    ensures Growth(target / 10, target) == 5
    ensures Growth(target / 2, target) == 1
    ensures Growth(9 * target / 10, target) == 1
  {
    GrowthExactly(target / 10, target, 5);
    GrowthExactly(target / 10, target, 6);
    GrowthExactly(target / 2, target, 2);
    GrowthExactly(9 * target / 10, target, 2);
  }

  // ----- the decision -----

  /** The value adjust would store, before it is clamped. */
  function Target(maxLatency: nat, current: int, errors: nat, p95: nat): int {
    if errors > MAX_ERRORS then current / 2
    else if p95 > maxLatency then current - 2
    else if p95 < maxLatency / 2 then current + Growth(p95, maxLatency / 2)
    else current
  }

  /** With worse latency and no fewer errors over the limit, the new parallelism is never higher. */
  lemma DecisionMonotone(p: Pool, maxLatency: nat, e: nat, f: nat, fast: nat, slow: nat)
    requires Inv(p) && fast <= slow && (e > MAX_ERRORS ==> f > MAX_ERRORS)
    ensures Clamp(p, Target(maxLatency, p.current, f, slow)) <= Clamp(p, Target(maxLatency, p.current, e, fast))
  {
    if fast < maxLatency / 2 {
      GrowthBounds(fast, fast, maxLatency / 2);
      if slow < maxLatency / 2 {
        GrowthBounds(fast, slow, maxLatency / 2);
      }
    }
  }

  /** The direction of one adjustment, and by how much at most. */
  lemma DecisionDirection(p: Pool, maxLatency: nat, errors: nat, p95: nat)
    requires Inv(p)
    ensures var next := Clamp(p, Target(maxLatency, p.current, errors, p95));
            && p.minP <= next <= p.maxP && next <= p.current + 10
            && (next > p.current <==>
                errors <= MAX_ERRORS && p95 < maxLatency / 2 && p.current < p.maxP)
            && (next < p.current <==>
                (errors > MAX_ERRORS || p95 > maxLatency) && p.current > p.minP)
  {
    if p95 < maxLatency / 2 {
      GrowthBounds(p95, p95, maxLatency / 2);
    }
  }

  /**
   * The same in milliseconds, as the limit is configured: 1000 unless it is positive. The pool grows below half of the
   * limit and shrinks above it.
   */
  lemma DirectionInMilliseconds(p: Pool, configuredMs: int, errors: nat, ms: nat)
    requires Inv(p)
    ensures var limit := if configuredMs > 0 then configuredMs else 1000;
            var next := Clamp(p, Target(MaxLatency(configuredMs), p.current, errors, ms * 1_000_000));
            && (next > p.current <==> errors <= 10 && 2 * ms < limit && p.current < p.maxP)
            && (next < p.current <==> (errors > 10 || ms > limit) && p.current > p.minP)
  {
    hide Target, Clamp, Inv;
    DecisionDirection(p, MaxLatency(configuredMs), errors, ms * 1_000_000);
  }

  // ----- the object -----

  function Sends(n: nat): seq<Label> {
    if n == 0 then [] else [Send] + Sends(n - 1)
  }

  /** The steps an adjust takes on the pool. */
  function AdjustSteps(p: Pool, target: int): seq<Label> {
    [Store(target)] + Sends(Max(0, Clamp(p, target) - p.current))
  }

  lemma {:induction false} SendsAll(p: Pool, n: nat)
    requires n == p.owed && Inv(p)
    ensures Trace(p, Sends(n)) && Final(p, Sends(n)) == SentAll(p)
    decreases n
  {
    if n > 0 {
      SendsAll(Step(p, Send), n - 1);
      assert Sends(n)[1..] == Sends(n - 1);
    }
  }

  /** With nobody else running, the channel takes what it has room for and the rest is turned away. */
  function SentAll(p: Pool): Pool {
    var fit := Min(p.owed, Max(0, p.maxP - p.idle));
    p.(idle := p.idle + fit, lost := p.lost + p.owed - fit, owed := 0)
  }

  /** Without too many errors: down by two above the maximum, up by the growth below half of it, else unchanged. */
  predicate Moved(before: Pool, after: Pool, maxLatency: nat, v: nat) {
    && (v > maxLatency ==> after.current == Max(before.minP, before.current - 2))
    && (v < maxLatency / 2 ==> after.current == Min(before.maxP, before.current + Growth(v, maxLatency / 2)))
    && (maxLatency / 2 <= v <= maxLatency ==> after == before)
  }

  /** The new parallelism in each case, the bounds included. */
  lemma DecisionAmounts(p: Pool, maxLatency: nat, errors: nat, v: nat)
    requires Inv(p) && p.owed == 0
    ensures var after := SentAll(Step(p, Store(Clamp(p, Target(maxLatency, p.current, errors, v)))));
            if errors > 10 then after.current == Max(p.minP, p.current / 2) else Moved(p, after, maxLatency, v)
  {
    if v < maxLatency / 2 {
      GrowthBounds(v, v, maxLatency / 2);
    }
  }

  lemma AdjustStepsRun(p: Pool, target: int)
    requires Inv(p) && p.owed == 0
    ensures Trace(p, AdjustSteps(p, target))
    ensures Final(p, AdjustSteps(p, target)) == SentAll(Step(p, Store(Clamp(p, target))))
  {
    var stored := Step(p, Store(target));
    var steps := AdjustSteps(p, target);
    SendsAll(stored, stored.owed);
    assert steps[0] == Store(target) && steps[1..] == Sends(stored.owed);
    assert stored == Step(p, Store(Clamp(p, target)));
  }

  class Controller {
    const maxLatency: nat
    var pool: Pool
    var metrics: seq<Metric>

    ghost predicate Valid()
      reads this
    {
      Inv(pool) && pool.owed == 0 && InOrder(metrics)
    }

    constructor (configuredMax: int, configuredLatencyMs: int)
      requires configuredMax != 1
      ensures Valid() && metrics == [] && pool == New(MaxParallelism(configuredMax))
      ensures maxLatency == MaxLatency(configuredLatencyMs)
    {
      pool, metrics := New(MaxParallelism(configuredMax)), [];
      maxLatency := MaxLatency(configuredLatencyMs);
    }

    /** The clock is read with the lock held, so a later entry never has an earlier time. */
    method RecordMetric(now: int, duration: nat, success: bool)
      requires Valid() && forall m :: m in metrics ==> m.timestamp <= now
      modifies this`metrics
      ensures Valid() && metrics == old(metrics) + [Metric(now, duration, success)]
    {
      metrics := metrics + [Metric(now, duration, success)];
    }

    /** Zero stands for "too few metrics". */
    method P95Latency() returns (v: nat)
      ensures if |metrics| < 10 then v == 0 else IsP95(Durations(metrics), v)
    {
      if |metrics| < MIN_METRICS {
        return 0;
      }
      v := Percentile(metrics);
    }

    /** The loop that finds where the window begins keeps exactly the metrics newer than the cutoff. */
    method Prune(cutoff: int)
      requires Valid()
      modifies this`metrics
      ensures Valid() && metrics == Filter(old(metrics), NewerThan(cutoff))
      ensures forall m :: m in metrics <==> m in old(metrics) && m.timestamp > cutoff
    {
      hide Filter;
      var validStart, i := 0, 0;
      while i < |metrics|
        invariant 0 <= i <= |metrics| && validStart == (if i == |metrics| then i else 0)
        invariant forall j :: 0 <= j < i ==> !NewerThan(cutoff)(metrics[j])
      {
        if metrics[i].timestamp > cutoff {
          validStart := i;
          break;
        }
        if i == |metrics| - 1 {
          validStart := |metrics|;
        }
        i := i + 1;
      }
      var olds, news := metrics[..validStart], metrics[validStart..];
      assert metrics == olds + news;
      FilterAppend(olds, news, NewerThan(cutoff));
      FilterNone(olds, NewerThan(cutoff));
      FilterAll(news, NewerThan(cutoff));
      metrics := news;
    }

    /**
     * With fewer than ten metrics left of the last minute nothing changes; otherwise the pool takes the steps of
     * an adjustment to a target that depends on the errors and on the percentile of the window only.
     */
    method Adjust(now: int)
      requires Valid()
      modifies this
      ensures Valid() && metrics == Filter(old(metrics), NewerThan(now - 60_000_000_000))
      ensures |metrics| < 10 ==> pool == old(pool)
      ensures |metrics| >= 10 ==> exists p95: nat :: IsP95(Durations(metrics), p95) && Adjusted(old(pool), p95)
      ensures |metrics| >= 10 && Errors(metrics) > 10 ==>
                pool.current == Max(old(pool).minP, old(pool).current / 2)
      ensures forall v: nat :: |metrics| >= 10 && Errors(metrics) <= 10 && IsP95(Durations(metrics), v) ==>
                Moved(old(pool), pool, maxLatency, v)
    {
      Prune(now - WINDOW);
      if |metrics| < MIN_METRICS {
        return;
      }
      var errors := CountErrors(metrics);
      var p95 := Percentile(metrics);
      var next := pool.current;
      ghost var target := Target(maxLatency, next, errors, p95);
      if errors > MAX_ERRORS {
        next := next / 2;
      } else if p95 > maxLatency {
        next := next - 2;
      } else if p95 < maxLatency / 2 {
        next := next + Growth(p95, maxLatency / 2);
      }
      if next < pool.minP {
        next := pool.minP;
      }
      if next > pool.maxP {
        next := pool.maxP;
      }
      assert next == Clamp(pool, target);
      forall v: nat | IsP95(Durations(metrics), v) ensures v == p95 {
        P95Unique(Durations(metrics), v, p95);
      }
      DecisionAmounts(pool, maxLatency, errors, p95);
      hide IsP95, Growth, Errors, InOrder, NewerThan, Filter;
      AdjustStepsRun(pool, target);
      Resize(next);
    }

    /** The end of adjust: store the new value and add the slots it brings. */
    method Resize(next: int)
      requires Valid() && pool.minP <= next <= pool.maxP
      modifies this`pool
      ensures Valid() && pool == SentAll(Step(old(pool), Store(next)))
    {
      var current := pool.current;
      ghost var stored := Step(pool, Store(next));
      if next == current {
        return;
      }
      pool := pool.(current := next, cut := pool.cut + Max(0, current - next));
      if next > current {
        ghost var room := stored.maxP - stored.idle;
        for i := 0 to next - current
          invariant pool == stored.(owed := 0, idle := stored.idle + Min(i, room), lost := stored.lost + i - Min(i, room))
        {
          if pool.idle < pool.maxP {
            pool := pool.(idle := pool.idle + 1);
          } else {
            pool := pool.(lost := pool.lost + 1);
          }
        }
      }
    }

    /** The pool has taken the steps of an adjustment decided on percentile p95 and the errors in the window. */
    ghost predicate Adjusted(before: Pool, p95: nat)
      reads this
    {
      var steps := AdjustSteps(before, Target(maxLatency, before.current, Errors(metrics), p95));
      Trace(before, steps) && pool == Final(before, steps)
    }
  }

  /** NewController: null stands for a call that never returns, because the channel is full before it has its tokens. */
  method NewController(configuredMax: int, configuredLatencyMs: int) returns (c: Controller?)
    ensures c == null <==> configuredMax == 1
    ensures c != null ==> fresh(c) && c.Valid() && c.metrics == [] && c.pool == New(MaxParallelism(configuredMax))
    ensures c != null ==> c.maxLatency == MaxLatency(configuredLatencyMs)
  {
    var capacity, tokens, blocked := FillChannel(configuredMax);
    if blocked {
      return null;
    }
    c := new Controller(configuredMax, configuredLatencyMs);
  }

  method CountErrors(ms: seq<Metric>) returns (errors: nat)
    ensures errors == Errors(ms)
  {
    errors := 0;
    for i := 0 to |ms|
      invariant errors == Errors(ms[..i])
    {
      assert ms[..i + 1] == ms[..i] + [ms[i]];
      ErrorsSnoc(ms[..i], ms[i]);
      if !ms[i].success {
        errors := errors + 1;
      }
    }
    assert ms[..|ms|] == ms;
  }

  method Percentile(ms: seq<Metric>) returns (v: nat)
    requires ms != []
    ensures IsP95(Durations(ms), v)
  {
    var durations: seq<nat> := [];
    for i := 0 to |ms|
      invariant durations == Durations(ms[..i])
    {
      durations := durations + [ms[i].duration];
    }
    assert ms[..|ms|] == ms;
    v := SortBy(durations, Identity())[P95Index(|durations|)];
    SortedElementIsP95(Durations(ms), v);
  }
}
