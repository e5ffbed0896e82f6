/**
 * The compare-and-swap loop that keeps the greatest height seen (evm-ingestion/api/server.go,
 * evm-ingestion/storage/versiondb.go), for any number of concurrent callers and any schedule.
 */
module AtomicMax {
  import opened Prelude

  datatype Caller =
    | Ready(arg: u64)                // about to load
    | Loaded(arg: u64, seen: u64)    // has loaded seen < arg, about to swap
    | Done(arg: u64)

  datatype Cell = Cell(value: u64, callers: seq<Caller>)

  datatype Label = Call(arg: u64) | Move(i: nat)

  predicate Enabled(s: Cell, l: Label) {
    l.Call? || (l.i < |s.callers| && !s.callers[l.i].Done?)
  }

  function Step(s: Cell, l: Label): Cell
    requires Enabled(s, l)
  {
    match l
    case Call(arg) => s.(callers := s.callers + [Ready(arg)])
    case Move(i) =>
      match s.callers[i] {
        case Ready(arg) =>
          s.(callers := s.callers[i := if arg <= s.value then Done(arg) else Loaded(arg, s.value)])
        case Loaded(arg, seen) =>
          if s.value == seen then Cell(arg, s.callers[i := Done(arg)])
          else s.(callers := s.callers[i := Ready(arg)])
      }
  }

  predicate Trace(s: Cell, ls: seq<Label>)
    decreases ls
  {
    ls == [] || (Enabled(s, ls[0]) && Trace(Step(s, ls[0]), ls[1..]))
  }

  function Final(s: Cell, ls: seq<Label>): Cell
    requires Trace(s, ls)
    decreases ls
  {
    if ls == [] then s else Final(Step(s, ls[0]), ls[1..])
  }

  /** The value is the initial one or some caller's, and is no less than any finished caller's. */
  ghost predicate Inv(s: Cell, initial: u64) {
    && initial <= s.value
    && (s.value == initial || exists i :: 0 <= i < |s.callers| && s.callers[i].arg == s.value)
    && (forall i :: 0 <= i < |s.callers| && s.callers[i].Done? ==> s.callers[i].arg <= s.value)
    && (forall i :: 0 <= i < |s.callers| && s.callers[i].Loaded? ==>
          s.callers[i].seen < s.callers[i].arg && s.callers[i].seen <= s.value)
  }

  lemma StepKeeps(s: Cell, initial: u64, l: Label)
    requires Inv(s, initial) && Enabled(s, l)
    ensures Inv(Step(s, l), initial) && s.value <= Step(s, l).value
    ensures |s.callers| <= |Step(s, l).callers|
    ensures forall i :: 0 <= i < |s.callers| ==> Step(s, l).callers[i].arg == s.callers[i].arg
  {
    var t := Step(s, l);
    if s.value != initial && t.value == s.value {
      var i :| 0 <= i < |s.callers| && s.callers[i].arg == s.value;
      assert t.callers[i].arg == t.value;
    }
    if t.value != s.value {
      assert t.callers[l.i].arg == t.value;
    }
  }

  /** Over any run the value never falls. */
  lemma {:induction false} RunKeeps(s: Cell, initial: u64, ls: seq<Label>)
    requires Inv(s, initial) && Trace(s, ls)
    ensures Inv(Final(s, ls), initial) && s.value <= Final(s, ls).value
    decreases ls
  {
    if ls != [] {
      StepKeeps(s, initial, ls[0]);
      RunKeeps(Step(s, ls[0]), initial, ls[1..]);
    }
  }

  /** Once every call has returned the value is the greatest of the initial one and all arguments. */
  lemma QuiescentIsMaximum(initial: u64, ls: seq<Label>)
    requires Trace(Cell(initial, []), ls)
    requires forall i :: 0 <= i < |Final(Cell(initial, []), ls).callers| ==> Final(Cell(initial, []), ls).callers[i].Done?
    ensures var t := Final(Cell(initial, []), ls);
            && (forall i :: 0 <= i < |t.callers| ==> t.callers[i].arg <= t.value) && initial <= t.value
            && (t.value == initial || exists i :: 0 <= i < |t.callers| && t.callers[i].arg == t.value)
  {
    RunKeeps(Cell(initial, []), initial, ls);
  }

  // ----- termination -----

  function Active(cs: seq<Caller>): nat {
    if cs == [] then 0 else Active(cs[1..]) + if cs[0].Done? then 0 else 1
  }

  /** How many moves a caller has left if no other caller swaps. */
  function MovesLeft(c: Caller, value: u64): nat {
    match c
    case Done(_) => 0
    case Ready(_) => 2
    case Loaded(_, seen) => if seen == value then 1 else 3
  }

  function Moves(cs: seq<Caller>, value: u64): nat {
    if cs == [] then 0 else Moves(cs[1..], value) + MovesLeft(cs[0], value)
  }

  function Bound(s: Cell): nat {
    Moves(s.callers, s.value) + 3 * Active(s.callers) * Active(s.callers)
  }

  lemma {:induction false} UpdateMoves(cs: seq<Caller>, i: nat, c: Caller, value: u64)
    requires i < |cs|
    ensures Moves(cs[i := c], value) == Moves(cs, value) - MovesLeft(cs[i], value) + MovesLeft(c, value)
    decreases i
  {
    if i > 0 {
      UpdateMoves(cs[1..], i - 1, c, value);
      assert cs[i := c][1..] == cs[1..][i - 1 := c];
    } else {
      assert cs[i := c][1..] == cs[1..];
    }
  }

  lemma {:induction false} UpdateActive(cs: seq<Caller>, i: nat, c: Caller)
    requires i < |cs|
    ensures Active(cs[i := c]) == Active(cs) - (if cs[i].Done? then 0 else 1) + (if c.Done? then 0 else 1)
    decreases i
  {
    if i > 0 {
      UpdateActive(cs[1..], i - 1, c);
      assert cs[i := c][1..] == cs[1..][i - 1 := c];
    } else {
      assert cs[i := c][1..] == cs[1..];
    }
  }

  lemma {:induction false} MovesAtMost(cs: seq<Caller>, value: u64)
    ensures Moves(cs, value) <= 3 * Active(cs)
  {
    if cs != [] {
      MovesAtMost(cs[1..], value);
    }
  }

  lemma MoveDecreases(s: Cell, i: nat)
    requires Enabled(s, Move(i))
    ensures Bound(Step(s, Move(i))) < Bound(s)
    ensures Active(Step(s, Move(i)).callers) <= Active(s.callers)
  {
    hide Moves, Active;
    var t := Step(s, Move(i));
    var c := t.callers[i];
    UpdateMoves(s.callers, i, c, s.value);
    UpdateActive(s.callers, i, c);
    if t.value != s.value {
      MovesAtMost(t.callers, t.value);
    }
    Squares(Active(s.callers), Active(t.callers));
  }

  lemma Squares(a: int, b: int)
    requires b == a || b == a - 1
    ensures 3 * b * b == if b == a then 3 * a * a else 3 * a * a - 6 * a + 3
  {
  }

  /** However they are scheduled, n calls in progress finish within 3n + 3n * n moves. */
  lemma {:induction false} CallsFinish(s: Cell, ls: seq<Label>)
    requires Trace(s, ls) && forall l :: l in ls ==> l.Move?
    ensures |ls| <= 3 * Active(s.callers) + 3 * Active(s.callers) * Active(s.callers)
  {
    MovesAtMost(s.callers, s.value);
    RunWithinBound(s, ls);
  }

  lemma {:induction false} RunWithinBound(s: Cell, ls: seq<Label>)
    requires Trace(s, ls) && forall l :: l in ls ==> l.Move?
    ensures |ls| + Bound(Final(s, ls)) <= Bound(s)
    decreases ls
  {
    if ls != [] {
      MoveDecreases(s, ls[0].i);
      RunWithinBound(Step(s, ls[0]), ls[1..]);
    }
  }
}
