/**
 * JSON-RPC batches of evm-ingestion/rpc/fetcher.go: decode, sort, validate, retry, and splitting into chunks. All
 * attempts of one call decode into the same slice.
 */
module Rpc {
  import opened Prelude
  import opened Decoding

  type Hash = string

  // A request asks about arg.
  datatype Request = Request(id: nat, arg: Hash)

  // One HTTP exchange: nothing that could be decoded, or an array and the way in which sorting arranges what is read
  // from it. With typed clear some field has the wrong type. The decoder reports that only after it has read the rest:
  // a mistyped id counts as left out, a mistyped error as an error object without a message, since the decoder
  // allocates it before it looks at the value. A body of null clears the slice as an empty array does.
  datatype Reply = Lost | Body(list: seq<WireResponse>, typed: bool, order: Order)

  datatype Verdict = Retry | Fatal(message: string) | Accept(list: seq<Response>)

  function IdOf(r: Response): int {
    r.id
  }

  // ----- sorting -----

  function Upto(n: nat): (p: seq<nat>)
    ensures |p| == n && forall i :: 0 <= i < n ==> p[i] == i
  {
    seq(n, i requires 0 <= i < n => i)
  }

  function KeyAt(ids: seq<int>): nat -> int {
    (i: nat) => if i < |ids| then ids[i] else 0
  }

  /** p lists the positions of ids in ascending order of the ids there. */
  ghost predicate Sorts(p: seq<nat>, ids: seq<int>) {
    multiset(p) == multiset(Upto(|ids|)) && SortedBy(p, KeyAt(ids))
  }

  ghost predicate SortsAll(f: seq<int> -> seq<nat>) {
    forall ids :: Sorts(f(ids), ids)
  }

  function Stable(ids: seq<int>): (p: seq<nat>)
    ensures Sorts(p, ids)
  {
    SortBy(Upto(|ids|), KeyAt(ids))
  }

  // sort.Slice compares ids and swaps; how it arranges equal ones is its own choice.
  type Order = f: seq<int> -> seq<nat> | SortsAll(f) witness Stable

  function Ids(rs: seq<Response>): seq<int> {
    Map(IdOf, rs)
  }

  function Sort(order: Order, rs: seq<Response>): (sorted: seq<Response>)
    ensures multiset(sorted) == multiset(rs) && |sorted| == |rs|
    ensures SortedBy(sorted, IdOf)
  {
    var p := order(Ids(rs));
    SortedFacts(p, rs);
    Map((i: nat) => CellAt(rs, i), p)
  }

  lemma SortedFacts(p: seq<nat>, rs: seq<Response>)
    requires Sorts(p, Ids(rs))
    ensures var sorted := Map((i: nat) => CellAt(rs, i), p);
            multiset(sorted) == multiset(rs) && |sorted| == |rs| && SortedBy(sorted, IdOf)
  {
    var at := (i: nat) => CellAt(rs, i);
    assert |p| == |multiset(p)| == |multiset(Upto(|rs|))| == |rs|;
    MapPermuted(at, p, Upto(|rs|));
    assert Map(at, Upto(|rs|)) == rs;
    forall i | 0 <= i < |p| ensures p[i] < |rs| && KeyAt(Ids(rs))(p[i]) == rs[p[i]].id {
      assert p[i] in multiset(p) && p[i] in multiset(Upto(|rs|));
    }
    forall i, j | 0 <= i < j < |p| ensures at(p[i]).id <= at(p[j]).id {
      assert KeyAt(Ids(rs))(p[i]) <= KeyAt(Ids(rs))(p[j]);
    }
  }

  predicate Matches(requests: seq<Request>, sorted: seq<Response>)
    requires |sorted| == |requests|
  {
    forall i :: 0 <= i < |requests| ==> sorted[i].id == requests[i].id
  }

  /** The strict caller (batchRpcCall) also refuses errors and empty results; the debug one leaves them to its caller. */
  predicate Spoiled(strict: bool, r: Response) {
    strict && (r.error.Some? || r.result == [])
  }

  /**
   * What one attempt makes of a reply. The loop looks at the sorted responses in turn: the first with a wrong
   * id asks for a retry, the first spoiled one ends the call, whichever comes first.
   */
  function Judge(strict: bool, requests: seq<Request>, sorted: seq<Response>): Verdict
    requires |sorted| == |requests|
  {
    if requests == [] then Accept([])
    else if sorted[0].id != requests[0].id then Retry
    else if Spoiled(strict, sorted[0]) then Fatal("RPC error in batch")
    else
      match Judge(strict, requests[1..], sorted[1..])
      case Accept(rest) => Accept([sorted[0]] + rest)
      case other => other
  }

  lemma {:induction false} JudgeAccepts(strict: bool, requests: seq<Request>, sorted: seq<Response>)
    requires |sorted| == |requests|
    ensures Judge(strict, requests, sorted).Accept? <==>
            Matches(requests, sorted) && forall r :: r in sorted ==> !Spoiled(strict, r)
    ensures Judge(strict, requests, sorted).Accept? ==> Judge(strict, requests, sorted).list == sorted
  {
    if requests != [] {
      JudgeAccepts(strict, requests[1..], sorted[1..]);
      assert sorted == [sorted[0]] + sorted[1..];
      if Matches(requests[1..], sorted[1..]) && sorted[0].id == requests[0].id {
        forall i | 0 <= i < |requests| ensures sorted[i].id == requests[i].id {
          if i > 0 { assert sorted[1..][i - 1].id == requests[1..][i - 1].id; }
        }
      }
      if Matches(requests, sorted) {
        forall i | 0 <= i < |requests| - 1 ensures sorted[1..][i].id == requests[1..][i].id {
          assert sorted[i + 1].id == requests[i + 1].id;
        }
      }
    }
  }

  /**
   * The strict caller accepts exactly what has the right ids, no error and no empty result; the debug caller looks at
   * the ids alone. Of what the strict one does not accept it retries only what has a wrong id before anything worse.
   */
  lemma AcceptsExactly(requests: seq<Request>, sorted: seq<Response>)
    requires |sorted| == |requests|
    ensures Judge(true, requests, sorted).Accept? <==>
            Matches(requests, sorted) && forall i :: 0 <= i < |sorted| ==> sorted[i].error.None? && sorted[i].result != []
    ensures Judge(false, requests, sorted) == if Matches(requests, sorted) then Accept(sorted) else Retry
  {
    JudgeAccepts(true, requests, sorted);
    JudgeAccepts(false, requests, sorted);
    DebugNeverFatal(requests, sorted);
    assert forall i :: 0 <= i < |sorted| ==> sorted[i] in sorted;
  }

  lemma {:induction false} DebugNeverFatal(requests: seq<Request>, sorted: seq<Response>)
    requires |sorted| == |requests|
    ensures !Judge(false, requests, sorted).Fatal?
  {
    if requests != [] {
      DebugNeverFatal(requests[1..], sorted[1..]);
    }
  }

  predicate InOrderAt(requests: seq<Request>, sorted: seq<Response>, i: nat)
    requires |sorted| == |requests| && i < |requests|
  {
    sorted[i].id == requests[i].id && sorted[i].error.None? && sorted[i].result != []
  }

  predicate WorseAt(requests: seq<Request>, sorted: seq<Response>, i: nat)
    requires |sorted| == |requests| && i < |requests|
  {
    sorted[i].id == requests[i].id && (sorted[i].error.Some? || sorted[i].result == [])
  }

  /** A strict call fails for good exactly when, at some position, the id is right, something else is not, and all before is in order. */
  lemma {:induction false} FatalExactly(requests: seq<Request>, sorted: seq<Response>)
    requires |sorted| == |requests|
    ensures Judge(true, requests, sorted).Fatal? <==>
            exists i: nat :: i < |requests| && WorseAt(requests, sorted, i) && forall j: nat :: j < i ==> InOrderAt(requests, sorted, j)
  {
    if requests != [] {
      var rs, ss := requests[1..], sorted[1..];
      FatalExactly(rs, ss);
      forall i: nat | i < |rs|
        ensures WorseAt(rs, ss, i) == WorseAt(requests, sorted, i + 1) && InOrderAt(rs, ss, i) == InOrderAt(requests, sorted, i + 1)
      {
      }
      assert Judge(true, requests, sorted).Fatal? <==>
             WorseAt(requests, sorted, 0) || (InOrderAt(requests, sorted, 0) && Judge(true, rs, ss).Fatal?);
      hide Judge, WorseAt, InOrderAt;
      ShiftFatal(requests, sorted);
    }
  }

  lemma ShiftFatal(requests: seq<Request>, sorted: seq<Response>)
    requires |sorted| == |requests| > 0
    requires forall i: nat :: i < |requests| - 1 ==>
               WorseAt(requests[1..], sorted[1..], i) == WorseAt(requests, sorted, i + 1) &&
               InOrderAt(requests[1..], sorted[1..], i) == InOrderAt(requests, sorted, i + 1)
    ensures (exists i: nat :: i < |requests| && WorseAt(requests, sorted, i) && forall j: nat :: j < i ==> InOrderAt(requests, sorted, j))
       <==> WorseAt(requests, sorted, 0) || (InOrderAt(requests, sorted, 0) &&
              exists i: nat :: i < |requests| - 1 && WorseAt(requests[1..], sorted[1..], i)
                && forall j: nat :: j < i ==> InOrderAt(requests[1..], sorted[1..], j))
  {
    hide WorseAt, InOrderAt;
    if i: nat :| i < |requests| - 1 && WorseAt(requests[1..], sorted[1..], i)
                 && forall j: nat :: j < i ==> InOrderAt(requests[1..], sorted[1..], j) {
      if InOrderAt(requests, sorted, 0) {
        forall j: nat | j < i + 1 ensures InOrderAt(requests, sorted, j) {
          if j > 0 { assert InOrderAt(requests[1..], sorted[1..], j - 1); }
        }
        assert WorseAt(requests, sorted, i + 1);
      }
    }
    if i: nat :| 0 < i < |requests| && WorseAt(requests, sorted, i) && forall j: nat :: j < i ==> InOrderAt(requests, sorted, j) {
      var k: nat := i - 1;
      assert WorseAt(requests[1..], sorted[1..], k);
      forall j: nat | j < k ensures InOrderAt(requests[1..], sorted[1..], j) {
        assert InOrderAt(requests, sorted, j + 1);
      }
    }
  }

  // ----- one attempt -----

  function Attempt(strict: bool, requests: seq<Request>, cells: Cells, reply: Reply): Verdict {
    if reply.Lost? || !reply.typed || |reply.list| != |requests| then Retry
    else Judge(strict, requests, Sort(reply.order, Decode(cells, reply.list)[..|requests|]))
  }

  function SortFirst(order: Order, cells: Cells, n: nat): (r: Cells)
    requires n <= |cells|
    ensures multiset(r) == multiset(cells) && |r| == |cells|
  {
    assert cells == cells[..n] + cells[n..];
    Sort(order, cells[..n]) + cells[n..]
  }

  /** The slice after an attempt. Of the two callers only the debug one sorts before it compares the lengths. */
  function After(strict: bool, n: nat, cells: Cells, reply: Reply): Cells {
    if reply.Lost? then cells
    else
      var read := Decode(cells, reply.list);
      if !reply.typed || (strict && |reply.list| != n) then read else SortFirst(reply.order, read, |reply.list|)
  }

  /**
   * What a retried attempt leaves. A lost reply changes nothing, and an empty array clears the slice. After a reply of
   * the wrong length the strict caller has the elements in the order in which they came, the debug caller in the order
   * of their ids; after a mistyped one both have them as they came. Cells beyond the elements are as they were.
   */
  lemma LeftBehind(strict: bool, n: nat, cells: Cells, reply: Reply)
    requires reply.Lost? || !reply.typed || |reply.list| != n
    ensures var left := After(strict, n, cells, reply);
            if reply.Lost? then left == cells
            else if reply.list == [] then left == []
            else
              var m := |reply.list|;
              && |left| == Max(|cells|, m) && (forall i :: m <= i < |cells| ==> left[i] == cells[i])
              && multiset(left[..m]) == multiset(seq(m, i requires 0 <= i < m => Overlay(CellAt(cells, i), reply.list[i])))
              && if strict || !reply.typed then forall i :: 0 <= i < m ==> left[i] == Overlay(CellAt(cells, i), reply.list[i])
                 else SortedBy(left[..m], IdOf)
  {
    hide Sort;
    if reply.Lost? || reply.list == [] {
      return;
    }
    var read := Decode(cells, reply.list);
    var m := |reply.list|;
    assert read[..m] == seq(m, i requires 0 <= i < m => Overlay(CellAt(cells, i), reply.list[i]));
    assert SortFirst(reply.order, read, m) == Sort(reply.order, read[..m]) + read[m..];
    var sorted := Sort(reply.order, read[..m]);
    assert (sorted + read[m..])[..m] == sorted && (sorted + read[m..])[m..] == read[m..];
  }

  /** The slice as attempt k finds it; attempt j gets reply net(j). */
  function Before(strict: bool, n: nat, net: nat -> Reply, k: nat): Cells {
    if k == 0 then [] else After(strict, n, Before(strict, n, net, k - 1), net(k - 1))
  }

  function VerdictAt(strict: bool, requests: seq<Request>, net: nat -> Reply, k: nat): Verdict {
    Attempt(strict, requests, Before(strict, |requests|, net, k), net(k))
  }

  function Prepend(done: seq<Response>, v: Verdict): Verdict {
    match v
    case Accept(rest) => Accept(done + rest)
    case other => other
  }

  lemma JudgeStep(strict: bool, requests: seq<Request>, sorted: seq<Response>, i: nat)
    requires |sorted| == |requests| && i < |requests|
    ensures Prepend(sorted[..i], Judge(strict, requests[i..], sorted[i..])) ==
            if sorted[i].id != requests[i].id then Retry
            else if Spoiled(strict, sorted[i]) then Fatal("RPC error in batch")
            else Prepend(sorted[..i + 1], Judge(strict, requests[i + 1..], sorted[i + 1..]))
  {
    var rs, ss := requests[i..], sorted[i..];
    assert rs[1..] == requests[i + 1..] && ss[1..] == sorted[i + 1..];
    var rest := Judge(strict, requests[i + 1..], sorted[i + 1..]);
    if rest.Accept? {
      assert sorted[..i] + ([sorted[i]] + rest.list) == sorted[..i + 1] + rest.list;
    }
  }

  /** The validation loop of one attempt. */
  method Validate(strict: bool, requests: seq<Request>, sorted: seq<Response>) returns (v: Verdict)
    requires |sorted| == |requests|
    ensures v == Judge(strict, requests, sorted)
  {
    ghost var whole := Judge(strict, requests, sorted);
    assert requests[0..] == requests && sorted[0..] == sorted;
    assert whole == Prepend(sorted[..0], whole) by {
      if whole.Accept? { assert [] + whole.list == whole.list; }
    }
    for i := 0 to |requests|
      invariant whole == Prepend(sorted[..i], Judge(strict, requests[i..], sorted[i..]))
    {
      JudgeStep(strict, requests, sorted, i);
      if sorted[i].id != requests[i].id {
        return Retry;
      }
      if Spoiled(strict, sorted[i]) {
        return Fatal("RPC error in batch");
      }
    }
    assert sorted[..|requests|] + [] == sorted;
    v := Accept(sorted);
  }

  // ----- one call -----

  /** Attempt k is the first that is not retried. */
  ghost predicate Decides(strict: bool, requests: seq<Request>, net: nat -> Reply, k: nat) {
    && !VerdictAt(strict, requests, net, k).Retry?
    && forall j: nat :: j < k ==> VerdictAt(strict, requests, net, j).Retry?
  }

  /** Within the attempts allowed, the first one that is not retried is accepted with list. */
  ghost predicate Yields(strict: bool, requests: seq<Request>, maxRetries: nat, net: nat -> Reply, list: seq<Response>) {
    exists k: nat :: YieldsAt(strict, requests, maxRetries, net, list, k)
  }

  ghost predicate YieldsAt(strict: bool, requests: seq<Request>, maxRetries: nat, net: nat -> Reply, list: seq<Response>, k: nat) {
    k <= maxRetries && Decides(strict, requests, net, k) && VerdictAt(strict, requests, net, k) == Accept(list)
  }

  lemma OneDecides(strict: bool, requests: seq<Request>, maxRetries: nat, net: nat -> Reply, k: nat, list: seq<Response>)
    requires Decides(strict, requests, net, k) && k <= maxRetries
    ensures Yields(strict, requests, maxRetries, net, list) <==> VerdictAt(strict, requests, net, k) == Accept(list)
  {
    hide VerdictAt;
    if Yields(strict, requests, maxRetries, net, list) {
      var i: nat :| YieldsAt(strict, requests, maxRetries, net, list, i);
      assert !(i < k) && !(k < i);
    } else {
      assert !YieldsAt(strict, requests, maxRetries, net, list, k);
    }
  }

  lemma NoneDecides(strict: bool, requests: seq<Request>, maxRetries: nat, net: nat -> Reply)
    requires forall j: nat :: j <= maxRetries ==> VerdictAt(strict, requests, net, j).Retry?
    ensures forall list :: !Yields(strict, requests, maxRetries, net, list)
  {
    hide VerdictAt;
  }

  lemma YieldsOnce(strict: bool, requests: seq<Request>, maxRetries: nat, net: nat -> Reply, a: seq<Response>, b: seq<Response>)
    requires Yields(strict, requests, maxRetries, net, a) && Yields(strict, requests, maxRetries, net, b)
    ensures a == b
  {
    hide VerdictAt;
    var i: nat :| YieldsAt(strict, requests, maxRetries, net, a, i);
    OneDecides(strict, requests, maxRetries, net, i, b);
  }

  /**
   * batchRpcCall (strict) and batchRpcCallDebug: up to maxRetries + 1 attempts, of which attempt k gets reply
   * net(k). The first attempt that is not retried decides, judged on what the slice then holds.
   */
  method BatchCall(strict: bool, requests: seq<Request>, maxRetries: nat, net: nat -> Reply)
    returns (r: Result<seq<Response>>)
    ensures requests == [] ==> r == Ok([])
    ensures requests != [] && r.Ok? ==> Yields(strict, requests, maxRetries, net, r.value)
    ensures requests != [] && r.Err? ==> forall list :: !Yields(strict, requests, maxRetries, net, list)
  {
    if |requests| == 0 {
      return Ok([]);
    }
    hide Judge, Sort, Yields, Attempt, Decode, Decides;
    var responses: Cells := [];
    for attempt := 0 to maxRetries + 1
      invariant responses == Before(strict, |requests|, net, attempt)
      invariant forall j: nat :: j < attempt ==> VerdictAt(strict, requests, net, j).Retry?
    {
      var reply := net(attempt);
      AttemptIs(strict, requests, responses, reply);
      if reply.Lost? {
        continue;
      }
      var length := |reply.list|;
      responses := Decode(responses, reply.list);
      if !reply.typed {
        continue;
      }
      if strict && length != |requests| {
        continue;
      }
      responses := SortFirst(reply.order, responses, length);
      if length != |requests| {
        continue;
      }
      var v := Validate(strict, requests, responses[..length]);
      if !v.Retry? {
        DecidesNow(strict, requests, net, attempt);
        forall list ensures Yields(strict, requests, maxRetries, net, list) <==> v == Accept(list) {
          OneDecides(strict, requests, maxRetries, net, attempt, list);
        }
      }
      if v.Fatal? {
        return Err(v.message);
      }
      if v.Accept? {
        return Ok(v.list);
      }
    }
    NoneDecides(strict, requests, maxRetries, net);
    r := Err("batch request failed after retries");
  }

  lemma AttemptIs(strict: bool, requests: seq<Request>, cells: Cells, reply: Reply)
    ensures reply.Lost? || !reply.typed || |reply.list| != |requests| ==> Attempt(strict, requests, cells, reply) == Retry
    ensures reply.Body? && reply.typed && |reply.list| == |requests| ==>
              var sorted := SortFirst(reply.order, Decode(cells, reply.list), |requests|)[..|requests|];
              Attempt(strict, requests, cells, reply) == Judge(strict, requests, sorted)
  {
    hide Judge, Sort;
    if reply.Body? && reply.typed && |reply.list| == |requests| {
      var read := Decode(cells, reply.list);
      var sorted := Sort(reply.order, read[..|requests|]);
      assert |sorted| == |requests|;
      assert SortFirst(reply.order, read, |requests|) == sorted + read[|requests|..];
      assert SortFirst(reply.order, read, |requests|)[..|requests|] == sorted;
    }
  }

  lemma DecidesNow(strict: bool, requests: seq<Request>, net: nat -> Reply, k: nat)
    requires !VerdictAt(strict, requests, net, k).Retry?
    requires forall j: nat :: j < k ==> VerdictAt(strict, requests, net, j).Retry?
    ensures Decides(strict, requests, net, k)
  {
  }

  /** An accepted list is a permutation of what was decoded, in request order. */
  lemma AcceptedIsSorted(strict: bool, requests: seq<Request>, cells: Cells, reply: Reply, list: seq<Response>)
    requires Attempt(strict, requests, cells, reply) == Accept(list)
    ensures reply.Body? && |reply.list| == |requests| == |list| && Matches(requests, list)
    ensures multiset(list) == multiset(Decode(cells, reply.list)[..|requests|])
    ensures forall r :: r in list ==> !Spoiled(strict, r)
  {
    hide Sort, Judge, Decode;
    JudgeAccepts(strict, requests, Sort(reply.order, Decode(cells, reply.list)[..|requests|]));
  }

  // ----- what stale values can do -----

  /** Some element of the reply says what r says. */
  ghost predicate Said(reply: Reply, r: Response) {
    reply.Body? && exists w :: w in reply.list && Genuine(r, w)
  }

  /**
   * Whatever the slice holds, an accepted response without an error is one the reply contains, so the strict caller
   * accepts nothing else; the same goes for errors when no stale one is in the slice.
   */
  lemma AcceptedIsSaid(strict: bool, requests: seq<Request>, cells: Cells, reply: Reply, list: seq<Response>)
    requires Attempt(strict, requests, cells, reply) == Accept(list) && AllCompliant(reply.list)
    ensures forall r :: r in list && (r.error.None? || NoStaleError(cells)) ==> Said(reply, r)
    ensures strict ==> forall r :: r in list ==> r.error.None?
  {
    hide Sort, Judge;
    AcceptedIsSorted(strict, requests, cells, reply, list);
    var read := Decode(cells, reply.list)[..|requests|];
    forall r | r in list && (r.error.None? || NoStaleError(cells)) ensures Said(reply, r) {
      assert r in multiset(list) && r in multiset(read);
      var i :| 0 <= i < |requests| && read[i] == r;
      assert reply.list[i] in reply.list;
      OverlayGenuine(CellAt(cells, i), reply.list[i]);
    }
  }

  predicate HasError(reply: Reply) {
    reply.Body? && exists w :: w in reply.list && w.error.Object?
  }

  lemma SortKeepsClean(order: Order, cells: Cells, n: nat)
    requires n <= |cells| && NoStaleError(cells)
    ensures NoStaleError(SortFirst(order, cells, n))
  {
    hide Sort;
    var r := SortFirst(order, cells, n);
    forall i | 0 <= i < |r| ensures r[i].error.None? {
      assert r[i] in multiset(r) && r[i] in multiset(cells);
    }
  }

  /** The slice is free of errors as long as no attempt has read one. */
  lemma {:induction false} CleanBefore(strict: bool, n: nat, net: nat -> Reply, k: nat)
    requires forall j: nat :: j < k ==> !HasError(net(j))
    ensures NoStaleError(Before(strict, n, net, k))
  {
    if k > 0 {
      hide SortFirst, Decode, NoStaleError;
      CleanBefore(strict, n, net, k - 1);
      var reply := net(k - 1);
      if reply.Body? {
        DecodeKeepsClean(Before(strict, n, net, k - 1), reply.list);
        SortKeepsClean(reply.order, Decode(Before(strict, n, net, k - 1), reply.list), |reply.list|);
      }
    }
  }

  // ----- calls in which nothing stale can show -----

  /** The verdict on a reply read into an empty slice. */
  function OwnVerdict(strict: bool, requests: seq<Request>, reply: Reply): Verdict {
    Attempt(strict, requests, [], reply)
  }

  /** No attempt that is retried for what its own reply says has read an error. */
  ghost predicate CleanCall(strict: bool, requests: seq<Request>, maxRetries: nat, net: nat -> Reply) {
    forall k: nat :: k < maxRetries && RetriedSoFar(strict, requests, net, k + 1) ==> !HasError(net(k))
  }

  ghost predicate RetriedSoFar(strict: bool, requests: seq<Request>, net: nat -> Reply, k: nat) {
    forall j: nat :: j < k ==> OwnVerdict(strict, requests, net(j)).Retry?
  }

  ghost predicate CompliantNet(net: nat -> Reply) {
    forall k: nat :: net(k).Body? && net(k).typed ==> AllCompliant(net(k).list)
  }

  /** The result of an error response is not looked at. */
  function Blank(r: Response): Response {
    if r.error.Some? then r.(result := []) else r
  }

  predicate Alike(a: seq<Response>, b: seq<Response>) {
    |a| == |b| && forall i :: 0 <= i < |a| ==> Blank(a[i]) == Blank(b[i])
  }

  lemma AlikeTails(a: seq<Response>, b: seq<Response>)
    requires Alike(a, b) && a != []
    ensures Alike(a[1..], b[1..]) && Blank(a[0]) == Blank(b[0])
  {
  }

  /** Sorting moves responses that differ only in what is not looked at alike. */
  lemma SortAlike(order: Order, a: seq<Response>, b: seq<Response>)
    requires Alike(a, b)
    ensures Alike(Sort(order, a), Sort(order, b))
  {
    assert forall i :: 0 <= i < |a| ==> Blank(a[i]).id == a[i].id && Blank(b[i]).id == b[i].id;
    assert Ids(a) == Ids(b);
    forall i: nat ensures Blank(CellAt(a, i)) == Blank(CellAt(b, i)) {
    }
  }

  /** The same kind of verdict, on lists that differ only in what is not looked at. */
  predicate SameVerdict(v: Verdict, u: Verdict) {
    match v
    case Retry => u.Retry?
    case Fatal(_) => u.Fatal?
    case Accept(list) => u.Accept? && Alike(list, u.list)
  }

  lemma {:induction false} JudgeAlike(strict: bool, requests: seq<Request>, a: seq<Response>, b: seq<Response>)
    requires |a| == |b| == |requests| && Alike(a, b)
    ensures SameVerdict(Judge(strict, requests, a), Judge(strict, requests, b))
  {
    if requests != [] {
      AlikeTails(a, b);
      JudgeAlike(strict, requests[1..], a[1..], b[1..]);
    }
  }

  lemma CleanReadIsAlike(cells: Cells, list: seq<WireResponse>)
    requires NoStaleError(cells) && AllCompliant(list)
    ensures Alike(Decode(cells, list)[..|list|], Decode([], list)[..|list|])
  {
    forall i | 0 <= i < |list|
      ensures Blank(Decode(cells, list)[i]) == Blank(Decode([], list)[i])
    {
      assert list[i] in list;
    }
  }

  lemma CleanAttempt(strict: bool, requests: seq<Request>, cells: Cells, reply: Reply)
    requires NoStaleError(cells) && (reply.Body? && reply.typed ==> AllCompliant(reply.list))
    ensures SameVerdict(Attempt(strict, requests, cells, reply), OwnVerdict(strict, requests, reply))
  {
    hide Judge, Sort, NoStaleError, Alike, Decode;
    if reply.Body? && reply.typed && |reply.list| == |requests| {
      var n := |requests|;
      CleanReadIsAlike(cells, reply.list);
      SortAlike(reply.order, Decode(cells, reply.list)[..n], Decode([], reply.list)[..n]);
      JudgeAlike(strict, requests, Sort(reply.order, Decode(cells, reply.list)[..n]),
                 Sort(reply.order, Decode([], reply.list)[..n]));
    }
  }

  /** In a clean call every attempt that is reached is judged as if its reply were read into an empty slice. */
  lemma {:induction false} CleanVerdicts(strict: bool, requests: seq<Request>, maxRetries: nat, net: nat -> Reply, k: nat)
    requires CleanCall(strict, requests, maxRetries, net) && CompliantNet(net) && k <= maxRetries
    requires RetriedSoFar(strict, requests, net, k)
    ensures NoStaleError(Before(strict, |requests|, net, k))
    ensures SameVerdict(VerdictAt(strict, requests, net, k), OwnVerdict(strict, requests, net(k)))
  {
    hide OwnVerdict, Attempt, AllCompliant, NoStaleError, SameVerdict, HasError;
    forall j: nat | j < k ensures !HasError(net(j)) {
      assert RetriedSoFar(strict, requests, net, j + 1);
    }
    CleanBefore(strict, |requests|, net, k);
    CleanAttempt(strict, requests, Before(strict, |requests|, net, k), net(k));
  }

  lemma {:induction false} CleanRetries(strict: bool, requests: seq<Request>, maxRetries: nat, net: nat -> Reply, k: nat)
    requires CleanCall(strict, requests, maxRetries, net) && CompliantNet(net) && k <= maxRetries + 1
    ensures RetriedSoFar(strict, requests, net, k) <==> forall j: nat :: j < k ==> VerdictAt(strict, requests, net, j).Retry?
  {
    hide OwnVerdict, VerdictAt, CompliantNet, CleanCall;
    if k > 0 {
      CleanRetries(strict, requests, maxRetries, net, k - 1);
      if RetriedSoFar(strict, requests, net, k - 1) {
        CleanVerdicts(strict, requests, maxRetries, net, k - 1);
      }
      assert RetriedSoFar(strict, requests, net, k) ==> RetriedSoFar(strict, requests, net, k - 1);
    }
  }

  /** What the call comes to when every reply is read into an empty slice. */
  ghost predicate OwnYields(strict: bool, requests: seq<Request>, maxRetries: nat, net: nat -> Reply, list: seq<Response>) {
    exists k: nat :: k <= maxRetries && RetriedSoFar(strict, requests, net, k)
                     && OwnVerdict(strict, requests, net(k)) == Accept(list)
  }

  /** In a clean call the reuse of the slice does not matter: same success, same ids, errors and results. */
  lemma CleanCallDecides(strict: bool, requests: seq<Request>, maxRetries: nat, net: nat -> Reply)
    requires CleanCall(strict, requests, maxRetries, net) && CompliantNet(net)
    ensures (exists list :: Yields(strict, requests, maxRetries, net, list)) <==>
            (exists list :: OwnYields(strict, requests, maxRetries, net, list))
    ensures forall a, b :: Yields(strict, requests, maxRetries, net, a) && OwnYields(strict, requests, maxRetries, net, b) ==>
              Alike(a, b)
  {
    hide OwnVerdict, VerdictAt, CompliantNet, CleanCall, RetriedSoFar, Alike;
    forall a | Yields(strict, requests, maxRetries, net, a)
      ensures exists b :: OwnYields(strict, requests, maxRetries, net, b) && Alike(a, b)
    {
      var k: nat :| YieldsAt(strict, requests, maxRetries, net, a, k);
      CleanRetries(strict, requests, maxRetries, net, k);
      CleanVerdicts(strict, requests, maxRetries, net, k);
      assert OwnYields(strict, requests, maxRetries, net, OwnVerdict(strict, requests, net(k)).list);
    }
    forall b | OwnYields(strict, requests, maxRetries, net, b)
      ensures exists a :: Yields(strict, requests, maxRetries, net, a) && Alike(a, b)
    {
      var k: nat :| k <= maxRetries && RetriedSoFar(strict, requests, net, k)
                    && OwnVerdict(strict, requests, net(k)) == Accept(b);
      CleanRetries(strict, requests, maxRetries, net, k);
      CleanVerdicts(strict, requests, maxRetries, net, k);
      var a := VerdictAt(strict, requests, net, k).list;
      assert YieldsAt(strict, requests, maxRetries, net, a, k);
    }
    forall a, b | Yields(strict, requests, maxRetries, net, a) && OwnYields(strict, requests, maxRetries, net, b)
      ensures Alike(a, b)
    {
      var a' :| Yields(strict, requests, maxRetries, net, a') && Alike(a', b);
      YieldsOnce(strict, requests, maxRetries, net, a, a');
    }
  }

  // ----- complete replies -----

  /** The complete answer, in request order, as the caller sees it and on the wire. */
  function InOrder(requests: seq<Request>, answer: Hash -> Bytes): (r: seq<Response>)
    ensures |r| == |requests|
  {
    seq(|requests|, i requires 0 <= i < |requests| => Response(requests[i].id, answer(requests[i].arg), None))
  }

  function OnWire(requests: seq<Request>, answer: Hash -> Bytes): (r: seq<WireResponse>)
    ensures |r| == |requests|
  {
    seq(|requests|, i requires 0 <= i < |requests| => WireResponse(Some(requests[i].id), Some(answer(requests[i].arg)), Absent))
  }

  predicate IdsAscend(requests: seq<Request>) {
    forall i, j :: 0 <= i < j < |requests| ==> requests[i].id < requests[j].id
  }

  lemma CompleteRead(cells: Cells, requests: seq<Request>, answer: Hash -> Bytes, list: seq<WireResponse>)
    requires NoStaleError(cells) && multiset(list) == multiset(OnWire(requests, answer))
    ensures |list| == |requests|
    ensures multiset(Decode(cells, list)[..|list|]) == multiset(InOrder(requests, answer))
  {
    assert |list| == |multiset(list)| == |multiset(OnWire(requests, answer))| == |requests|;
    forall i | 0 <= i < |list| ensures Decode(cells, list)[i] == Meaning(list[i]) {
      assert list[i] in multiset(list) && list[i] in multiset(OnWire(requests, answer));
    }
    assert Decode(cells, list)[..|list|] == Meanings(list);
    assert Meanings(OnWire(requests, answer)) == InOrder(requests, answer);
    MapPermuted((wire: WireResponse) => Meaning(wire), list, OnWire(requests, answer));
  }

  /**
   * A complete reply is accepted and put back into request order, however its responses are permuted and whatever
   * else the slice holds, unless a stale error is in it.
   */
  lemma PermutedReplyAccepted(strict: bool, requests: seq<Request>, answer: Hash -> Bytes, cells: Cells, reply: Reply)
    requires IdsAscend(requests) && (forall h :: answer(h) != []) && NoStaleError(cells)
    requires reply.Body? && reply.typed && multiset(reply.list) == multiset(OnWire(requests, answer))
    ensures Attempt(strict, requests, cells, reply) == Accept(InOrder(requests, answer))
  {
    var list := reply.list;
    var ordered := InOrder(requests, answer);
    hide Sort, Judge, Decode;
    CompleteRead(cells, requests, answer, list);
    SortedIsUnique(Sort(reply.order, Decode(cells, list)[..|list|]), ordered, IdOf);
    JudgeAccepts(strict, requests, ordered);
  }

  // ----- the input that shows the reuse -----

  /**
   * A first reply of one element with an error, retried for its length or for a field of the wrong type, then any number
   * of lost replies, and then a complete reply whose first element has no error: the strict call fails, and the debug
   * call returns that element with the error of the other reply.
   */
  lemma StaleErrorSurvives(requests: seq<Request>, w: WireResponse, maxRetries: nat, net: nat -> Reply, k: nat)
    requires requests != [] && IdsAscend(requests) && 1 <= k <= maxRetries
    requires net(0).Body? && net(0).list == [w] && w.error.Object? && (net(0).typed ==> |requests| >= 2)
    requires forall j :: 1 <= j < k ==> net(j).Lost?
    requires net(k).Body? && net(k).typed && |net(k).list| == |requests| && net(k).list[0].error.Absent?
    requires forall i :: 0 <= i < |requests| ==> net(k).list[i].id == Some(requests[i].id)
    ensures forall list :: !Yields(true, requests, maxRetries, net, list)
    ensures Yields(false, requests, maxRetries, net, Decode([Meaning(w)], net(k).list))
    ensures |Decode([Meaning(w)], net(k).list)| == |requests|
    ensures Decode([Meaning(w)], net(k).list)[0].error == Meaning(w).error
  {
    hide Judge, Sort;
    var read := Decode([Meaning(w)], net(k).list);
    assert read[..|requests|] == read;
    forall strict: bool
      ensures forall j: nat :: j < k ==> VerdictAt(strict, requests, net, j).Retry?
      ensures VerdictAt(strict, requests, net, k) == Judge(strict, requests, read)
    {
      BeforeLost(strict, requests, w, net, k);
      SortedIsUnique(Sort(net(k).order, read), read, IdOf);
    }
    JudgeAccepts(false, requests, read);
    JudgeFirst(requests, read);
    DecidesNow(true, requests, net, k);
    DecidesNow(false, requests, net, k);
    forall list ensures !Yields(true, requests, maxRetries, net, list) {
      OneDecides(true, requests, maxRetries, net, k, list);
    }
    OneDecides(false, requests, maxRetries, net, k, read);
  }

  /** Lost replies leave what the first one left. */
  lemma {:induction false} BeforeLost(strict: bool, requests: seq<Request>, w: WireResponse, net: nat -> Reply, k: nat)
    requires net(0).Body? && net(0).list == [w] && (net(0).typed ==> |requests| >= 2)
    requires k >= 1 && forall j :: 1 <= j < k ==> net(j).Lost?
    ensures Before(strict, |requests|, net, k) == [Meaning(w)]
    ensures forall j: nat :: j < k ==> VerdictAt(strict, requests, net, j).Retry?
  {
    hide Judge, Sort, Decode;
    if k == 1 {
      SecondBefore(strict, requests, w, net);
    } else {
      BeforeLost(strict, requests, w, net, k - 1);
    }
  }

  /** For instance a first reply whose error is a string, as of a node that limits its callers. */
  lemma MistypedErrorSurvives(requests: seq<Request>, id: Option<int>, answer: Hash -> Bytes, maxRetries: nat, net: nat -> Reply)
    requires requests != [] && IdsAscend(requests) && maxRetries >= 1
    requires net(0).Body? && net(0).list == [WireResponse(id, None, Object(None))] && !net(0).typed
    requires net(1).Body? && net(1).typed && net(1).list == OnWire(requests, answer)
    ensures forall list :: !Yields(true, requests, maxRetries, net, list)
    ensures exists list: seq<Response> :: Yields(false, requests, maxRetries, net, list) && list != [] && list[0].error == Some("")
    ensures !CleanCall(true, requests, maxRetries, net) && !CleanCall(false, requests, maxRetries, net)
  {
    hide Yields, Decode, Judge, Sort;
    StaleErrorSurvives(requests, WireResponse(id, None, Object(None)), maxRetries, net, 1);
    forall strict: bool ensures !CleanCall(strict, requests, maxRetries, net) {
      assert net(0).list[0] in net(0).list;
      assert HasError(net(0)) && RetriedSoFar(strict, requests, net, 0 + 1);
    }
  }

  lemma SecondBefore(strict: bool, requests: seq<Request>, w: WireResponse, net: nat -> Reply)
    requires net(0).Body? && net(0).list == [w] && (net(0).typed ==> |requests| >= 2)
    ensures Before(strict, |requests|, net, 0) == [] && Before(strict, |requests|, net, 1) == [Meaning(w)]
    ensures VerdictAt(strict, requests, net, 0).Retry?
  {
    hide Judge, Sort, Decode;
    FirstRead(w);
    SortOne(net(0).order, Meaning(w));
  }

  lemma FirstRead(w: WireResponse)
    ensures Decode([], [w]) == [Meaning(w)]
  {
  }

  lemma SortOne(order: Order, cell: Response)
    ensures SortFirst(order, [cell], 1) == [cell]
  {
    hide Sort;
    var one := Sort(order, [cell]);
    assert [cell][..1] == [cell] && [cell][1..] == [];
    assert one[0] in multiset(one) && one[0] in multiset([cell]);
  }

  lemma JudgeFirst(requests: seq<Request>, sorted: seq<Response>)
    requires |sorted| == |requests| > 0
    requires sorted[0].id == requests[0].id && Spoiled(true, sorted[0])
    ensures Judge(true, requests, sorted).Fatal?
  {
  }

  // ----- chunks -----

  function Flatten<T>(chunks: seq<seq<T>>): seq<T> {
    if chunks == [] then [] else chunks[0] + Flatten(chunks[1..])
  }

  function Chunked<T>(items: seq<T>, size: int): (chunks: seq<seq<T>>)
    requires size > 0
    ensures Flatten(chunks) == items
    ensures forall c :: c in chunks ==> 0 < |c| <= size
    decreases |items|
  {
    if |items| <= size then
      if items == [] then [] else
        assert [items][1..] == [];
        [items]
    else
      assert items == items[..size] + items[size..];
      [items[..size]] + Chunked(items[size..], size)
  }

  /** What is still to be cut from position i on. */
  function ChunksFrom<T>(items: seq<T>, i: nat, size: int): seq<seq<T>>
    requires size > 0
  {
    Chunked(items[Min(i, |items|)..], size)
  }

  lemma ChunkedStep<T>(items: seq<T>, i: nat, size: int)
    requires size > 0 && i < |items|
    ensures ChunksFrom(items, i, size) == [items[i..Min(i + size, |items|)]] + ChunksFrom(items, i + size, size)
  {
    hide Flatten;
    var rest := items[i..];
    var end := Min(i + size, |items|);
    if |rest| <= size {
      assert items[i..end] == rest && items[end..] == [];
    } else {
      assert items[i..end] == rest[..size] && items[end..] == rest[size..];
    }
  }

  lemma ChunkedEnds<T>(items: seq<T>, i: nat, size: int)
    requires size > 0
    ensures ChunksFrom(items, 0, size) == Chunked(items, size)
    ensures i >= |items| ==> ChunksFrom(items, i, size) == []
  {
    hide Flatten;
    assert items[0..] == items && items[|items|..] == [];
  }

  /** All pieces but the last have the full size, so the pieces are determined by their joining up to items. */
  lemma {:induction false} ChunkedSizes<T>(items: seq<T>, size: int)
    requires size > 0
    ensures forall k :: 0 <= k < |Chunked(items, size)| - 1 ==> |Chunked(items, size)[k]| == size
    decreases |items|
  {
    if |items| > size {
      ChunkedSizes(items[size..], size);
    }
  }

  /** The pieces as the source cuts them; a size of zero or less makes it panic. */
  method ChunksOf<T>(items: seq<T>, size: int) returns (chunks: seq<seq<T>>)
    requires size > 0
    ensures chunks == Chunked(items, size)
  {
    hide Chunked, ChunksFrom, Flatten;
    chunks := [];
    var i := 0;
    ChunkedEnds(items, 0, size);
    while i < |items|
      invariant 0 <= i
      invariant chunks + ChunksFrom(items, i, size) == Chunked(items, size)
    {
      var end := i + size;
      if end > |items| {
        end := |items|;
      }
      ChunkedStep(items, i, size);
      chunks := chunks + [items[i..end]];
      i := i + size;
    }
    ChunkedEnds(items, i, size);
  }
}
