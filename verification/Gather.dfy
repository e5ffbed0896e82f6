/** fetchSingleBlock of evm-ingestion/rpc/fetcher.go: scatter over chunks, gather by id, reassemble by hash. */
module Gather {
  import opened Prelude
  import opened Decoding
  import opened Rpc

  // ----- what the node answers -----

  datatype TraceAnswer = Traced(json: Bytes) | Precompile

  datatype TraceEntry = TraceEntry(hash: Hash, result: Option<Bytes>)

  /**
   * A node's fixed answers about one block, with the strict JSON decoders applied to them: the block's
   * transaction hashes, a receipt and a trace per hash, and the list of traces of the whole block.
   */
  datatype Node = Node(
    block: Bytes, blockTrace: Bytes, receipt: Hash -> Bytes, trace: Hash -> TraceAnswer,
    parseBlock: Bytes -> Option<seq<Hash>>,
    parseReceipt: Bytes -> Option<Bytes>,
    parseTrace: Bytes -> Option<Bytes>,
    parseTraces: Bytes -> Option<seq<TraceEntry>>)
  {
    function Txs(): seq<Hash> {
      if parseBlock(block).Some? then parseBlock(block).value else []
    }

    /** The trace entry that asking for this one transaction yields. */
    function Entry(h: Hash): Option<TraceEntry> {
      match trace(h)
      case Precompile => Some(TraceEntry(h, None))
      case Traced(json) => if parseTrace(json).Some? then Some(TraceEntry(h, parseTrace(json))) else None
    }

    /** The block trace, where it can be read, lists the per-transaction traces in transaction order. */
    ghost predicate Consistent() {
      parseTraces(blockTrace).Some? ==>
        && |parseTraces(blockTrace).value| == |Txs()|
        && forall j :: 0 <= j < |Txs()| ==> Entry(Txs()[j]) == Some(parseTraces(blockTrace).value[j])
    }
  }

  const PRECOMPILE_ERROR: string := "incorrect number of top-level calls"

  predicate IsPrecompileError(message: string) {
    exists i :: 0 <= i <= |message| && PRECOMPILE_ERROR <= message[i..]
  }

  /** Recognised are the messages that contain the text, and no others. */
  lemma RecognisedExactly(message: string)
    ensures IsPrecompileError(message) <==> exists a: string, b: string :: message == a + "incorrect number of top-level calls" + b
  {
    if IsPrecompileError(message) {
      var i :| 0 <= i <= |message| && PRECOMPILE_ERROR <= message[i..];
      var a, b := message[..i], message[i + |PRECOMPILE_ERROR|..];
      assert message == a + PRECOMPILE_ERROR + b;
    }
    if a: string, b: string :| message == a + "incorrect number of top-level calls" + b {
      assert message[|a|..] == PRECOMPILE_ERROR + b;
    }
  }

  // net(c, k) is the reply to attempt k of chunk c. The node follows the JSON-RPC 2.0 Specification and its answers
  // are never wrong, but may be missing, permuted, duplicated or replaced by an error.
  ghost predicate HonestAbout(txs: seq<Hash>, answer: Hash -> Bytes, net: (nat, nat) -> Reply) {
    forall c: nat, k: nat :: HonestReply(txs, answer, net(c, k))
  }

  ghost predicate HonestReply(txs: seq<Hash>, answer: Hash -> Bytes, reply: Reply) {
    && (reply.Body? && reply.typed ==> AllCompliant(reply.list))
    && forall r :: Said(reply, r) && r.error.None? && 0 <= r.id < |txs| ==> r.result == answer(txs[r.id])
  }

  ghost predicate HonestTraces(txs: seq<Hash>, node: Node, net: (nat, nat, nat) -> Reply) {
    forall c: nat, o: nat, k: nat :: HonestTraceReply(txs, node, net(c, o, k))
  }

  ghost predicate HonestTraceReply(txs: seq<Hash>, node: Node, reply: Reply) {
    && (reply.Body? && reply.typed ==> AllCompliant(reply.list))
    && forall r :: Said(reply, r) && 0 <= r.id < |txs| ==> TrueTrace(txs, node, r)
  }

  /** What a response says about its transaction is what the node answers. */
  ghost predicate TrueTrace(txs: seq<Hash>, node: Node, r: Response)
    requires 0 <= r.id < |txs|
  {
    && (r.error.None? ==> node.trace(txs[r.id]) == Traced(r.result))
    && (r.error.Some? && IsPrecompileError(r.error.value) ==> node.trace(txs[r.id]) == Precompile)
  }

  // ----- scatter -----

  function Indices(n: nat): (s: set<nat>)
    ensures forall i: int :: i in s <==> 0 <= i < n
  {
    if n == 0 then {} else Indices(n - 1) + {n - 1}
  }

  function TxRequests(txs: seq<Hash>): (r: seq<Request>)
    ensures |r| == |txs| && forall i :: 0 <= i < |txs| ==> r[i] == Request(i, txs[i])
  {
    seq(|txs|, i requires 0 <= i < |txs| => Request(i, txs[i]))
  }

  lemma {:induction false} InSomeChunk<T>(chunks: seq<seq<T>>, x: T)
    requires x in Flatten(chunks)
    ensures exists c :: 0 <= c < |chunks| && x in chunks[c]
  {
    if x !in chunks[0] {
      InSomeChunk(chunks[1..], x);
      var c :| 0 <= c < |chunks[1..]| && x in chunks[1..][c];
      assert x in chunks[c + 1];
    }
  }

  /** An error-free response that some reply of the network contained. */
  ghost function FromReplies(net: (nat, nat) -> Reply): Response -> bool {
    (r: Response) => r.error.None? && exists c: nat, k: nat :: Said(net(c, k), r)
  }

  /** A response that some reply contained, if it has no error or nothing stale can show. */
  ghost function FromTraces(net: (nat, nat, nat) -> Reply, clean: bool): Response -> bool {
    (r: Response) => r.error.None? || clean ==> exists c: nat, o: nat, k: nat :: Said(net(c, o, k), r)
  }

  /** Responses by id for the ids listed. */
  ghost predicate Answered(requests: seq<Request>, got: map<int, Response>) {
    forall q :: q in requests ==> q.id in got
  }

  function ByIdMap(list: seq<Response>): (m: map<int, Response>)
    ensures forall i :: i in m ==> m[i] in list && m[i].id == i
    ensures forall r :: r in list ==> r.id in m
  {
    if list == [] then map[] else ByIdMap(list[..|list| - 1])[list[|list| - 1].id := list[|list| - 1]]
  }

  /** All chunks but those in todo have left their responses, of the given origin, in got. */
  ghost predicate Collected(origin: Response -> bool, chunks: seq<seq<Request>>, todo: set<nat>, got: map<int, Response>) {
    && (forall i :: i in got ==> got[i].id == i && origin(got[i]))
    && (forall c :: 0 <= c < |chunks| && c !in todo ==> Answered(chunks[c], got))
  }

  lemma CollectedGrows(origin: Response -> bool, chunks: seq<seq<Request>>, todo: set<nat>, got: map<int, Response>,
                       c: nat, list: seq<Response>)
    requires Collected(origin, chunks, todo, got) && c < |chunks| && Answered(chunks[c], ByIdMap(list))
    requires forall r :: r in list ==> origin(r)
    ensures Collected(origin, chunks, todo - {c}, got + ByIdMap(list))
  {
    hide ByIdMap;
    AnsweredGrows(chunks[c], got, ByIdMap(list));
  }

  function Row(net: (nat, nat) -> Reply, c: nat): nat -> Reply {
    (k: nat) => net(c, k)
  }

  function Plane(net: (nat, nat, nat) -> Reply, c: nat): (nat, nat) -> Reply {
    (o: nat, k: nat) => net(c, o, k)
  }

  /** The call for these requests succeeds. */
  ghost predicate Delivers(strict: bool, requests: seq<Request>, maxRetries: nat, net: nat -> Reply) {
    exists list :: Yields(strict, requests, maxRetries, net, list)
  }

  ghost predicate AllDeliver(txs: seq<Hash>, size: int, maxRetries: nat, net: (nat, nat) -> Reply)
    requires size > 0
  {
    DeliveredSoFar(Chunked(TxRequests(txs), size), {}, maxRetries, net)
  }

  /** The calls for all chunks but those in todo succeed. */
  ghost predicate DeliveredSoFar(chunks: seq<seq<Request>>, todo: set<nat>, maxRetries: nat, net: (nat, nat) -> Reply) {
    forall c: nat :: c < |chunks| && c !in todo ==> Delivers(true, chunks[c], maxRetries, Row(net, c))
  }

  lemma OneMoreDelivered(chunks: seq<seq<Request>>, todo: set<nat>, maxRetries: nat, net: (nat, nat) -> Reply, c: nat)
    requires c < |chunks|
    ensures !Delivers(true, chunks[c], maxRetries, Row(net, c)) ==> !DeliveredSoFar(chunks, {}, maxRetries, net)
    ensures Delivers(true, chunks[c], maxRetries, Row(net, c)) && DeliveredSoFar(chunks, todo, maxRetries, net) ==>
              DeliveredSoFar(chunks, todo - {c}, maxRetries, net)
  {
  }

  /** The chunk goroutines' calls for receipts, finishing in any order; one failure fails the whole. */
  method CallChunks(txs: seq<Hash>, size: int, maxRetries: nat, net: (nat, nat) -> Reply)
    returns (r: Result<map<int, Response>>)
    requires size > 0 && forall c: nat :: CompliantNet(Row(net, c))
    ensures r.Ok? <==> AllDeliver(txs, size, maxRetries, net)
    ensures r.Ok? ==> forall i :: 0 <= i < |txs| ==> i in r.value
    ensures r.Ok? ==> forall i :: i in r.value ==> r.value[i].id == i && FromReplies(net)(r.value[i])
  {
    var chunks := ChunksOf(TxRequests(txs), size);
    var todo := Indices(|chunks|);
    var got: map<int, Response> := map[];
    var failed := false;
    while todo != {}
      invariant forall c :: c in todo ==> 0 <= c < |chunks|
      invariant failed || Collected(FromReplies(net), chunks, todo, got)
      invariant failed ==> !DeliveredSoFar(chunks, {}, maxRetries, net)
      invariant failed || DeliveredSoFar(chunks, todo, maxRetries, net)
      decreases todo
    {
      hide Attempt, Collected, Yields, Chunked, Flatten, DeliveredSoFar, Answered;
      var c: nat :| c in todo;
      var replies := Row(net, c);
      var result := BatchCall(true, chunks[c], maxRetries, replies);
      assert Delivers(true, chunks[c], maxRetries, replies) <==> result.Ok?;
      OneMoreDelivered(chunks, todo, maxRetries, net, c);
      if result.Err? {
        failed := true;
      } else {
        ChunkAnswered(true, chunks[c], maxRetries, replies, result.value);
        assert forall r :: r in result.value ==> FromReplies(net)(r);
        if !failed { CollectedGrows(FromReplies(net), chunks, todo, got, c, result.value); }
        got := got + ByIdMap(result.value);
      }
      todo := todo - {c};
    }
    if failed {
      return Err("batch failed");
    }
    EveryIdAnswered(txs, chunks, got);
    r := Ok(got);
  }

  /** A first reply that is complete, in whatever order, is all that a chunk needs. */
  lemma CompleteRepliesDeliver(txs: seq<Hash>, size: int, maxRetries: nat, net: (nat, nat) -> Reply, answer: Hash -> Bytes)
    requires size > 0 && forall h :: answer(h) != []
    requires forall c: nat :: c < |Chunked(TxRequests(txs), size)| ==>
               net(c, 0).Body? && net(c, 0).typed
               && multiset(net(c, 0).list) == multiset(OnWire(Chunked(TxRequests(txs), size)[c], answer))
    ensures AllDeliver(txs, size, maxRetries, net)
  {
    hide Chunked, Delivers;
    var chunks := Chunked(TxRequests(txs), size);
    ChunksAscend(TxRequests(txs), size);
    forall c: nat | c < |chunks| ensures Delivers(true, chunks[c], maxRetries, Row(net, c)) {
      assert chunks[c] in chunks;
      FirstReplyDelivers(chunks[c], maxRetries, Row(net, c), answer);
    }
  }

  lemma FirstReplyDelivers(requests: seq<Request>, maxRetries: nat, net: nat -> Reply, answer: Hash -> Bytes)
    requires IdsAscend(requests) && forall h :: answer(h) != []
    requires net(0).Body? && net(0).typed && multiset(net(0).list) == multiset(OnWire(requests, answer))
    ensures Delivers(true, requests, maxRetries, net)
  {
    hide Attempt, Yields;
    PermutedReplyAccepted(true, requests, answer, [], net(0));
    DecidesNow(true, requests, net, 0);
    OneDecides(true, requests, maxRetries, net, 0, InOrder(requests, answer));
  }

  lemma {:induction false} ChunksAscend(requests: seq<Request>, size: int)
    requires size > 0 && IdsAscend(requests)
    ensures forall c :: c in Chunked(requests, size) ==> IdsAscend(c)
    decreases |requests|
  {
    if |requests| > size {
      ChunksAscend(requests[size..], size);
    }
  }

  /** The call for these requests succeeds when every reply is read into an empty slice. */
  ghost predicate OwnDelivers(strict: bool, requests: seq<Request>, maxRetries: nat, net: nat -> Reply) {
    exists list :: OwnYields(strict, requests, maxRetries, net, list)
  }

  /** When no call retries a reply with an error, success is decided by what each reply says on its own. */
  lemma CleanChunksDeliver(txs: seq<Hash>, size: int, maxRetries: nat, net: (nat, nat) -> Reply)
    requires size > 0 && forall c: nat :: CompliantNet(Row(net, c))
    requires var chunks := Chunked(TxRequests(txs), size);
             forall c: nat :: c < |chunks| ==> CleanCall(true, chunks[c], maxRetries, Row(net, c))
    ensures var chunks := Chunked(TxRequests(txs), size);
            AllDeliver(txs, size, maxRetries, net) <==>
            forall c: nat :: c < |chunks| ==> OwnDelivers(true, chunks[c], maxRetries, Row(net, c))
  {
    hide Chunked, Yields, OwnYields, CleanCall, CompliantNet;
    var chunks := Chunked(TxRequests(txs), size);
    forall c: nat | c < |chunks|
      ensures Delivers(true, chunks[c], maxRetries, Row(net, c)) <==> OwnDelivers(true, chunks[c], maxRetries, Row(net, c))
    {
      CleanCallDecides(true, chunks[c], maxRetries, Row(net, c));
    }
  }

  lemma AnsweredGrows(requests: seq<Request>, got: map<int, Response>, more: map<int, Response>)
    requires Answered(requests, more)
    ensures Answered(requests, got + more)
    ensures forall qs :: Answered(qs, got) ==> Answered(qs, got + more)
  {
  }

  lemma EveryIdAnswered(txs: seq<Hash>, chunks: seq<seq<Request>>, got: map<int, Response>)
    requires Flatten(chunks) == TxRequests(txs)
    requires forall c :: 0 <= c < |chunks| ==> Answered(chunks[c], got)
    ensures forall i :: 0 <= i < |txs| ==> i in got
  {
    forall i | 0 <= i < |txs| ensures i in got {
      var q := TxRequests(txs)[i];
      InSomeChunk(chunks, q);
      var c :| 0 <= c < |chunks| && q in chunks[c];
      assert Answered(chunks[c], got);
    }
  }

  lemma ByIdHasAll(requests: seq<Request>, list: seq<Response>)
    requires |list| == |requests| && Matches(requests, list)
    ensures Answered(requests, ByIdMap(list))
    ensures forall r :: r in list ==> exists q :: q in requests && q.id == r.id
  {
    hide ByIdMap;
    forall q | q in requests ensures q.id in ByIdMap(list) {
      var i :| 0 <= i < |requests| && requests[i] == q;
      assert list[i].id == q.id && list[i] in list;
    }
    forall r | r in list ensures exists q :: q in requests && q.id == r.id {
      var i :| 0 <= i < |list| && list[i] == r;
      assert requests[i] in requests && requests[i].id == r.id;
    }
  }

  /** What a successful call returns has the ids asked for, comes from a reply and, when strict, has no errors. */
  lemma ChunkAnswered(strict: bool, requests: seq<Request>, maxRetries: nat, net: nat -> Reply, list: seq<Response>)
    requires requests == [] ==> list == []
    requires requests != [] ==> Yields(strict, requests, maxRetries, net, list)
    ensures Answered(requests, ByIdMap(list))
    ensures CompliantNet(net) && strict ==> forall r :: r in list ==> r.error.None?
    ensures CompliantNet(net) ==> forall r :: r in list && (r.error.None? || CleanCall(strict, requests, maxRetries, net)) ==>
              exists k: nat :: Said(net(k), r)
    ensures forall r :: r in list ==> exists q :: q in requests && q.id == r.id
  {
    if requests != [] {
      hide Attempt, Answered, NoStaleError, AllCompliant, Said, CleanCall, RetriedSoFar, ByIdMap;
      var k: nat :| YieldsAt(strict, requests, maxRetries, net, list, k);
      AcceptedIsSorted(strict, requests, Before(strict, |requests|, net, k), net(k), list);
      ByIdHasAll(requests, list);
      if CompliantNet(net) {
        if CleanCall(strict, requests, maxRetries, net) {
          CleanRetries(strict, requests, maxRetries, net, k);
          CleanVerdicts(strict, requests, maxRetries, net, k);
        }
        AcceptedTyped(strict, requests, Before(strict, |requests|, net, k), net(k), list);
        AcceptedIsSaid(strict, requests, Before(strict, |requests|, net, k), net(k), list);
      }
    }
  }

  lemma AcceptedTyped(strict: bool, requests: seq<Request>, cells: Cells, reply: Reply, list: seq<Response>)
    requires Attempt(strict, requests, cells, reply) == Accept(list)
    ensures reply.Body? && reply.typed
  {
  }

  // ----- gather -----

  /** One request at a time: the reference for what gathering must produce. */
  function OneByOne<V>(txs: seq<Hash>, value: Hash -> Option<V>): Option<map<Hash, V>> {
    if txs == [] then Some(map[])
    else
      match (OneByOne(txs[..|txs| - 1], value), value(txs[|txs| - 1]))
      case (Some(m), Some(v)) => Some(m[txs[|txs| - 1] := v])
      case _ => None
  }

  lemma {:induction false} OneByOneIs<V>(txs: seq<Hash>, value: Hash -> Option<V>, m: map<Hash, V>)
    ensures OneByOne(txs, value) == Some(m) <==>
            (forall h :: h in txs <==> h in m) && (forall h :: h in txs ==> value(h) == Some(m[h]))
  {
    if OneByOne(txs, value).Some? {
      OneByOneAnswers(txs, value);
    }
    if (forall h :: h in txs <==> h in m) && (forall h :: h in txs ==> value(h) == Some(m[h])) {
      OneByOneFinds(txs, value, m);
    }
  }

  lemma {:induction false} OneByOneAnswers<V>(txs: seq<Hash>, value: Hash -> Option<V>)
    requires OneByOne(txs, value).Some?
    ensures forall h :: h in txs <==> h in OneByOne(txs, value).value
    ensures forall h :: h in txs ==> value(h) == Some(OneByOne(txs, value).value[h])
  {
    if txs != [] {
      var front, last := txs[..|txs| - 1], txs[|txs| - 1];
      assert txs == front + [last];
      OneByOneAnswers(front, value);
    }
  }

  lemma {:induction false} OneByOneFinds<V>(txs: seq<Hash>, value: Hash -> Option<V>, m: map<Hash, V>)
    requires forall h :: h in txs <==> h in m
    requires forall h :: h in txs ==> value(h) == Some(m[h])
    ensures OneByOne(txs, value) == Some(m)
  {
    if txs != [] {
      var front, last := txs[..|txs| - 1], txs[|txs| - 1];
      assert txs == front + [last];
      var inner := map h | h in m && h in front :: m[h];
      OneByOneFinds(front, value, inner);
      assert inner[last := m[last]] == m;
    }
  }

  lemma OneMissing<V>(txs: seq<Hash>, value: Hash -> Option<V>)
    requires exists i :: 0 <= i < |txs| && value(txs[i]).None?
    ensures OneByOne(txs, value).None?
  {
    if OneByOne(txs, value).Some? {
      OneByOneIs(txs, value, OneByOne(txs, value).value);
    }
  }

  function ReceiptOf(node: Node): Hash -> Option<Bytes> {
    h => node.parseReceipt(node.receipt(h))
  }

  function EntryOf(node: Node): Hash -> Option<TraceEntry> {
    h => node.Entry(h)
  }

  lemma ReceiptSaid(txs: seq<Hash>, answer: Hash -> Bytes, net: (nat, nat) -> Reply, r: Response)
    requires HonestAbout(txs, answer, net) && 0 <= r.id < |txs| && FromReplies(net)(r)
    ensures r.result == answer(txs[r.id])
  {
    hide Said;
    var c: nat, k: nat :| Said(net(c, k), r);
    assert HonestReply(txs, answer, net(c, k));
  }

  /**
   * fetchReceiptsBatch. The goroutines store their receipts one by one under a lock, so the stores may happen
   * in any order; the result is what asking for one receipt after the other gives.
   */
  method FetchReceipts(node: Node, txs: seq<Hash>, size: int, maxRetries: nat, net: (nat, nat) -> Reply)
    returns (r: Result<map<Hash, Bytes>>)
    requires size > 0 && HonestAbout(txs, node.receipt, net)
    ensures r.Ok? <==> AllDeliver(txs, size, maxRetries, net) && OneByOne(txs, ReceiptOf(node)).Some?
    ensures r.Ok? ==> OneByOne(txs, ReceiptOf(node)) == Some(r.value)
  {
    forall c: nat ensures CompliantNet(Row(net, c)) {
      forall k: nat ensures HonestReply(txs, node.receipt, net(c, k)) {
      }
    }
    var responses := CallChunks(txs, size, maxRetries, net);
    if responses.Err? {
      return Err("receipt batch failed");
    }
    var todo := Indices(|txs|);
    var receipts: map<Hash, Bytes> := map[];
    var failed := false;
    while todo != {}
      invariant forall i :: i in todo ==> 0 <= i < |txs|
      invariant failed || forall i :: 0 <= i < |txs| && i !in todo ==> txs[i] in receipts
      invariant failed ==> exists i :: 0 <= i < |txs| && ReceiptOf(node)(txs[i]).None?
      invariant forall h :: h in receipts ==> h in txs && ReceiptOf(node)(h) == Some(receipts[h])
      decreases todo
    {
      var i :| i in todo;
      todo := todo - {i};
      var response := responses.value[i];
      ReceiptSaid(txs, node.receipt, net, response);
      var receipt := node.parseReceipt(response.result);
      if receipt.None? {
        failed := true;
      } else {
        receipts := receipts[txs[i] := receipt.value];
      }
    }
    if failed {
      OneMissing(txs, ReceiptOf(node));
      return Err("failed to unmarshal receipt");
    }
    OneByOneIs(txs, ReceiptOf(node), receipts);
    r := Ok(receipts);
  }

  // ----- traces, one transaction at a time -----

  predicate Retryable(list: seq<Response>) {
    exists i :: 0 <= i < |list| && list[i].error.Some? && !IsPrecompileError(list[i].error.value)
  }

  /** Within the attempts allowed, some call for these traces succeeds with no error but the precompile one. */
  ghost predicate Settles(requests: seq<Request>, maxRetries: nat, net: (nat, nat) -> Reply) {
    exists o: nat :: o <= maxRetries && SettlesAt(requests, maxRetries, Row(net, o))
  }

  /** What a goroutine ends with: the first call that settles or, if none does, the last one. */
  ghost predicate Ends(requests: seq<Request>, maxRetries: nat, net: (nat, nat) -> Reply, list: seq<Response>) {
    exists o: nat :: o <= maxRetries && Yields(false, requests, maxRetries, Row(net, o), list)
      && (!Retryable(list) || o == maxRetries)
      && forall p: nat :: p < o ==> !SettlesAt(requests, maxRetries, Row(net, p))
  }

  ghost predicate NothingYields(requests: seq<Request>, maxRetries: nat, net: (nat, nat) -> Reply, o: nat) {
    forall list :: !Yields(false, requests, maxRetries, Row(net, o), list)
  }

  lemma EndsHere(requests: seq<Request>, maxRetries: nat, net: (nat, nat) -> Reply, o: nat, list: seq<Response>)
    requires o <= maxRetries && Yields(false, requests, maxRetries, Row(net, o), list) && !Retryable(list)
    requires forall p: nat :: p < o ==> !SettlesAt(requests, maxRetries, Row(net, p))
    ensures Ends(requests, maxRetries, net, list)
  {
    hide Yields, Retryable, SettlesAt;
  }

  lemma EndsLast(requests: seq<Request>, maxRetries: nat, net: (nat, nat) -> Reply)
    requires forall p: nat :: p <= maxRetries ==> !SettlesAt(requests, maxRetries, Row(net, p))
    ensures forall list :: Ends(requests, maxRetries, net, list) <==> Yields(false, requests, maxRetries, Row(net, maxRetries), list)
  {
    hide Yields, Retryable, SettlesAt;
    forall list | Ends(requests, maxRetries, net, list)
      ensures Yields(false, requests, maxRetries, Row(net, maxRetries), list)
    {
      var o: nat :| o <= maxRetries && Yields(false, requests, maxRetries, Row(net, o), list)
        && (!Retryable(list) || o == maxRetries)
        && forall p: nat :: p < o ==> !SettlesAt(requests, maxRetries, Row(net, p));
      if !Retryable(list) { SettledList(requests, maxRetries, Row(net, o), list); }
    }
  }

  ghost predicate SettlesAt(requests: seq<Request>, maxRetries: nat, net: nat -> Reply) {
    exists list :: Yields(false, requests, maxRetries, net, list) && !Retryable(list)
  }

  lemma SettledList(requests: seq<Request>, maxRetries: nat, net: nat -> Reply, list: seq<Response>)
    requires Yields(false, requests, maxRetries, net, list)
    ensures SettlesAt(requests, maxRetries, net) <==> !Retryable(list)
  {
    hide Yields, Retryable;
    if other :| Yields(false, requests, maxRetries, net, other) && !Retryable(other) {
      YieldsOnce(false, requests, maxRetries, net, list, other);
    }
  }

  /** The same for the traces of one call. */
  lemma CleanCallSettles(requests: seq<Request>, maxRetries: nat, net: nat -> Reply)
    requires CleanCall(false, requests, maxRetries, net) && CompliantNet(net)
    ensures SettlesAt(requests, maxRetries, net) <==>
            exists list :: OwnYields(false, requests, maxRetries, net, list) && !Retryable(list)
  {
    hide Yields, OwnYields, CleanCall, CompliantNet, Retryable, Alike;
    CleanCallDecides(false, requests, maxRetries, net);
    forall a, b | Yields(false, requests, maxRetries, net, a) && OwnYields(false, requests, maxRetries, net, b)
      ensures Retryable(a) <==> Retryable(b)
    {
      AlikeRetryable(a, b);
    }
  }

  lemma AlikeRetryable(a: seq<Response>, b: seq<Response>)
    requires Alike(a, b)
    ensures Retryable(a) <==> Retryable(b)
  {
    hide IsPrecompileError;
    assert forall i :: 0 <= i < |a| ==> Blank(a[i]).error == a[i].error;
    assert forall i :: 0 <= i < |a| ==> Blank(b[i]).error == b[i].error;
    if Retryable(a) {
      var i :| 0 <= i < |a| && a[i].error.Some? && !IsPrecompileError(a[i].error.value);
      assert b[i].error == a[i].error;
    }
    if Retryable(b) {
      var i :| 0 <= i < |b| && b[i].error.Some? && !IsPrecompileError(b[i].error.value);
      assert b[i].error == a[i].error;
    }
  }

  lemma NothingSettles(requests: seq<Request>, maxRetries: nat, net: nat -> Reply)
    requires forall list :: !Yields(false, requests, maxRetries, net, list)
    ensures !SettlesAt(requests, maxRetries, net)
  {
    hide Yields;
  }

  ghost predicate AllSettle(txs: seq<Hash>, size: int, maxRetries: nat, net: (nat, nat, nat) -> Reply)
    requires size > 0
  {
    var chunks := Chunked(TxRequests(txs), size);
    forall c: nat :: c < |chunks| ==> Settles(chunks[c], maxRetries, Plane(net, c))
  }

  predicate Harmless(r: Response) {
    r.error.Some? ==> IsPrecompileError(r.error.value)
  }

  /** No call for these traces retries a reply with an error. */
  ghost predicate CleanCalls(requests: seq<Request>, maxRetries: nat, net: (nat, nat) -> Reply) {
    forall o: nat :: CleanCall(false, requests, maxRetries, Row(net, o))
  }

  ghost predicate TracesSaid(requests: seq<Request>, maxRetries: nat, net: (nat, nat) -> Reply, list: seq<Response>) {
    forall r :: r in list && (r.error.None? || CleanCalls(requests, maxRetries, net)) ==>
      exists o: nat, k: nat :: Said(net(o, k), r)
  }

  ghost predicate AllClean(txs: seq<Hash>, size: int, maxRetries: nat, net: (nat, nat, nat) -> Reply)
    requires size > 0
  {
    var chunks := Chunked(TxRequests(txs), size);
    forall c: nat :: c < |chunks| ==> CleanCalls(chunks[c], maxRetries, Plane(net, c))
  }

  lemma TraceCallSaid(requests: seq<Request>, maxRetries: nat, net: (nat, nat) -> Reply, o: nat, list: seq<Response>)
    requires requests != [] && CompliantNet(Row(net, o)) && Yields(false, requests, maxRetries, Row(net, o), list)
    ensures TracesSaid(requests, maxRetries, net, list) && Answered(requests, ByIdMap(list))
  {
    hide CleanCall, CompliantNet, Said, Yields, Answered;
    ChunkAnswered(false, requests, maxRetries, Row(net, o), list);
    forall r | r in list && (r.error.None? || CleanCalls(requests, maxRetries, net))
      ensures exists o: nat, k: nat :: Said(net(o, k), r)
    {
      var k: nat :| Said(Row(net, o)(k), r);
      assert Said(net(o, k), r);
    }
  }

  /** The response is in the list that the goroutine of its chunk ends with. */
  ghost predicate Ended(txs: seq<Hash>, size: int, maxRetries: nat, net: (nat, nat, nat) -> Reply, r: Response)
    requires size > 0
  {
    var chunks := Chunked(TxRequests(txs), size);
    exists c: nat, list :: c < |chunks| && Ends(chunks[c], maxRetries, Plane(net, c), list) && r in list
  }

  ghost function TraceOrigin(txs: seq<Hash>, size: int, maxRetries: nat, net: (nat, nat, nat) -> Reply): Response -> bool
    requires size > 0
  {
    (r: Response) => FromTraces(net, AllClean(txs, size, maxRetries, net))(r) && Ended(txs, size, maxRetries, net, r)
  }

  lemma AllOrigin(txs: seq<Hash>, size: int, maxRetries: nat, net: (nat, nat, nat) -> Reply, got: map<int, Response>)
    requires size > 0 && forall i :: i in got ==> TraceOrigin(txs, size, maxRetries, net)(got[i])
    ensures forall i :: i in got ==> FromTraces(net, AllClean(txs, size, maxRetries, net))(got[i])
    ensures forall i :: i in got ==> Ended(txs, size, maxRetries, net, got[i])
  {
    hide AllClean, FromTraces, Ended;
  }

  /** The goroutines of all chunks but those in todo settle. */
  ghost predicate SettledSoFar(chunks: seq<seq<Request>>, todo: set<nat>, maxRetries: nat, net: (nat, nat, nat) -> Reply) {
    forall c: nat :: c < |chunks| && c !in todo ==> Settles(chunks[c], maxRetries, Plane(net, c))
  }

  lemma OneMoreSettled(txs: seq<Hash>, size: int, chunks: seq<seq<Request>>, todo: set<nat>, maxRetries: nat,
                       net: (nat, nat, nat) -> Reply, c: nat)
    requires size > 0 && chunks == Chunked(TxRequests(txs), size) && c < |chunks|
    ensures !Settles(chunks[c], maxRetries, Plane(net, c)) ==> !AllSettle(txs, size, maxRetries, net)
    ensures Settles(chunks[c], maxRetries, Plane(net, c)) && SettledSoFar(chunks, todo, maxRetries, net) ==>
              SettledSoFar(chunks, todo - {c}, maxRetries, net)
    ensures SettledSoFar(chunks, {}, maxRetries, net) ==> AllSettle(txs, size, maxRetries, net)
  {
    hide Settles, Chunked;
  }

  lemma ChunkSaid(txs: seq<Hash>, size: int, maxRetries: nat, net: (nat, nat, nat) -> Reply, c: nat, list: seq<Response>)
    requires size > 0 && c < |Chunked(TxRequests(txs), size)|
    requires TracesSaid(Chunked(TxRequests(txs), size)[c], maxRetries, Plane(net, c), list)
    ensures forall r :: r in list ==> FromTraces(net, AllClean(txs, size, maxRetries, net))(r)
  {
    hide Said, Chunked, CleanCalls;
    forall r | r in list && (r.error.None? || AllClean(txs, size, maxRetries, net))
      ensures exists c: nat, o: nat, k: nat :: Said(net(c, o, k), r)
    {
      var o: nat, k: nat :| Said(Plane(net, c)(o, k), r);
      assert Said(net(c, o, k), r);
    }
  }

  lemma ChunkOrigin(txs: seq<Hash>, size: int, maxRetries: nat, net: (nat, nat, nat) -> Reply, c: nat, list: seq<Response>)
    requires size > 0 && c < |Chunked(TxRequests(txs), size)|
    requires TracesSaid(Chunked(TxRequests(txs), size)[c], maxRetries, Plane(net, c), list)
    requires Ends(Chunked(TxRequests(txs), size)[c], maxRetries, Plane(net, c), list)
    ensures forall r :: r in list ==> TraceOrigin(txs, size, maxRetries, net)(r)
  {
    hide FromTraces, Ended, AllClean, Ends, TracesSaid, Chunked;
    ChunkSaid(txs, size, maxRetries, net, c, list);
    ListEnded(txs, size, maxRetries, net, c, list);
  }

  lemma ListEnded(txs: seq<Hash>, size: int, maxRetries: nat, net: (nat, nat, nat) -> Reply, c: nat, list: seq<Response>)
    requires size > 0 && c < |Chunked(TxRequests(txs), size)|
    requires Ends(Chunked(TxRequests(txs), size)[c], maxRetries, Plane(net, c), list)
    ensures forall r :: r in list ==> Ended(txs, size, maxRetries, net, r)
  {
    hide Chunked, Ends, TxRequests;
  }

  /** One goroutine of the fallback: whole calls are repeated while some trace failed for another reason. */
  method TraceChunk(requests: seq<Request>, maxRetries: nat, net: (nat, nat) -> Reply) returns (r: Result<seq<Response>>)
    requires requests != [] && forall o: nat :: CompliantNet(Row(net, o))
    ensures r.Ok? && !Retryable(r.value) <==> Settles(requests, maxRetries, net)
    ensures r.Ok? ==> Ends(requests, maxRetries, net, r.value)
    ensures r.Err? ==> forall list :: !Ends(requests, maxRetries, net, list)
    ensures r.Ok? ==> Answered(requests, ByIdMap(r.value))
    ensures r.Ok? ==> TracesSaid(requests, maxRetries, net, r.value)
  {
    hide Answered, ByIdMap, Retryable, Yields, CompliantNet, TracesSaid, SettlesAt;
    r := Err("not called");
    for attempt := 0 to maxRetries + 1
      invariant r.Ok? ==> Answered(requests, ByIdMap(r.value))
      invariant r.Ok? ==> Retryable(r.value)
      invariant forall o: nat :: o < attempt ==> !SettlesAt(requests, maxRetries, Row(net, o))
      invariant attempt > 0 && r.Ok? ==> Yields(false, requests, maxRetries, Row(net, attempt - 1), r.value)
      invariant attempt > 0 && r.Err? ==> NothingYields(requests, maxRetries, net, attempt - 1)
      invariant r.Ok? ==> TracesSaid(requests, maxRetries, net, r.value)
    {
      var replies := Row(net, attempt);
      r := BatchCall(false, requests, maxRetries, replies);
      if r.Err? {
        NothingSettles(requests, maxRetries, replies);
        continue;
      }
      SettledList(requests, maxRetries, replies, r.value);
      TraceCallSaid(requests, maxRetries, net, attempt, r.value);
      if !Retryable(r.value) {
        EndsHere(requests, maxRetries, net, attempt, r.value);
        return;
      }
    }
    EndsLast(requests, maxRetries, net);
  }

  lemma AllHarmless(list: seq<Response>)
    requires !Retryable(list)
    ensures forall r :: r in list ==> Harmless(r)
  {
    hide IsPrecompileError;
  }

  predicate NoHarm(got: map<int, Response>) {
    forall i :: i in got ==> Harmless(got[i])
  }

  lemma NoHarmAdded(got: map<int, Response>, list: seq<Response>)
    requires NoHarm(got) && !Retryable(list)
    ensures NoHarm(got + ByIdMap(list))
  {
    hide Retryable, Harmless;
    AllHarmless(list);
  }

  method CallTraceChunks(txs: seq<Hash>, size: int, maxRetries: nat, net: (nat, nat, nat) -> Reply)
    returns (r: Result<map<int, Response>>)
    requires size > 0 && forall c: nat, o: nat :: CompliantNet(Row(Plane(net, c), o))
    ensures r.Ok? ==> forall i :: 0 <= i < |txs| ==> i in r.value
    ensures r.Ok? ==> forall i :: i in r.value ==> r.value[i].id == i
    ensures r.Ok? ==> forall i :: i in r.value ==> FromTraces(net, AllClean(txs, size, maxRetries, net))(r.value[i])
    ensures r.Ok? ==> forall i :: i in r.value ==> Ended(txs, size, maxRetries, net, r.value[i])
    ensures r.Ok? <==> AllSettle(txs, size, maxRetries, net)
    ensures r.Ok? ==> NoHarm(r.value)
  {
    var chunks := ChunksOf(TxRequests(txs), size);
    ghost var origin := TraceOrigin(txs, size, maxRetries, net);
    var todo := Indices(|chunks|);
    var got: map<int, Response> := map[];
    var failed := false;
    while todo != {}
      invariant forall c :: c in todo ==> 0 <= c < |chunks|
      invariant failed || Collected(origin, chunks, todo, got)
      invariant failed ==> !AllSettle(txs, size, maxRetries, net)
      invariant failed || (NoHarm(got) && SettledSoFar(chunks, todo, maxRetries, net))
      decreases todo
    {
      hide Collected, Settles, Retryable, Chunked, Flatten, Answered, NoHarm, ByIdMap, TracesSaid, CompliantNet, TraceOrigin, Ends, AllSettle, SettledSoFar;
      var c: nat :| c in todo;
      var replies := Plane(net, c);
      assert chunks[c] in chunks && |chunks[c]| > 0;
      var result := TraceChunk(chunks[c], maxRetries, replies);
      OneMoreSettled(txs, size, chunks, todo, maxRetries, net, c);
      if result.Err? || Retryable(result.value) {
        failed := true;   // an error other than the precompile one is left after all attempts
      } else {
        ChunkOrigin(txs, size, maxRetries, net, c, result.value);
        if !failed {
          NoHarmAdded(got, result.value);
          CollectedGrows(origin, chunks, todo, got, c, result.value);
        }
        got := got + ByIdMap(result.value);
      }
      todo := todo - {c};
    }
    if failed {
      return Err("trace batch failed");
    }
    EveryIdAnswered(txs, chunks, got);
    AllOrigin(txs, size, maxRetries, net, got);
    r := Ok(got);
  }

  /** What the fallback stores for a response, if anything. */
  function EntryFrom(node: Node, h: Hash, r: Response): Option<TraceEntry> {
    if r.error.Some? then if IsPrecompileError(r.error.value) then Some(TraceEntry(h, None)) else None
    else
      var trace := node.parseTrace(r.result);
      if trace.Some? then Some(TraceEntry(h, trace)) else None
  }

  /** An entry for every hash, each either the node's or empty. */
  ghost predicate RightOrEmpty(node: Node, txs: seq<Hash>, m: map<Hash, TraceEntry>) {
    && (forall h :: h in txs <==> h in m)
    && forall h :: h in m ==> m[h] == TraceEntry(h, None) || node.Entry(h) == Some(m[h])
  }

  lemma EntrySaid(node: Node, txs: seq<Hash>, net: (nat, nat, nat) -> Reply, clean: bool, r: Response)
    requires HonestTraces(txs, node, net) && 0 <= r.id < |txs| && FromTraces(net, clean)(r)
    ensures EntryFrom(node, txs[r.id], r).Some? && (r.error.None? || clean) ==>
              EntryFrom(node, txs[r.id], r) == node.Entry(txs[r.id])
    ensures EntryFrom(node, txs[r.id], r).Some? && r.error.Some? ==>
              EntryFrom(node, txs[r.id], r) == Some(TraceEntry(txs[r.id], None))
    ensures EntryFrom(node, txs[r.id], r).None? && Harmless(r) ==> node.Entry(txs[r.id]).None?
  {
    hide IsPrecompileError, Said;
    if r.error.None? || clean {
      var c: nat, o: nat, k: nat :| Said(net(c, o, k), r);
      assert HonestTraceReply(txs, node, net(c, o, k));
    }
  }

  /**
   * The per-transaction route. Every entry is the node's or empty; it is the node's wherever it is not empty, and
   * everywhere when no call retried a reply with an error.
   */
  method TracesByTransaction(node: Node, txs: seq<Hash>, size: int, maxRetries: nat, net: (nat, nat, nat) -> Reply)
    returns (r: Result<map<Hash, TraceEntry>>)
    requires size > 0 && HonestTraces(txs, node, net)
    ensures r.Ok? ==> RightOrEmpty(node, txs, r.value)
    ensures r.Ok? && AllClean(txs, size, maxRetries, net) ==> OneByOne(txs, EntryOf(node)) == Some(r.value)
    ensures r.Ok? ==> AllSettle(txs, size, maxRetries, net) && EntriesEnded(node, txs, size, maxRetries, net, r.value)
    ensures AllSettle(txs, size, maxRetries, net) && OneByOne(txs, EntryOf(node)).Some? ==> r.Ok?
  {
    hide AllSettle, AllClean, IsPrecompileError, EntryFrom, Harmless, Ended;
    ghost var clean := AllClean(txs, size, maxRetries, net);
    HonestIsCompliant(txs, node, net);
    var responses := CallTraceChunks(txs, size, maxRetries, net);
    if responses.Err? {
      return Err("trace batch failed");
    }
    var todo := Indices(|txs|);
    var traces: map<Hash, TraceEntry> := map[];
    var failed := false;
    while todo != {}
      invariant forall i :: i in todo ==> 0 <= i < |txs|
      invariant failed || forall i :: 0 <= i < |txs| && i !in todo ==> txs[i] in traces
      invariant failed ==> !AllSettle(txs, size, maxRetries, net) || exists i :: 0 <= i < |txs| && EntryOf(node)(txs[i]).None?
      invariant forall h :: h in traces ==> h in txs && (traces[h] == TraceEntry(h, None) || node.Entry(h) == Some(traces[h]))
      invariant clean ==> forall h :: h in traces ==> EntryOf(node)(h) == Some(traces[h])
      invariant EntriesEnded(node, txs, size, maxRetries, net, traces)
      decreases todo
    {
      var i :| i in todo;
      todo := todo - {i};
      var response := responses.value[i];
      EntrySaid(node, txs, net, clean, response);
      var entry := EntryFrom(node, txs[i], response);
      if entry.None? {
        failed := true;
      } else {
        traces := traces[txs[i] := entry.value];
      }
    }
    if failed {
      if exists i :: 0 <= i < |txs| && EntryOf(node)(txs[i]).None? {
        OneMissing(txs, EntryOf(node));
      }
      return Err("trace failed");
    }
    if clean {
      OneByOneIs(txs, EntryOf(node), traces);
    }
    r := Ok(traces);
  }

  /** Every entry is what the fallback stores for a response that the goroutine of its chunk ends with. */
  ghost predicate EntriesEnded(node: Node, txs: seq<Hash>, size: int, maxRetries: nat, net: (nat, nat, nat) -> Reply,
                               m: map<Hash, TraceEntry>)
    requires size > 0
  {
    forall h :: h in m ==> exists r: Response :: Ended(txs, size, maxRetries, net, r) && GivesEntry(node, txs, r, h, m[h])
  }

  predicate GivesEntry(node: Node, txs: seq<Hash>, r: Response, h: Hash, e: TraceEntry) {
    0 <= r.id < |txs| && txs[r.id] == h && EntryFrom(node, h, r) == Some(e)
  }

  /**
   * One transaction, for which every call is first answered with the same error: the goroutine settles if and only if the error is the
   * precompile one, and what it ends with is that error.
   */
  lemma LastErrorDecides(h: Hash, size: int, maxRetries: nat, net: (nat, nat, nat) -> Reply, message: string)
    requires size > 0
    requires forall o: nat :: net(0, o, 0).Body? && net(0, o, 0).typed
               && net(0, o, 0).list == [WireResponse(Some(0), None, Object(Some(message)))]
    ensures AllSettle([h], size, maxRetries, net) <==> IsPrecompileError(message)
    ensures forall r :: Ended([h], size, maxRetries, net, r) ==> r == Response(0, [], Some(message))
  {
    var requests := TxRequests([h]);
    assert Chunked(requests, size) == [requests];
    OneErrorEnds(requests, maxRetries, Plane(net, 0), message);
    hide Ends, Settles, Chunked, IsPrecompileError, TxRequests;
    var zero: nat := 0;
    assert [requests][zero] == requests;
  }

  lemma OneErrorEnds(requests: seq<Request>, maxRetries: nat, net: (nat, nat) -> Reply, message: string)
    requires |requests| == 1 && requests[0].id == 0
    requires forall o: nat :: net(o, 0).Body? && net(o, 0).typed
               && net(o, 0).list == [WireResponse(Some(0), None, Object(Some(message)))]
    ensures Settles(requests, maxRetries, net) <==> IsPrecompileError(message)
    ensures forall list :: Ends(requests, maxRetries, net, list) ==> list == [Response(0, [], Some(message))]
  {
    hide IsPrecompileError, Yields;
    var list := [Response(0, [], Some(message))];
    assert list[0].error == Some(message);
    assert Retryable(list) <==> !IsPrecompileError(message);
    forall o: nat
      ensures Yields(false, requests, maxRetries, Row(net, o), list)
      ensures SettlesAt(requests, maxRetries, Row(net, o)) <==> IsPrecompileError(message)
      ensures forall other :: Yields(false, requests, maxRetries, Row(net, o), other) ==> other == list
    {
      OneErrorYields(requests, maxRetries, Row(net, o), message);
      SettledList(requests, maxRetries, Row(net, o), list);
      forall other | Yields(false, requests, maxRetries, Row(net, o), other) ensures other == list {
        YieldsOnce(false, requests, maxRetries, Row(net, o), list, other);
      }
    }
    hide Retryable, SettlesAt;
    var zero: nat := 0;
    assert zero <= maxRetries && (SettlesAt(requests, maxRetries, Row(net, zero)) <==> IsPrecompileError(message));
  }

  lemma OneErrorYields(requests: seq<Request>, maxRetries: nat, net: nat -> Reply, message: string)
    requires |requests| == 1 && requests[0].id == 0 && net(0).Body? && net(0).typed
    requires net(0).list == [WireResponse(Some(0), None, Object(Some(message)))]
    ensures Yields(false, requests, maxRetries, net, [Response(0, [], Some(message))])
  {
    hide Sort, Judge;
    var read := Decode([], net(0).list);
    var list := [Response(0, [], Some(message))];
    assert read == list && read[..1] == read;
    SortedIsUnique(Sort(net(0).order, read), list, IdOf);
    JudgeAccepts(false, requests, list);
    DecidesNow(false, requests, net, 0);
    OneDecides(false, requests, maxRetries, net, 0, list);
  }

  lemma HonestIsCompliant(txs: seq<Hash>, node: Node, net: (nat, nat, nat) -> Reply)
    requires HonestTraces(txs, node, net)
    ensures forall c: nat, o: nat :: CompliantNet(Row(Plane(net, c), o))
  {
    forall c: nat, o: nat ensures CompliantNet(Row(Plane(net, c), o)) {
      forall k: nat ensures HonestTraceReply(txs, node, net(c, o, k)) {
      }
    }
  }

  /**
   * Two faultless exchanges that lose a trace: a reply with only the precompile error of the second transaction, sent
   * again for its length, and then the complete reply. The first transaction has a trace, and an empty one is stored.
   */
  lemma StaleErrorEmptiesTrace(node: Node, txs: seq<Hash>, json: Bytes, message: string, maxRetries: nat, net: nat -> Reply)
    requires |txs| == 2 && maxRetries >= 1 && IsPrecompileError(message)
    requires node.trace(txs[0]) == Traced(json) && node.trace(txs[1]) == Precompile && node.parseTrace(json).Some?
    requires var second := WireResponse(Some(1), None, Object(Some(message)));
             && net(0).Body? && net(0).typed && net(0).list == [second]
             && net(1).Body? && net(1).typed && net(1).list == [WireResponse(Some(0), Some(json), Absent), second]
    ensures HonestTraceReply(txs, node, net(0)) && HonestTraceReply(txs, node, net(1))
    ensures exists list :: Yields(false, TxRequests(txs), maxRetries, net, list) && !Retryable(list) && |list| == 2
                           && EntryFrom(node, txs[0], list[0]) == Some(TraceEntry(txs[0], None))
    ensures node.Entry(txs[0]) == Some(TraceEntry(txs[0], node.parseTrace(json)))
  {
    hide IsPrecompileError, Yields, TxRequests;
    var w := WireResponse(Some(1), None, Object(Some(message)));
    StaleErrorSurvives(TxRequests(txs), w, maxRetries, net, 1);
    var list := Decode([Meaning(w)], net(1).list);
    assert list[1].error == Some(message);
    assert !Retryable(list);
  }

  // ----- traces, one block at a time -----

  ghost predicate HonestBlock(json: Bytes, net: nat -> Reply) {
    CompliantNet(net) && forall k: nat, r :: Said(net(k), r) && r.id == 0 && r.error.None? ==> r.result == json
  }

  const BLOCK_REQUEST: seq<Request> := [Request(0, "block")]

  lemma OnlyBlock(strict: bool, maxRetries: nat, net: nat -> Reply, list: seq<Response>, json: Bytes)
    requires Yields(strict, BLOCK_REQUEST, maxRetries, net, list)
    requires HonestBlock(json, net)
    ensures |list| == 1 && (list[0].error.None? ==> list[0].result == json) && (strict ==> list[0].error.None?)
  {
    hide Attempt, NoStaleError, AllCompliant, Said;
    var k: nat :| YieldsAt(strict, BLOCK_REQUEST, maxRetries, net, list, k);
    var cells := Before(strict, 1, net, k);
    AcceptedIsSorted(strict, BLOCK_REQUEST, cells, net(k), list);
    AcceptedTyped(strict, BLOCK_REQUEST, cells, net(k), list);
    AcceptedIsSaid(strict, BLOCK_REQUEST, cells, net(k), list);
    assert list[0] in list;
  }

  /** The positional loop over the block's traces: entry i goes to transaction i. */
  method TracesByPosition(txs: seq<Hash>, traces: seq<TraceEntry>) returns (r: Result<map<Hash, TraceEntry>>)
    ensures r.Ok? <==> |txs| <= |traces|
    ensures r.Ok? ==> forall h :: h in txs <==> h in r.value
    ensures r.Ok? ==> forall h :: h in r.value ==> exists j :: 0 <= j < |txs| && txs[j] == h && r.value[h] == traces[j]
  {
    var m: map<Hash, TraceEntry> := map[];
    for i := 0 to |txs|
      invariant i <= |traces|
      invariant forall h :: h in m <==> h in txs[..i]
      invariant forall h :: h in m ==> exists j :: 0 <= j < i && txs[j] == h && m[h] == traces[j]
    {
      if i >= |traces| {
        return Err("tx index out of range");
      }
      m := m[txs[i] := traces[i]];
    }
    assert txs[..|txs|] == txs;
    r := Ok(m);
  }

  /** The block can be traced as a whole: the call succeeds, its response has no error, and the traces can be read. */
  ghost predicate BlockRoute(node: Node, maxRetries: nat, blockNet: nat -> Reply) {
    exists list: seq<Response> :: Yields(false, BLOCK_REQUEST, maxRetries, blockNet, list) && |list| == 1 && list[0].error.None?
                   && node.parseTraces(list[0].result).Some?
  }

  lemma BlockRouteIs(node: Node, maxRetries: nat, blockNet: nat -> Reply, list: seq<Response>)
    requires Yields(false, BLOCK_REQUEST, maxRetries, blockNet, list) && |list| == 1
    ensures BlockRoute(node, maxRetries, blockNet) <==> list[0].error.None? && node.parseTraces(list[0].result).Some?
  {
    hide Yields;
    if BlockRoute(node, maxRetries, blockNet) {
      var other: seq<Response> :| Yields(false, BLOCK_REQUEST, maxRetries, blockNet, other) && |other| == 1 && other[0].error.None?
                   && node.parseTraces(other[0].result).Some?;
      YieldsOnce(false, BLOCK_REQUEST, maxRetries, blockNet, list, other);
    }
  }

  /**
   * fetchTracesBatch for one block: the block route, or the per-transaction route when the block cannot be
   * traced. Both give the map that asking for one trace after the other gives, but for empty entries where a call of
   * the fallback retried a reply with an error.
   */
  method FetchTraces(node: Node, txs: seq<Hash>, size: int, maxRetries: nat,
                     blockNet: nat -> Reply, txNet: (nat, nat, nat) -> Reply) returns (r: Result<map<Hash, TraceEntry>>)
    requires size > 0 && HonestTraces(txs, node, txNet) && HonestBlock(node.blockTrace, blockNet) && txs == node.Txs()
    ensures r.Ok? ==> forall h :: h in txs <==> h in r.value
    ensures r.Ok? && node.Consistent() ==> RightOrEmpty(node, txs, r.value)
    ensures r.Ok? && node.Consistent() && AllClean(txs, size, maxRetries, txNet) ==>
              OneByOne(txs, EntryOf(node)) == Some(r.value)
    ensures node.Consistent() && AllSettle(txs, size, maxRetries, txNet) && OneByOne(txs, EntryOf(node)).Some? ==> r.Ok?
    ensures node.parseTraces(node.blockTrace).Some? && BlockRoute(node, maxRetries, blockNet) ==>
              (r.Ok? <==> |txs| <= |node.parseTraces(node.blockTrace).value|)
    ensures !BlockRoute(node, maxRetries, blockNet) && r.Ok? ==>
              AllSettle(txs, size, maxRetries, txNet) && EntriesEnded(node, txs, size, maxRetries, txNet, r.value)
  {
    hide AllSettle, AllClean, Yields, EntriesEnded;
    var response := BatchCall(false, BLOCK_REQUEST, maxRetries, blockNet);
    if response.Ok? {
      OnlyBlock(false, maxRetries, blockNet, response.value, node.blockTrace);
      BlockRouteIs(node, maxRetries, blockNet, response.value);
      if response.value[0].error.None? {
        var traces := node.parseTraces(response.value[0].result);
        if traces.Some? {
          r := TracesByPosition(txs, traces.value);
          if r.Ok? && node.Consistent() {
            OneByOneIs(txs, EntryOf(node), r.value);
          }
          return;
        }
      }
    }
    r := TracesByTransaction(node, txs, size, maxRetries, txNet);
  }

  // ----- the block -----

  datatype Normalized = Normalized(txs: seq<Hash>, receipts: seq<Bytes>, traces: seq<TraceEntry>)

  /** The reference: block, then one receipt and one trace per transaction, each asked for on its own. */
  ghost predicate FetchedOneByOne(node: Node, b: Normalized) {
    && node.parseBlock(node.block) == Some(b.txs)
    && |b.receipts| == |b.txs| == |b.traces|
    && (forall j :: 0 <= j < |b.txs| ==> node.parseReceipt(node.receipt(b.txs[j])) == Some(b.receipts[j]))
    && (forall j :: 0 <= j < |b.txs| ==> node.Entry(b.txs[j]) == Some(b.traces[j]))
  }

  /** The same, but for traces that are empty instead of the node's. */
  ghost predicate FetchedOrEmpty(node: Node, b: Normalized) {
    && node.parseBlock(node.block) == Some(b.txs)
    && |b.receipts| == |b.txs| == |b.traces|
    && (forall j :: 0 <= j < |b.txs| ==> node.parseReceipt(node.receipt(b.txs[j])) == Some(b.receipts[j]))
    && (forall j :: 0 <= j < |b.txs| ==>
          node.Entry(b.txs[j]) == Some(b.traces[j]) || b.traces[j] == TraceEntry(b.txs[j], None))
  }

  lemma OneFetchOnly(node: Node, a: Normalized, b: Normalized)
    requires FetchedOneByOne(node, a) && FetchedOneByOne(node, b)
    ensures a == b
  {
    forall j | 0 <= j < |a.txs| ensures a.receipts[j] == b.receipts[j] && a.traces[j] == b.traces[j] {
      assert Some(a.receipts[j]) == Some(b.receipts[j]) && Some(a.traces[j]) == Some(b.traces[j]);
    }
  }

  /** Where the sequential fetch succeeds, so does asking one by one for receipts and for traces. */
  lemma NothingMissing<V>(txs: seq<Hash>, value: Hash -> Option<V>)
    requires forall h :: h in txs ==> value(h).Some?
    ensures OneByOne(txs, value).Some?
  {
    OneByOneIs(txs, value, map h | h in txs :: value(h).value);
  }

  lemma FetchedHasAll(node: Node, b: Normalized)
    requires FetchedOneByOne(node, b)
    ensures OneByOne(node.Txs(), ReceiptOf(node)).Some? && OneByOne(node.Txs(), EntryOf(node)).Some?
  {
    NothingMissing(b.txs, ReceiptOf(node));
    NothingMissing(b.txs, EntryOf(node));
  }

  /** Puts receipts and traces into transaction order; a hash without a trace gets an empty one. */
  method Assemble(node: Node, txs: seq<Hash>, receiptsMap: map<Hash, Bytes>, tracesMap: map<Hash, TraceEntry>)
    returns (r: Result<Normalized>)
    requires OneByOne(txs, ReceiptOf(node)) == Some(receiptsMap)
    ensures r.Ok? && r.value.txs == txs && |r.value.receipts| == |r.value.traces| == |txs|
    ensures forall i :: 0 <= i < |txs| ==> node.parseReceipt(node.receipt(txs[i])) == Some(r.value.receipts[i])
    ensures OneByOne(txs, EntryOf(node)) == Some(tracesMap) ==>
              forall i :: 0 <= i < |txs| ==> node.Entry(txs[i]) == Some(r.value.traces[i])
    ensures RightOrEmpty(node, txs, tracesMap) ==>
              forall i :: 0 <= i < |txs| ==>
                node.Entry(txs[i]) == Some(r.value.traces[i]) || r.value.traces[i] == TraceEntry(txs[i], None)
  {
    OneByOneIs(txs, ReceiptOf(node), receiptsMap);
    OneByOneIs(txs, EntryOf(node), tracesMap);
    ghost var exact := OneByOne(txs, EntryOf(node)) == Some(tracesMap);
    ghost var nearly := RightOrEmpty(node, txs, tracesMap);
    hide OneByOne;
    var receipts: seq<Bytes>, traces: seq<TraceEntry> := [], [];
    for j := 0 to |txs|
      invariant |receipts| == |traces| == j
      invariant forall i :: 0 <= i < j ==> ReceiptOf(node)(txs[i]) == Some(receipts[i])
      invariant exact ==> forall i :: 0 <= i < j ==> EntryOf(node)(txs[i]) == Some(traces[i])
      invariant nearly ==> forall i :: 0 <= i < j ==>
                             EntryOf(node)(txs[i]) == Some(traces[i]) || traces[i] == TraceEntry(txs[i], None)
    {
      if txs[j] !in receiptsMap {
        return Err("missing receipt");
      }
      receipts := receipts + [receiptsMap[txs[j]]];
      traces := traces + [if txs[j] in tracesMap then tracesMap[txs[j]] else TraceEntry(txs[j], None)];
    }
    r := Ok(Normalized(txs, receipts, traces));
  }

  /**
   * fetchSingleBlock. For any chunk sizes, any permutation, loss or repetition of responses and any order in
   * which the goroutines finish, a block that is returned is the one the sequential fetch gives, except that traces
   * may be empty when the fallback retried a reply with an error; and it is returned whenever there is one and every
   * call succeeds within its retries.
   */
  method FetchSingleBlock(node: Node, size: int, debugSize: int, maxRetries: nat, blockNet: nat -> Reply,
                          receiptNet: (nat, nat) -> Reply, traceNet: nat -> Reply, txTraceNet: (nat, nat, nat) -> Reply)
    returns (r: Result<Normalized>)
    requires size > 0 && debugSize > 0
    requires HonestBlock(node.block, blockNet) && HonestBlock(node.blockTrace, traceNet)
    requires HonestAbout(node.Txs(), node.receipt, receiptNet) && HonestTraces(node.Txs(), node, txTraceNet)
    ensures r.Ok? && node.Consistent() ==> FetchedOrEmpty(node, r.value)
    ensures r.Ok? && node.Consistent() && AllClean(node.Txs(), debugSize, maxRetries, txTraceNet) ==>
              FetchedOneByOne(node, r.value)
    ensures r.Ok? ==> |r.value.txs| == |r.value.receipts| == |r.value.traces| && r.value.txs == node.Txs()
    ensures node.Consistent() && Delivers(true, BLOCK_REQUEST, maxRetries, blockNet)
            && AllDeliver(node.Txs(), size, maxRetries, receiptNet)
            && AllSettle(node.Txs(), debugSize, maxRetries, txTraceNet) ==>
              forall b :: FetchedOneByOne(node, b) ==>
                r.Ok? && (AllClean(node.Txs(), debugSize, maxRetries, txTraceNet) ==> r == Ok(b))
  {
    hide Yields, AllDeliver, AllSettle, AllClean, OneByOne, HonestAbout, HonestTraces, HonestBlock, BlockRoute, EntriesEnded;
    ghost var expected := node.Consistent() && Delivers(true, BLOCK_REQUEST, maxRetries, blockNet)
      && AllDeliver(node.Txs(), size, maxRetries, receiptNet)
      && AllSettle(node.Txs(), debugSize, maxRetries, txTraceNet);
    forall b | FetchedOneByOne(node, b)
      ensures OneByOne(node.Txs(), ReceiptOf(node)).Some? && OneByOne(node.Txs(), EntryOf(node)).Some? {
      FetchedHasAll(node, b);
    }
    var response := BatchCall(true, BLOCK_REQUEST, maxRetries, blockNet);
    if response.Err? {
      return Err(response.error);
    }
    OnlyBlock(true, maxRetries, blockNet, response.value, node.block);
    var block := node.parseBlock(response.value[0].result);
    if block.None? {
      return Err("failed to unmarshal block");
    }
    var txs := block.value;
    var receiptsMap: map<Hash, Bytes> := map[];
    var tracesMap: map<Hash, TraceEntry> := map[];
    if |txs| > 0 {
      var rm := FetchReceipts(node, txs, size, maxRetries, receiptNet);
      if rm.Err? {
        return Err(rm.error);
      }
      receiptsMap := rm.value;
      var tm := FetchTraces(node, txs, debugSize, maxRetries, traceNet, txTraceNet);
      if tm.Err? {
        return Err(tm.error);
      }
      tracesMap := tm.value;
    }
    if txs == [] {
      OneByOneIs(txs, ReceiptOf(node), receiptsMap);
      OneByOneIs(txs, EntryOf(node), tracesMap);
    }
    r := Assemble(node, txs, receiptsMap, tracesMap);
    if expected && AllClean(node.Txs(), debugSize, maxRetries, txTraceNet) {
      forall b | FetchedOneByOne(node, b) ensures r == Ok(b) {
        OneFetchOnly(node, r.value, b);
      }
    }
  }
}
