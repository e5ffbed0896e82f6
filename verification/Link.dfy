/**
 * One client's connections as single steps: the server's two lookups, the frames in flight, the client's filter, its
 * handler and its reconnections. What the lookups return is up to the store behind the server.
 */
module Links {
  import opened Prelude
  import opened Framing
  import opened StoreModel
  import opened Compaction
  import opened Soundness
  import opened Wire

  // missed: the block lookup of the current pass found nothing and the batch lookup comes next.
  datatype Conn = Closed | Open(cursor: u64, missed: bool, sent: seq<Bytes>)

  // live is false once the handler has returned an error and Stream has ended.
  datatype Link = Link(conn: Conn, current: u64, live: bool, delivered: seq<Block>)

  datatype LinkLabel =
    | Connect
    | ServeBlock(block: Option<Bytes>)
    | ServeBatch(batch: Option<Bytes>)
    | Receive(accepted: bool)
    | Drop

  function NewLink(from: u64): Link {
    Link(Closed, from, true, [])
  }

  function LinkStep(w: World, k: Link, l: LinkLabel): Link
  {
    match l
    case Connect =>
      if k.conn.Closed? && k.live then k.(conn := Open(if k.current == 0 then 1 else k.current, false, [])) else k
    case ServeBlock(block) =>
      if k.conn.Closed? || k.conn.missed then k
      else if Found(block) then
        k.(conn := Open(Wrap(k.conn.cursor + 1), false, k.conn.sent + [LiveFrame(w, block.value)]))
      else k.(conn := k.conn.(missed := true))
    case ServeBatch(batch) =>
      if k.conn.Closed? || !k.conn.missed then k
      else if Found(batch) then
        k.(conn := Open(Wrap(BatchStart(k.conn.cursor) + BATCH_SIZE), false, k.conn.sent + [batch.value]))
      else k.(conn := k.conn.(missed := false))
    case Receive(accepted) =>
      if k.conn.Closed? || k.conn.sent == [] then k
      else
        var pack := ReadPack(w, k.conn.sent[0]);
        if pack.None? then k.(conn := Closed)
        else
          var filtered := Filter(pack.value, NotBelow(k.current));
          var k' := k.(conn := k.conn.(sent := k.conn.sent[1..]), delivered := k.delivered + filtered);
          if filtered == [] then k'
          else if !accepted then k'.(conn := Closed, live := false)
          else k'.(current := Wrap(filtered[|filtered| - 1].number + 1))
    case Drop => k.(conn := Closed)
  }

  /** The lookups return nothing but the chain's data. */
  ghost predicate Honest(w: World, k: Link, l: LinkLabel) {
    k.conn.Open? ==>
      && (l.ServeBlock? && l.block.Some? ==> k.conn.cursor <= MAX_HEIGHT && l.block.value == w.chain(k.conn.cursor))
      && (l.ServeBatch? && l.batch.Some? ==>
            k.conn.cursor <= MAX_HEIGHT && l.batch.value == w.BatchBytes(BatchStart(k.conn.cursor)))
  }

  ghost predicate LinkInv(w: World, from: u64, k: Link) {
    && k.delivered == Blocks(w, Max(1, from), Max(1, from) + |k.delivered|)
    && (k.live ==> k.current >= from && Max(1, from) + |k.delivered| == Max(1, k.current))
    && (k.conn.Open? ==> k.live && 1 <= k.conn.cursor && Chained(w, k.conn.sent, Max(1, k.current), k.conn.cursor))
  }

  lemma ServeKeeps(w: World, from: u64, k: Link, l: LinkLabel)
    requires w.Faithful() && LinkInv(w, from, k) && Honest(w, k, l) && (l.ServeBlock? || l.ServeBatch?)
    ensures LinkInv(w, from, LinkStep(w, k, l))
  {
    hide Chained, Spans, LiveFrame, w.BatchBytes, w.Faithful;
    if k.conn.Open? {
      var n := k.conn.cursor;
      if l.ServeBlock? && Found(l.block) {
        LiveSpans(w, n);
        ChainedSnoc(w, k.conn.sent, LiveFrame(w, l.block.value), Max(1, k.current), n, n + 1);
      }
      if l.ServeBatch? && Found(l.batch) {
        BatchSpans(w, n);
        ChainedSnoc(w, k.conn.sent, l.batch.value, Max(1, k.current), n, BatchStart(n) + BATCH_SIZE);
      }
    }
  }

  /** The first frame in flight, read and filtered: the blocks owed up to mid, from where the others go on. */
  lemma FirstFrame(w: World, from: u64, k: Link) returns (mid: nat)
    requires LinkInv(w, from, k) && k.conn.Open? && k.conn.sent != []
    ensures Max(1, k.current) < mid <= k.conn.cursor && Chained(w, k.conn.sent[1..], mid, k.conn.cursor)
    ensures Spans(w, k.conn.sent[0], Max(1, k.current), mid)
    ensures ReadPack(w, k.conn.sent[0]).Some?
    ensures Filter(ReadPack(w, k.conn.sent[0]).value, NotBelow(k.current)) == Blocks(w, Max(1, k.current), mid)
    ensures k.delivered + Blocks(w, Max(1, k.current), mid) == Blocks(w, Max(1, from), mid)
  {
    hide Chained, Spans, ReadPack, Filter;
    var frames := k.conn.sent;
    assert frames[0..] == frames;
    mid := ChainedHead(w, frames, 0, Max(1, k.current), k.conn.cursor);
    SpanFilters(w, frames[0], k.current, mid);
    SpanRises(w, frames[0], Max(1, k.current), mid);
    ChainedRises(w, frames[1..], mid, k.conn.cursor);
    BlocksJoin(w, Max(1, from), Max(1, k.current), mid);
  }

  lemma ReceiveKeeps(w: World, from: u64, k: Link, accepted: bool)
    requires LinkInv(w, from, k)
    ensures LinkInv(w, from, LinkStep(w, k, Receive(accepted)))
    ensures var k' := LinkStep(w, k, Receive(accepted));
            k.conn.Open? && k.conn.sent != [] && accepted ==>
              k'.conn == k.conn.(sent := k.conn.sent[1..]) && k'.current > k.current
  {
    hide Chained, ReadPack, Filter;
    if k.conn.Open? && k.conn.sent != [] {
      var mid := FirstFrame(w, from, k);
      var filtered := Blocks(w, Max(1, k.current), mid);
      assert filtered[|filtered| - 1].number + 1 == mid;
    }
  }

  /**
   * A pack that the handler refuses has been given to it, and is the last: the connection is closed and the client
   * will not connect again.
   */
  lemma RefusalEnds(w: World, from: u64, k: Link) returns (mid: nat)
    requires LinkInv(w, from, k) && k.conn.Open? && k.conn.sent != []
    ensures var z := LinkStep(w, k, Receive(false));
            && !z.live && z.conn.Closed?
            && Spans(w, k.conn.sent[0], Max(1, k.current), mid) && z.delivered == Blocks(w, Max(1, from), mid)
  {
    hide Chained, ReadPack, Filter;
    mid := FirstFrame(w, from, k);
    var owed := Blocks(w, Max(1, k.current), mid);
    assert owed != [] && owed[|owed| - 1].number + 1 == mid;
  }

  /** A frame that cannot be read, like a broken connection, costs the connection and what is in flight, and nothing else. */
  lemma UnreadableCloses(w: World, k: Link, accepted: bool)
    requires k.conn.Open? && k.conn.sent != [] && ReadPack(w, k.conn.sent[0]).None?
    ensures LinkStep(w, k, Receive(accepted)) == LinkStep(w, k, Drop) == k.(conn := Closed)
  {
    hide ReadPack;
  }

  /** The two lookups take turns: a miss of the first calls for the second, and its miss for the first again. */
  lemma LookupsAlternate(w: World, k: Link, data: Option<Bytes>)
    requires k.conn.Open?
    ensures k.conn.missed ==> LinkStep(w, k, ServeBlock(data)) == k
    ensures !k.conn.missed ==> LinkStep(w, k, ServeBatch(data)) == k
    ensures data.None? ==>
              var l := if k.conn.missed then ServeBatch(data) else ServeBlock(data);
              LinkStep(w, k, l) == k.(conn := k.conn.(missed := !k.conn.missed))
  {
  }

  lemma DeadStays(w: World, k: Link, l: LinkLabel)
    requires !k.live && k.conn.Closed?
    ensures LinkStep(w, k, l) == k
  {
  }

  lemma LinkKeeps(w: World, from: u64, k: Link, l: LinkLabel)
    requires w.Faithful() && LinkInv(w, from, k) && Honest(w, k, l)
    ensures LinkInv(w, from, LinkStep(w, k, l))
  {
    match l
    case Connect => ChainedNone(w, Max(1, k.current));
    case ServeBlock(_) => ServeKeeps(w, from, k, l);
    case ServeBatch(_) => ServeKeeps(w, from, k, l);
    case Receive(accepted) => ReceiveKeeps(w, from, k, accepted);
    case Drop =>
  }

  // ----- over a store -----

  /** What the lookups of the current pass find. */
  ghost function BlockSeen(st: Store, k: Link): Option<Bytes> {
    if k.conn.Open? then st.GetBlock(k.conn.cursor) else None
  }

  ghost function BatchSeen(st: Store, k: Link): Option<Bytes> {
    if k.conn.Open? then st.GetBatch(BatchStart(k.conn.cursor)) else None
  }

  lemma SeenIsHonest(w: World, st: Store, top: int, k: Link)
    requires Sound(w, st, top)
    ensures BlockSeen(st, k).Some? ==> k.conn.cursor <= MAX_HEIGHT && BlockSeen(st, k).value == w.chain(k.conn.cursor)
    ensures BatchSeen(st, k).Some? ==>
              k.conn.cursor <= MAX_HEIGHT && BatchSeen(st, k).value == w.BatchBytes(BatchStart(k.conn.cursor))
  {
    hide w.BatchBytes;
    if BatchSeen(st, k).Some? {
      var n := k.conn.cursor;
      var p := (BatchStart(n), BatchEnd(BatchStart(n)));
      assert TrueBatch(w, p, st.batches[p]);
      StartBelow(n);
    }
  }

  lemma StartBelow(n: u64)
    ensures BatchStart(n) + BATCH_SIZE > n
  {
  }

  /** The two lookups of one pass. */
  function PassOf(w: World, k: Link, block: Option<Bytes>, batch: Option<Bytes>): Link {
    LinkStep(w, LinkStep(w, k, ServeBlock(block)), ServeBatch(batch))
  }

  /** A stored block goes before the batch that holds it too, and an empty value counts as nothing found. */
  lemma PassPrefersBlock(w: World, k: Link, block: Option<Bytes>, batch: Option<Bytes>)
    requires k.conn.Open? && !k.conn.missed
    ensures var n, sent := k.conn.cursor, k.conn.sent;
            PassOf(w, k, block, batch) ==
              if block.Some? && block.value != [] then k.(conn := Open(Wrap(n + 1), false, sent + [LiveFrame(w, block.value)]))
              else if batch.Some? && batch.value != [] then k.(conn := Open(Wrap(BatchStart(n) + 100), false, sent + [batch.value]))
              else k
  {
    hide LiveFrame, BatchStart;
  }

  /** A pass sends a frame if and only if one of its lookups finds data. */
  lemma PassSendsExactly(w: World, k: Link, block: Option<Bytes>, batch: Option<Bytes>)
    requires k.conn.Open? && !k.conn.missed
    ensures var z := PassOf(w, k, block, batch);
            && z == k.(conn := z.conn) && z.conn.Open? && !z.conn.missed
            && (Found(block) || Found(batch) <==> z.conn.sent != k.conn.sent)
            && (!Found(block) && !Found(batch) <==> z == k)
  {
  }

  /** The frame of a pass that finds the chain's data spans from the cursor to where the cursor goes. */
  lemma PassSpans(w: World, from: u64, k: Link, block: Option<Bytes>, batch: Option<Bytes>)
    requires w.Faithful() && LinkInv(w, from, k) && k.conn.Open? && !k.conn.missed && k.conn.cursor <= MAX_HEIGHT
    requires block.Some? ==> block.value == w.chain(k.conn.cursor)
    requires block.None? ==> batch == Some(w.BatchBytes(BatchStart(k.conn.cursor)))
    ensures var z := PassOf(w, k, block, batch);
            && z.conn.Open? && z.conn.cursor == (if block.Some? then k.conn.cursor + 1 else BatchStart(k.conn.cursor) + BATCH_SIZE)
            && exists f :: z.conn.sent == k.conn.sent + [f] && Spans(w, f, k.conn.cursor, z.conn.cursor)
  {
    hide LiveFrame, Spans, Chained, BatchStart;
    var n := k.conn.cursor;
    FramedData(w, n);
    if block.Some? {
      LiveSpans(w, n);
    } else {
      BatchSpans(w, n);
    }
  }

  lemma FramedData(w: World, n: u64)
    requires w.Faithful() && 1 <= n <= MAX_HEIGHT
    ensures |w.chain(n)| > 0 && |w.BatchBytes(BatchStart(n))| > 0 && BatchStart(n) + BATCH_SIZE < TWO64
  {
  }

  /** One pass over a store at rest and one frame read by the client. */
  ghost function RoundOf(w: World, st: Store, k: Link): Link {
    var k1 := LinkStep(w, k, ServeBlock(BlockSeen(st, k)));
    var k2 := LinkStep(w, k1, ServeBatch(BatchSeen(st, k1)));
    LinkStep(w, k2, Receive(true))
  }

  predicate Drained(k: Link) {
    k.conn.Open? && !k.conn.missed && k.conn.sent == []
  }

  /** At a height the store has, the round moves the cursor on, at most to the one after the last. */
  lemma RoundAdvances(w: World, from: u64, st: Store, top: int, k: Link)
    requires w.Faithful() && Sound(w, st, top) && Cover(st, top)
    requires LinkInv(w, from, k) && Drained(k) && k.conn.cursor <= top
    ensures var z := RoundOf(w, st, k);
            LinkInv(w, from, z) && Drained(z) && k.conn.cursor < z.conn.cursor <= top + 1
  {
    hide Sound, LinkInv, Spans, w.Faithful, w.BatchBytes, BatchStart, LinkStep, Cover;
    var n := k.conn.cursor;
    CursorFacts(w, from, k);
    SeenAt(w, st, top, k);
    var k1 := LinkStep(w, k, ServeBlock(BlockSeen(st, k)));
    var k2 := LinkStep(w, k1, ServeBatch(BatchSeen(st, k1)));
    SecondLookup(w, st, k);
    assert k2 == PassOf(w, k, BlockSeen(st, k), BatchSeen(st, k1));
    PassSpans(w, from, k, BlockSeen(st, k), BatchSeen(st, k1));
    PassSendsExactly(w, k, BlockSeen(st, k), BatchSeen(st, k1));
    var f :| k2.conn.sent == k.conn.sent + [f] && Spans(w, f, n, k2.conn.cursor);
    SpanRises(w, f, n, k2.conn.cursor);
    SeenIsHonest(w, st, top, k);
    SeenIsHonest(w, st, top, k1);
    LinkKeeps(w, from, k, ServeBlock(BlockSeen(st, k)));
    LinkKeeps(w, from, k1, ServeBatch(BatchSeen(st, k1)));
    ReceiveKeeps(w, from, k2, true);
    assert k2.conn.sent[1..] == [];
  }

  lemma CursorFacts(w: World, from: u64, k: Link)
    requires LinkInv(w, from, k) && k.conn.Open?
    ensures k.conn.cursor >= 1 && k.live
  {
  }

  /** The store at rest has the height of the cursor, and nothing beyond top. */
  lemma SeenAt(w: World, st: Store, top: int, k: Link)
    requires Sound(w, st, top) && Cover(st, top) && k.conn.Open? && 1 <= k.conn.cursor <= top
    ensures k.conn.cursor <= MAX_HEIGHT
    ensures BlockSeen(st, k).Some? ==> BlockSeen(st, k).value == w.chain(k.conn.cursor)
    ensures BlockSeen(st, k).None? ==> BatchSeen(st, k) == Some(w.BatchBytes(BatchStart(k.conn.cursor)))
    ensures BatchSeen(st, k).Some? ==> BatchStart(k.conn.cursor) + BATCH_SIZE <= top + 1
  {
    hide w.BatchBytes;
    SeenIsHonest(w, st, top, k);
  }

  lemma SecondLookup(w: World, st: Store, k: Link)
    requires k.conn.Open? && !k.conn.missed
    ensures var k1 := LinkStep(w, k, ServeBlock(BlockSeen(st, k)));
            BlockSeen(st, k).None? ==> k1.conn == k.conn.(missed := true) && BatchSeen(st, k1) == BatchSeen(st, k)
  {
  }

  lemma DrainedIsDelivered(w: World, from: u64, k: Link)
    requires LinkInv(w, from, k) && Drained(k)
    ensures Max(1, from) <= k.conn.cursor
    ensures k.delivered == Blocks(w, Max(1, from), k.conn.cursor)
  {
    ChainedEnd(w, k.conn.sent, Max(1, k.current), k.conn.cursor);
  }

  /** Breaking off and connecting again starts at the height the client expects. */
  lemma Reconnects(w: World, from: u64, k: Link)
    requires w.Faithful() && LinkInv(w, from, k) && k.live
    ensures var z := LinkStep(w, LinkStep(w, k, Drop), Connect);
            LinkInv(w, from, z) && Drained(z) && z.conn.cursor == Max(1, k.current)
  {
    hide Chained, w.Faithful;
    LinkKeeps(w, from, k, Drop);
    LinkKeeps(w, from, LinkStep(w, k, Drop), Connect);
  }

  lemma NewLinkInv(w: World, from: u64)
    ensures LinkInv(w, from, NewLink(from))
  {
  }
}
