/**
 * The stream between evm-ingestion/api/server.go and evm-ingestion-client/client.go: what the server puts
 * in a frame, what the client reads out of it, and what the client's handler gets over all reconnections.
 */
module Wire {
  import opened Prelude
  import opened Framing

  datatype Block = Block(number: nat, line: Bytes)

  /** The true blocks lo..hi-1 as the client presents them. */
  function Blocks(w: World, lo: nat, hi: nat): (r: seq<Block>)
    requires lo <= hi
    ensures |r| == hi - lo && forall i :: 0 <= i < |r| ==> r[i] == Block(lo + i, w.chain(lo + i))
  {
    seq(hi - lo, i requires 0 <= i < hi - lo => Block(lo + i, w.chain(lo + i)))
  }

  // ----- server: one frame -----

  function LiveFrame(w: World, data: Bytes): Bytes {
    w.encLive(data + [NL])
  }

  // ----- client: one frame -----

  function ParseLines(w: World, lines: seq<Bytes>): Option<seq<Block>> {
    if lines == [] then Some([])
    else
      match (w.number(lines[0]), ParseLines(w, lines[1..]))
      case (Some(n), Some(rest)) => Some([Block(n, lines[0])] + rest)
      case _ => None
  }

  /** readPack after ReadMessage: decompress, split, skip empty lines, parse every line. */
  function ReadPack(w: World, data: Bytes): Option<seq<Block>> {
    match w.dec(data)
    case None => None
    case Some(text) => ParseLines(w, ClientLines(text))
  }

  lemma {:induction false} ParsedLength(w: World, lines: seq<Bytes>)
    requires ParseLines(w, lines).Some?
    ensures |ParseLines(w, lines).value| == |lines|
  {
    if lines != [] {
      ParsedLength(w, lines[1..]);
    }
  }

  lemma {:induction false} ParsedLine(w: World, lines: seq<Bytes>, i: nat)
    requires ParseLines(w, lines).Some? && i < |lines|
    ensures |ParseLines(w, lines).value| == |lines|
    ensures w.number(lines[i]) == Some(ParseLines(w, lines).value[i].number)
    ensures ParseLines(w, lines).value[i].line == lines[i]
  {
    ParsedLength(w, lines);
    if i > 0 {
      ParsedLine(w, lines[1..], i - 1);
    }
  }

  lemma {:induction false} ParsesExactly(w: World, lines: seq<Bytes>)
    ensures ParseLines(w, lines).Some? <==> forall i :: 0 <= i < |lines| ==> w.number(lines[i]).Some?
  {
    if lines != [] {
      ParsesExactly(w, lines[1..]);
      assert forall i :: 0 <= i < |lines| - 1 ==> lines[1..][i] == lines[i + 1];
    }
  }

  /**
   * A frame is read if and only if it decompresses and every line of it that is not empty is a block with a height;
   * then those lines are the pack, each with its height, in order.
   */
  lemma ReadPackExactly(w: World, data: Bytes)
    ensures ReadPack(w, data).Some? <==>
            w.dec(data).Some? && forall line :: line in ClientLines(w.dec(data).value) ==> w.number(line).Some?
    ensures ReadPack(w, data).Some? ==>
              var lines, pack := ClientLines(w.dec(data).value), ReadPack(w, data).value;
              |pack| == |lines| && forall i :: 0 <= i < |lines| ==> Some(pack[i].number) == w.number(lines[i]) && pack[i].line == lines[i]
  {
    hide ParseLines, ClientLines;
    if w.dec(data).Some? {
      var lines := ClientLines(w.dec(data).value);
      ParsesExactly(w, lines);
      if ParseLines(w, lines).Some? {
        ParsedLength(w, lines);
        forall i | 0 <= i < |lines|
          ensures Some(ParseLines(w, lines).value[i].number) == w.number(lines[i]) && ParseLines(w, lines).value[i].line == lines[i]
        {
          ParsedLine(w, lines, i);
        }
      }
    }
  }

  function NotBelow(current: nat): Block -> bool {
    (b: Block) => b.number >= current
  }

  lemma {:induction false} ParseRun(w: World, lo: nat, hi: nat)
    requires w.Faithful() && lo <= hi
    ensures ParseLines(w, w.Run(lo, hi)) == Some(Blocks(w, lo, hi))
    decreases hi - lo
  {
    if lo < hi {
      ParseRun(w, lo + 1, hi);
      assert w.Run(lo, hi)[1..] == w.Run(lo + 1, hi);
      assert Blocks(w, lo, hi) == [Block(lo, w.chain(lo))] + Blocks(w, lo + 1, hi);
    } else {
      assert w.Run(lo, hi) == [] && Blocks(w, lo, hi) == [];
    }
  }

  lemma LiveFrameReads(w: World, n: nat)
    requires w.Faithful()
    ensures ReadPack(w, LiveFrame(w, w.chain(n))) == Some(Blocks(w, n, n + 1))
  {
    FramesDecode(w, n, n + 1);
    ParseRun(w, n, n + 1);
  }

  lemma BatchFrameReads(w: World, s: nat)
    requires w.Faithful()
    ensures ReadPack(w, w.BatchBytes(s)) == Some(Blocks(w, s, s + BATCH_SIZE))
  {
    FramesDecode(w, s, s + BATCH_SIZE);
    ParseRun(w, s, s + BATCH_SIZE);
  }

  lemma {:induction false} FilterBlocks(w: World, lo: nat, hi: nat, current: nat)
    requires lo <= hi
    ensures Filter(Blocks(w, lo, hi), NotBelow(current)) == Blocks(w, Min(hi, Max(lo, current)), hi)
    decreases hi - lo
  {
    if lo < hi {
      FilterBlocks(w, lo + 1, hi, current);
      assert Blocks(w, lo, hi)[1..] == Blocks(w, lo + 1, hi);
      assert Blocks(w, lo, hi)[0] == Block(lo, w.chain(lo));
      if current <= lo {
        assert Blocks(w, lo, hi) == [Block(lo, w.chain(lo))] + Blocks(w, lo + 1, hi);
      }
    } else {
      assert Blocks(w, lo, hi) == [];
    }
  }

  lemma BlocksJoin(w: World, a: nat, b: nat, c: nat)
    requires a <= b <= c
    ensures Blocks(w, a, b) + Blocks(w, b, c) == Blocks(w, a, c)
  {
  }

  // ----- a sequence of frames -----

  /** f holds the true blocks of some interval that starts at or below from and ends at to > from. */
  ghost predicate Spans(w: World, f: Bytes, from: nat, to: nat) {
    from < to && exists lo: nat :: 1 <= lo <= from && ReadPack(w, f) == Some(Blocks(w, lo, to))
  }

  /** Read one after the other, the frames take a reader from height from to height to without a gap. */
  ghost predicate Chained(w: World, frames: seq<Bytes>, from: nat, to: nat) {
    if frames == [] then from == to
    else exists mid: nat :: Spans(w, frames[0], from, mid) && Chained(w, frames[1..], mid, to)
  }

  lemma ChainedNone(w: World, a: nat)
    ensures Chained(w, [], a, a)
  {
  }

  lemma ChainedEnd(w: World, frames: seq<Bytes>, a: nat, b: nat)
    requires frames == [] && Chained(w, frames, a, b)
    ensures a == b
  {
  }

  lemma ChainedHead(w: World, frames: seq<Bytes>, i: nat, a: nat, to: nat) returns (mid: nat)
    requires i < |frames| && Chained(w, frames[i..], a, to)
    ensures Spans(w, frames[i], a, mid) && Chained(w, frames[i + 1..], mid, to)
  {
    mid :| Spans(w, frames[i..][0], a, mid) && Chained(w, frames[i..][1..], mid, to);
    assert frames[i..][1..] == frames[i + 1..];
  }

  lemma {:induction false} ChainedSnoc(w: World, frames: seq<Bytes>, f: Bytes, a: nat, b: nat, c: nat)
    requires Chained(w, frames, a, b) && Spans(w, f, b, c)
    ensures Chained(w, frames + [f], a, c)
  {
    var all := frames + [f];
    if frames == [] {
      assert all[0] == f && all[1..] == [];
      assert Chained(w, all[1..], c, c);
    } else {
      var mid: nat :| Spans(w, frames[0], a, mid) && Chained(w, frames[1..], mid, b);
      ChainedSnoc(w, frames[1..], f, mid, b, c);
      assert all[0] == frames[0] && all[1..] == frames[1..] + [f];
    }
  }

  /** What the client's filter keeps of a spanning frame is exactly what its handler is still owed. */
  lemma SpanFilters(w: World, f: Bytes, current: nat, to: nat)
    requires Spans(w, f, Max(1, current), to)
    ensures ReadPack(w, f).Some?
    ensures Filter(ReadPack(w, f).value, NotBelow(current)) == Blocks(w, Max(1, current), to)
  {
    var lo: nat :| 1 <= lo <= Max(1, current) && ReadPack(w, f) == Some(Blocks(w, lo, to));
    FilterBlocks(w, lo, to, current);
  }

  lemma LiveSpans(w: World, n: nat)
    requires w.Faithful() && n >= 1
    ensures Spans(w, LiveFrame(w, w.chain(n)), n, n + 1)
  {
    LiveFrameReads(w, n);
  }

  /** A whole batch spans from any height inside it, not only from its first. */
  lemma BatchSpans(w: World, n: u64)
    requires w.Faithful() && 1 <= n <= MAX_HEIGHT
    ensures Spans(w, w.BatchBytes(BatchStart(n)), n, BatchStart(n) + BATCH_SIZE)
  {
    BatchFrameReads(w, BatchStart(n));
  }

  // ----- the server's loop -----

  // One pass of streamBlocks: what the two lookups return (absent also stands for an error), and whether
  // writing the frame succeeds.
  datatype Pass = Pass(block: Option<Bytes>, batch: Option<Bytes>, written: bool)

  /** A lookup that counts: present and not empty. */
  predicate Found(data: Option<Bytes>) {
    data.Some? && |data.value| > 0
  }

  /** At height n the lookups return nothing but the chain's data. */
  ghost predicate HonestPass(w: World, n: u64, p: Pass) {
    && (p.block.Some? ==> 1 <= n <= MAX_HEIGHT && p.block.value == w.chain(n))
    && (p.batch.Some? ==> 1 <= n <= MAX_HEIGHT && p.batch.value == w.BatchBytes(BatchStart(n)))
  }

  /** A pass that has data to send. */
  predicate Productive(p: Pass) {
    Found(p.block) || Found(p.batch)
  }

  /** A pass ends the connection only when it has data and cannot write it. */
  predicate Breaks(p: Pass) {
    Productive(p) && !p.written
  }

  /** The height asked for in pass i, and the frames sent before it, while nothing breaks. */
  function CursorAt(store: (nat, u64) -> Pass, start: u64, i: nat): u64 {
    if i == 0 then start
    else
      var n := CursorAt(store, start, i - 1);
      var p := store(i - 1, n);
      if Found(p.block) then Wrap(n + 1)
      else if Found(p.batch) then Wrap(BatchStart(n) + BATCH_SIZE)
      else n
  }

  function SentBy(store: (nat, u64) -> Pass, start: u64, i: nat): nat {
    if i == 0 then 0
    else SentBy(store, start, i - 1) + if Productive(store(i - 1, CursorAt(store, start, i - 1))) then 1 else 0
  }

  /**
   * handleWS's reading of from, then streamBlocks for as many passes as the connection lasts. store(i, n)
   * is what pass i sees at height n: any history of a shared store, as long as it never lies. Every pass that finds
   * data sends it and one that finds none waits; the connection ends with the first write that fails, at pass last.
   */
  method StreamFrames(w: World, from: u64, passes: nat, store: (nat, u64) -> Pass)
    returns (frames: seq<Bytes>, currentBlock: u64, ghost last: nat)
    requires w.Faithful() && forall i: nat, n: u64 :: HonestPass(w, n, store(i, n))
    ensures Chained(w, frames, Max(1, from), currentBlock)
    ensures last <= passes && currentBlock == CursorAt(store, Max(1, from), last)
    ensures |frames| == SentBy(store, Max(1, from), last)
    ensures forall i: nat :: i < last ==> !Breaks(store(i, CursorAt(store, Max(1, from), i)))
    ensures last < passes ==> Breaks(store(last, currentBlock))
  {
    hide Chained, Spans, LiveFrame, w.BatchBytes, w.Faithful, BatchStart, CursorAt, SentBy;
    currentBlock := if from == 0 then 1 else from;
    frames, last := [], 0;
    PassCounts(store, Max(1, from), 0);
    ChainedNone(w, currentBlock);
    for i := 0 to passes
      invariant currentBlock >= 1
      invariant Chained(w, frames, Max(1, from), currentBlock)
      invariant currentBlock == CursorAt(store, Max(1, from), i) && |frames| == SentBy(store, Max(1, from), i)
      invariant last == i && forall j: nat :: j < i ==> !Breaks(store(j, CursorAt(store, Max(1, from), j)))
    {
      var p := store(i, currentBlock);
      PassCounts(store, Max(1, from), i);
      if p.block.Some? || p.batch.Some? { FrameFits(w, currentBlock); }
      assert HonestPass(w, currentBlock, p);
      if Found(p.block) {
        var frame := LiveFrame(w, p.block.value);
        if !p.written {
          return;
        }
        LiveSpans(w, currentBlock);
        ChainedSnoc(w, frames, frame, Max(1, from), currentBlock, currentBlock + 1);
        frames := frames + [frame];
        currentBlock := currentBlock + 1;
        last := i + 1;
        continue;
      }
      var batchStart := BatchStart(currentBlock);
      if Found(p.batch) {
        if !p.written {
          return;
        }
        BatchSpans(w, currentBlock);
        ChainedSnoc(w, frames, p.batch.value, Max(1, from), currentBlock, batchStart + BATCH_SIZE);
        frames := frames + [p.batch.value];
        currentBlock := batchStart + BATCH_SIZE;
      }
      last := i + 1;
    }
  }

  lemma PassCounts(store: (nat, u64) -> Pass, start: u64, i: nat)
    ensures var n := CursorAt(store, start, i);
            && CursorAt(store, start, i + 1) == (if Found(store(i, n).block) then Wrap(n + 1)
                 else if Found(store(i, n).batch) then Wrap(BatchStart(n) + BATCH_SIZE) else n)
            && CursorAt(store, start, 0) == start && SentBy(store, start, 0) == 0
            && SentBy(store, start, i + 1) == SentBy(store, start, i) + if Productive(store(i, n)) then 1 else 0
  {
    hide BatchStart;
  }

  lemma FrameFits(w: World, n: u64)
    ensures n <= MAX_HEIGHT ==> n + 1 < TWO64 && BatchStart(n) + BATCH_SIZE < TWO64
  {
  }

  // ----- the client's loop -----

  // What a connection attempt yields: nothing, or frames followed by a read error. accepts(k) is the
  // verdict of the handler on the k-th pack it is given.
  datatype Session = Refused | Session(frames: seq<Bytes>)

  /** The frames of a session that was asked for height n chain from there on. */
  ghost predicate Arrives(w: World, s: Session, n: nat) {
    s.Session? ==> exists to: nat :: Chained(w, s.frames, Max(1, n), to)
  }

  /**
   * The first i attempts, if no pack is refused and every frame is read, take a client from height n to m and hand
   * over p packs, one for each frame.
   */
  ghost predicate Reaches(w: World, net: (nat, nat) -> Session, i: nat, n: nat, m: nat, p: nat) {
    if i == 0 then n == m && p == 0
    else
      var last: nat := i - 1;
      exists mid: nat, q: nat :: Reaches(w, net, last, n, mid, q) && Advances(w, net(last, mid), mid, m, q, p)
  }

  ghost predicate Advances(w: World, s: Session, n: nat, m: nat, q: nat, p: nat) {
    match s
    case Refused => n == m && p == q
    case Session(frames) => Chained(w, frames, Max(1, n), Max(1, m)) && (frames == [] ==> n == m) && p == q + |frames|
  }

  /** Of the count packs from start on the handler refuses g first. */
  ghost predicate FirstRefused(accepts: nat -> bool, start: nat, count: nat, g: nat) {
    start <= g < start + count && !accepts(g) && forall k: nat :: start <= k < g ==> accepts(k)
  }

  lemma OneRefused(accepts: nat -> bool, start: nat, count: nat, g: nat)
    requires start <= g < start + count && !accepts(g) && forall k: nat :: start <= k < g ==> accepts(k)
    ensures FirstRefused(accepts, start, count, g)
    ensures forall h: nat :: FirstRefused(accepts, start, count, h) ==> h == g
  {
  }

  lemma NoneRefused(accepts: nat -> bool, start: nat, count: nat)
    requires forall k: nat :: start <= k < start + count ==> accepts(k)
    ensures forall h: nat :: !FirstRefused(accepts, start, count, h)
  {
  }

  /** Pack g is the first that the handler refuses; it comes with attempt i, which begins at height n with pack q. */
  ghost predicate RefusedIn(w: World, net: (nat, nat) -> Session, accepts: nat -> bool, from: nat, i: nat, n: nat, q: nat, g: nat) {
    && Reaches(w, net, i, from, n, q) && net(i, n).Session?
    && FirstRefused(accepts, 0, q + |net(i, n).frames|, g) && q <= g
  }

  datatype Exit = StillRunning | Disconnected | HandlerError

  /** The slice filter of Stream: it compacts the pack in place, keeping order. */
  method FilterInPlace(blocks: array<Block>, current: nat) returns (kept: nat)
    modifies blocks
    ensures kept <= blocks.Length
    ensures blocks[..kept] == Filter(old(blocks[..]), NotBelow(current))
  {
    hide Filter;
    kept := 0;
    assert Filter(old(blocks[..])[..0], NotBelow(current)) == [] by { FilterAll<Block>([], NotBelow(current)); }
    for i := 0 to blocks.Length
      invariant kept <= i
      invariant blocks[i..] == old(blocks[..])[i..]
      invariant blocks[..kept] == Filter(old(blocks[..])[..i], NotBelow(current))
    {
      var b := blocks[i];
      FilterSnoc(old(blocks[..])[..i], b, NotBelow(current));
      assert old(blocks[..])[..i + 1] == old(blocks[..])[..i] + [b];
      if b.number >= current {
        blocks[kept] := b;
        kept := kept + 1;
      }
    }
    assert old(blocks[..])[..blocks.Length] == old(blocks[..]);
  }

  lemma ReachesMore(w: World, net: (nat, nat) -> Session, i: nat, n: nat, mid: nat, m: nat, q: nat, p: nat)
    requires Reaches(w, net, i, n, mid, q) && Advances(w, net(i, mid), mid, m, q, p)
    ensures Reaches(w, net, i + 1, n, m, p)
  {
    var last: nat := i + 1 - 1;
    assert Reaches(w, net, last, n, mid, q) && Advances(w, net(last, mid), mid, m, q, p);
  }

  lemma RefusedStays(w: World, n: nat, q: nat)
    ensures Advances(w, Refused, n, n, q, q)
  {
  }

  lemma ReadAdvances(w: World, frames: seq<Bytes>, n: nat, m: nat, q: nat)
    requires Chained(w, frames, Max(1, n), Max(1, m)) && (frames == [] ==> n == m)
    ensures Advances(w, Session(frames), n, m, q, q + |frames|)
  {
    hide Chained;
  }

  lemma SpansOnce(w: World, f: Bytes, a: nat, b: nat, c: nat)
    requires Spans(w, f, a, b) && Spans(w, f, a, c)
    ensures b == c
  {
    var i: nat :| 1 <= i <= a && ReadPack(w, f) == Some(Blocks(w, i, b));
    var j: nat :| 1 <= j <= a && ReadPack(w, f) == Some(Blocks(w, j, c));
    hide ReadPack, Blocks;
    assert Blocks(w, i, b) == Blocks(w, j, c);
    assert Blocks(w, i, b)[|Blocks(w, i, b)| - 1].number == b - 1;
    assert Blocks(w, j, c)[|Blocks(w, j, c)| - 1].number == c - 1;
  }

  lemma {:induction false} ChainedOnce(w: World, frames: seq<Bytes>, a: nat, b: nat, c: nat)
    requires Chained(w, frames, a, b) && Chained(w, frames, a, c)
    ensures b == c
    decreases frames
  {
    hide Spans;
    if frames != [] {
      var i: nat :| Spans(w, frames[0], a, i) && Chained(w, frames[1..], i, b);
      var j: nat :| Spans(w, frames[0], a, j) && Chained(w, frames[1..], j, c);
      SpansOnce(w, frames[0], a, i, j);
      ChainedOnce(w, frames[1..], i, b, c);
    }
  }

  lemma SpanRises(w: World, f: Bytes, a: nat, b: nat)
    requires Spans(w, f, a, b)
    ensures a < b
  {
  }

  lemma {:induction false} ChainedRises(w: World, frames: seq<Bytes>, a: nat, b: nat)
    requires Chained(w, frames, a, b)
    ensures a <= b && (frames != [] ==> a < b)
  {
    if frames != [] {
      var mid: nat :| Spans(w, frames[0], a, mid) && Chained(w, frames[1..], mid, b);
      ChainedRises(w, frames[1..], mid, b);
    }
  }

  /** What arrives on a connection determines where it takes the client, and how many packs that makes. */
  lemma {:induction false} ReachesOnce(w: World, net: (nat, nat) -> Session, i: nat, n: nat, a: nat, p: nat, b: nat, q: nat)
    requires Reaches(w, net, i, n, a, p) && Reaches(w, net, i, n, b, q)
    ensures a == b && p == q
  {
    if i > 0 {
      hide Advances;
      var last: nat := i - 1;
      var c: nat, x: nat :| Reaches(w, net, last, n, c, x) && Advances(w, net(last, c), c, a, x, p);
      var d: nat, y: nat :| Reaches(w, net, last, n, d, y) && Advances(w, net(last, d), d, b, y, q);
      ReachesOnce(w, net, last, n, c, x, d, y);
      AdvancesOnce(w, net(last, c), c, a, b, x, p, q);
    }
  }

  lemma AdvancesOnce(w: World, s: Session, n: nat, a: nat, b: nat, x: nat, p: nat, q: nat)
    requires Advances(w, s, n, a, x, p) && Advances(w, s, n, b, x, q)
    ensures a == b && p == q
  {
    hide Chained;
    if s.Session? {
      ChainedOnce(w, s.frames, Max(1, n), Max(1, a), Max(1, b));
      ChainedRises(w, s.frames, Max(1, n), Max(1, a));
    }
  }

  function Packs(s: Session): nat {
    if s.Refused? then 0 else |s.frames|
  }

  lemma {:induction false} ReachedBefore(w: World, net: (nat, nat) -> Session, i: nat, j: nat, n: nat, b: nat, y: nat)
      returns (a: nat, x: nat)
    requires i < j && Reaches(w, net, j, n, b, y)
    ensures Reaches(w, net, i, n, a, x) && x + Packs(net(i, a)) <= y
    decreases j
  {
    hide Chained;
    var last: nat := j - 1;
    var c: nat, z: nat :| Reaches(w, net, last, n, c, z) && Advances(w, net(last, c), c, b, z, y);
    if i == last {
      a, x := c, z;
    } else {
      a, x := ReachedBefore(w, net, i, last, n, c, z);
    }
  }

  /** Only one pack is the first that is refused, and it comes in one attempt. */
  lemma RefusedUnique(w: World, net: (nat, nat) -> Session, accepts: nat -> bool, from: nat,
                      i: nat, n: nat, q: nat, g: nat, j: nat, m: nat, p: nat, h: nat)
    requires RefusedIn(w, net, accepts, from, i, n, q, g) && RefusedIn(w, net, accepts, from, j, m, p, h)
    ensures i == j && n == m && q == p && g == h
  {
    hide Reaches, Advances;
    assert g == h;
    if i < j {
      var a, x := ReachedBefore(w, net, i, j, from, m, p);
      ReachesOnce(w, net, i, from, n, q, a, x);
    } else if j < i {
      var a, x := ReachedBefore(w, net, j, i, from, n, q);
      ReachesOnce(w, net, j, from, m, p, a, x);
    } else {
      ReachesOnce(w, net, i, from, n, q, m, p);
    }
  }

  /** When attempt i begins at height n with pack q, all packs before it accepted, what is refused in it is known. */
  lemma RefusedOnce(w: World, net: (nat, nat) -> Session, accepts: nat -> bool, from: nat, i: nat, n: nat, q: nat)
    requires Reaches(w, net, i, from, n, q) && forall k: nat :: k < q ==> accepts(k)
    ensures forall m: nat, p: nat, g: nat :: RefusedIn(w, net, accepts, from, i, m, p, g) <==>
              m == n && p == q && net(i, n).Session? && FirstRefused(accepts, q, |net(i, n).frames|, g)
    ensures forall g: nat :: net(i, n).Session? && FirstRefused(accepts, q, |net(i, n).frames|, g) ==>
              RefusedIn(w, net, accepts, from, i, n, q, g)
  {
    hide Reaches;
    forall m: nat, p: nat, g: nat | RefusedIn(w, net, accepts, from, i, m, p, g) ensures m == n && p == q {
      ReachesOnce(w, net, i, from, n, q, m, p);
    }
  }

  class Client {
    const w: World
    const reconnect: bool
    // Every block handed to the handler so far, in order.
    ghost var delivered: seq<Block>
    var packs: nat

    constructor (w: World, reconnect: bool)
      ensures delivered == [] && this.w == w && this.reconnect == reconnect
    {
      this.w, this.reconnect := w, reconnect;
      delivered, packs := [], 0;
    }

    ghost predicate Owed(from: u64, current: nat)
      reads this
    {
      current >= from && delivered == Blocks(w, Max(1, from), Max(1, current))
    }

    /** Blocks up to the end of the first n frames of a connection that began at height current, and no more. */
    ghost predicate HandedOver(from: u64, current: nat, frames: seq<Bytes>)
      reads this
    {
      exists k: nat :: Max(1, from) <= k && Chained(w, frames, Max(1, current), k) && delivered == Blocks(w, Max(1, from), k)
    }

    /** One frame: read it and keep what the handler is owed. */
    method ReadOwed(frame: Bytes, current: nat, ghost mid: nat) returns (filtered: Option<seq<Block>>)
      requires Spans(w, frame, Max(1, current), mid)
      ensures Max(1, current) < mid && filtered == Some(Blocks(w, Max(1, current), mid))
    {
      hide Spans, ReadPack, Filter, Blocks, NotBelow;
      SpanFilters(w, frame, current, mid);
      SpanRises(w, frame, Max(1, current), mid);
      var pack := ReadPack(w, frame);
      if pack.None? {
        return None;
      }
      var blocks := new Block[|pack.value|](j requires 0 <= j < |pack.value| => pack.value[j]);
      assert blocks[..] == pack.value;
      var kept := FilterInPlace(blocks, current);
      filtered := Some(blocks[..kept]);
    }

    /**
     * The inner loop: packs from one connection until it breaks or the handler refuses one. Every frame makes a pack.
     * The loop ends with an error of the handler exactly when one of them is refused, and then right after the first.
     */
    method ReadPacks(from: u64, current: nat, frames: seq<Bytes>, accepts: nat -> bool, ghost to: nat)
      returns (current': nat, exit: Exit)
      requires Owed(from, current) && Chained(w, frames, Max(1, current), to)
      modifies this
      ensures exit == if exists g: nat :: FirstRefused(accepts, old(packs), |frames|, g) then HandlerError else Disconnected
      ensures forall g: nat :: FirstRefused(accepts, old(packs), |frames|, g) ==>
                packs == g && HandedOver(from, current, frames[..g - old(packs) + 1])
      ensures !exit.HandlerError? ==> Owed(from, current') && Max(1, current') == to
      ensures !exit.HandlerError? ==> packs == old(packs) + |frames| && forall k: nat :: old(packs) <= k < packs ==> accepts(k)
      ensures !exit.HandlerError? && frames == [] ==> current' == current
    {
      hide Chained, Spans, ReadPack, Filter, Blocks, NotBelow, FirstRefused;
      current' := current;
      ChainedNone(w, Max(1, current));
      for i := 0 to |frames|
        invariant Owed(from, current') && (i == 0 ==> current' == current)
        invariant packs == old(packs) + i && forall k: nat :: old(packs) <= k < packs ==> accepts(k)
        invariant Chained(w, frames[i..], Max(1, current'), to) && Chained(w, frames[..i], Max(1, current), Max(1, current'))
      {
        ghost var mid := ChainedHead(w, frames, i, Max(1, current'), to);
        SpanRises(w, frames[i], Max(1, current'), mid);
        ChainedSnoc(w, frames[..i], frames[i], Max(1, current), Max(1, current'), mid);
        assert frames[..i] + [frames[i]] == frames[..i + 1];
        var pack := ReadOwed(frames[i], current', mid);
        if pack.None? {
          return current', Disconnected;
        }
        var filtered := pack.value;
        if |filtered| > 0 {
          BlocksJoin(w, Max(1, from), Max(1, current'), mid);
          delivered := delivered + filtered;
          if !accepts(packs) {
            OneRefused(accepts, old(packs), |frames|, packs);
            return current', HandlerError;
          }
          packs := packs + 1;
          current' := filtered[|filtered| - 1].number + 1;
        }
      }
      ChainedEnd(w, frames[|frames|..], Max(1, current'), to);
      NoneRefused(accepts, old(packs), |frames|);
      exit := Disconnected;
    }

    /**
     * Stream, for a bounded number of connection attempts. net(i, n) is what attempt i yields when it asks
     * the server for height n onwards. Whatever breaks off and whenever, the handler has been given the
     * chain's blocks from height max(1, from) on, each once, in order, with the bytes that were saved. As long as it
     * accepts them that is everything that arrived; the first pack it refuses is the last, and ends the stream with
     * the handler's error. Without reconnecting there is one attempt.
     */
    method Stream(from: u64, attempts: nat, net: (nat, nat) -> Session, accepts: nat -> bool) returns (exit: Exit)
      requires delivered == [] && packs == 0
      requires forall i: nat, n: nat :: Arrives(w, net(i, n), n)
      modifies this
      ensures exists k :: Max(1, from) <= k && delivered == Blocks(w, Max(1, from), k)
      ensures exit.HandlerError? <==>
                exists i: nat, n: nat, q: nat, g: nat :: i < Tried(attempts) && RefusedIn(w, net, accepts, from, i, n, q, g)
      ensures forall i: nat, n: nat, q: nat, g: nat :: i < Tried(attempts) && RefusedIn(w, net, accepts, from, i, n, q, g) ==>
                packs == g && HandedOver(from, n, net(i, n).frames[..g - q + 1])
      ensures !exit.HandlerError? ==> Everything(from, Tried(attempts), net)
      ensures !exit.HandlerError? ==> exit == if reconnect || attempts == 0 then StillRunning else Disconnected
    {
      hide Advances, RefusedIn, FirstRefused, Blocks, Chained, Arrives;
      var currentBlock: nat := from;
      for i := 0 to attempts
        invariant Begun(from, i, currentBlock, net, accepts)
        invariant i > 0 ==> reconnect
        invariant forall j: nat, n: nat, q: nat, g: nat :: j < i ==> !RefusedIn(w, net, accepts, from, j, n, q, g)
      {
        currentBlock, exit := OneAttempt(from, i, currentBlock, net, accepts);
        if exit.HandlerError? {
          ghost var n: nat, q: nat, g: nat :| RefusedIn(w, net, accepts, from, i, n, q, g);
          forall j: nat, m: nat, p: nat, h: nat | RefusedIn(w, net, accepts, from, j, m, p, h)
            ensures j == i
          {
            RefusedUnique(w, net, accepts, from, i, n, q, g, j, m, p, h);
          }
          return;
        }
        if !reconnect {
          return;
        }
      }
      exit := StillRunning;
    }

    /** Attempt i is to begin at height current, everything before it handed over and accepted. */
    ghost predicate Begun(from: u64, i: nat, current: nat, net: (nat, nat) -> Session, accepts: nat -> bool)
      reads this
    {
      Owed(from, current) && Reaches(w, net, i, from, current, packs) && forall k: nat :: k < packs ==> accepts(k)
    }

    /** One turn of the outer loop. */
    method OneAttempt(from: u64, i: nat, current: nat, net: (nat, nat) -> Session, accepts: nat -> bool)
      returns (current': nat, exit: Exit)
      requires Begun(from, i, current, net, accepts)
      requires forall n: nat :: Arrives(w, net(i, n), n)
      modifies this
      ensures exit == if exists n: nat, q: nat, g: nat :: RefusedIn(w, net, accepts, from, i, n, q, g) then HandlerError else Disconnected
      ensures forall n: nat, q: nat, g: nat :: RefusedIn(w, net, accepts, from, i, n, q, g) ==>
                packs == g && HandedOver(from, n, net(i, n).frames[..g - q + 1])
      ensures !exit.HandlerError? ==> Begun(from, i + 1, current', net, accepts)
    {
      hide Chained, Reaches, Advances, RefusedIn, FirstRefused, HandedOver, Blocks;
      assert Arrives(w, net(i, current), current);
      RefusedOnce(w, net, accepts, from, i, current, packs);
      current' := current;
      match net(i, current) {
        case Refused =>
          RefusedStays(w, current, packs);
          ReachesMore(w, net, i, from, current, current, packs, packs);
          exit := Disconnected;
        case Session(frames) =>
          ghost var sofar := packs;
          ghost var to: nat :| Chained(w, frames, Max(1, current), to);
          current', exit := ReadPacks(from, current, frames, accepts, to);
          if !exit.HandlerError? {
            ReadAdvances(w, frames, current, current', sofar);
            ReachesMore(w, net, i, from, current, current', sofar, packs);
          }
      }
    }

    function Tried(attempts: nat): nat {
      if reconnect then attempts else Min(1, attempts)
    }

    /** All that arrived in the first i attempts has been handed over and accepted. */
    ghost predicate Everything(from: u64, i: nat, net: (nat, nat) -> Session)
      reads this
    {
      exists m: nat :: from <= m && Reaches(w, net, i, from, m, packs) && delivered == Blocks(w, Max(1, from), Max(1, m))
    }
  }
}
