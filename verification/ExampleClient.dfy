/**
 * The program of evm-ingestion-client/example/main.go: its own reader, which filters line by line, and the
 * callback that ends the process when a block arrives out of order.
 */
module Example {
  import opened Prelude
  import opened Framing
  import opened Wire

  // Fatal is the callback's log.Fatalf; ReadFailed is an error that makes main reconnect.
  datatype Exit = Running | Fatal | ReadFailed

  /** Frames that take a reader from height n to some height that fits uint64. */
  ghost predicate Serves(w: World, frames: seq<Bytes>, n: nat) {
    exists to: nat :: to < TWO64 && Chained(w, frames, Max(1, n), to)
  }

  lemma ServesNext(w: World, frames: seq<Bytes>, i: nat, n: nat) returns (mid: nat)
    requires i < |frames| && Serves(w, frames[i..], n)
    ensures mid < TWO64 && Spans(w, frames[i], Max(1, n), mid) && Serves(w, frames[i + 1..], mid)
  {
    hide Spans;
    var to: nat :| to < TWO64 && Chained(w, frames[i..], Max(1, n), to);
    mid := ChainedHead(w, frames, i, Max(1, n), to);
    SpanRises(w, frames[i], Max(1, n), mid);
    ChainedRises(w, frames[i + 1..], mid, to);
    assert Max(1, mid) == mid && Chained(w, frames[i + 1..], Max(1, mid), to);
  }

  lemma PackOfLines(w: World, frame: Bytes, blocks: seq<Block>)
    requires ReadPack(w, frame) == Some(blocks)
    ensures w.dec(frame).Some? && ParseLines(w, ClientLines(w.dec(frame).value)) == Some(blocks)
  {
  }

  class ExampleClient {
    const w: World
    const from: u64
    var lastBlock: u64
    // Every block the callback accepted, in order.
    ghost var delivered: seq<Block>

    constructor (w: World, from: u64)
      ensures this.w == w && this.from == from && lastBlock == Wrap(from - 1) && delivered == []
    {
      this.w, this.from := w, from;
      lastBlock, delivered := Wrap(from - 1), [];
    }

    /** The callback has accepted the chain from the first height on, and current is the height it expects. */
    ghost predicate Owed(current: nat)
      reads this
    {
      && lastBlock == Wrap(current - 1) && from <= current < TWO64 && (current == 0 ==> from == 0)
      && (current > 0 ==> delivered == Blocks(w, from, current))
      && (current == 0 ==> delivered == [])
    }

    method Callback(b: Block) returns (fatal: bool)
      requires b.number < TWO64
      modifies this
      ensures fatal <==> b.number != Wrap(old(lastBlock) + 1)
      ensures if fatal then lastBlock == old(lastBlock) && delivered == old(delivered)
              else lastBlock == b.number && delivered == old(delivered) + [b]
      ensures forall n: nat :: old(Owed(n)) && from >= 1 && b == Block(n, w.chain(n)) && n + 1 < TWO64 ==>
                !fatal && Owed(n + 1)
      ensures forall n: nat :: old(Owed(n)) && from >= 1 && b.number != n ==> fatal && Owed(n)
    {
      if b.number != Wrap(lastBlock + 1) {
        return true;
      }
      lastBlock, delivered := b.number, delivered + [b];
      fatal := false;
    }

    /** One frame. From height 0 the first block, number 1, is already out of order. */
    method HandleFrame(frame: Bytes, current: nat, ghost to: nat) returns (current': nat, exit: Exit)
      requires Owed(current) && (from >= 1 <==> current >= 1)
      requires Spans(w, frame, Max(1, current), to) && to < TWO64
      modifies this
      ensures exit == if from == 0 then Fatal else Running
      ensures exit.Fatal? ==> delivered == []
      ensures exit.Running? ==> Owed(current') && current' == to
    {
      hide ParseLines, ClientLines, Blocks, ReadPack;
      current' := current;
      ghost var lo: nat :| 1 <= lo <= Max(1, current) && ReadPack(w, frame) == Some(Blocks(w, lo, to));
      assert w.dec(frame).Some? && ParseLines(w, ClientLines(w.dec(frame).value)) == Some(Blocks(w, lo, to)) by {
        PackOfLines(w, frame, Blocks(w, lo, to));
      }
      var text := w.dec(frame);
      if text.None? {
        return current', ReadFailed;
      }
      var lines := ClientLines(text.value);
      ghost var blocks := Blocks(w, lo, to);
      assert ParseLines(w, lines) == Some(blocks);
      ParsedLength(w, lines);
      for i := 0 to |lines|
        invariant from == 0 ==> i == 0 && current' == 0
        invariant from >= 1 ==> current' == Max(current, lo + i)
        invariant Owed(current')
      {
        ParsedLine(w, lines, i);
        assert blocks[i] == Block(lo + i, w.chain(lo + i));
        var number := w.number(lines[i]);
        if number.None? {
          return current', ReadFailed;
        }
        if number.value < current' {
          continue;
        }
        var fatal := Callback(Block(number.value, lines[i]));
        if fatal {
          return current', Fatal;
        }
        BlocksJoin(w, from, current', current' + 1);
        current' := number.value + 1;
      }
      exit := Running;
    }

    /**
     * main, for a bounded number of connection attempts; net(i, n) is what attempt i yields for height n.
     * The callback accepts the chain from the first height on, in order and without a gap, and the process
     * ends fatally exactly when it was told to start at height 0 and a frame arrives.
     */
    method Run(attempts: nat, net: (nat, nat) -> Session) returns (fatal: bool)
      requires lastBlock == Wrap(from - 1) && delivered == []
      requires forall i: nat, n: nat :: net(i, n).Session? ==> Serves(w, net(i, n).frames, n)
      modifies this
      ensures fatal <==> from == 0 && exists i: nat :: i < attempts && net(i, 0).Session? && net(i, 0).frames != []
      ensures from >= 1 ==> exists k: nat :: from <= k && delivered == Blocks(w, from, k)
      ensures from == 0 ==> delivered == []
    {
      hide Spans, Serves;
      ghost var current: nat := from;
      for i := 0 to attempts
        invariant Owed(current) && (from >= 1 <==> current >= 1)
        invariant from == 0 ==> forall j: nat :: j < i && net(j, 0).Session? ==> net(j, 0).frames == []
      {
        var nextBlock := Wrap(lastBlock + 1);
        match net(i, nextBlock) {
          case Refused =>
          case Session(frames) =>
            var currentBlock: nat := nextBlock;
            for k := 0 to |frames|
              invariant Owed(currentBlock) && (from >= 1 <==> currentBlock >= 1)
              invariant Serves(w, frames[k..], currentBlock)
              invariant from == 0 ==> k == 0
            {
              ghost var mid := ServesNext(w, frames, k, currentBlock);
              var exit;
              currentBlock, exit := HandleFrame(frames[k], currentBlock, mid);
              if exit.Fatal? {
                return true;
              }
            }
            current := currentBlock;
        }
      }
      fatal := false;
    }
  }
}
