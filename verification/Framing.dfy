/** Batch arithmetic and JSONL framing: evm-ingestion/storage/batch.go and the line reader of the client. */
module Framing {
  import opened Prelude

  const BATCH_SIZE: int := 100
  const NL: byte := 10
  const CR: byte := 13
  const MAX_LINE: int := 10 * 1024 * 1024

  /** Heights this model covers; far enough below 2^64 that no height arithmetic of the source wraps. */
  const MAX_HEIGHT: int := 0x1_0000_0000_0000_0000 - 200

  /**
   * What lies outside the program. chain(n) is the JSON of the block at height n, number(d) the height
   * that unmarshalling d and reading its block number yields; the other fields are zstd's two encoders
   * and its decoder.
   */
  datatype World = World(
    chain: nat -> Bytes,
    number: Bytes -> Option<nat>,
    encBatch: Bytes -> Bytes,
    encLive: Bytes -> Bytes,
    dec: Bytes -> Option<Bytes>)
  {
    ghost predicate Faithful() {
      && (forall n: nat :: Framed(chain(n)) && number(chain(n)) == Some(n))
      && (forall x :: encBatch(x) != [] && dec(encBatch(x)) == Some(x))
      && (forall x :: encLive(x) != [] && dec(encLive(x)) == Some(x))
    }

    /** The true blocks lo, lo+1, ..., hi-1. */
    function Run(lo: nat, hi: nat): (r: seq<Bytes>)
      requires lo <= hi
      ensures |r| == hi - lo && forall i :: 0 <= i < |r| ==> r[i] == chain(lo + i)
    {
      seq(hi - lo, i requires 0 <= i < hi - lo => chain(lo + i))
    }

    /** The bytes compaction stores for the batch that starts at s. */
    function BatchBytes(s: nat): Bytes {
      encBatch(Jsonl(Run(s, s + BATCH_SIZE)))
    }
  }

  /** Letters in place of JSON, as many as the height and one more. */
  function Letters(n: nat): (b: Bytes)
    ensures |b| == n + 1 && NL !in b
  {
    seq(n + 1, _ => 65)
  }

  /** A world in which all that Faithful asks for holds: nothing proved under it is empty. */
  lemma FaithfulWorldExists() returns (w: World)
    ensures w.Faithful()
  {
    w := World(
      Letters,
      (d: Bytes) => if |d| > 0 then Some(|d| - 1) else None,
      (text: Bytes) => [1] + text,
      (text: Bytes) => [2] + text,
      (data: Bytes) => if |data| > 0 then Some(data[1..]) else None);
    forall x: Bytes ensures w.dec(w.encBatch(x)) == Some(x) && w.dec(w.encLive(x)) == Some(x) {
      assert ([1] + x)[1..] == x && ([2] + x)[1..] == x;
    }
  }

  /** A payload the client's reader can carry: non-empty and on one line. */
  predicate Framed(b: Bytes) {
    b != [] && NL !in b
  }

  /** A payload the store's scanner can carry as well. */
  predicate Scannable(b: Bytes) {
    Framed(b) && b[|b| - 1] != CR && |b| < MAX_LINE
  }

  // ----- batch arithmetic -----

  function BatchStart(n: u64): (s: u64)
    ensures n <= MAX_HEIGHT ==> s % BATCH_SIZE == 1 && (n >= 1 ==> s <= n < s + BATCH_SIZE)
  {
    if n == 0 then 1 else ((n - 1) / BATCH_SIZE) * BATCH_SIZE + 1
  }

  function BatchEnd(start: u64): u64 {
    Wrap(start + BATCH_SIZE - 1)
  }

  /** The batches partition the heights: n belongs to the aligned batch s exactly when BatchStart(n) == s. */
  lemma BatchesPartition(n: u64, s: u64)
    requires 1 <= n <= MAX_HEIGHT && s % BATCH_SIZE == 1
    ensures BatchStart(n) == s <==> s <= n <= BatchEnd(s)
    ensures BatchStart(s) == s && BatchStart(0) == BatchStart(1) == 1
  {
  }

  // ----- writing -----

  function Jsonl(blocks: seq<Bytes>): Bytes {
    if blocks == [] then [] else blocks[0] + [NL] + Jsonl(blocks[1..])
  }

  lemma {:induction false} JsonlSnoc(blocks: seq<Bytes>, b: Bytes)
    ensures Jsonl(blocks + [b]) == Jsonl(blocks) + b + [NL]
  {
    if blocks == [] {
      assert blocks + [b] == [b] && [b][1..] == [];
    } else {
      JsonlSnoc(blocks[1..], b);
      assert (blocks + [b])[1..] == blocks[1..] + [b];
    }
  }

  method CompressBlocks(w: World, blocks: seq<Bytes>) returns (data: Bytes)
    ensures data == w.encBatch(Jsonl(blocks))
  {
    var buf: Bytes := [];
    for i := 0 to |blocks|
      invariant buf == Jsonl(blocks[..i])
    {
      buf := buf + blocks[i];
      buf := buf + [NL];
      JsonlSnoc(blocks[..i], blocks[i]);
      assert blocks[..i] + [blocks[i]] == blocks[..i + 1];
    }
    assert blocks[..|blocks|] == blocks;
    data := w.encBatch(buf);
  }

  // ----- reading -----

  function DropCR(b: Bytes): Bytes {
    if b != [] && b[|b| - 1] == CR then b[..|b| - 1] else b
  }

  function DropCRs(lines: seq<Bytes>): seq<Bytes> {
    seq(|lines|, i requires 0 <= i < |lines| => DropCR(lines[i]))
  }

  predicate HasBytes(b: Bytes) {
    b != []
  }

  predicate TooLong(raw: seq<Bytes>) {
    exists i :: 0 <= i < |raw| && |raw[i]| >= MAX_LINE
  }

  function NonEmpty(lines: seq<Bytes>): seq<Bytes> {
    Filter(lines, HasBytes)
  }

  /** bufio.Scanner with ScanLines and a 10 MB buffer, empty lines skipped. */
  function ScannedLines(text: Bytes): Result<seq<Bytes>> {
    var raw := Split(text, NL);
    if TooLong(raw) then Err("failed to scan JSONL")
    else Ok(NonEmpty(DropCRs(raw)))
  }

  /** bytes.Split on newlines, empty lines skipped. */
  function ClientLines(text: Bytes): seq<Bytes> {
    NonEmpty(Split(text, NL))
  }

  lemma ScanOneMore(raw: seq<Bytes>, i: nat)
    requires i < |raw|
    ensures NonEmpty(DropCRs(raw[..i + 1])) ==
            NonEmpty(DropCRs(raw[..i])) + if DropCR(raw[i]) == [] then [] else [DropCR(raw[i])]
  {
    var line := DropCR(raw[i]);
    assert DropCRs(raw[..i + 1]) == DropCRs(raw[..i]) + [line];
    FilterSnoc(DropCRs(raw[..i]), line, HasBytes);
  }

  method DecompressBlocks(w: World, data: Bytes) returns (r: Result<seq<Bytes>>)
    ensures w.dec(data).None? ==> r.Err?
    ensures w.dec(data).Some? ==> r == ScannedLines(w.dec(data).value)
  {
    if w.dec(data).None? {
      return Err("failed to read zstd");
    }
    var raw := Split(w.dec(data).value, NL);
    var blocks: seq<Bytes> := [];
    for i := 0 to |raw|
      invariant !TooLong(raw[..i])
      invariant blocks == NonEmpty(DropCRs(raw[..i]))
    {
      if |raw[i]| >= MAX_LINE {
        return Err("failed to scan JSONL");
      }
      var line := DropCR(raw[i]);
      ScanOneMore(raw, i);
      if |line| != 0 {
        blocks := blocks + [line];
      }
    }
    assert raw[..|raw|] == raw;
    r := Ok(blocks);
  }

  // ----- round trips -----

  lemma {:induction false} SplitJsonl(bs: seq<Bytes>)
    requires forall b :: b in bs ==> NL !in b
    ensures Split(Jsonl(bs), NL) == bs + [[]]
  {
    if bs != [] {
      SplitFirst(bs[0], NL, Jsonl(bs[1..]));
      SplitJsonl(bs[1..]);
    }
  }

  /** The client recovers what was framed exactly when every payload is non-empty and on one line. */
  lemma ClientRoundTrip(bs: seq<Bytes>)
    ensures ClientLines(Jsonl(bs)) == bs <==> forall b :: b in bs ==> Framed(b)
  {
    SplitPiecesLackSeparator(Jsonl(bs), NL);
    if forall b :: b in bs ==> Framed(b) {
      SplitJsonl(bs);
      FilterAppend(bs, [[]], HasBytes);
      FilterAll(bs, HasBytes);
    }
  }

  lemma {:induction false} DropCRsFixpoint(bs: seq<Bytes>)
    requires NonEmpty(DropCRs(bs)) == bs
    ensures forall b :: b in bs ==> DropCR(b) == b
  {
    if bs != [] {
      var tail := DropCRs(bs[1..]);
      assert DropCRs(bs) == [DropCR(bs[0])] + tail;
      FilterAppend([DropCR(bs[0])], tail, HasBytes);
      assert NonEmpty(DropCRs(bs)) == NonEmpty([DropCR(bs[0])]) + NonEmpty(tail);
      assert |NonEmpty(tail)| <= |bs| - 1;
      assert NonEmpty(tail) == bs[1..];
      DropCRsFixpoint(bs[1..]);
    }
  }

  lemma ScannedJsonl(bs: seq<Bytes>)
    requires forall b :: b in bs ==> NL !in b
    ensures ScannedLines(Jsonl(bs)) == if TooLong(bs) then Err("failed to scan JSONL") else Ok(NonEmpty(DropCRs(bs)))
  {
    hide Split, Jsonl, Filter, NonEmpty, TooLong, DropCRs;
    SplitJsonl(bs);
    EmptyLineShort(bs);
    EmptyLineSkipped(bs);
  }

  lemma EmptyLineShort(bs: seq<Bytes>)
    ensures TooLong(bs + [[]]) == TooLong(bs)
  {
    assert forall i :: 0 <= i < |bs| ==> (bs + [[]])[i] == bs[i];
  }

  lemma EmptyLineSkipped(bs: seq<Bytes>)
    ensures NonEmpty(DropCRs(bs + [[]])) == NonEmpty(DropCRs(bs))
  {
    assert DropCRs(bs + [[]]) == DropCRs(bs) + [[]];
    FilterSnoc(DropCRs(bs), [], HasBytes);
  }

  lemma ScannedLinesLackNewline(text: Bytes, bs: seq<Bytes>)
    requires ScannedLines(text) == Ok(bs)
    ensures forall b :: b in bs ==> Framed(b)
  {
    SplitPiecesLackSeparator(text, NL);
    assert forall b :: b in bs ==> b in DropCRs(Split(text, NL));
  }

  /** The store's scanner also needs payloads that do not end in a carriage return and stay below 10 MB. */
  lemma ScannerRoundTrip(bs: seq<Bytes>)
    ensures ScannedLines(Jsonl(bs)) == Ok(bs) <==> forall b :: b in bs ==> Scannable(b)
    ensures (forall b :: b in bs ==> Framed(b) && b[|b| - 1] != CR && |b| < 10_485_760) ==> ScannedLines(Jsonl(bs)) == Ok(bs)
    ensures (exists b :: b in bs && |b| >= 10_485_760) ==> ScannedLines(Jsonl(bs)) != Ok(bs)
  {
    if ScannedLines(Jsonl(bs)) == Ok(bs) {
      ScannedLinesLackNewline(Jsonl(bs), bs);
      ScannedJsonl(bs);
      DropCRsFixpoint(bs);
      forall b | b in bs ensures Scannable(b) {
        var i :| 0 <= i < |bs| && bs[i] == b;
        assert |bs[i]| < MAX_LINE;
      }
    }
    if forall b :: b in bs ==> Scannable(b) {
      ScannedJsonl(bs);
      forall i | 0 <= i < |bs| ensures DropCR(bs[i]) == bs[i] && |bs[i]| < MAX_LINE && bs[i] != [] {
        assert Scannable(bs[i]);
      }
      assert DropCRs(bs) == bs;
      FilterAll(bs, HasBytes);
    }
  }

  /** A one-block live frame and a compacted batch both decode, at the client, to the blocks put into them. */
  lemma FramesDecode(w: World, lo: nat, hi: nat)
    requires w.Faithful() && lo <= hi
    ensures ClientLines(Jsonl(w.Run(lo, hi))) == w.Run(lo, hi)
    ensures hi == lo + 1 ==> Jsonl(w.Run(lo, hi)) == w.chain(lo) + [NL]
  {
    ClientRoundTrip(w.Run(lo, hi));
    if hi == lo + 1 {
      assert w.Run(lo, hi) == [w.chain(lo)];
      assert Jsonl([w.chain(lo)]) == w.chain(lo) + [NL] + Jsonl([w.chain(lo)][1..]);
    }
  }
}
