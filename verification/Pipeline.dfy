/**
 * The ingester (runIngestion in evm-ingestion/main.go) and the compactor working on one durable store,
 * with every store access a step of its own and crashes between any two of them.
 */
module Pipeline {
  import opened Prelude
  import opened Framing
  import opened StoreModel
  import opened Compaction
  import opened Soundness

  // Where runIngestion stands: the three lookups of the resume rule, then the save loop.
  datatype Ingester = SeekBlock | SeekBatch | SeekMeta | Streaming(current: u64)

  /**
   * top, cut and tiled record the run: the greatest height ever saved, the heights 1..cut whose individual
   * copies were deleted, and the heights 1..tiled that batches cover. No step reads them.
   */
  datatype Core = Core(store: Store, pc: Pc, ingester: Ingester, top: int, cut: int, tiled: int)

  datatype CoreLabel =
    | Compactor(step: CompactorLabel)
    | LookBlock(latest: Option<u64>)
    | LookBatch(end: Option<u64>)
    | LookMeta(meta: u64)
    | Deliver(height: u64, ok: bool)   // the stream hands over a block; ok is false when saving it fails
    | StreamEnds
    | Crash

  ghost const INITIAL: Core := Core(EMPTY_STORE, Idle, SeekBlock, 0, 0, 0)

  /**
   * Lookups return what the store holds or, when they fail, that there is nothing; heights stay in the range this
   * model covers.
   */
  ghost predicate Allowed(c: Core, l: CoreLabel) {
    match l
    case Compactor(ReadFirst(r)) => r.None? || IsFirstBlock(c.store, r)
    case Compactor(ReadLatest(r)) => r.None? || IsLastBlock(c.store, r)
    case LookBlock(r) => r.None? || (IsLastBlock(c.store, r) && r.value < TWO64 - 1)
    case LookBatch(r) => r.None? || (IsLastBatch(c.store, r) && r.value < TWO64 - 1)
    case LookMeta(m) => (m == 0 || m == c.store.meta) && m < TWO64 - 1
    case Deliver(height, _) => height <= MAX_HEIGHT
    case _ => true
  }

  /** The ingester's first lookup did not fail. That of the batches and meta may: they matter only to an empty store. */
  ghost predicate Sure(c: Core, l: CoreLabel) {
    l.LookBlock? ==> IsLastBlock(c.store, l.latest)
  }

  ghost function Step(w: World, c: Core, l: CoreLabel): Core
    requires Allowed(c, l)
  {
    match l
    case Compactor(cl) =>
      var (st, pc) := CompactorStep(w, c.store, c.pc, cl);
      var c' := c.(store := st, pc := pc);
      if cl.WriteBatch? && pc.BatchSaved? && c.pc.Packed? then c'.(tiled := BatchEnd(c.pc.start))
      else if cl.WriteDelete? && cl.ok && c.pc.MetaSaved? then c'.(cut := BatchEnd(c.pc.start))
      else c'
    case LookBlock(latest) =>
      if !c.ingester.SeekBlock? then c
      else c.(ingester := if latest.Some? then Streaming(latest.value + 1) else SeekBatch)
    case LookBatch(end) =>
      if !c.ingester.SeekBatch? then c
      else c.(ingester := if end.Some? then Streaming(end.value + 1) else SeekMeta)
    case LookMeta(m) =>
      if !c.ingester.SeekMeta? then c
      else c.(ingester := Streaming(if m > 0 then m + 1 else 1))
    case Deliver(height, ok) =>
      if !c.ingester.Streaming? then c
      else if height != c.ingester.current || !ok then c.(ingester := SeekBlock)
      else c.(store := c.store.SaveBlock(height, w.chain(height)),
              ingester := Streaming(height + 1),
              top := Max(c.top, height))
    case StreamEnds =>
      if c.ingester.Streaming? then c.(ingester := SeekBlock) else c
    case Crash =>
      c.(pc := Idle, ingester := SeekBlock)
  }

  ghost predicate AllowedRun(w: World, c: Core, ls: seq<CoreLabel>)
    decreases ls
  {
    ls == [] || (Allowed(c, ls[0]) && AllowedRun(w, Step(w, c, ls[0]), ls[1..]))
  }

  ghost function Exec(w: World, c: Core, ls: seq<CoreLabel>): Core
    requires AllowedRun(w, c, ls)
    decreases ls
  {
    if ls == [] then c else Exec(w, Step(w, c, ls[0]), ls[1..])
  }

  ghost predicate SureRun(w: World, c: Core, ls: seq<CoreLabel>)
    requires AllowedRun(w, c, ls)
    decreases ls
  {
    ls == [] || (Sure(c, ls[0]) && SureRun(w, Step(w, c, ls[0]), ls[1..]))
  }

  // ----- the invariant that failing lookups cannot break -----

  ghost predicate StartSafe(c: Core, s: u64) {
    s % BATCH_SIZE == 1 && s + BATCH_SIZE - 1 + MIN_BLOCKS <= c.top
  }

  ghost predicate PcSafe(w: World, c: Core) {
    match c.pc
    case Idle => true
    case GotFirst(f) => 1 <= f <= c.top
    case Reading(s, got) => StartSafe(c, s) && |got| <= BATCH_SIZE && got == w.Run(s, s + |got|)
    case Packed(s, data) => StartSafe(c, s) && data == w.BatchBytes(s)
    case BatchSaved(s) => StartSafe(c, s) && HasBatch(c.store, s)
    case MetaSaved(s) => StartSafe(c, s) && HasBatch(c.store, s)
  }

  /** The ingester may have been sent back, but never ahead. */
  ghost predicate Safe(w: World, c: Core) {
    && Sound(w, c.store, c.top) && Cover(c.store, c.top) && PcSafe(w, c)
    && (c.ingester.Streaming? ==> 1 <= c.ingester.current <= c.top + 1)
  }

  lemma LookupSafe(w: World, c: Core, l: CoreLabel)
    requires Safe(w, c) && Allowed(c, l) && (l.Compactor? ==> l.step.ReadFirst? || l.step.ReadLatest?) && !l.Deliver?
    ensures Safe(w, Step(w, c, l))
  {
    hide Gate, Cover, w.BatchBytes;
    MetaBelow(w, c.store, c.top);
    match l
    case Compactor(ReadLatest(r)) =>
      if c.pc.GotFirst? && r.Some? && Gate(c.pc.first, r.value).Some? {
        LatestIsTop(w, c, r.value);
        GatePicks(c.pc.first, r.value, Gate(c.pc.first, r.value).value);
      }
    case LookBlock(r) => if r.Some? { LatestIsTop(w, c, r.value); }
    case _ =>
  }

  lemma LatestIsTop(w: World, c: Core, n: u64)
    requires Safe(w, c) && IsLastBlock(c.store, Some(n))
    ensures n == c.top
  {
    var top: u64 := c.top;
    assert top in c.store.blocks;
  }

  lemma DeliverSafe(w: World, c: Core, height: u64, ok: bool)
    requires Safe(w, c) && Allowed(c, Deliver(height, ok))
    ensures Safe(w, Step(w, c, Deliver(height, ok)))
  {
    hide Sound, Cover, w.BatchBytes, HasBatch;
    if c.ingester == Streaming(height) && ok {
      GrowthCovers(c.store, c.top, height, w.chain(height), (1, 1), 1);
      KeepsBatches(c.store, height, w.chain(height));
      if height <= c.top {
        ResaveSound(w, c.store, c.top, height);
      } else {
        SaveSound(w, c.store, c.top);
      }
    }
  }

  lemma KeepsBatches(st: Store, n: u64, data: Bytes)
    ensures forall s: u64 :: HasBatch(st.SaveBlock(n, data), s) <==> HasBatch(st, s)
  {
  }

  lemma CompactorSafe(w: World, c: Core, l: CompactorLabel)
    requires Safe(w, c) && !l.ReadFirst? && !l.ReadLatest?
    ensures Safe(w, Step(w, c, Compactor(l)))
  {
    hide Sound, Cover, w.BatchBytes;
    match l
    case ReadBlock(ok) => ReadSafe(w, c, ok);
    case Compress(ok) => CompressSafe(w, c, ok);
    case WriteBatch(ok) =>
      if c.pc.Packed? {
        BatchSound(w, c.store, c.top, c.pc.start);
        GrowthCovers(c.store, c.top, 1, c.pc.data, (c.pc.start, BatchEnd(c.pc.start)), 1);
      }
    case WriteMeta(ok) =>
      if c.pc.BatchSaved? {
        BatchSound(w, c.store, c.top, c.pc.start);
        GrowthCovers(c.store, c.top, 1, [], (1, 1), BatchEnd(c.pc.start));
      }
    case WriteDelete(ok) =>
      if c.pc.MetaSaved? {
        DeleteSound(w, c.store, c.top, c.pc.start);
        DeleteCovers(w, c.store, c.top, c.pc.start);
      }
  }

  lemma ReadSafe(w: World, c: Core, ok: bool)
    requires Safe(w, c)
    ensures Safe(w, Step(w, c, Compactor(ReadBlock(ok))))
  {
    hide Sound, Cover;
    MetaBelow(w, c.store, c.top);
    if c.pc.Reading? && |c.pc.got| < BATCH_SIZE {
      var s, k := c.pc.start, |c.pc.got|;
      assert w.Run(s, s + k + 1) == w.Run(s, s + k) + [w.chain(s + k)];
      ReadsTrue(w, c.store, c.top, NextRead(s, c.pc.got));
    }
  }

  lemma CompressSafe(w: World, c: Core, ok: bool)
    requires Safe(w, c)
    ensures Safe(w, Step(w, c, Compactor(Compress(ok))))
  {
    hide Sound, Cover;
  }

  lemma StepSafe(w: World, c: Core, l: CoreLabel)
    requires Safe(w, c) && Allowed(c, l)
    ensures Safe(w, Step(w, c, l)) && Step(w, c, l).top >= c.top
    ensures forall s: u64 :: HasBatch(c.store, s) ==> HasBatch(Step(w, c, l).store, s)
  {
    hide Safe, Allowed, Gate;
    match l
    case Deliver(height, ok) => DeliverSafe(w, c, height, ok);
    case Compactor(cl) => if cl.ReadFirst? || cl.ReadLatest? { LookupSafe(w, c, l); } else { CompactorSafe(w, c, cl); }
    case _ => LookupSafe(w, c, l);
  }

  lemma {:induction false} RunSafe(w: World, c: Core, ls: seq<CoreLabel>)
    requires Safe(w, c) && AllowedRun(w, c, ls)
    ensures Safe(w, Exec(w, c, ls)) && Exec(w, c, ls).top >= c.top
    decreases ls
  {
    hide Safe, Allowed, Step, HasBatch;
    if ls != [] {
      StepSafe(w, c, ls[0]);
      RunSafe(w, Step(w, c, ls[0]), ls[1..]);
    }
  }

  lemma InitialSafe(w: World)
    ensures Safe(w, INITIAL)
  {
  }

  /** After every prefix of every run, every height ever saved is readable with its exact bytes. */
  lemma EveryRunIsCovered(w: World, ls: seq<CoreLabel>)
    requires w.Faithful() && AllowedRun(w, INITIAL, ls)
    ensures Covered(w, Exec(w, INITIAL, ls).store, Exec(w, INITIAL, ls).top)
    ensures Truthful(w, Exec(w, INITIAL, ls).store)
  {
    InitialSafe(w);
    RunSafe(w, INITIAL, ls);
    var c := Exec(w, INITIAL, ls);
    CoverIsReadable(w, c.store, c.top);
    SoundIsTruthful(w, c.store, c.top);
  }

  lemma SoundIsTruthful(w: World, st: Store, top: int)
    requires Sound(w, st, top)
    ensures Truthful(w, st)
  {
    hide TrueBatch;
  }

  /** A successful save makes a height readable for good, whatever runs afterwards. */
  lemma SavedStaysReadable(w: World, before: seq<CoreLabel>, height: u64, after: seq<CoreLabel>)
    requires w.Faithful() && AllowedRun(w, INITIAL, before)
    requires var c := Exec(w, INITIAL, before);
             && c.ingester == Streaming(height) && Allowed(c, Deliver(height, true))
             && AllowedRun(w, Step(w, c, Deliver(height, true)), after)
    ensures var c := Exec(w, INITIAL, before);
            Readable(w, Exec(w, Step(w, c, Deliver(height, true)), after).store, height, w.chain(height))
  {
    hide Sound, Cover, PcSafe, HasBatch, Readable;
    InitialSafe(w);
    RunSafe(w, INITIAL, before);
    var c := Exec(w, INITIAL, before);
    var c' := Step(w, c, Deliver(height, true));
    StepSafe(w, c, Deliver(height, true));
    RunSafe(w, c', after);
    var z := Exec(w, c', after);
    CoverIsReadable(w, z.store, z.top);
  }

  // ----- the shape of the store, and the one thing that breaks it -----

  /**
   * The shape of the store: individual blocks are one interval cut+1..top, batches tile 1..tiled in aligned
   * hundreds, tiled runs ahead of cut by at most one batch, meta is one of the two, and 1000 individual
   * blocks stay above the last batch.
   */
  ghost predicate Shape(w: World, st: Store, top: int, cut: int, tiled: int) {
    && 0 <= cut <= tiled <= top <= MAX_HEIGHT
    && cut % BATCH_SIZE == 0
    && (tiled == cut || tiled == cut + BATCH_SIZE)
    && (tiled > 0 ==> tiled + MIN_BLOCKS <= top)
    && (st.meta == cut || st.meta == tiled)
    && BlockInterval(w, st.blocks, cut, top)
    && BatchTiling(w, st.batches, tiled)
  }

  ghost predicate BlockInterval(w: World, blocks: imap<u64, Bytes>, cut: int, top: int) {
    && (forall n: u64 :: n in blocks <==> cut < n <= top)
    && (forall n: u64 :: n in blocks ==> blocks[n] == w.chain(n))
  }

  ghost predicate BatchTiling(w: World, batches: imap<(u64, u64), Bytes>, tiled: int) {
    && (forall p: (u64, u64) :: p in batches <==> Tile(p, tiled))
    && (forall p: (u64, u64) :: p in batches ==> batches[p] == w.BatchBytes(p.0))
  }

  predicate Tile(p: (u64, u64), tiled: int) {
    p.0 % BATCH_SIZE == 1 && p.1 == p.0 + BATCH_SIZE - 1 && p.1 <= tiled
  }

  ghost predicate PcFits(w: World, c: Core) {
    match c.pc
    case Idle => true
    case GotFirst(f) => f == c.cut + 1 <= c.top
    case Reading(s, got) =>
      && s == c.cut + 1
      && s + BATCH_SIZE - 1 + MIN_BLOCKS <= c.top
      && |got| <= BATCH_SIZE
      && got == w.Run(s, s + |got|)
    case Packed(s, data) =>
      s == c.cut + 1 && s + BATCH_SIZE - 1 + MIN_BLOCKS <= c.top && data == w.BatchBytes(s)
    case BatchSaved(s) => s == c.cut + 1 && c.tiled == c.cut + BATCH_SIZE
    case MetaSaved(s) => s == c.cut + 1 && c.tiled == c.cut + BATCH_SIZE && c.store.meta == c.tiled
  }

  ghost predicate Inv(w: World, c: Core) {
    && Shape(w, c.store, c.top, c.cut, c.tiled) && PcFits(w, c)
    && (c.ingester.Streaming? ==> 1 <= c.ingester.current <= c.top + 1)
  }

  /** A save of a height below the first individual block. */
  ghost predicate LowSave(c: Core, l: CoreLabel) {
    l.Deliver? && l.ok && c.ingester == Streaming(l.height) && BelowFirst(c.store, l.height)
  }

  ghost predicate BelowFirst(st: Store, height: u64) {
    exists first: u64 :: IsFirstBlock(st, Some(first)) && height < first
  }

  ghost predicate NoLowSave(w: World, c: Core, ls: seq<CoreLabel>)
    requires AllowedRun(w, c, ls)
    decreases ls
  {
    ls == [] || (!LowSave(c, ls[0]) && NoLowSave(w, Step(w, c, ls[0]), ls[1..]))
  }

  ghost predicate Shaped(w: World, st: Store) {
    exists top: int, cut: int, tiled: int :: Shape(w, st, top, cut, tiled)
  }

  /** The store has its shape in every state of the run. */
  ghost predicate AlwaysShaped(w: World, c: Core, ls: seq<CoreLabel>)
    requires AllowedRun(w, c, ls)
    decreases ls
  {
    Shaped(w, c.store) && (ls == [] || AlwaysShaped(w, Step(w, c, ls[0]), ls[1..]))
  }

  // ----- every step keeps it -----

  lemma FirstIsCut(w: World, c: Core, r: Option<u64>)
    requires Inv(w, c) && IsFirstBlock(c.store, r)
    ensures r == if c.top == 0 then None else Some(c.cut + 1)
  {
    if c.top > 0 {
      var n: u64 := c.cut + 1;
      assert n in c.store.blocks;
    }
  }

  lemma LastIsTop(w: World, c: Core, r: Option<u64>)
    requires Inv(w, c) && IsLastBlock(c.store, r)
    ensures r == if c.top == 0 then None else Some(c.top)
  {
    if c.top > 0 {
      var n: u64 := c.top;
      assert n in c.store.blocks;
    }
  }

  lemma NextTile(p: (u64, u64), s: u64)
    requires s % BATCH_SIZE == 1 && s + BATCH_SIZE <= MAX_HEIGHT
    ensures Tile(p, s + BATCH_SIZE - 1) <==> Tile(p, s - 1) || p == (s, BatchEnd(s))
  {
    if Tile(p, s + BATCH_SIZE - 1) && p.0 > s - BATCH_SIZE {
      var k := (s - 1) / BATCH_SIZE - (p.0 - 1) / BATCH_SIZE;
      assert s - p.0 == BATCH_SIZE * k;
    }
  }

  lemma TilingGrows(w: World, batches: imap<(u64, u64), Bytes>, tiled: int, s: u64)
    requires BatchTiling(w, batches, tiled) && s % BATCH_SIZE == 1 && s + BATCH_SIZE <= MAX_HEIGHT
    requires tiled == s - 1 || tiled == s + BATCH_SIZE - 1
    ensures BatchTiling(w, batches[(s, BatchEnd(s)) := w.BatchBytes(s)], s + BATCH_SIZE - 1)
  {
    forall p: (u64, u64) ensures Tile(p, s + BATCH_SIZE - 1) <==> Tile(p, tiled) || p == (s, BatchEnd(s)) {
      NextTile(p, s);
    }
  }

  lemma IntervalShrinks(w: World, st: Store, cut: int, top: int, s: u64)
    requires BlockInterval(w, st.blocks, cut, top) && s == cut + 1 && s + BATCH_SIZE <= top <= MAX_HEIGHT
    ensures BlockInterval(w, st.DeleteBlocks(s, BatchEnd(s)).blocks, cut + BATCH_SIZE, top)
  {
  }

  lemma IntervalGrows(w: World, blocks: imap<u64, Bytes>, cut: int, top: int)
    requires BlockInterval(w, blocks, cut, top) && 0 <= cut <= top < MAX_HEIGHT
    ensures BlockInterval(w, blocks[top + 1 := w.chain(top + 1)], cut, top + 1)
  {
  }

  lemma ReadsChain(w: World, st: Store, cut: int, top: int, s: u64, got: seq<Bytes>)
    requires BlockInterval(w, st.blocks, cut, top) && top <= MAX_HEIGHT
    requires s == cut + 1 && s + |got| <= top && got == w.Run(s, s + |got|)
    ensures st.GetBlock(NextRead(s, got)) == Some(w.chain(s + |got|))
    ensures got + [w.chain(s + |got|)] == w.Run(s, s + |got| + 1)
  {
    var n: u64 := s + |got|;
    assert n in st.blocks;
  }

  lemma SaveBatchShape(w: World, st: Store, top: int, cut: int, tiled: int, s: u64)
    requires Shape(w, st, top, cut, tiled) && s == cut + 1 && s + BATCH_SIZE - 1 + MIN_BLOCKS <= top
    ensures Shape(w, st.SaveBatch(s, BatchEnd(s), w.BatchBytes(s)), top, cut, cut + BATCH_SIZE)
  {
    hide BlockInterval, BatchTiling;
    TilingGrows(w, st.batches, tiled, s);
  }

  lemma SaveMetaShape(w: World, st: Store, top: int, cut: int, tiled: int)
    requires Shape(w, st, top, cut, tiled)
    ensures Shape(w, st.SaveMeta(tiled), top, cut, tiled)
  {
  }

  lemma DeleteShape(w: World, st: Store, top: int, cut: int, s: u64)
    requires Shape(w, st, top, cut, cut + BATCH_SIZE) && st.meta == cut + BATCH_SIZE && s == cut + 1
    ensures Shape(w, st.DeleteBlocks(s, BatchEnd(s)), top, cut + BATCH_SIZE, cut + BATCH_SIZE)
  {
    hide BlockInterval, BatchTiling;
    IntervalShrinks(w, st, cut, top, s);
  }

  lemma LookupKeeps(w: World, c: Core, l: CompactorLabel)
    requires Inv(w, c) && Allowed(c, Compactor(l)) && (l.ReadFirst? || l.ReadLatest?)
    ensures Inv(w, Step(w, c, Compactor(l)))
  {
    hide BlockInterval, BatchTiling, w.BatchBytes;
    match l
    case ReadFirst(r) => if r.Some? { FirstIsCut(w, c, r); }
    case ReadLatest(r) =>
      if r.Some? { LastIsTop(w, c, r); }
      if c.pc.GotFirst? && r.Some? { GatesAgree(c.pc.first, r.value); }
  }

  lemma ReadKeeps(w: World, c: Core, ok: bool)
    requires Inv(w, c)
    ensures Inv(w, Step(w, c, Compactor(ReadBlock(ok))))
    ensures Inv(w, Step(w, c, Compactor(Compress(ok))))
  {
    hide BlockInterval, BatchTiling;
    if c.pc.Reading? && |c.pc.got| < BATCH_SIZE {
      ReadsChain(w, c.store, c.cut, c.top, c.pc.start, c.pc.got);
    }
  }

  lemma WriteBatchKeeps(w: World, c: Core, ok: bool)
    requires Inv(w, c)
    ensures Inv(w, Step(w, c, Compactor(WriteBatch(ok))))
  {
    hide BlockInterval, BatchTiling;
    if c.pc.Packed? { SaveBatchShape(w, c.store, c.top, c.cut, c.tiled, c.pc.start); }
  }

  lemma WriteMetaKeeps(w: World, c: Core, ok: bool)
    requires Inv(w, c)
    ensures Inv(w, Step(w, c, Compactor(WriteMeta(ok))))
  {
    hide BlockInterval, BatchTiling;
    SaveMetaShape(w, c.store, c.top, c.cut, c.tiled);
  }

  lemma WriteDeleteKeeps(w: World, c: Core, ok: bool)
    requires Inv(w, c)
    ensures Inv(w, Step(w, c, Compactor(WriteDelete(ok))))
  {
    hide BlockInterval, BatchTiling;
    if c.pc.MetaSaved? { DeleteShape(w, c.store, c.top, c.cut, c.pc.start); }
  }

  lemma CompactorKeeps(w: World, c: Core, l: CompactorLabel)
    requires Inv(w, c) && Allowed(c, Compactor(l))
    ensures Inv(w, Step(w, c, Compactor(l)))
  {
    match l
    case ReadFirst(r) => LookupKeeps(w, c, l);
    case ReadLatest(r) => LookupKeeps(w, c, l);
    case ReadBlock(ok) => ReadKeeps(w, c, ok);
    case Compress(ok) => ReadKeeps(w, c, ok);
    case WriteBatch(ok) => WriteBatchKeeps(w, c, ok);
    case WriteMeta(ok) => WriteMetaKeeps(w, c, ok);
    case WriteDelete(ok) => WriteDeleteKeeps(w, c, ok);
  }

  lemma LowIsBelowCut(w: World, c: Core, height: u64)
    requires Inv(w, c)
    ensures BelowFirst(c.store, height) <==> c.top > 0 && height <= c.cut
  {
    hide BatchTiling;
    if c.top > 0 {
      var first: u64 := c.cut + 1;
      assert first in c.store.blocks && IsFirstBlock(c.store, Some(first));
    }
  }

  lemma AgainIsSame(w: World, c: Core, height: u64)
    requires Inv(w, c) && c.cut < height <= c.top
    ensures c.store.SaveBlock(height, w.chain(height)) == c.store
  {
    hide BatchTiling;
    assert height in c.store.blocks;
  }

  lemma DeliverKeeps(w: World, c: Core, height: u64, ok: bool)
    requires Inv(w, c) && Allowed(c, Deliver(height, ok)) && !LowSave(c, Deliver(height, ok))
    ensures Inv(w, Step(w, c, Deliver(height, ok)))
  {
    hide BlockInterval, BatchTiling, BelowFirst;
    if c.ingester == Streaming(height) && ok {
      LowIsBelowCut(w, c, height);
      if height <= c.top {
        AgainIsSame(w, c, height);
      } else {
        IntervalGrows(w, c.store.blocks, c.cut, c.top);
      }
    }
  }

  lemma LastBatchIsTiled(w: World, c: Core, e: u64)
    requires Inv(w, c) && IsLastBatch(c.store, Some(e))
    ensures 0 <= e <= c.tiled
  {
    var s: u64 :| (s, e) in c.store.batches;
    assert Tile((s, e), c.tiled);
  }

  lemma IngesterKeeps(w: World, c: Core, l: CoreLabel)
    requires Inv(w, c) && Allowed(c, l) && !l.Compactor? && !LowSave(c, l)
    ensures Inv(w, Step(w, c, l))
  {
    hide BlockInterval, BatchTiling, IsLastBlock, IsLastBatch, LowSave;
    match l
    case LookBlock(r) => if r.Some? { LastIsTop(w, c, r); }
    case LookBatch(r) => if r.Some? { LastBatchIsTiled(w, c, r.value); }
    case Deliver(height, ok) => DeliverKeeps(w, c, height, ok);
    case _ =>
  }

  /** Every step but a low save keeps the invariant, whichever lookups fail. */
  lemma StepKeeps(w: World, c: Core, l: CoreLabel)
    requires w.Faithful() && Inv(w, c) && Allowed(c, l) && !LowSave(c, l)
    ensures Inv(w, Step(w, c, l)) && Step(w, c, l).top >= c.top && Step(w, c, l).tiled >= c.tiled
  {
    hide BlockInterval, BatchTiling, Gate, LowSave;
    if l.Compactor? { CompactorKeeps(w, c, l.step); } else { IngesterKeeps(w, c, l); }
  }

  /** After a low save the individual blocks are not an interval that begins above whole batches. */
  lemma LowSaveBreaks(w: World, c: Core, l: CoreLabel)
    requires Inv(w, c) && Allowed(c, l) && LowSave(c, l)
    ensures !Shaped(w, Step(w, c, l).store)
  {
    hide BatchTiling, w.BatchBytes, BelowFirst;
    LowIsBelowCut(w, c, l.height);
    var st := Step(w, c, l).store;
    var h: u64, edge: u64, before: u64, last: u64 := l.height, c.cut, c.cut - 1, c.top;
    assert h in st.blocks && last in st.blocks;
    assert h == edge || edge !in st.blocks;
    assert h == edge ==> before !in st.blocks;
    forall top: int, cut: int, tiled: int ensures !Shape(w, st, top, cut, tiled) {
    }
  }

  lemma {:induction false} RunKeeps(w: World, c: Core, ls: seq<CoreLabel>)
    requires w.Faithful() && Inv(w, c) && AllowedRun(w, c, ls) && NoLowSave(w, c, ls)
    ensures Inv(w, Exec(w, c, ls)) && Exec(w, c, ls).top >= c.top && Exec(w, c, ls).tiled >= c.tiled
    decreases ls
  {
    hide Inv, Step, Allowed, LowSave, w.Faithful;
    if ls != [] {
      StepKeeps(w, c, ls[0]);
      RunKeeps(w, Step(w, c, ls[0]), ls[1..]);
    }
  }

  lemma {:induction false} ShapedExactly(w: World, c: Core, ls: seq<CoreLabel>)
    requires w.Faithful() && Inv(w, c) && AllowedRun(w, c, ls)
    ensures AlwaysShaped(w, c, ls) <==> NoLowSave(w, c, ls)
    decreases ls
  {
    hide Shape, PcFits, Step, Allowed, LowSave, Shaped, w.Faithful;
    assert Shaped(w, c.store) by { InvIsShaped(w, c); }
    if ls != [] {
      if LowSave(c, ls[0]) {
        LowSaveBreaks(w, c, ls[0]);
      } else {
        StepKeeps(w, c, ls[0]);
        ShapedExactly(w, Step(w, c, ls[0]), ls[1..]);
      }
    }
  }

  lemma InvIsShaped(w: World, c: Core)
    requires Inv(w, c)
    ensures Shaped(w, c.store)
  {
    hide Shape, PcFits;
  }

  // ----- runs in which the first lookup does not fail -----

  /** Where the ingester then stands: nothing is saved twice. */
  ghost predicate IngesterFits(c: Core) {
    match c.ingester
    case SeekBlock => true
    case SeekBatch => c.top == 0
    case SeekMeta => c.top == 0
    case Streaming(current) => current == c.top + 1
  }

  lemma SureStepFits(w: World, c: Core, l: CoreLabel)
    requires Inv(w, c) && IngesterFits(c) && Allowed(c, l) && Sure(c, l)
    ensures !LowSave(c, l) && IngesterFits(Step(w, c, l))
  {
    hide PcFits, BlockInterval, BatchTiling, BelowFirst, w.BatchBytes;
    match l
    case LookBlock(r) => LastIsTop(w, c, r);
    case LookBatch(r) => if r.Some? { LastBatchIsTiled(w, c, r.value); }
    case Deliver(height, ok) => LowIsBelowCut(w, c, height);
    case _ =>
  }

  lemma {:induction false} SureRunFits(w: World, c: Core, ls: seq<CoreLabel>)
    requires w.Faithful() && Inv(w, c) && IngesterFits(c) && AllowedRun(w, c, ls) && SureRun(w, c, ls)
    ensures NoLowSave(w, c, ls) && Inv(w, Exec(w, c, ls)) && IngesterFits(Exec(w, c, ls))
    decreases ls
  {
    hide Inv, IngesterFits, Step, Allowed, Sure, LowSave, w.Faithful;
    if ls != [] {
      SureStepFits(w, c, ls[0]);
      StepKeeps(w, c, ls[0]);
      SureRunFits(w, Step(w, c, ls[0]), ls[1..]);
    }
  }

  lemma InitialInv(w: World)
    ensures Inv(w, INITIAL)
  {
  }

  // ----- what follows for every run from the empty store -----

  lemma TileOf(cut: int, tiled: int, n: u64)
    requires 1 <= n <= cut <= tiled <= MAX_HEIGHT && cut % BATCH_SIZE == 0
    ensures Tile((BatchStart(n), BatchEnd(BatchStart(n))), tiled)
  {
  }

  lemma ShapeReads(w: World, st: Store, top: int, cut: int, tiled: int, n: u64)
    requires w.Faithful() && Shape(w, st, top, cut, tiled) && 1 <= n <= top
    ensures Readable(w, st, n, w.chain(n))
  {
    hide w.BatchBytes, w.Faithful, InBatch, BatchStart, Tile;
    if n > cut {
      assert n in st.blocks;
    } else {
      TileOf(cut, tiled, n);
      var p := (BatchStart(n), BatchEnd(BatchStart(n)));
      assert p in st.batches && st.batches[p] == w.BatchBytes(p.0);
      TrueBatchIsReadable(w, st, n);
    }
  }

  lemma ShapeCovers(w: World, st: Store, top: int, cut: int, tiled: int)
    requires w.Faithful() && Shape(w, st, top, cut, tiled)
    ensures Covered(w, st, top) && Truthful(w, st)
  {
    hide w.BatchBytes, Readable;
    forall n: u64 | 1 <= n <= top ensures Readable(w, st, n, w.chain(n)) {
      ShapeReads(w, st, top, cut, tiled, n);
    }
    forall p | p in st.batches ensures TrueBatch(w, p, st.batches[p]) {
      assert Tile(p, tiled);
    }
  }

  /**
   * Individual blocks are an interval, batches tile, meta lags by at most one batch and a compacted store keeps 1000
   * individual blocks: in every state of a run if and only if no save in it is low.
   */
  lemma EveryRunKeepsShape(w: World, ls: seq<CoreLabel>)
    requires w.Faithful() && AllowedRun(w, INITIAL, ls)
    ensures AlwaysShaped(w, INITIAL, ls) <==> NoLowSave(w, INITIAL, ls)
    ensures NoLowSave(w, INITIAL, ls) ==>
              var c := Exec(w, INITIAL, ls); Shape(w, c.store, c.top, c.cut, c.tiled)
    ensures SureRun(w, INITIAL, ls) ==> NoLowSave(w, INITIAL, ls)
  {
    InitialInv(w);
    ShapedExactly(w, INITIAL, ls);
    if NoLowSave(w, INITIAL, ls) {
      RunKeeps(w, INITIAL, ls);
    }
    if SureRun(w, INITIAL, ls) {
      SureRunFits(w, INITIAL, ls);
    }
  }

  /** runIngestion's resume rule: individual blocks, else batches, else meta, else block 1. */
  function ResumeAt(latest: Option<u64>, batchEnd: Option<u64>, meta: u64): int {
    if latest.Some? then latest.value + 1
    else if batchEnd.Some? then batchEnd.value + 1
    else if meta > 0 then meta + 1
    else 1
  }

  /**
   * Whatever failed, restarted or crashed before, and whichever of the three lookups fail, the rule yields at most one
   * plus the highest height saved; it yields exactly that if and only if the first lookup tells the truth.
   */
  lemma ResumesExactly(w: World, ls: seq<CoreLabel>, latest: Option<u64>, batchEnd: Option<u64>, meta: u64)
    requires AllowedRun(w, INITIAL, ls)
    requires var c := Exec(w, INITIAL, ls);
             Allowed(c, LookBlock(latest)) && Allowed(c, LookBatch(batchEnd)) && Allowed(c, LookMeta(meta))
    ensures var c := Exec(w, INITIAL, ls);
            && 1 <= ResumeAt(latest, batchEnd, meta) <= c.top + 1
            && (ResumeAt(latest, batchEnd, meta) == c.top + 1 <==> IsLastBlock(c.store, latest))
            && (latest.None? && batchEnd.Some? ==> ResumeAt(latest, batchEnd, meta) == batchEnd.value + 1)
            && (latest.None? && batchEnd.None? ==> ResumeAt(latest, batchEnd, meta) == meta + 1)
  {
    InitialSafe(w);
    RunSafe(w, INITIAL, ls);
    var c := Exec(w, INITIAL, ls);
    hide Cover, PcSafe, w.BatchBytes;
    if latest.Some? { LatestIsTop(w, c, latest.value); }
    TopIsLast(w, c.store, c.top);
    MetaBelow(w, c.store, c.top);
  }

  /**
   * After a crash at any point nothing is left of what was in memory and the store is as it was; the three lookups, taken
   * in turn, then start the stream where the rule says, so with truthful ones at the height after the greatest saved.
   */
  lemma RestartResumes(w: World, ls: seq<CoreLabel>, latest: Option<u64>, batchEnd: Option<u64>, meta: u64)
    requires AllowedRun(w, INITIAL, ls)
    requires var c := Exec(w, INITIAL, ls);
             Allowed(c, LookBlock(latest)) && Allowed(c, LookBatch(batchEnd)) && Allowed(c, LookMeta(meta))
    ensures var c := Exec(w, INITIAL, ls);
            var z := Step(w, Step(w, Step(w, Step(w, c, Crash), LookBlock(latest)), LookBatch(batchEnd)), LookMeta(meta));
            && z == c.(pc := Idle, ingester := Streaming(ResumeAt(latest, batchEnd, meta)))
            && (IsLastBlock(c.store, latest) <==> z.ingester == Streaming(Wrap(c.top + 1)))
  {
    hide Step, Allowed, AllowedRun, Exec, IsLastBlock, ResumeAt, Safe;
    ResumesExactly(w, ls, latest, batchEnd, meta);
    var c := Exec(w, INITIAL, ls);
    TopFits(w, ls);
    RestartSteps(w, c, latest, batchEnd, meta);
  }

  lemma TopFits(w: World, ls: seq<CoreLabel>)
    requires AllowedRun(w, INITIAL, ls)
    ensures Exec(w, INITIAL, ls).top + 1 < TWO64
  {
    hide Cover, PcSafe, w.BatchBytes;
    InitialSafe(w);
    RunSafe(w, INITIAL, ls);
  }

  lemma RestartSteps(w: World, c: Core, latest: Option<u64>, batchEnd: Option<u64>, meta: u64)
    requires Allowed(c, LookBlock(latest)) && Allowed(c, LookBatch(batchEnd)) && Allowed(c, LookMeta(meta))
    requires 0 <= ResumeAt(latest, batchEnd, meta) < TWO64
    ensures Step(w, Step(w, Step(w, Step(w, c, Crash), LookBlock(latest)), LookBatch(batchEnd)), LookMeta(meta)) ==
            c.(pc := Idle, ingester := Streaming(ResumeAt(latest, batchEnd, meta)))
  {
    hide IsLastBlock, IsLastBatch;
  }

  /** What interrupts the save loop: the end of the stream, a height out of order, a save that fails, a crash. */
  predicate Interrupts(c: Core, l: CoreLabel) {
    && c.ingester.Streaming?
    && (l.StreamEnds? || l.Crash? || (l.Deliver? && (l.height != c.ingester.current || !l.ok)))
  }

  /** Every interruption, and nothing else, sends a streaming ingester back to its lookups; nothing is saved by it. */
  lemma InterruptedExactly(w: World, c: Core, l: CoreLabel)
    requires c.ingester.Streaming? && Allowed(c, l)
    ensures Step(w, c, l).ingester.SeekBlock? <==> Interrupts(c, l)
    ensures Interrupts(c, l) ==> Step(w, c, l).store == c.store
  {
  }

  /** No save is ahead of the chain saved so far, and none changes what is stored for a height. */
  lemma SavesAreNotAhead(w: World, ls: seq<CoreLabel>, height: u64)
    requires AllowedRun(w, INITIAL, ls) && Allowed(Exec(w, INITIAL, ls), Deliver(height, true))
    requires Exec(w, INITIAL, ls).ingester == Streaming(height)
    ensures var c := Exec(w, INITIAL, ls);
            && 1 <= height <= c.top + 1
            && forall n :: n in c.store.blocks ==> Step(w, c, Deliver(height, true)).store.GetBlock(n) == c.store.GetBlock(n)
  {
    InitialSafe(w);
    RunSafe(w, INITIAL, ls);
  }

  /** The three lookups may be separated by other steps; the save loop still starts at, and only saves, top + 1. */
  lemma SavesAreConsecutive(w: World, ls: seq<CoreLabel>, l: CoreLabel)
    requires w.Faithful() && AllowedRun(w, INITIAL, ls) && SureRun(w, INITIAL, ls) && Allowed(Exec(w, INITIAL, ls), l)
    ensures var c := Exec(w, INITIAL, ls);
            && (c.ingester.Streaming? ==> c.ingester.current == c.top + 1)
            && (l.Deliver? && Step(w, c, l).store != c.store ==> l.height == c.top + 1 && l.ok)
            && (l.Deliver? && l.ok && c.ingester == Streaming(l.height) ==> Step(w, c, l).top == c.top + 1)
  {
    InitialInv(w);
    SureRunFits(w, INITIAL, ls);
  }
}
