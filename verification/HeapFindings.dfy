/** Short runs of the heap that end in the states which the exact conditions elsewhere describe. */
module HeapFindings {
  import opened Bits
  import opened Layout
  import opened Rings
  import opened HeapIndex
  import opened Tiling
  import opened Bookkeeping
  import opened Sums
  import opened ZendHeap

  /** A free block is at most as large as all segments together. */
  lemma FreeWithinTotal(h: Heap, a: nat)
    requires h.Core({}) && h.index.Holds(a)
    ensures a in h.m.size && h.m.size[a].size <= h.m.realSize
  {
    var b := BooksOf(h.m, h.k, h.index.g.home.Keys + {});
    assert b.Owns(a);
    Entry(b, h.m.segs, a);
    Entry(b, h.m.segs, a + h.m.size[a].size);
    var j :| 0 <= j < |h.m.segs| && h.m.segs[j] == h.k.seg[a];
    TotalAt(h.m.segs, j);
  }

  /** A request for nearly the whole address space. */
  const HUGE := WORD - 64

  lemma HugeWraps(m: Mem, blockSize: nat)
    requires Granularity(blockSize)
    ensures BlockSize(TrueSize(HUGE)) && HUGE <= TrueSize(HUGE)
    ensures blockSize > 0 && OverLimit(m, blockSize, TrueSize(HUGE))
  {
    TrueSizeCoversOrIsCaught(HUGE);
    GranularityBounds(blockSize);
    SegmentSizeSufficesOrIsCaught(TrueSize(HUGE), blockSize);
  }

  lemma NoneAbove(h: Heap, ts: nat)
    requires h.Core({}) && BlockSize(ts) && !IsSmall(ts) && h.m.realSize < ts
    ensures h.Unservable(ts)
  {
    forall a ensures !LargeFits(h.index.g, h.m.size, ts, a) && !RestFits(h.index.g, h.m.size, ts, a) {
      if h.index.Holds(a) { FreeWithinTotal(h, a); }
    }
  }

  /** No heap within 2^62 bytes can serve it, and no limit allows a segment for it. */
  lemma HugeIsRefused(h: Heap)
    requires h.Core({}) && h.m.realSize <= Pow2(62)
    ensures BlockSize(TrueSize(HUGE)) && HUGE <= TrueSize(HUGE) && h.Unservable(TrueSize(HUGE))
    ensures h.blockSize > 0 && OverLimit(h.m, h.blockSize, TrueSize(HUGE))
  {
    HugeWraps(h.m, h.blockSize);
    Pow2Word();
    assert Pow2(64) == 2 * Pow2(63) && Pow2(63) == 2 * Pow2(62);
    NoneAbove(h, TrueSize(HUGE));
  }

  /** After a request that is refused, the usage that is reported is too high by all that was cached. */
  method RefusedUsage(h: Heap) returns (refused: Outcome, usage: nat)
    requires h.Core({}) && Excess(h.m, h.k) == 0 && h.m.realSize <= Pow2(62)
    modifies h`m, h`k, h`mem, h.index
    ensures refused == LimitExceeded && h.k.live == old(h.k).live && usage == Sum(h.k.live) + old(h.m).cached
  {
    HugeIsRefused(h);
    refused := h.Alloc(HUGE);
    usage := h.Usage();
  }

  /** The only block in use is `a`, a small one, and nothing is cached. */
  ghost predicate OnlyBlock(m: Mem, k: Ledger, a: nat) {
    && k.live.Keys == {a} && MIN_BLOCK <= k.live[a] < 2 * MIN_BLOCK && k.cach == map[]
    && Excess(m, k) == 0 && m.realSize <= Pow2(62)
  }

  lemma FirstHanded(m: Mem, k: Ledger, m': Mem, k': Ledger, a: nat)
    requires k.live == map[] && k.cach == map[] && Excess(m, k) == 0 && m.realSize == 0 && m.limit == Pow2(62)
    requires Handed(m, k, m', k', a, 8) && Snug(k', a, TrueSize(8))
    ensures OnlyBlock(m', k', a)
  {
    assert k'.cach == map[];
    assert k'.live.Keys == {a};
  }

  /** One small block handed out, unless the storage fails. */
  method OneBlock(blockSize: nat) returns (h: Heap, first: Outcome)
    requires Granularity(blockSize)
    ensures h.Core({}) && fresh(h) && fresh(h.index) && (first.Granted? ==> OnlyBlock(h.m, h.k, first.block))
  {
    h := new Heap(blockSize);
    ghost var m, k := h.m, h.k;
    first := h.Alloc(8);
    if first.Granted? {
      FirstHanded(m, k, h.m, h.k, first.block);
    }
  }

  lemma SegmentThere(h: Heap, a: nat)
    requires h.Core({}) && a in h.k.live
    ensures h.m.segs != []
  {
    LiveTag(h.m, h.k, h.index.g.home.Keys + {}, a);
    Entry(BooksOf(h.m, h.k, h.index.g.home.Keys + {}), h.m.segs, a);
  }

  /** So it is when one small block was allocated and freed: none is in use, and the report is still its size. */
  method OverstatedUsage(blockSize: nat) returns (h: Heap, first: Outcome, refused: Outcome, usage: nat)
    requires Granularity(blockSize)
    ensures first.Granted? ==> refused == LimitExceeded && h.k.live == map[] && usage >= MIN_BLOCK
  {
    refused, usage := OutOfMemory, 0;
    h, first := OneBlock(blockSize);
    if first.Granted? {
      FreeOnly(h, first.block);
      refused, usage := RefusedUsage(h);
    }
  }

  method FreeOnly(h: Heap, a: nat)
    requires h.Core({}) && OnlyBlock(h.m, h.k, a)
    modifies h`m, h`k, h`mem, h.index
    ensures h.Core({}) && h.k.live == map[] && Excess(h.m, h.k) == 0
    ensures h.m.realSize <= Pow2(62) && h.m.cached >= MIN_BLOCK
  {
    ghost var m, k := h.m, h.k;
    assert HeaderOf(a + HEADER) == a;
    h.Free(a + HEADER);
    OnlyFreed(m, k, h.m, h.k, a);
  }

  lemma OnlyFreed(m: Mem, k: Ledger, m': Mem, k': Ledger, a: nat)
    requires OnlyBlock(m, k, a) && Counters(m, k) && Counters(m', k') && Excess(m', k') == Excess(m, k)
    requires k'.live == k.live - {a} && k'.cach == CachedBy(m, k, a) && m'.realSize <= m.realSize
    ensures k'.live == map[] && Excess(m', k') == 0 && m'.realSize <= Pow2(62) && m'.cached >= MIN_BLOCK
  {
    assert k'.live.Keys == {};
    SumRemove(k'.cach, a);
  }

  /** A shutdown leaves a segment free from end to end: one small block was allocated, and the reserve is as large as
      its segment. */
  method FreeSegmentLeft(blockSize: nat) returns (h: Heap, first: Outcome, second: Outcome)
    requires Granularity(blockSize)
    ensures first.Granted? && second.Granted? ==> !AllTaken(TilesOf(h.m, h.k), h.m.segs)
  {
    second := OutOfMemory;
    h, first := OneBlock(blockSize);
    if first.Granted? {
      SegmentThere(h, first.block);
      second := TooLarge(h);
    }
  }

  /** A reserve as large as the oldest segment. */
  method TooLarge(h: Heap) returns (r: Outcome)
    requires h.Core({}) && h.m.segs != []
    modifies h`m, h`k, h`mem, h.index
    ensures r.Granted? ==> !AllTaken(TilesOf(h.m, h.k), h.m.segs)
  {
    var s := h.m.segs[|h.m.segs| - 1];
    assert s in h.m.segs && s.Sound();
    r := h.PartialShutdown(s.size);
  }

  /** Small bucket 0 holds the one block `b`, and its bit is not set. */
  ghost predicate BitLost(w: Words, b: nat) {
    Small(0) in w.prev && w.prev[Small(0)] == Blk(b) && !Bit(w.freeBitmap, 0)
  }

  /** Lists that are lone sentinels, as far as bucket 0 and the rest list go. */
  ghost predicate NoneListed(w: Words) {
    && Small(0) in w.prev && w.prev[Small(0)] == Small(0) && Small(0) in w.next && w.next[Small(0)] == Small(0)
    && Rest in w.prev && w.prev[Rest] == Rest && Rest in w.next && w.next[Rest] == Rest
    && w.freeBitmap == 0 && w.restCount == 0
  }

  /** A block goes into bucket 0, another one of that size onto the rest list and off it again. */
  lemma BitGoes(w0: Words, g0: Shape, w1: Words, g1: Shape, w2: Words, g2: Shape, w3: Words, g3: Shape,
                tag: map<nat, Tag>, b1: nat, b2: nat)
    requires NoneListed(w0) && Bucketed(w0, g0, w1, g1, 0, b1) && Appended(w1, g1, w2, g2, b2)
    requires b1 != b2 && b2 in tag && tag[b2].size == MIN_BLOCK && Unlisted(w2, g2, w3, g3, tag, b2)
    ensures BitLost(w3, b1)
  {
    assert BucketIndex(MIN_BLOCK) == 0 && BlockSize(MIN_BLOCK) && IsSmall(MIN_BLOCK);
    assert w1.prev[Rest] == Rest && w1.next[Rest] == Rest;
    assert w1.prev[Small(0)] == Blk(b1) && w1.next[Small(0)] == Blk(b1);
    assert w2.prev[Blk(b2)] == Rest && w2.next[Blk(b2)] == Rest;
    assert w3.prev[Small(0)] == Blk(b1) && w3.next[Small(0)] == Blk(b1);
    assert w2.freeBitmap == SetBit(0, 0);
    ClearBitSpec(SetBit(0, 0), 0, 0);
  }

  /** The small bitmap loses a bit. The storage delivers two segments: one block of all but the last 32 bytes of the
      first leaves these in bucket 0; a block of all but the last 32 bytes of the second, which is larger than the
      granularity, leaves these on the rest list; freeing that block takes them off the rest list. */
  method LostBitReached(blockSize: nat, s1: Segment, s2: Segment, n1: nat, n2: nat) returns (h: Heap)
    requires Granularity(blockSize) && s1.Sound() && s2.Sound() && s1.Disjoint(s2)
    requires 128 <= blockSize == s1.size == n1 + 64 && s2.size == 2 * blockSize == n2 + 64
    ensures BitLost(h.index.w, BlockAt(s1.First(), n1))
  {
    h := NewHeap(blockSize);
    LoseBit(h, s1, s2, n1, n2);
  }

  method NewHeap(blockSize: nat) returns (h: Heap)
    requires Granularity(blockSize)
    ensures fresh(h) && fresh(h.index) && h.Core({}) && h.m.segs == [] && h.blockSize == blockSize
    ensures NoneListed(h.index.w)
  {
    h := new Heap(blockSize);
    assert h.index.BucketEmpty(0);
  }

  method LoseBit(h: Heap, s1: Segment, s2: Segment, n1: nat, n2: nat)
    requires h.Core({}) && h.m.segs == [] && NoneListed(h.index.w)
    requires s1.Sound() && s2.Sound() && s1.Disjoint(s2) && h.blockSize <= s1.size && h.blockSize <= s2.size
    requires 128 <= s1.size == n1 + 64 && 128 <= s2.size == n2 + 64
    modifies h`m, h`k, h`mem, h.index
    ensures BitLost(h.index.w, BlockAt(s1.First(), n1))
  {
    ghost var w0, g0 := h.index.w, h.index.g;
    TakeAllButTail(h, s1, n1, false);
    InBucketZero(w0, g0, h.index.w, h.index.g, h.m.size, BlockAt(s1.First(), n1));
    ghost var w1, g1 := h.index.w, h.index.g;
    Beside(s1, s2, n1, n2, h.m.segs);
    TakeAllButTail(h, s2, n2, true);
    FreeAndLose(h, w0, g0, w1, g1, BlockAt(s1.First(), n1), BlockAt(s2.First(), n2));
  }

  lemma Beside(s1: Segment, s2: Segment, n1: nat, n2: nat, segs: seq<Segment>)
    requires s1.Sound() && s2.Sound() && s1.Disjoint(s2) && s1.size == n1 + 64 && s2.size == n2 + 64
    requires segs == [s1] + []
    ensures Deliverable(s2, segs) && BlockAt(s1.First(), n1) != BlockAt(s2.First(), n2)
  {
  }

  lemma InBucketZero(w: Words, g: Shape, w': Words, g': Shape, tag: map<nat, Tag>, b: nat)
    requires b in tag && tag[b] == Tag(MIN_BLOCK, Free) && Filed(w, g, w', g', tag, b, false)
    ensures Bucketed(w, g, w', g', 0, b)
  {
    assert BucketIndex(MIN_BLOCK) == 0 && BlockSize(MIN_BLOCK) && IsSmall(MIN_BLOCK);
  }

  /** The block `b2` taken off the rest list, as freeing the block before it does. */
  method FreeAndLose(h: Heap, ghost w0: Words, ghost g0: Shape, ghost w1: Words, ghost g1: Shape,
                     ghost b1: nat, b2: nat)
    requires h.Core({}) && b1 != b2 && b2 in h.m.size && h.m.size[b2] == Tag(MIN_BLOCK, Free)
    requires NoneListed(w0) && Bucketed(w0, g0, w1, g1, 0, b1)
    requires Filed(w1, g1, h.index.w, h.index.g, h.m.size, b2, true)
    modifies h`mem, h.index
    ensures BitLost(h.index.w, b1)
  {
    ghost var w2, g2 := h.index.w, h.index.g;
    h.Detach(b2, {});
    BitGoes(w0, g0, w1, g1, w2, g2, h.index.w, h.index.g, h.m.size, b1, b2);
  }

  /** A new segment, and a block of all but its last 32 bytes handed out. */
  method TakeAllButTail(h: Heap, s: Segment, n: nat, keepRest: bool)
    requires h.Core({}) && Deliverable(s, h.m.segs) && h.blockSize <= s.size && 128 <= s.size == n + 64
    modifies h`m, h`k, h`mem, h.index
    ensures h.Core({}) && h.m.segs == [s] + old(h.m).segs
    ensures BlockAt(s.First(), n) in h.m.size && h.m.size[BlockAt(s.First(), n)] == Tag(MIN_BLOCK, Free)
    ensures Filed(old(h.index.w), old(h.index.g), h.index.w, h.index.g, h.m.size, BlockAt(s.First(), n), keepRest)
  {
    ghost var m := h.m;
    TailTag(m, s, n);
    h.OpenSegment(0, s);
    h.Finish(s.First(), n, 0, keepRest);
  }

  lemma TailTag(m: Mem, s: Segment, n: nat)
    requires s.Sound() && 128 <= s.size == n + 64
    ensures BlockSize(n)
    ensures var m1 := MemOpened(m, 0, s);
            && s.First() in m1.size && m1.size[s.First()].size == n + MIN_BLOCK
            && var m2 := MemCut(m1, s.First(), n);
            && m2.segs == [s] + m.segs
            && BlockAt(s.First(), n) in m2.size && m2.size[BlockAt(s.First(), n)] == Tag(MIN_BLOCK, Free)
  {
  }
}
