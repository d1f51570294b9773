/** The memory manager heap: allocation, freeing, resizing and the counters. */
module ZendHeap {
  import opened Common
  import opened Bits
  import opened Layout
  import opened Rings
  import opened Trie
  import opened FreeIndex
  import opened HeapIndex
  import opened Tiling
  import opened Bookkeeping
  import opened Sums
  import opened CacheChains
  import opened Payload

  /** The words of `zend_mm_heap` beside the free index, and the boundary tags of all blocks. */
  datatype Mem = Mem(
    segs: seq<Segment>,
    /** `_size` and `_prev` of the block headers. */
    size: map<nat, Tag>, prev: map<nat, Tag>,
    cache: seq<Ptr>, cached: nat,
    /** The fields `size`, `peak`, `real_size`, `real_peak` and `limit`. */
    used: nat, peak: nat, realSize: nat, realPeak: nat, limit: nat)

  /** A block, whose payload pointer is its header address plus `HEADER`, or the error with which
      `zend_mm_safe_error` bails out; `StorageLost` when the storage cannot resize a segment. */
  datatype Outcome = Granted(block: nat) | LimitExceeded | OutOfMemory | StorageLost

  /** What the words stand for: the headers, the blocks handed out (with the sizes of the blocks and
      of the requests) and the cached blocks. */
  datatype Ledger = Ledger(seg: map<nat, Segment>, live: map<nat, nat>, req: map<nat, nat>,
                           cach: map<nat, nat>, chains: seq<seq<nat>>)

  /** `ZEND_MM_HEADER_OF`: the block of a payload pointer. */
  function HeaderOf(ptr: nat): nat {
    if ptr < HEADER then 0 else ptr - HEADER
  }

  ghost function TilesOf(m: Mem, k: Ledger): Tiles {
    Tiles(m.size, m.prev, k.seg)
  }

  ghost function BooksOf(m: Mem, k: Ledger, held: set<Ptr>): Books {
    Books(TilesOf(m, k), k.live, k.cach, held)
  }

  ghost predicate Covers(k: Ledger) {
    k.req.Keys == k.live.Keys && forall a :: a in k.live ==> k.req[a] + HEADER <= k.live[a]
  }

  /** The counters other than `size`. */
  ghost predicate Counters(m: Mem, k: Ledger) {
    && m.cached == Sum(k.cach) && m.cached < CACHE_SIZE + MAX_SMALL
    && m.realSize == Total(m.segs) <= m.realPeak && m.used <= m.peak
  }

  /** Everything but the free index, with `held` for the blocks that it has or is about to have. */
  ghost predicate Sound(m: Mem, k: Ledger, links: Links, held: set<Ptr>) {
    && BooksOf(m, k, held).Valid(m.segs) && BooksOf(m, k, held).CoalescedBut({})
    && NoRepeat(m.segs) && CacheOk(links, m.cache, k.chains, k.cach)
    && Covers(k) && Counters(m, k)
  }

  /** By how much `size` is above the sum of the blocks handed out and cached. */
  ghost function Excess(m: Mem, k: Ledger): int {
    m.used - Sum(k.live) - Sum(k.cach)
  }

  /** No segment is smaller than the granularity. */
  ghost predicate Grained(segs: seq<Segment>, blockSize: nat) {
    forall s {:trigger s in segs} :: s in segs ==> blockSize <= s.size
  }

  /** No segment is free from end to end. */
  ghost predicate AllTaken(t: Tiles, segs: seq<Segment>) {
    forall s {:trigger WhollyFree(t, s)} :: s in segs ==> !WhollyFree(t, s)
  }

  /** Segments that are now free from end to end were so before. */
  ghost predicate NoneFreed(t: Tiles, segs: seq<Segment>, t': Tiles, segs': seq<Segment>) {
    forall s {:trigger WhollyFree(t', s)} :: s in segs' && WhollyFree(t', s) ==> s in segs && WhollyFree(t, s)
  }

  /** The segment of a live block is not free from end to end. */
  lemma SegmentInUse(b: Books, segs: seq<Segment>, a: nat)
    requires b.Valid(segs) && a in b.live
    ensures a in b.t.seg && !WhollyFree(b.t, b.t.seg[a])
  {
    assert b.Owns(a);
    Entry(b, segs, a);
    var s := b.t.seg[a];
    Entry(b, segs, s.First());
    assert b.t.Closed(s) && b.t.NoOverlap(s.First(), a);
  }

  /** Rewriting the headers of the segment `s`, which stays in use, frees no segment. */
  lemma RewrittenInside(b: Books, b': Books, segs: seq<Segment>, s: Segment, touched: set<nat>)
    requires b.Valid(segs) && b'.Valid(segs) && !WhollyFree(b'.t, s)
    requires forall h :: h in touched && h in b.t.seg ==> b.t.seg[h] == s
    requires forall h :: h in b.t.size && h !in touched ==> h in b'.t.size && b'.t.size[h] == b.t.size[h]
    ensures NoneFreed(b.t, segs, b'.t, segs)
  {
    forall s' | s' in segs && WhollyFree(b'.t, s') ensures WhollyFree(b.t, s') {
      assert b.t.Closed(s') && b'.t.Closed(s');
      Entry(b, segs, s'.First());
    }
  }

  lemma KeptLinks(l: Lists, t: Tree, l': Lists, t': Tree, inside: set<Ptr>, m: Mem, k: Ledger, held: set<Ptr>)
    requires WordsKept(l, t, l', t', inside) && inside <= held
    requires Sound(m, k, l.prev, held)
    ensures Sound(m, k, l'.prev, held)
  {
    forall a | a in k.cach && Blk(a) in l.prev ensures Blk(a) in l'.prev && l'.prev[Blk(a)] == l.prev[Blk(a)] {
      var b := BooksOf(m, k, held);
      assert b.Owns(a);
      assert b.Kind(a);
      assert KeepLinks(l, l', a);
    }
    CacheFrame(l.prev, m.cache, k.chains, k.cach, l'.prev);
  }

  /** `ZEND_MM_BLOCK_AT` */
  function BlockAt(h: nat, offset: nat): nat {
    h + offset
  }

  /** The test that lets allocation look at the rest list. */
  predicate LimitIsNear(m: Mem, blockSize: nat) {
    m.realSize >= (m.limit + WORD - blockSize) % WORD
  }

  /** A segment for a block of `ts` bytes would wrap around or exceed the limit. */
  predicate OverLimit(m: Mem, blockSize: nat, ts: nat)
    requires blockSize > 0
  {
    PastLimit(m.realSize, m.limit, blockSize, ts)
  }

  predicate PastLimit(realSize: nat, limit: nat, blockSize: nat, ts: nat)
    requires blockSize > 0
  {
    SegmentSize(ts, blockSize) < ts || (realSize + SegmentSize(ts, blockSize)) % WORD > limit
  }

  /** The segment `s` grown for a block of `ts` bytes would wrap around or exceed the limit. */
  predicate GrowthOverLimit(m: Mem, s: Segment, blockSize: nat, ts: nat)
    requires blockSize > 0
  {
    SegmentSize(ts, blockSize) < ts || (m.realSize + SegmentSize(ts, blockSize) - s.size) % WORD > m.limit
  }

  /** Some block fits, as far as the small bitmap and the trees tell, and the rest list if the limit is near. */
  ghost predicate FitIn(w: Words, g: Shape, m: Mem, blockSize: nat, ts: nat)
    requires BlockSize(ts)
  {
    || (exists a :: LargeFits(g, m.size, ts, a))
    || (IsSmall(ts) && SomeBucket(w, ts))
    || (LimitIsNear(m, blockSize) && exists a :: RestFits(g, m.size, ts, a))
  }

  /** The block that allocation takes if some block fits: one by the small bitmap, else a large one, else one of the
      rest list. */
  ghost predicate Found(w: Words, g: Shape, m: Mem, ts: nat, b: nat)
    requires BlockSize(ts)
  {
    if IsSmall(ts) && SomeBucket(w, ts) then LowestFit(w, m.size, ts, b)
    else if exists a :: LargeFits(g, m.size, ts, a) then LargeChoice(g, m.size, ts, b)
    else RestChoice(g, m.size, ts, b)
  }

  /** A cached block has exactly the size `ts`. */
  predicate CacheHit(m: Mem, ts: nat)
    requires BlockSize(ts)
  {
    IsSmall(ts) && BucketIndex(ts) < |m.cache| && m.cache[BucketIndex(ts)] != Null
  }

  /** Neither the cache nor the index has a block for a true size. */
  ghost predicate NoneFor(w: Words, g: Shape, m: Mem, blockSize: nat, ts: nat)
    requires BlockSize(ts)
  {
    !CacheHit(m, ts) && !FitIn(w, g, m, blockSize, ts)
  }

  /** The block that a request gets: the top of its cache chain, else the block found; else one of a new segment. */
  ghost predicate Chosen(w: Words, g: Shape, m: Mem, blockSize: nat, ts: nat, b: nat)
    requires BlockSize(ts)
  {
    if CacheHit(m, ts) then m.cache[BucketIndex(ts)] == Blk(b)
    else FitIn(w, g, m, blockSize, ts) ==> Found(w, g, m, ts, b)
  }

  /** `size` raised by `n`, and `peak` with it. */
  function Charged(m: Mem, n: nat): Mem {
    m.(used := m.used + n, peak := Max(m.peak, m.used + n))
  }

  lemma Overwrite<K, V>(m: map<K, V>, k: K, v: V, j: K, u: V, v': V)
    ensures m[k := v][k := v'] == m[k := v']
    ensures k != j ==> m[k := v][j := u][k := v'] == m[j := u][k := v']
  {
  }

  // ---------------------------------------------------------------- allocation steps

  /** The free block `b` handed out whole. */
  function MemTaken(m: Mem, b: nat): Mem
    requires b in m.size
  {
    var n := m.size[b].size;
    Charged(m.(size := m.size[b := Tag(n, Used)], prev := m.prev[b + n := Tag(n, Used)]), n)
  }

  ghost function LedgerTaken(k: Ledger, b: nat, n: nat, request: nat): Ledger {
    k.(live := k.live[b := n], req := k.req[b := request])
  }

  lemma TakeSound(m: Mem, k: Ledger, links: Links, held: set<Ptr>, b: nat, request: nat)
    requires Sound(m, k, links, held) && TilesOf(m, k).IsFree(b) && request + HEADER <= m.size[b].size
    ensures Sound(MemTaken(m, b), LedgerTaken(k, b, m.size[b].size, request), links, held - {Blk(b)})
    ensures b !in k.live && Excess(MemTaken(m, b), LedgerTaken(k, b, m.size[b].size, request)) == Excess(m, k)
    ensures InUse(m, k, MemTaken(m, b), LedgerTaken(k, b, m.size[b].size, request), b)
  {
    var b0 := BooksOf(m, k, held);
    Entry(b0, m.segs, b);
    Take(b0, m.segs, b);
    var m', k' := MemTaken(m, b), LedgerTaken(k, b, m.size[b].size, request);
    assert BooksOf(m', k', held - {Blk(b)}) == Taken(b0, b);
    SumSet(k.live, b, m.size[b].size);
    SegmentInUse(Taken(b0, b), m.segs, b);
    RewrittenInside(b0, Taken(b0, b), m.segs, k.seg[b], {b});
  }

  /** After the step the segment of `b` is in use, and no other has become free. */
  ghost predicate InUse(m: Mem, k: Ledger, m': Mem, k': Ledger, b: nat) {
    && m'.segs == m.segs && NoneFreed(TilesOf(m, k), m.segs, TilesOf(m', k'), m'.segs)
    && b in k'.seg && !WhollyFree(TilesOf(m', k'), k'.seg[b])
  }

  /** The free block `b` cut: the front handed out, the rest a free block. */
  function MemCut(m: Mem, b: nat, ts: nat): Mem
    requires b in m.size && ts <= m.size[b].size
  {
    var n := m.size[b].size;
    var r := n - ts;
    Charged(m.(size := m.size[b := Tag(ts, Used)][b + ts := Tag(r, Free)],
               prev := m.prev[b + ts := Tag(ts, Used)][b + n := Tag(r, Free)]), ts)
  }

  ghost function LedgerCut(k: Ledger, b: nat, ts: nat, request: nat): Ledger
    requires b in k.seg
  {
    LedgerTaken(k, b, ts, request).(seg := k.seg[b + ts := k.seg[b]])
  }

  lemma CutSound(m: Mem, k: Ledger, links: Links, held: set<Ptr>, b: nat, ts: nat, request: nat)
    requires Sound(m, k, links, held) && TilesOf(m, k).IsFree(b)
    requires BlockSize(ts) && ts + MIN_BLOCK <= m.size[b].size && request + HEADER <= ts
    ensures Sound(MemCut(m, b, ts), LedgerCut(k, b, ts, request), links, held - {Blk(b)} + {Blk(b + ts)})
    ensures b !in k.live && b + ts !in k.seg && Blk(b + ts) !in held
    ensures Excess(MemCut(m, b, ts), LedgerCut(k, b, ts, request)) == Excess(m, k)
    ensures InUse(m, k, MemCut(m, b, ts), LedgerCut(k, b, ts, request), b)
  {
    CutBooks(m, k, held, b, ts);
    var b0, b2 := BooksOf(m, k, held), Trimmed(Taken(BooksOf(m, k, held), b), b, ts);
    assert BooksOf(MemCut(m, b, ts), LedgerCut(k, b, ts, request), held - {Blk(b)} + {Blk(b + ts)}) == b2;
    SumSet(k.live, b, ts);
    SegmentInUse(b2, m.segs, b);
    RewrittenInside(b0, b2, m.segs, k.seg[b], {b, b + ts});
  }

  lemma CutBooks(m: Mem, k: Ledger, held: set<Ptr>, b: nat, ts: nat)
    requires BooksOf(m, k, held).Valid(m.segs) && BooksOf(m, k, held).CoalescedBut({}) && TilesOf(m, k).IsFree(b)
    requires BlockSize(ts) && ts + MIN_BLOCK <= m.size[b].size
    ensures b !in k.live && b + ts !in k.seg && Blk(b + ts) !in held
    ensures var b1 := Taken(BooksOf(m, k, held), b);
            && b in b1.t.seg && b in b1.t.size && ts < b1.t.size[b].size
            && var b2 := Trimmed(b1, b, ts);
            && b2.Valid(m.segs) && b2.CoalescedBut({})
            && b2.t == Tiles(MemCut(m, b, ts).size, MemCut(m, b, ts).prev, k.seg[b + ts := k.seg[b]])
            && b2.live == k.live[b := ts] && b2.cach == k.cach && b2.held == held - {Blk(b)} + {Blk(b + ts)}
  {
    TakeAndTrim(BooksOf(m, k, held), m.segs, b, ts);
    CutMaps(m, b, ts);
    Overwrite(k.live, b, m.size[b].size, b, ts, ts);
  }

  lemma CutMaps(m: Mem, b: nat, ts: nat)
    requires b in m.size && 0 < ts < m.size[b].size
    ensures var n := m.size[b].size;
            var r := n - ts;
            && m.size[b := Tag(n, Used)][b := Tag(ts, Used)][b + ts := Tag(r, Free)] == MemCut(m, b, ts).size
            && m.prev[b + n := Tag(n, Used)][b + ts := Tag(ts, Used)][b + ts + r := Tag(r, Free)] ==
               MemCut(m, b, ts).prev
  {
    var n := m.size[b].size;
    Overwrite(m.size, b, Tag(n, Used), b, Tag(n, Used), Tag(ts, Used));
    Overwrite(m.prev, b + n, Tag(n, Used), b + ts, Tag(ts, Used), Tag(n - ts, Free));
  }

  // ---------------------------------------------------------------- cache steps

  /** The top of cache chain `i` handed out again. */
  function MemPopped(m: Mem, i: nat, links: Links): Mem
    requires i < |m.cache| && m.cache[i] in links && BucketSize(i) <= m.cached
  {
    m.(cache := m.cache[i := links[m.cache[i]]], cached := m.cached - BucketSize(i))
  }

  ghost function LedgerPopped(k: Ledger, i: nat, a: nat, request: nat): Ledger
    requires i < |k.chains| && k.chains[i] != []
  {
    k.(live := k.live[a := BucketSize(i)], req := k.req[a := request], cach := k.cach - {a},
       chains := k.chains[i := k.chains[i][..|k.chains[i]| - 1]])
  }

  lemma PopSound(m: Mem, k: Ledger, links: Links, held: set<Ptr>, i: nat, request: nat)
    requires Sound(m, k, links, held) && i < NUM_BUCKETS && m.cache[i] != Null && request + HEADER <= BucketSize(i)
    ensures m.cache[i].Blk? && m.cache[i] in links && BucketSize(i) <= m.cached && k.chains[i] != []
    ensures var a := m.cache[i].addr;
            && a !in k.live && a in k.cach
            && Sound(MemPopped(m, i, links), LedgerPopped(k, i, a, request), links, held)
            && Excess(MemPopped(m, i, links), LedgerPopped(k, i, a, request)) == Excess(m, k)
  {
    Top(links, m.cache, k.chains, k.cach, i);
    var a := m.cache[i].addr;
    SumRemove(k.cach, a);
    var b := BooksOf(m, k, held);
    assert b.Owns(a);
    assert b.Kind(a);
    Uncache(b, m.segs, a);
    Pop(links, m.cache, k.chains, k.cach, i);
    SumSet(k.live, a, BucketSize(i));
    var m', k' := MemPopped(m, i, links), LedgerPopped(k, i, a, request);
    assert BooksOf(m', k', held) == Uncached(b, a);
    assert forall h :: Uncached(b, a).t.Coalesced(h) == b.t.Coalesced(h);
  }

  /** A live small block put on top of its cache chain. */
  function MemPushed(m: Mem, a: nat, n: nat): Mem
    requires BlockSize(n) && BucketIndex(n) < |m.cache|
  {
    m.(cache := m.cache[BucketIndex(n) := Blk(a)], cached := m.cached + n)
  }

  ghost function LedgerPushed(k: Ledger, a: nat, n: nat): Ledger
    requires BlockSize(n) && BucketIndex(n) < |k.chains|
  {
    k.(live := k.live - {a}, req := k.req - {a}, cach := k.cach[a := n],
       chains := k.chains[BucketIndex(n) := k.chains[BucketIndex(n)] + [a]])
  }

  lemma PushSound(m: Mem, k: Ledger, links: Links, held: set<Ptr>, a: nat)
    requires Sound(m, k, links, held) && a in k.live && IsSmall(k.live[a]) &&
             m.cached + k.live[a] < CACHE_SIZE + MAX_SMALL
    ensures BlockSize(k.live[a]) && BucketIndex(k.live[a]) < |m.cache| == |k.chains| && Blk(a) !in held && a !in k.cach
    ensures var n := k.live[a];
            && Sound(MemPushed(m, a, n), LedgerPushed(k, a, n), links[Blk(a) := m.cache[BucketIndex(n)]], held)
            && Excess(MemPushed(m, a, n), LedgerPushed(k, a, n)) == Excess(m, k)
  {
    var b := BooksOf(m, k, held);
    assert b.Owns(a);
    Entry(b, m.segs, a);
    var n := k.live[a];
    Cache(b, m.segs, a);
    Push(links, m.cache, k.chains, k.cach, a, n);
    SumRemove(k.live, a);
    SumSet(k.cach, a, n);
    assert BooksOf(MemPushed(m, a, n), LedgerPushed(k, a, n), held) == Cached(b, a);
    assert forall h :: Cached(b, a).t.Coalesced(h) == b.t.Coalesced(h);
  }

  // ---------------------------------------------------------------- freeing steps

  /** One free block written from `p` to `e`. */
  function MemFreed(m: Mem, p: nat, e: nat): Mem
    requires p <= e
  {
    m.(size := m.size[p := Tag(e - p, Free)], prev := m.prev[e := Tag(e - p, Free)])
  }

  ghost function LedgerFreed(m: Mem, k: Ledger, a: nat, p: nat, e: nat): Ledger {
    k.(seg := k.seg - Inside(TilesOf(m, k), p, e), live := k.live - {a}, req := k.req - {a})
  }

  lemma FreeFacts(m: Mem, k: Ledger, held: set<Ptr>, a: nat, p: nat, e: nat)
    requires BooksOf(m, k, held).Valid(m.segs) && BooksOf(m, k, held).CoalescedBut({}) && a in k.live && a in m.size &&
             a in m.prev
    requires p == StartOf(TilesOf(m, k), a) && e == EndOf(TilesOf(m, k), a)
    ensures p <= a < e && a in k.seg && p in k.seg && e in k.seg && k.seg[p] == k.seg[a] && k.seg[e] == k.seg[a]
    ensures p in m.size && e in m.size && p in m.prev
  {
    var b := BooksOf(m, k, held);
    Stretch(b, m.segs, a);
    Entry(b, m.segs, p);
    Entry(b, m.segs, e);
  }

  lemma FreeSound(m: Mem, k: Ledger, links: Links, held: set<Ptr>, a: nat, p: nat, e: nat)
    requires Sound(m, k, links, held) && a in k.live && a in m.size && a in m.prev
    requires p == StartOf(TilesOf(m, k), a) && e == EndOf(TilesOf(m, k), a)
    ensures p <= a < e && a in k.seg && p in k.seg && e in k.seg && k.seg[p] == k.seg[a] && k.seg[e] == k.seg[a] &&
            p in m.size && e in m.size && p in m.prev
    ensures TilesOf(MemFreed(m, p, e), LedgerFreed(m, k, a, p, e)).IsFree(p)
    ensures Sound(MemFreed(m, p, e), LedgerFreed(m, k, a, p, e), links, held - {Blk(a + m.size[a].size)} + {Blk(p)})
  {
    var b := BooksOf(m, k, held);
    FreeFacts(m, k, held, a, p, e);
    GiveBack(b, m.segs, a);
    assert BooksOf(MemFreed(m, p, e), LedgerFreed(m, k, a, p, e), held - {Blk(a + m.size[a].size)} + {Blk(p)}) ==
           Freed(b, a);
  }

  /** The tests for the first block and for the guard tell when the free stretch is the whole segment. */
  lemma WholeSegment(b: Books, segs: seq<Segment>, p: nat, e: nat)
    requires b.Valid(segs) && p in b.t.seg && e in b.t.seg && b.t.seg[p] == b.t.seg[e]
    ensures p in b.t.prev && e in b.t.size && b.t.seg[p] in segs
    ensures b.t.prev[p] == FIRST_MARK <==> p == b.t.seg[p].First()
    ensures b.t.size[e].mark == Guard <==> e == b.t.seg[p].GuardAt()
  {
    Entry(b, segs, p);
    Entry(b, segs, e);
  }

  lemma SegmentOfStretch(m: Mem, k: Ledger, links: Links, held: set<Ptr>, a: nat, p: nat, e: nat)
    requires Sound(m, k, links, held) && a in k.live && a in m.size && a in m.prev
    requires p == StartOf(TilesOf(m, k), a) && e == EndOf(TilesOf(m, k), a) && p in m.prev && e in m.size
    requires m.prev[p] == FIRST_MARK && m.size[e].mark == Guard
    ensures p in k.seg && k.seg[p] in m.segs && k.seg[p].First() == p && k.seg[p].GuardAt() == e
  {
    FreeSound(m, k, links, held, a, p, e);
    WholeSegment(BooksOf(m, k, held), m.segs, p, e);
  }

  lemma FreeNone(m: Mem, k: Ledger, links: Links, held: set<Ptr>, a: nat, p: nat, e: nat)
    requires Sound(m, k, links, held) && a in k.live && a in m.size && a in m.prev
    requires p == StartOf(TilesOf(m, k), a) && e == EndOf(TilesOf(m, k), a) && p in m.prev && e in m.size
    requires !(m.prev[p] == FIRST_MARK && m.size[e].mark == Guard)
    ensures p <= e && NoneFreed(TilesOf(m, k), m.segs, TilesOf(MemFreed(m, p, e), LedgerFreed(m, k, a, p, e)), m.segs)
  {
    FreeSound(m, k, links, held, a, p, e);
    var b := BooksOf(m, k, held);
    var b' := BooksOf(MemFreed(m, p, e), LedgerFreed(m, k, a, p, e), held - {Blk(a + m.size[a].size)} + {Blk(p)});
    WholeSegment(b, m.segs, p, e);
    var s := k.seg[p];
    assert b'.t.Closed(s) && b.t.Closed(s);
    assert b'.t.NoOverlap(s.First(), p);
    Entry(b', m.segs, s.First());
    Entry(b', m.segs, p);
    RewrittenInside(b, b', m.segs, s, {p});
  }

  /** Removal from `segments_list` of a segment that is free from end to end. */
  function MemDropped(m: Mem, j: nat): Mem
    requires j < |m.segs| && m.segs[j].size <= m.realSize
  {
    m.(segs := m.segs[..j] + m.segs[j + 1..], realSize := m.realSize - m.segs[j].size)
  }

  ghost function LedgerDropped(k: Ledger, s: Segment): Ledger {
    k.(seg := map h | h in k.seg && k.seg[h] != s :: k.seg[h])
  }

  lemma DropSound(m: Mem, k: Ledger, links: Links, held: set<Ptr>, j: nat)
    requires Sound(m, k, links, held) && j < |m.segs| && WhollyFree(TilesOf(m, k), m.segs[j])
    ensures m.segs[j].size <= m.realSize
    ensures Sound(MemDropped(m, j), LedgerDropped(k, m.segs[j]), links, held - {Blk(m.segs[j].First())})
    ensures NoneFreed(TilesOf(m, k), m.segs, TilesOf(MemDropped(m, j), LedgerDropped(k, m.segs[j])),
            m.segs[..j] + m.segs[j + 1..])
  {
    var s := m.segs[j];
    TotalAt(m.segs, j);
    var m', k' := MemDropped(m, j), LedgerDropped(k, s);
    RemovedSegment(m.segs, j);
    var b := BooksOf(m, k, held);
    Shrink(b, m.segs, s, m'.segs);
    assert BooksOf(m', k', held - {Blk(s.First())}) == Shrunk(b, s);
  }

  lemma RemovedSegment(segs: seq<Segment>, j: nat)
    requires j < |segs| && NoRepeat(segs)
    ensures NoRepeat(segs[..j] + segs[j + 1..])
    ensures forall s :: s in segs[..j] + segs[j + 1..] <==> s in segs && s != segs[j]
  {
    var r := segs[..j] + segs[j + 1..];
    forall i | 0 <= i < |r| ensures r[i] == segs[if i < j then i else i + 1] { }
    forall s | s in segs && s != segs[j] ensures s in r {
      var i :| 0 <= i < |segs| && segs[i] == s;
      assert r[if i < j then i else i - 1] == s;
    }
  }

  /** One segment taken off the list and another entered in its place. */
  lemma Substituted(segs: seq<Segment>, j: nat, s: Segment, segs1: seq<Segment>, segs2: seq<Segment>)
    requires j < |segs| && NoRepeat(segs) && segs1 == segs[..j] + segs[j + 1..]
    requires segs2 == segs1[..j] + [s] + segs1[j..]
    ensures Regrown(segs, segs2, segs[j], s.size, s.First())
  {
    assert segs1[..j] == segs[..j] && segs1[j..] == segs[j + 1..];
  }

  /** Stale words do not matter. */
  lemma RestateSound(m: Mem, k: Ledger, links: Links, held: set<Ptr>, m': Mem)
    requires Sound(m, k, links, held) && SameHeaders(TilesOf(m, k), TilesOf(m', k))
    requires m' == m.(size := m'.size, prev := m'.prev)
    ensures Sound(m', k, links, held)
  {
    Restate(BooksOf(m, k, held), m.segs, TilesOf(m', k));
    RestateCoalesced(BooksOf(m, k, held), m.segs, TilesOf(m', k), {});
  }

  lemma DelSound(m: Mem, k: Ledger, links: Links, held: set<Ptr>, a: nat, p: nat, e: nat, j: nat)
    requires Sound(m, k, links, held) && a in k.live && a in m.size && a in m.prev
    requires p == StartOf(TilesOf(m, k), a) && e == EndOf(TilesOf(m, k), a) && p in m.prev && e in m.size
    requires m.prev[p] == FIRST_MARK && m.size[e].mark == Guard
    requires p in k.seg && j < |m.segs| && m.segs[j] == k.seg[p]
    ensures m.segs[j].size <= m.realSize
    ensures var k' := LedgerDropped(k, m.segs[j]).(live := k.live - {a}, req := k.req - {a});
            && Sound(MemDropped(m, j), k', links, held - {Blk(a + m.size[a].size)} - {Blk(p)})
            && NoneFreed(TilesOf(m, k), m.segs, TilesOf(MemDropped(m, j), k'), MemDropped(m, j).segs)
  {
    FreeSound(m, k, links, held, a, p, e);
    var s := m.segs[j];
    var held1 := held - {Blk(a + m.size[a].size)} + {Blk(p)};
    var m1, k1 := MemFreed(m, p, e), LedgerFreed(m, k, a, p, e);
    WholeSegment(BooksOf(m, k, held), m.segs, p, e);
    DropSound(m1, k1, links, held1, j);
    var k' := LedgerDropped(k, s).(live := k.live - {a}, req := k.req - {a});
    var m' := MemDropped(m, j);
    DroppedLedger(m, k, held, a, p, e, s);
    assert held1 - {Blk(p)} == held - {Blk(a + m.size[a].size)} - {Blk(p)};
    DroppedHeaders(m, k, held, p, e, s, m1, k');
    RestateSound(MemDropped(m1, j), k', links, held1 - {Blk(p)}, m');
    DroppedNone(m, k, held, p, e, s, m1, k', m');
  }

  ghost function LedgerDeleted(k: Ledger, s: Segment, a: nat): Ledger {
    LedgerDropped(k, s).(live := k.live - {a}, req := k.req - {a})
  }

  lemma DelStep(m: Mem, k: Ledger, links: Links, home: set<Ptr>, extra: set<Ptr>, a: nat, p: nat, e: nat, j: nat)
    requires Sound(m, k, links, home + extra) && a in k.live && a in m.size && a in m.prev
    requires p == StartOf(TilesOf(m, k), a) && e == EndOf(TilesOf(m, k), a) && p in m.prev && e in m.size
    requires extra <= {Blk(a + m.size[a].size), Blk(p)} && Blk(a + m.size[a].size) !in home && Blk(p) !in home
    requires m.prev[p] == FIRST_MARK && m.size[e].mark == Guard
    requires p in k.seg && j < |m.segs| && m.segs[j] == k.seg[p]
    ensures m.segs[j].size <= m.realSize
    ensures Sound(MemDropped(m, j), LedgerDeleted(k, m.segs[j], a), links, home + {})
    ensures forall s {:trigger s in MemDropped(m, j).segs} :: s in MemDropped(m, j).segs ==> s in m.segs
    ensures NoneFreed(TilesOf(m, k), m.segs, TilesOf(MemDropped(m, j), LedgerDeleted(k, m.segs[j], a)),
            MemDropped(m, j).segs)
  {
    DelSound(m, k, links, home + extra, a, p, e, j);
    assert home + extra - {Blk(a + m.size[a].size)} - {Blk(p)} == home + {};
    RemovedSegment(m.segs, j);
  }

  lemma DroppedLedger(m: Mem, k: Ledger, held: set<Ptr>, a: nat, p: nat, e: nat, s: Segment)
    requires BooksOf(m, k, held).Valid(m.segs) && p in k.seg && e in k.seg && k.seg[p] == k.seg[e] == s && s in m.segs
    ensures LedgerDropped(LedgerFreed(m, k, a, p, e), s) ==
            LedgerDropped(k, s).(live := k.live - {a}, req := k.req - {a})
  {
    var b := BooksOf(m, k, held);
    Entry(b, m.segs, p);
    Entry(b, m.segs, e);
    forall h | h in Inside(TilesOf(m, k), p, e) ensures k.seg[h] == s {
      Entry(b, m.segs, h);
      assert s.Sound() && k.seg[h].Sound() && (s == k.seg[h] || s.Disjoint(k.seg[h]));
    }
    assert LedgerDropped(LedgerFreed(m, k, a, p, e), s).seg == LedgerDropped(k, s).seg;
  }

  lemma DroppedHeaders(m: Mem, k: Ledger, held: set<Ptr>, p: nat, e: nat, s: Segment, m1: Mem, k': Ledger)
    requires BooksOf(m, k, held).Valid(m.segs) && p in k.seg && e in k.seg && k.seg[p] == k.seg[e] == s
    requires p <= e && m1 == MemFreed(m, p, e) && k'.seg == LedgerDropped(k, s).seg
    ensures SameHeaders(TilesOf(m1, k'), TilesOf(m, k'))
  {
    forall h | h in k'.seg ensures SameHeader(TilesOf(m1, k'), TilesOf(m, k'), h) {
      Entry(BooksOf(m, k, held), m.segs, h);
    }
  }

  lemma DroppedNone(m: Mem, k: Ledger, held: set<Ptr>, p: nat, e: nat, s: Segment, m1: Mem, k': Ledger, m': Mem)
    requires BooksOf(m, k, held).Valid(m.segs) && p in k.seg && k'.seg == LedgerDropped(k, s).seg
    requires m'.size == m.size && forall s' :: s' in m'.segs ==> s' in m.segs
    ensures NoneFreed(TilesOf(m, k), m.segs, TilesOf(m', k'), m'.segs)
  {
  }

  lemma SameBase(segs: seq<Segment>, s: Segment, s': Segment)
    requires SegmentsOk(segs) && s in segs && s' in segs && s.base == s'.base
    ensures s == s'
  {
    assert s.Sound() && s'.Sound() && (s == s' || s.Disjoint(s'));
  }

  /** The walk of `segments_list` to a given segment. */
  method FindSegment(segs: seq<Segment>, base: nat, ghost s: Segment) returns (j: nat)
    requires SegmentsOk(segs) && s in segs && s.base == base
    ensures j < |segs| && segs[j] == s
  {
    j := 0;
    ghost var i :| 0 <= i < |segs| && segs[i] == s;
    while segs[j].base != base
      invariant j <= i
      decreases i - j
    {
      j := j + 1;
    }
    SameBase(segs, s, segs[j]);
  }

  // ---------------------------------------------------------------- resizing steps

  /** `size` changed from a block of `orig` bytes to one of `n`. */
  function Recharged(m: Mem, orig: nat, n: nat): Mem
    requires orig <= m.used
  {
    Charged(m.(used := m.used - orig), n)
  }

  /** The live block `a` grown to `e`. */
  function MemWidened(m: Mem, a: nat, e: nat): Mem
    requires a <= e && a in m.size && m.size[a].size <= m.used
  {
    Recharged(m, m.size[a].size, e - a).(size := m.size[a := Tag(e - a, Used)], prev := m.prev[e := Tag(e - a, Used)])
  }

  ghost function LedgerWidened(m: Mem, k: Ledger, a: nat, e: nat, request: nat): Ledger
    requires a <= e
  {
    k.(seg := k.seg - Inside(TilesOf(m, k), a, e), live := k.live[a := e - a], req := k.req[a := request])
  }

  lemma WidenSound(m: Mem, k: Ledger, links: Links, held: set<Ptr>, a: nat, e: nat, request: nat)
    requires Sound(m, k, links, held) && a in k.live && k.live[a] <= m.used && a in m.size
    requires e == EndOf(TilesOf(m, k), a) && a + request + HEADER <= e
    ensures m.size[a].size == k.live[a]
    ensures Sound(MemWidened(m, a, e), LedgerWidened(m, k, a, e, request), links, held - {Blk(a + m.size[a].size)})
    ensures Excess(MemWidened(m, a, e), LedgerWidened(m, k, a, e, request)) == Excess(m, k)
  {
    LiveTag(m, k, held, a);
    WidenBooks(m, k, held, a, e, request);
    Resized(m, k, MemWidened(m, a, e), LedgerWidened(m, k, a, e, request), a, e - a);
  }

  lemma WidenBooks(m: Mem, k: Ledger, held: set<Ptr>, a: nat, e: nat, request: nat)
    requires BooksOf(m, k, held).Valid(m.segs) && BooksOf(m, k, held).CoalescedBut({})
    requires a in k.live && a in m.size && m.size[a].size <= m.used && e == EndOf(TilesOf(m, k), a)
    ensures a <= e
    ensures var b' := BooksOf(MemWidened(m, a, e), LedgerWidened(m, k, a, e, request),
            held - {Blk(a + m.size[a].size)});
            b'.Valid(m.segs) && b'.CoalescedBut({})
  {
    LiveTag(m, k, held, a);
    var b := BooksOf(m, k, held);
    Widen(b, m.segs, a);
    assert BooksOf(MemWidened(m, a, e), LedgerWidened(m, k, a, e, request), held - {Blk(a + m.size[a].size)}) ==
           Widened(b, a);
  }

  lemma WidenInUse(m: Mem, k: Ledger, held: set<Ptr>, a: nat, e: nat, request: nat)
    requires BooksOf(m, k, held).Valid(m.segs) && BooksOf(m, k, held).CoalescedBut({})
    requires a in k.live && a in m.size && m.size[a].size <= m.used && e == EndOf(TilesOf(m, k), a)
    ensures a <= e && InUse(m, k, MemWidened(m, a, e), LedgerWidened(m, k, a, e, request), a)
  {
    LiveTag(m, k, held, a);
    var b := BooksOf(m, k, held);
    Widen(b, m.segs, a);
    SegmentInUse(Widened(b, a), m.segs, a);
    RewrittenInside(b, Widened(b, a), m.segs, k.seg[a], {a});
  }

  /** Changing the size of one live block changes `size` by the difference. */
  lemma Resized(m: Mem, k: Ledger, m': Mem, k': Ledger, a: nat, n: nat)
    requires a in k.live && k.live[a] <= m.used && m'.used == m.used - k.live[a] + n
    requires k'.live == k.live[a := n] && k'.cach == k.cach
    ensures Excess(m', k') == Excess(m, k)
  {
    SumSet(k.live, a, n);
    SumRemove(k.live, a);
  }

  /** The live block `a` made `ts` bytes long, the rest up to `e` a free block. */
  function MemNarrowed(m: Mem, a: nat, e: nat, ts: nat): Mem
    requires a + ts <= e && a in m.size && m.size[a].size <= m.used
  {
    var r := e - a - ts;
    Recharged(m, m.size[a].size, ts).(size := m.size[a := Tag(ts, Used)][a + ts := Tag(r, Free)],
                                      prev := m.prev[a + ts := Tag(ts, Used)][e := Tag(r, Free)])
  }

  ghost function LedgerNarrowed(m: Mem, k: Ledger, a: nat, e: nat, ts: nat, request: nat): Ledger
    requires a in k.seg
  {
    k.(seg := (k.seg - Inside(TilesOf(m, k), a, e))[a + ts := k.seg[a]], live := k.live[a := ts],
      req := k.req[a := request])
  }

  lemma NarrowSound(m: Mem, k: Ledger, links: Links, held: set<Ptr>, a: nat, e: nat, ts: nat, request: nat)
    requires Sound(m, k, links, held) && a in k.live && k.live[a] <= m.used && a in m.size && a in k.seg
    requires e == EndOf(TilesOf(m, k), a) && BlockSize(ts) && a + ts + MIN_BLOCK <= e && request + HEADER <= ts
    ensures m.size[a].size == k.live[a] && Blk(a + ts) !in held - {Blk(a + m.size[a].size)}
    ensures Sound(MemNarrowed(m, a, e, ts), LedgerNarrowed(m, k, a, e, ts, request), links,
                  held - {Blk(a + m.size[a].size)} + {Blk(a + ts)})
    ensures Excess(MemNarrowed(m, a, e, ts), LedgerNarrowed(m, k, a, e, ts, request)) == Excess(m, k)
  {
    LiveTag(m, k, held, a);
    NarrowBooks(m, k, held, a, e, ts);
    var b2 := Trimmed(Widened(BooksOf(m, k, held), a), a, ts);
    var m', k' := MemNarrowed(m, a, e, ts), LedgerNarrowed(m, k, a, e, ts, request);
    assert BooksOf(m', k', held - {Blk(a + m.size[a].size)} + {Blk(a + ts)}) == b2;
    Resized(m, k, m', k', a, ts);
  }

  lemma NarrowInUse(m: Mem, k: Ledger, held: set<Ptr>, a: nat, e: nat, ts: nat, request: nat)
    requires BooksOf(m, k, held).Valid(m.segs) && BooksOf(m, k, held).CoalescedBut({})
    requires a in k.live && a in m.size && a in k.seg && m.size[a].size <= m.used
    requires e == EndOf(TilesOf(m, k), a) && BlockSize(ts) && a + ts + MIN_BLOCK <= e
    ensures InUse(m, k, MemNarrowed(m, a, e, ts), LedgerNarrowed(m, k, a, e, ts, request), a)
  {
    NarrowBooks(m, k, held, a, e, ts);
    var b, b2 := BooksOf(m, k, held), Trimmed(Widened(BooksOf(m, k, held), a), a, ts);
    SegmentInUse(b2, m.segs, a);
    CutInStretch(m, k, held, a, ts);
    RewrittenInside(b, b2, m.segs, k.seg[a], {a, a + ts});
  }

  /** The cut, if it falls on a header, falls on one of the same segment. */
  lemma CutInStretch(m: Mem, k: Ledger, held: set<Ptr>, a: nat, ts: nat)
    requires BooksOf(m, k, held).Valid(m.segs) && BooksOf(m, k, held).CoalescedBut({}) && a in k.live && a in m.size
    requires 0 < ts && a + ts < EndOf(TilesOf(m, k), a)
    ensures a in k.seg && (a + ts in k.seg ==> k.seg[a + ts] == k.seg[a])
  {
    var b := BooksOf(m, k, held);
    assert b.Owns(a);
    Entry(b, m.segs, a);
    Stretch(b, m.segs, a);
    OnlyOwnInside(b, m.segs, a);
    Entry(b, m.segs, a + m.size[a].size);
  }

  lemma NarrowBooks(m: Mem, k: Ledger, held: set<Ptr>, a: nat, e: nat, ts: nat)
    requires BooksOf(m, k, held).Valid(m.segs) && BooksOf(m, k, held).CoalescedBut({}) && a in k.live && a in m.size
    requires m.size[a].size <= m.used
    requires e == EndOf(TilesOf(m, k), a) && BlockSize(ts) && a + ts + MIN_BLOCK <= e
    ensures var b1 := Widened(BooksOf(m, k, held), a);
            && a in k.seg && a in b1.t.seg && a in b1.t.size && ts < b1.t.size[a].size && Blk(a + ts) !in b1.held
            && var b2 := Trimmed(b1, a, ts);
            && b2.Valid(m.segs) && b2.CoalescedBut({})
            && b2.t == Tiles(MemNarrowed(m, a, e, ts).size, MemNarrowed(m, a, e, ts).prev,
                             (k.seg - Inside(TilesOf(m, k), a, e))[a + ts := k.seg[a]])
            && b2.live == k.live[a := ts] && b2.cach == k.cach
  {
    WidenAndTrim(BooksOf(m, k, held), m.segs, a, ts);
    NarrowMaps(m, a, e, ts);
    Overwrite(k.live, a, e - a, a, ts, ts);
  }

  lemma NarrowMaps(m: Mem, a: nat, e: nat, ts: nat)
    requires 0 < ts && a + ts < e && a in m.size && m.size[a].size <= m.used
    ensures var r := e - a - ts;
            && m.size[a := Tag(e - a, Used)][a := Tag(ts, Used)][a + ts := Tag(r, Free)] ==
               MemNarrowed(m, a, e, ts).size
            && m.prev[e := Tag(e - a, Used)][a + ts := Tag(ts, Used)][a + ts + r := Tag(r, Free)] ==
               MemNarrowed(m, a, e, ts).prev
  {
    Overwrite(m.size, a, Tag(e - a, Used), a, Tag(ts, Used), Tag(ts, Used));
    Overwrite(m.prev, e, Tag(e - a, Used), a + ts, Tag(ts, Used), Tag(e - a - ts, Free));
  }

  lemma WidenStep(m: Mem, k: Ledger, links: Links, home: set<Ptr>, extra: set<Ptr>, a: nat, e: nat, request: nat)
    requires Sound(m, k, links, home + extra) && Excess(m, k) >= 0 && a in k.live && a in m.size
    requires extra <= {Blk(a + m.size[a].size)} && Blk(a + m.size[a].size) !in home
    requires e == EndOf(TilesOf(m, k), a) && a + request + HEADER <= e
    ensures m.size[a].size <= m.used && Blk(a) !in home
    ensures Sound(MemWidened(m, a, e), LedgerWidened(m, k, a, e, request), links, home + {})
    ensures Moved(m, k, MemWidened(m, a, e), LedgerWidened(m, k, a, e, request), a, a, request)
    ensures Writes(m, k, MemWidened(m, a, e), LedgerWidened(m, k, a, e, request), {a, e})
    ensures SizesKept(m.size, MemWidened(m, a, e).size, {a})
  {
    LiveTag(m, k, home + extra, a);
    StretchEnd(BooksOf(m, k, home + extra), m.segs, a);
    SumRemove(k.live, a);
    WidenWrites(m, k, a, e, request);
    WidenSound(m, k, links, home + extra, a, e, request);
    WidenInUse(m, k, home + extra, a, e, request);
    assert home + extra - {Blk(a + m.size[a].size)} == home + {};
    WidenIsMoved(m, k, a, e, request);
  }

  lemma WidenIsMoved(m: Mem, k: Ledger, a: nat, e: nat, request: nat)
    requires a in k.live && a in k.req && a in m.size && m.size[a].size <= m.used && a + request + HEADER <= e
    requires InUse(m, k, MemWidened(m, a, e), LedgerWidened(m, k, a, e, request), a)
    requires Excess(MemWidened(m, a, e), LedgerWidened(m, k, a, e, request)) == Excess(m, k)
    ensures Moved(m, k, MemWidened(m, a, e), LedgerWidened(m, k, a, e, request), a, a, request)
  {
    InPlaceIsMoved(m, k, MemWidened(m, a, e), LedgerWidened(m, k, a, e, request), a, e - a, request);
  }

  lemma NarrowStep(m: Mem, k: Ledger, links: Links, home: set<Ptr>, extra: set<Ptr>, a: nat, e: nat, ts: nat,
                   request: nat)
    requires Sound(m, k, links, home + extra) && Excess(m, k) >= 0 && a in k.live && a in m.size
    requires extra <= {Blk(a + m.size[a].size)} && Blk(a + m.size[a].size) !in home
    requires e == EndOf(TilesOf(m, k), a) && BlockSize(ts) && a + ts + MIN_BLOCK <= e && request + HEADER <= ts
    ensures m.size[a].size <= m.used && Blk(a) !in home && Blk(BlockAt(a, ts)) !in home && a in k.seg
    ensures BlockAt(a, ts) in LedgerNarrowed(m, k, a, e, ts, request).seg
    ensures Sound(MemNarrowed(m, a, e, ts), LedgerNarrowed(m, k, a, e, ts, request), links,
            home + {Blk(BlockAt(a, ts))})
    ensures Moved(m, k, MemNarrowed(m, a, e, ts), LedgerNarrowed(m, k, a, e, ts, request), a, a, request)
    ensures Writes(m, k, MemNarrowed(m, a, e, ts), LedgerNarrowed(m, k, a, e, ts, request), {a, BlockAt(a, ts), e})
    ensures SizesKept(m.size, MemNarrowed(m, a, e, ts).size, {a, BlockAt(a, ts)})
  {
    LiveTag(m, k, home + extra, a);
    StretchEnd(BooksOf(m, k, home + extra), m.segs, a);
    SumRemove(k.live, a);
    NarrowWrites(m, k, a, e, ts, request);
    NarrowSound(m, k, links, home + extra, a, e, ts, request);
    NarrowInUse(m, k, home + extra, a, e, ts, request);
    assert home + extra - {Blk(a + m.size[a].size)} == home;
    InPlaceIsMoved(m, k, MemNarrowed(m, a, e, ts), LedgerNarrowed(m, k, a, e, ts, request), a, ts, request);
  }

  // ---------------------------------------------------------------- segments

  /** A segment that the storage can deliver: in the address space, beside all others. */
  ghost predicate Deliverable(s: Segment, segs: seq<Segment>) {
    s.Sound() && forall s' {:trigger s'.Disjoint(s)} :: s' in segs ==> s'.Disjoint(s)
  }

  /** A new segment in the list, with its first-block mark, its guard and one free block. */
  function MemOpened(m: Mem, i: nat, s: Segment): Mem
    requires s.Sound() && i <= |m.segs|
  {
    var tag := Tag(s.size - SEGMENT_HEADER - HEADER, Free);
    m.(segs := m.segs[..i] + [s] + m.segs[i..],
       size := m.size[s.GuardAt() := GUARD_TAG][s.First() := tag],
       prev := m.prev[s.First() := FIRST_MARK][s.GuardAt() := tag],
       realSize := m.realSize + s.size, realPeak := Max(m.realPeak, m.realSize + s.size))
  }

  ghost function LedgerOpened(k: Ledger, s: Segment): Ledger
    requires s.Sound()
  {
    k.(seg := k.seg[s.First() := s][s.GuardAt() := s])
  }

  lemma OpenSound(m: Mem, k: Ledger, links: Links, held: set<Ptr>, i: nat, s: Segment)
    requires Sound(m, k, links, held) && Deliverable(s, m.segs) && i <= |m.segs|
    ensures Sound(MemOpened(m, i, s), LedgerOpened(k, s), links, held + {Blk(s.First())})
    ensures s !in m.segs && Blk(s.First()) !in held && Blk(s.GuardAt()) !in held
    ensures m.realSize + s.size < WORD
    ensures TilesOf(MemOpened(m, i, s), LedgerOpened(k, s)).IsFree(s.First())
    ensures NoneFreed(TilesOf(m, k), m.segs, TilesOf(MemOpened(m, i, s), LedgerOpened(k, s)), m.segs)
  {
    var b0 := BooksOf(m, k, held);
    var m', k' := MemOpened(m, i, s), LedgerOpened(k, s);
    InsertedSegment(m.segs, i, s);
    Extend(b0, m.segs, s, m'.segs);
    assert BooksOf(m', k', held + {Blk(s.First())}) == Extended(b0, s);
    Open(b0.t, m.segs, s, Free, m'.segs);
    InsertedNoRepeat(m.segs, i, s);
    assert !b0.Owns(s.First()) && !b0.Owns(s.GuardAt());
    AddressSpace(m'.segs);
    forall s' | s' in m.segs && WhollyFree(TilesOf(m', k'), s') ensures WhollyFree(b0.t, s') {
      assert b0.t.Closed(s');
      Entry(b0, m.segs, s'.First());
    }
  }

  lemma OpenStep(m: Mem, k: Ledger, links: Links, home: set<Ptr>, i: nat, s: Segment, blockSize: nat)
    requires Sound(m, k, links, home + {}) && Deliverable(s, m.segs) && i <= |m.segs|
    requires Grained(m.segs, blockSize) && blockSize <= s.size
    ensures Sound(MemOpened(m, i, s), LedgerOpened(k, s), links, home + {Blk(s.First())})
    ensures Blk(s.First()) !in home && Blk(s.GuardAt()) !in home && MemOpened(m, i, s).realSize < WORD
    ensures TilesOf(MemOpened(m, i, s), LedgerOpened(k, s)).IsFree(s.First()) &&
            Grained(MemOpened(m, i, s).segs, blockSize)
    ensures NoneFreed(TilesOf(m, k), m.segs, TilesOf(MemOpened(m, i, s), LedgerOpened(k, s)), m.segs)
    ensures Writes(m, k, MemOpened(m, i, s), LedgerOpened(k, s), OpenedHeaders(s))
    ensures SizesKept(m.size, MemOpened(m, i, s).size, {s.First(), s.GuardAt()})
  {
    OpenSound(m, k, links, home + {}, i, s);
    OpenWrites(m, k, i, s);
    InsertedSegment(m.segs, i, s);
    assert home + {} + {Blk(s.First())} == home + {Blk(s.First())};
  }

  lemma OpenedAlone(m: Mem, k: Ledger, s: Segment)
    requires m.segs == [] && m.realSize == 0 && m.realPeak == 0 && s.Sound()
    ensures var m', k' := MemOpened(m, 0, s), LedgerOpened(k, s);
            && m'.segs == [s] && m'.realSize == s.size == m'.realPeak && m'.limit == m.limit
            && k'.live == k.live && k'.req == k.req && k'.cach == k.cach && Excess(m', k') == Excess(m, k)
            && s.First() in m'.size && m'.size[s.First()].size == s.size - SEGMENT_HEADER - HEADER
  {
  }

  lemma InsertedSegment(segs: seq<Segment>, i: nat, s: Segment)
    requires i <= |segs|
    ensures forall s' :: s' in segs[..i] + [s] + segs[i..] <==> s' in segs || s' == s
    ensures Total(segs[..i] + [s] + segs[i..]) == Total(segs) + s.size
  {
    assert segs == segs[..i] + segs[i..];
    TotalConcat(segs[..i], segs[i..]);
    TotalConcat(segs[..i] + [s], segs[i..]);
    TotalConcat(segs[..i], [s]);
    assert Total([s]) == s.size;
  }

  lemma InsertedNoRepeat(segs: seq<Segment>, i: nat, s: Segment)
    requires i <= |segs| && NoRepeat(segs) && s !in segs
    ensures NoRepeat(segs[..i] + [s] + segs[i..])
  {
    var r := segs[..i] + [s] + segs[i..];
    forall j | 0 <= j < |r| ensures r[j] == if j < i then segs[j] else if j == i then s else segs[j - 1] { }
  }

  lemma AddressSpace(segs: seq<Segment>)
    requires SegmentsOk(segs) && NoRepeat(segs)
    ensures Total(segs) < WORD
  {
    forall s | s in segs ensures 1 <= s.base && s.base + s.size <= WORD && s.size > 0 { assert s.Sound(); }
    TotalFits(segs, 1, WORD);
  }

  /** Tags rewritten outside the index do not disturb it. */
  lemma TagsBeside(l: Lists, t: Tree, fb: nat, lb: nat, rc: nat, tag': map<nat, Tag>, touched: set<nat>)
    requires IndexOk(l, t, fb, lb, rc)
    requires forall a :: a in touched ==> Blk(a) !in l.home
    requires forall a :: a in t.tag && a !in touched ==> a in tag' && tag'[a] == t.tag[a]
    ensures IndexOk(l, t.(tag := tag'), fb, lb, rc)
  {
    forall a: nat | Blk(a) in l.home ensures a in t.tag && a in tag' && tag'[a].size == t.tag[a].size {
      assert Placed(l, t, a);
    }
    IndexTagFrame(l, t, fb, lb, rc, tag');
  }

  /** The block at `a` has `ts` bytes, or a little more that could not be a block. */
  ghost predicate Snug(k: Ledger, a: nat, ts: nat) {
    a in k.live && ts <= k.live[a] < ts + MIN_BLOCK
  }

  /** The limit is the reason exactly if there was no block and no room for a segment under the limit;
      only the storage can then still fail. */
  ghost predicate Explained(r: Outcome, unservable: bool, overLimit: bool) {
    && (r.LimitExceeded? <==> unservable && overLimit) && (r.OutOfMemory? ==> unservable && !overLimit) &&
       !r.StorageLost?
  }

  /** One segment of `n` bytes was put in front of the list, and its first block is `b`. */
  ghost predicate Prepended(segs: seq<Segment>, segs': seq<Segment>, n: nat, b: nat) {
    segs' != [] && segs'[1..] == segs && segs'[0].size == n && segs'[0].First() == b
  }

  /** The segments are as before, or one of `n` bytes was added for the block `b`, for want of a fit. */
  ghost predicate Supplied(segs: seq<Segment>, segs': seq<Segment>, n: nat, b: nat, wanting: bool) {
    segs' == segs || (wanting && Prepended(segs, segs', n, b))
  }

  /** The peaks are raised to what is in use, if that is more, and no further. */
  predicate Peaked(m: Mem, m': Mem) {
    m'.peak == Max(m.peak, m'.used) && m'.realPeak == Max(m.realPeak, m'.realSize)
  }

  /** A block of at least `request` bytes behind its header was handed out at `a`, and nothing
      else moved; no segment was left free from end to end, and the limit was kept. */
  ghost predicate Handed(m: Mem, k: Ledger, m': Mem, k': Ledger, a: nat, request: nat) {
    && a !in k.live && a in k'.live && request + HEADER <= k'.live[a]
    && k'.live == k.live[a := k'.live[a]] && k'.req == k.req[a := request]
    && Excess(m', k') == Excess(m, k)
    && m'.limit == m.limit && (m'.realSize <= m.realSize || m'.realSize <= m.limit) && Peaked(m, m')
    && NoneFreed(TilesOf(m, k), m.segs, TilesOf(m', k'), m'.segs)
    && (forall s :: s in m.segs ==> s in m'.segs) && (forall c :: c in k'.cach ==> c in k.cach)
    && a in k'.seg && !WhollyFree(TilesOf(m', k'), k'.seg[a])
  }

  lemma PoppedIsHanded(m: Mem, k: Ledger, m': Mem, k': Ledger, held: set<Ptr>, a: nat, request: nat, n: nat)
    requires BooksOf(m', k', held).Valid(m'.segs)
    requires m' == m.(cache := m'.cache, cached := m'.cached) && k'.seg == k.seg && m.realSize == m'.realSize
    requires m.used <= m.peak && m.realSize <= m.realPeak
    requires forall c :: c in k'.cach ==> c in k.cach
    requires a !in k.live && k'.live == k.live[a := n] && k'.req == k.req[a := request] && request + HEADER <= n
    requires Excess(m', k') == Excess(m, k)
    ensures Handed(m, k, m', k', a, request)
  {
    SegmentInUse(BooksOf(m', k', held), m'.segs, a);
  }

  lemma CarvedIsHanded(m: Mem, k: Ledger, m': Mem, k': Ledger, b: nat, request: nat)
    requires InUse(m, k, m', k', b) && b !in k.live && b in k'.live && request + HEADER <= k'.live[b] &&
             k'.cach == k.cach
    requires k'.live == k.live[b := k'.live[b]] && k'.req == k.req[b := request]
    requires m'.limit == m.limit && m'.realSize == m.realSize && Excess(m', k') == Excess(m, k) && Peaked(m, m')
    ensures Handed(m, k, m', k', b, request)
  {
  }

  lemma OpenedIsHanded(m: Mem, k: Ledger, i: nat, s: Segment, m': Mem, k': Ledger, request: nat)
    requires s.Sound() && i <= |m.segs| && m.realSize + s.size <= m.limit
    requires NoneFreed(TilesOf(m, k), m.segs, TilesOf(MemOpened(m, i, s), LedgerOpened(k, s)), m.segs)
    requires Handed(MemOpened(m, i, s), LedgerOpened(k, s), m', k', s.First(), request)
    requires m'.segs == MemOpened(m, i, s).segs && m'.realSize == m.realSize + s.size && k'.seg[s.First()] == s
    ensures Handed(m, k, m', k', s.First(), request)
  {
    InsertedSegment(m.segs, i, s);
  }

  /** What a request for a block of `ts` bytes comes to, and which block it gets. */
  ghost predicate Answered(w: Words, g: Shape, m: Mem, blockSize: nat, ts: nat, r: Outcome)
    requires BlockSize(ts) && blockSize > 0
  {
    && Explained(r, NoneFor(w, g, m, blockSize, ts), OverLimit(m, blockSize, ts))
    && (r.Granted? ==> Chosen(w, g, m, blockSize, ts, r.block))
  }

  /** The outcome of a request is the one that the words of the heap call for, as far as the storage does not
      decide it. */
  ghost predicate AllocJustified(w: Words, g: Shape, m: Mem, blockSize: nat, size: nat, r: Outcome)
    requires blockSize > 0
  {
    var ts := TrueSize(size);
    if ts < size then r.OutOfMemory?
    else BlockSize(ts) && Answered(w, g, m, blockSize, ts, r)
  }

  /** The block `a` and a free block behind it have room for `ts` bytes. */
  ghost predicate HasRoom(m: Mem, k: Ledger, a: nat, ts: nat)
    requires a in m.size
  {
    a + ts <= EndOf(TilesOf(m, k), a)
  }

  /** The block `a` is the first of its segment, with at most a free block between it and the guard. */
  ghost predicate Alone(m: Mem, k: Ledger, a: nat)
    requires a in m.size
  {
    && a in m.prev && m.prev[a] == FIRST_MARK
    && EndOf(TilesOf(m, k), a) in m.size && m.size[EndOf(TilesOf(m, k), a)].mark == Guard
  }

  /** The segment `s` alone was replaced, by one of `n` bytes whose first block is `b`. */
  ghost predicate Regrown(segs: seq<Segment>, segs': seq<Segment>, s: Segment, n: nat, b: nat) {
    && |segs'| == |segs|
    && forall i :: 0 <= i < |segs| ==>
         if segs[i] == s then segs'[i].size == n && segs'[i].First() == b else segs'[i] == segs[i]
  }

  /** What growing the live block `a` to `ts` bytes comes to: a cached block of that size is taken; else the
      block grows in place if it has room; else, if it is alone in its segment, the limit is the reason exactly
      if the grown segment wraps or exceeds it, and otherwise the storage decides; else it is as for allocation. */
  ghost predicate Decided(w: Words, g: Shape, m: Mem, k: Ledger, blockSize: nat, a: nat, ts: nat,
                          r: Outcome, segs': seq<Segment>)
    requires BlockSize(ts) && blockSize > 0 && a in m.size && a in k.seg
  {
    if CacheHit(m, ts) then r.Granted? && m.cache[BucketIndex(ts)] == Blk(r.block) && segs' == m.segs
    else if HasRoom(m, k, a, ts) then r == Granted(a) && segs' == m.segs
    else if Alone(m, k, a) then
      && !r.OutOfMemory? && (r.LimitExceeded? <==> GrowthOverLimit(m, k.seg[a], blockSize, ts))
      && (r.Granted? ==> Regrown(m.segs, segs', k.seg[a], SegmentSize(ts, blockSize), r.block))
    else Answered(w, g, m, blockSize, ts, r)
  }

  /** The same for a request to resize the live block `a`: only growing it can fail, or move it. */
  ghost predicate ReallocJustified(w: Words, g: Shape, m: Mem, k: Ledger, blockSize: nat, a: nat, size: nat,
                                   r: Outcome, segs': seq<Segment>)
    requires blockSize > 0
  {
    var ts := TrueSize(size);
    if ts < size then r.OutOfMemory?
    else if a !in k.live then false
    else if ts <= k.live[a] then r == Granted(a)
    else BlockSize(ts) && a in m.size && a in k.seg && Decided(w, g, m, k, blockSize, a, ts, r, segs')
  }

  /** The block at `a` was resized to at least `request` bytes, and is now at `b`; nothing else moved. */
  ghost predicate Moved(m: Mem, k: Ledger, m': Mem, k': Ledger, a: nat, b: nat, request: nat) {
    && a in k.live && b in k'.live && (b == a || b !in k.live) && request + HEADER <= k'.live[b]
    && k'.live == (k.live - {a})[b := k'.live[b]] && k'.req == (k.req - {a})[b := request]
    && Excess(m', k') == Excess(m, k)
    && m'.limit == m.limit && (m'.realSize <= m.realSize || m'.realSize <= m.limit)
    && NoneFreed(TilesOf(m, k), m.segs, TilesOf(m', k'), m'.segs)
  }

  lemma InPlaceIsMoved(m: Mem, k: Ledger, m': Mem, k': Ledger, a: nat, n: nat, request: nat)
    requires InUse(m, k, m', k', a) && a in k.live && a in k.req && request + HEADER <= n
    requires k'.live == k.live[a := n] && k'.req == k.req[a := request]
    requires m'.limit == m.limit && m'.realSize == m.realSize && Excess(m', k') == Excess(m, k)
    ensures Moved(m, k, m', k', a, a, request)
  {
  }

  /** Every other block is in another segment than a block that fills its own but for a free tail. */
  lemma OnlyBlock(m: Mem, k: Ledger, links: Links, held: set<Ptr>, a: nat, e: nat, c: nat)
    requires Sound(m, k, links, held) && a in k.live && a in m.size && a in m.prev && c in k.live && c != a
    requires e == EndOf(TilesOf(m, k), a) && e in m.size && m.prev[a] == FIRST_MARK && m.size[e].mark == Guard
    ensures a in k.seg && c in k.seg && k.seg[c] in m.segs && k.seg[c] != k.seg[a]
    ensures k.seg[c].First() <= c && c + k.live[c] <= k.seg[c].GuardAt()
  {
    var b := BooksOf(m, k, held);
    SegmentOfStretch(m, k, links, held, a, a, e);
    OnlyOwnInside(b, m.segs, a);
    LiveTag(m, k, held, c);
    Entry(b, m.segs, c);
    Entry(b, m.segs, a);
    Entry(b, m.segs, c + m.size[c].size);
    assert b.Kind(c) && !b.t.IsFree(c);
  }

  /** A segment moved by the storage takes along the payload of its only block. */
  lemma SegmentMoves(d: Bytes, d': Bytes, m: Mem, k: Ledger, links: Links, held: set<Ptr>, a: nat, e: nat, base: nat,
                     n: nat)
    requires Sound(m, k, links, held) && a in k.live && a in m.size && a in m.prev && a in k.seg
    requires e == EndOf(TilesOf(m, k), a) && e in m.size && m.prev[a] == FIRST_MARK && m.size[e].mark == Guard
    requires Relocated(d, d', k.seg[a], base, n)
    requires OthersBeside(m.segs, k.seg[a], Segment(base, n))
    ensures Copied(d, d', a, Segment(base, n).First(), k.live[a] - HEADER) && OthersKept(d, d', k.live, a)
  {
    var s := k.seg[a];
    SegmentOfStretch(m, k, links, held, a, a, e);
    LiveTag(m, k, held, a);
    Stretch(BooksOf(m, k, held), m.segs, a);
    forall i: nat | i < k.live[a] - HEADER ensures d'(ByteOf(Segment(base, n).First(), i)) == d(ByteOf(a, i)) {
      var j := SEGMENT_HEADER + HEADER + i;
      assert d'(Offset(base, j)) == d(Offset(s.base, j));
      assert Offset(base, j) == ByteOf(Segment(base, n).First(), i) && Offset(s.base, j) == ByteOf(a, i);
    }
    forall c | c in k.live && c != a ensures Kept(d, d', c, k.live[c]) {
      OnlyBlock(m, k, links, held, a, e, c);
      assert k.seg[c].Disjoint(s) && k.seg[c].Disjoint(Segment(base, n));
    }
  }

  // ---------------------------------------------------------------- which words a step writes

  /** Tags differ at the headers `written` only, each of which is a header before or after. */
  ghost predicate Writes(m: Mem, k: Ledger, m': Mem, k': Ledger, written: set<nat>) {
    && (forall h {:trigger SameAt(m.size, m'.size, h)} {:trigger SameAt(m.prev, m'.prev, h)} :: h !in written ==>
          SameAt(m.size, m'.size, h) && SameAt(m.prev, m'.prev, h))
    && (forall h {:trigger h in k.seg} {:trigger h in k'.seg} :: h in written ==>
          h in k.seg || h in k'.seg || exists s :: s in m'.segs && s.base == h)
  }

  /** No size tag differs outside `touched`. */
  ghost predicate SizesKept(size: map<nat, Tag>, size': map<nat, Tag>, touched: set<nat>) {
    forall a :: a in size && a !in touched ==> a in size' && size'[a] == size[a]
  }

  lemma WritesSpare(m: Mem, k: Ledger, held: set<Ptr>, m': Mem, k': Ledger, held': set<Ptr>, written: set<nat>,
                    d: Bytes)
    returns (d': Bytes)
    requires BooksOf(m, k, held).Valid(m.segs) && BooksOf(m', k', held').Valid(m'.segs) && Writes(m, k, m', k', written)
    ensures Rewritten(d, d', written) && Spared(d, d', k.live, k'.live)
  {
    assert Rewritten(d, d, written);
    d' :| Rewritten(d, d', written);
    var b, b' := BooksOf(m, k, held), BooksOf(m', k', held');
    forall h | h in written ensures IsHeader(b, m.segs, h) || IsHeader(b', m'.segs, h) { }
    RewriteSpares(b, m.segs, b', m'.segs, written, d, d');
  }

  /** Headers written around the front of a block leave its payload alone. */
  lemma FrontKept(d: Bytes, d': Bytes, written: set<nat>, b: nat, n: nat)
    requires Rewritten(d, d', written) && forall h :: h in written ==> h <= b || b + n <= h
    ensures Kept(d, d', b, n)
  {
  }

  /** Byte `x` belongs to a word of the block at `p` that a step of the index changed: one of the two links behind
      the header, or one of the three tree fields behind those. */
  ghost predicate WordByte(l: Lists, t: Tree, l': Lists, t': Tree, p: nat, x: nat) {
    || (!KeepLinks(l, l', p) && p + HEADER <= x < p + HEADER + 16)
    || (!KeepFields(t, t', p) && p + HEADER + 16 <= x < p + HEADER + 40)
  }

  /** No byte outside the words that the step changed differs. */
  ghost predicate WordsRewritten(d: Bytes, d': Bytes, l: Lists, t: Tree, l': Lists, t': Tree) {
    forall x: nat {:trigger d'(x)} ::
      (forall p: nat {:trigger WordByte(l, t, l', t', p, x)} :: !WordByte(l, t, l', t', p, x)) ==> d'(x) == d(x)
  }

  /** The index words that a step changed may then hold anything. */
  lemma IndexSpares(l: Lists, t: Tree, l': Lists, t': Tree, m: Mem, k: Ledger, held: set<Ptr>, inside: set<Ptr>,
                    d: Bytes)
    returns (d': Bytes)
    requires WordsKept(l, t, l', t', inside) && inside <= held && t.tag == m.size && BooksOf(m, k, held).Valid(m.segs)
    ensures WordsRewritten(d, d', l, t, l', t') && Spared(d, d', k.live, k.live)
  {
    assert WordsRewritten(d, d, l, t, l', t');
    d' :| WordsRewritten(d, d', l, t, l', t');
    var b := BooksOf(m, k, held);
    forall x: nat | forall p: nat {:trigger FieldByte(b, p, x)} :: !FieldByte(b, p, x) ensures d'(x) == d(x) {
      Untouched(d, d', l, t, l', t', m, k, held, inside, x);
    }
    RelinkSpares(b, m.segs, d, d');
  }

  lemma Untouched(d: Bytes, d': Bytes, l: Lists, t: Tree, l': Lists, t': Tree, m: Mem, k: Ledger, held: set<Ptr>,
                  inside: set<Ptr>, x: nat)
    requires WordsKept(l, t, l', t', inside) && inside <= held && t.tag == m.size && BooksOf(m, k, held).Valid(m.segs)
    requires WordsRewritten(d, d', l, t, l', t')
    requires forall p: nat {:trigger FieldByte(BooksOf(m, k, held), p, x)} :: !FieldByte(BooksOf(m, k, held), p, x)
    ensures d'(x) == d(x)
  {
    forall p: nat ensures !WordByte(l, t, l', t', p, x) {
      ChangedWordsAreFields(l, t, l', t', m, k, held, inside, p, x);
    }
  }

  /** A word of a block that a step of the index changed lies in the fields that such a free block has. */
  lemma ChangedWordsAreFields(l: Lists, t: Tree, l': Lists, t': Tree, m: Mem, k: Ledger, held: set<Ptr>,
                              inside: set<Ptr>, p: nat, x: nat)
    requires WordsKept(l, t, l', t', inside) && inside <= held && t.tag == m.size && BooksOf(m, k, held).Valid(m.segs)
    ensures WordByte(l, t, l', t', p, x) ==> FieldByte(BooksOf(m, k, held), p, x)
  {
    var b := BooksOf(m, k, held);
    if Blk(p) in held {
      assert b.Owns(p);
      assert b.Kind(p);
    }
  }

  /** The link of a block that is now cached may hold anything. */
  lemma LinkSparesAt(b: Books, segs: seq<Segment>, p: nat, live: map<nat, nat>, d: Bytes) returns (d': Bytes)
    requires b.Valid(segs) && p in b.cach
    ensures Spared(d, d', live, b.live)
  {
    assert LinkWritten(d, d, p);
    d' :| LinkWritten(d, d', p);
    LinkSpares(b, segs, p, live, d, d');
  }

  /** Between handing out `b` and giving up `a`, the payload of `a` was copied. */
  lemma CopyCarries(m: Mem, k: Ledger, held: set<Ptr>, d: Bytes, d1: Bytes, d3: Bytes,
                    live: map<nat, nat>, live3: map<nat, nat>, a: nat, b: nat)
    requires BooksOf(m, k, held).Valid(m.segs) && a in live && b !in live && b in k.live &&
             k.live == live[b := k.live[b]]
    requires live3 == k.live - {a} && live[a] <= k.live[b] && a in k.live
    requires Spared(d, d1, live, k.live) && Spared(CopiedBytes(d1, a, b, k.live[a]), d3, k.live, live3)
    ensures Carried(d, d3, live, live3, a, b)
  {
    LivePayloads(m, k, held);
    MoveCarries(d, d1, d3, live, k.live, live3, a, b);
  }

  lemma BlockEnds(m: Mem, k: Ledger, held: set<Ptr>, a: nat)
    requires BooksOf(m, k, held).Valid(m.segs) && a in k.live
    ensures a in m.size && a + k.live[a] <= EndOf(TilesOf(m, k), a)
  {
    LiveTag(m, k, held, a);
  }

  lemma MovedInPlace(m: Mem, k: Ledger, m': Mem, k': Ledger, d: Bytes, d': Bytes, a: nat, request: nat)
    requires Moved(m, k, m', k', a, a, request) && Spared(d, d', k.live, k'.live)
    ensures Carried(d, d', k.live, k'.live, a, a)
  {
    SparedIsCarried(d, d', k.live, k'.live, a);
  }

  /** The headers written when the free block `b` is handed out whole, when it is cut, and when a
      segment is opened. */
  ghost function TakenHeaders(m: Mem, b: nat): set<nat>
    requires b in m.size
  {
    {b, b + m.size[b].size}
  }

  ghost function CutHeaders(m: Mem, b: nat, ts: nat): set<nat>
    requires b in m.size
  {
    {b, b + ts, b + m.size[b].size}
  }

  ghost function OpenedHeaders(s: Segment): set<nat>
    requires s.Sound()
  {
    {s.base, s.First(), s.GuardAt()}
  }

  lemma TakeStep(m: Mem, k: Ledger, links: Links, home: set<Ptr>, b: nat, request: nat)
    requires Sound(m, k, links, home + {Blk(b)}) && Blk(b) !in home
    requires TilesOf(m, k).IsFree(b) && request + HEADER <= m.size[b].size
    ensures var m', k' := MemTaken(m, b), LedgerTaken(k, b, m.size[b].size, request);
            && Sound(m', k', links, home + {}) && b !in k.live && Excess(m', k') == Excess(m, k)
            && InUse(m, k, m', k', b) && Writes(m, k, m', k', TakenHeaders(m, b)) && SizesKept(m.size, m'.size, {b})
  {
    TakeSound(m, k, links, home + {Blk(b)}, b, request);
    assert home + {Blk(b)} - {Blk(b)} == home + {};
    Entry(BooksOf(m, k, home + {Blk(b)}), m.segs, b);
  }

  lemma CutStep(m: Mem, k: Ledger, links: Links, home: set<Ptr>, b: nat, ts: nat, request: nat)
    requires Sound(m, k, links, home + {Blk(b)}) && Blk(b) !in home && TilesOf(m, k).IsFree(b)
    requires BlockSize(ts) && ts + MIN_BLOCK <= m.size[b].size && request + HEADER <= ts
    ensures b in k.seg && b !in k.live && Blk(BlockAt(b, ts)) !in home
    ensures var m', k' := MemCut(m, b, ts), LedgerCut(k, b, ts, request);
            && Sound(m', k', links, home + {Blk(BlockAt(b, ts))}) && BlockAt(b, ts) in k'.seg
            && Excess(m', k') == Excess(m, k) && InUse(m, k, m', k', b) && Writes(m, k, m', k', CutHeaders(m, b, ts))
            && SizesKept(m.size, m'.size, {b, BlockAt(b, ts)})
  {
    CutSound(m, k, links, home + {Blk(b)}, b, ts, request);
    CutHeld(home, b, ts);
    CutWrites(m, k, home + {Blk(b)}, b, ts, request);
  }

  lemma CutHeld(home: set<Ptr>, b: nat, ts: nat)
    requires Blk(b) !in home
    ensures home + {Blk(b)} - {Blk(b)} + {Blk(b + ts)} == home + {Blk(BlockAt(b, ts))}
  {
  }

  lemma CutWrites(m: Mem, k: Ledger, held: set<Ptr>, b: nat, ts: nat, request: nat)
    requires BooksOf(m, k, held).Valid(m.segs) && TilesOf(m, k).IsFree(b) && ts <= m.size[b].size
    ensures b in k.seg && Writes(m, k, MemCut(m, b, ts), LedgerCut(k, b, ts, request), CutHeaders(m, b, ts))
    ensures SizesKept(m.size, MemCut(m, b, ts).size, {b, BlockAt(b, ts)})
    ensures BlockAt(b, ts) in LedgerCut(k, b, ts, request).seg
  {
    Entry(BooksOf(m, k, held), m.segs, b);
  }

  lemma TakeKeeps(d: Bytes, d': Bytes, m: Mem, b: nat)
    requires b in m.size && Rewritten(d, d', TakenHeaders(m, b))
    ensures Kept(d, d', b, m.size[b].size)
  {
    FrontKept(d, d', TakenHeaders(m, b), b, m.size[b].size);
  }

  lemma CutKeeps(d: Bytes, d': Bytes, m: Mem, b: nat, ts: nat)
    requires b in m.size && ts <= m.size[b].size && Rewritten(d, d', CutHeaders(m, b, ts))
    ensures Kept(d, d', b, ts)
  {
    FrontKept(d, d', CutHeaders(m, b, ts), b, ts);
  }

  lemma OpenKeeps(d: Bytes, d': Bytes, s: Segment)
    requires s.Sound() && Rewritten(d, d', OpenedHeaders(s))
    ensures Kept(d, d', s.First(), s.size - SEGMENT_HEADER - HEADER)
  {
    FrontKept(d, d', OpenedHeaders(s), s.First(), s.size - SEGMENT_HEADER - HEADER);
  }

  lemma OpenedThenTaken(d: Bytes, d1: Bytes, d2: Bytes, live: map<nat, nat>, live': map<nat, nat>, s: Segment, ts: nat)
    requires s.Sound() && ts <= s.size - SEGMENT_HEADER - HEADER
    requires Spared(d, d1, live, live) && Spared(d1, d2, live, live')
    requires Kept(d, d1, s.First(), s.size - SEGMENT_HEADER - HEADER) && Kept(d1, d2, s.First(), ts)
    ensures Spared(d, d2, live, live') && Kept(d, d2, s.First(), ts)
  {
    SparedThen(d, d1, d2, live, live');
    KeptOn(d, d1, d2, s.First(), Capacity(s.size), ts, ts);
  }

  /** All segments but `s` are beside `s'`. */
  ghost predicate OthersBeside(segs: seq<Segment>, s: Segment, s': Segment) {
    forall s1 {:trigger s1.Disjoint(s')} :: s1 in segs && s1 != s ==> s1.Disjoint(s')
  }

  lemma FreeWrites(m: Mem, k: Ledger, held: set<Ptr>, a: nat, p: nat, e: nat)
    requires p <= e && p in k.seg && e in k.seg
    ensures Writes(m, k, MemFreed(m, p, e), LedgerFreed(m, k, a, p, e), {p, e})
  {
  }

  lemma DropWrites(m: Mem, k: Ledger, j: nat, k': Ledger)
    requires j < |m.segs| && m.segs[j].size <= m.realSize
    ensures Writes(m, k, MemDropped(m, j), k', {})
  {
  }

  lemma OpenWrites(m: Mem, k: Ledger, i: nat, s: Segment)
    requires s.Sound() && i <= |m.segs|
    ensures Writes(m, k, MemOpened(m, i, s), LedgerOpened(k, s), OpenedHeaders(s))
  {
    InsertedSegment(m.segs, i, s);
  }

  lemma WidenWrites(m: Mem, k: Ledger, a: nat, e: nat, request: nat)
    requires a <= e && a in m.size && m.size[a].size <= m.used && a in k.seg && e in k.seg
    ensures Writes(m, k, MemWidened(m, a, e), LedgerWidened(m, k, a, e, request), {a, e})
  {
  }

  lemma NarrowWrites(m: Mem, k: Ledger, a: nat, e: nat, ts: nat, request: nat)
    requires a + ts <= e && a in m.size && m.size[a].size <= m.used && a in k.seg && e in k.seg
    ensures Writes(m, k, MemNarrowed(m, a, e, ts), LedgerNarrowed(m, k, a, e, ts, request), {a, a + ts, e})
  {
  }

  lemma EmptyBooks(m: Mem, k: Ledger, l: Lists, t: Tree)
    requires m.segs == [] && k.seg == map[] && k.live == map[] && k.cach == map[]
    requires forall a: nat :: Blk(a) !in l.home
    ensures BooksOf(m, k, l.home.Keys + {}).Valid(m.segs) && BooksOf(m, k, l.home.Keys + {}).CoalescedBut({})
  {
    var b := BooksOf(m, k, l.home.Keys + {});
    forall h ensures !b.Owns(h) { }
  }

  /** What holds of the words of the index and of the heap between operations. */
  ghost predicate CoreOf(w: Words, g: Shape, m: Mem, k: Ledger, blockSize: nat, extra: set<Ptr>) {
    && IndexOk(ListsOf(w, g), TreeOf(w, g, m.size), w.freeBitmap, w.largeBitmap, w.restCount)
    && (forall p :: p in extra ==> p !in g.home) && Sound(m, k, w.prev, g.home.Keys + extra)
    && Granularity(blockSize) && Grained(m.segs, blockSize)
  }

  ghost predicate Filling(m: Mem, k: Ledger, home: set<Ptr>, a: nat, e: nat, extra: set<Ptr>) {
    && a in k.live && a in m.size && a in m.prev && a in k.seg
    && e == EndOf(TilesOf(m, k), a) && e in m.size && m.prev[a] == FIRST_MARK && m.size[e].mark == Guard
    && var next := BlockAt(a, m.size[a].size);
    && next in m.size && next in k.seg && Blk(next) !in home
    && extra == if TilesOf(m, k).IsFree(next) then {Blk(next)} else {}
  }

  /** `size` lowered for a live block, then the block given back: `size` exceeds the blocks by as much as before. */
  lemma GivenBack(m0: Mem, m1: Mem, m2: Mem, k: Ledger, k': Ledger, a: nat)
    requires a in k.live && Excess(m1, k) == Excess(m0, k) - k.live[a] && m2.used == m1.used
    requires k'.live == k.live - {a} && k'.cach == k.cach
    ensures Excess(m2, k') == Excess(m0, k)
  {
    SumRemove(k.live, a);
  }

  /** Where the index has put the free block `b`: at the end of the rest list, if that is wanted and it has room, or
      in the small bucket of its size. */
  ghost predicate Filed(w: Words, g: Shape, w': Words, g': Shape, tag: map<nat, Tag>, b: nat, toRest: bool) {
    && (toRest && w.restCount < MAX_REST_BLOCKS ==> Appended(w, g, w', g', b))
    && (!toRest && b in tag && BlockSize(tag[b].size) && IsSmall(tag[b].size) ==>
          Bucketed(w, g, w', g', BucketIndex(tag[b].size), b))
  }

  /** The bytes between the header and the guard of a segment of `n` bytes. */
  function Capacity(n: nat): int {
    n - SEGMENT_HEADER - HEADER
  }

  function FreeTag(n: nat): Tag {
    Tag(n, Free)
  }

  /** A block of `n` bytes at `b` was cut to `ts` bytes if what is left can be a block, which was then indexed. */
  ghost predicate LeftOver(w: Words, g: Shape, m: Mem, b: nat, n: int, ts: nat, toRest: bool) {
    ts + MIN_BLOCK <= n ==>
      && BlockAt(b, ts) in m.size && m.size[BlockAt(b, ts)] == FreeTag(n - ts)
      && Shelved(w, g, m.size, BlockAt(b, ts), toRest)
  }

  /** The live block `a` was given back: its segment is gone if it was the last block in it; else it is, with its free
      neighbours, one free block in the index, and not on the rest list. */
  ghost predicate GivenTo(m: Mem, k: Ledger, w': Words, g': Shape, m': Mem, a: nat) {
    && a in m.size && a in m.prev && a in k.seg
    && var p, e := StartOf(TilesOf(m, k), a), EndOf(TilesOf(m, k), a);
    && 0 <= p <= e && p in m.prev && e in m.size
    && if m.prev[p] == FIRST_MARK && m.size[e].mark == Guard
       then forall s :: s in m'.segs <==> s in m.segs && s != k.seg[a]
       else m'.segs == m.segs && p in m'.size && m'.size[p] == FreeTag(e - p) && Shelved(w', g', m'.size, p, false)
  }

  /** What is left of a new segment goes to the rest list if the block needs more than one granule. */
  predicate KeepsRest(ts: nat, blockSize: nat) {
    ts > (WORD + blockSize - (SEGMENT_HEADER + HEADER)) % WORD
  }

  ghost predicate SameCache(m: Mem, m': Mem) {
    m'.cache == m.cache && m'.cached == m.cached
  }

  /** What became of the remainder when the block `b` of `ts` bytes was handed out: a cached block has none, that of a
      block of the index is indexed, and that of a new segment is put on the rest list or indexed. */
  ghost predicate Apportioned(w: Words, g: Shape, m: Mem, blockSize: nat, ts: nat, b: nat, w': Words, g': Shape,
                              m': Mem)
    requires BlockSize(ts) && blockSize > 0
  {
    if CacheHit(m, ts) then m'.size == m.size && m'.prev == m.prev
    else if !SameCache(m, m') then false
    else if FitIn(w, g, m, blockSize, ts) then b in m.size && LeftOver(w', g', m', b, m.size[b].size, ts, false)
    else LeftOver(w', g', m', b, Capacity(SegmentSize(ts, blockSize)), ts, KeepsRest(ts, blockSize))
  }

  /** The block at `a` is in the cache, on top of the chain of its size. */
  ghost predicate OnTop(m: Mem, k: Ledger, a: nat) {
    && a in k.cach && BlockSize(k.cach[a]) && IsSmall(k.cach[a])
    && BucketIndex(k.cach[a]) < |m.cache| && m.cache[BucketIndex(k.cach[a])] == Blk(a)
  }

  /** The bytes at `a` are in a free block just added to the index and not to the rest list, or in no segment. */
  ghost predicate Returned(w: Words, g: Shape, m: Mem, a: nat) {
    || (forall s: Segment :: s in m.segs ==> !(s.base <= a < s.base + s.size))
    || exists p :: p in m.size && p <= a < p + m.size[p].size && Shelved(w, g, m.size, p, false)
  }

  /** What became of the remainder when the live block `a` was resized to `ts` bytes and is now `b`, and of `a` if that
      is another block. */
  ghost predicate Resettled(m: Mem, k: Ledger, blockSize: nat, a: nat, ts: nat, b: nat, w': Words, g': Shape, m': Mem,
                            k': Ledger)
    requires BlockSize(ts) && blockSize > 0 && a in k.live && a in m.size && a in k.seg
  {
    var n := EndOf(TilesOf(m, k), a) - a;
    if ts <= k.live[a] then ts + MIN_BLOCK <= k.live[a] ==> LeftOver(w', g', m', a, n, ts, false)
    else if CacheHit(m, ts) then OnTop(m', k', a)
    else if HasRoom(m, k, a, ts) then LeftOver(w', g', m', a, n, ts, Alone(m, k, a))
    else if Alone(m, k, a) then LeftOver(w', g', m', b, Capacity(SegmentSize(ts, blockSize)), ts, true)
    else if ToCache(m, k, a) then OnTop(m', k', a)
    else Returned(w', g', m', a)
  }

  lemma GivenIsReturned(m: Mem, k: Ledger, links: Links, held: set<Ptr>, w': Words, g': Shape, m': Mem, a: nat)
    requires Sound(m, k, links, held) && a in k.live && GivenTo(m, k, w', g', m', a)
    ensures Returned(w', g', m', a)
  {
    var p, e := StartOf(TilesOf(m, k), a), EndOf(TilesOf(m, k), a);
    FreeFacts(m, k, held, a, p, e);
    Entry(BooksOf(m, k, held), m.segs, a);
    if m.prev[p] == FIRST_MARK && m.size[e].mark == Guard {
      forall s: Segment | s in m'.segs ensures !(s.base <= a < s.base + s.size) {
        assert s.Disjoint(k.seg[a]) && k.seg[a].Sound();
      }
    }
  }

  lemma NarrowLeavesOver(m: Mem, a: nat, e: nat, ts: nat)
    requires a + ts <= e && a in m.size && m.size[a].size <= m.used
    ensures BlockAt(a, ts) in MemNarrowed(m, a, e, ts).size
    ensures MemNarrowed(m, a, e, ts).size[BlockAt(a, ts)] == FreeTag(e - a - ts)
  {
  }

  lemma GivenEither(m0: Mem, m: Mem, k: Ledger, w': Words, g': Shape, m': Mem, a: nat)
    requires m == m0.(used := m.used) && GivenTo(m, k, w', g', m', a)
    ensures GivenTo(m0, k, w', g', m', a)
  {
    assert TilesOf(m0, k) == TilesOf(m, k);
  }

  lemma HandingPeaks(m: Mem, b: nat, ts: nat)
    requires b in m.size && ts <= m.size[b].size && m.realSize <= m.realPeak
    ensures SameCache(m, MemTaken(m, b)) && Peaked(m, MemTaken(m, b))
    ensures SameCache(m, MemCut(m, b, ts)) && Peaked(m, MemCut(m, b, ts))
  {
  }

  lemma CutLeavesOver(w: Words, g: Shape, m: Mem, b: nat, ts: nat, toRest: bool)
    requires b in m.size && ts <= m.size[b].size && Shelved(w, g, MemCut(m, b, ts).size, BlockAt(b, ts), toRest)
    ensures LeftOver(w, g, MemCut(m, b, ts), b, m.size[b].size, ts, toRest)
  {
  }

  lemma MergedIsGiven(m: Mem, k: Ledger, links: Links, held: set<Ptr>, a: nat, p: nat, e: nat, w': Words, g': Shape)
    requires Sound(m, k, links, held) && a in k.live && a in m.size && a in m.prev
    requires p == StartOf(TilesOf(m, k), a) && e == EndOf(TilesOf(m, k), a) && p in m.prev && e in m.size && p <= e
    requires !(m.prev[p] == FIRST_MARK && m.size[e].mark == Guard)
    requires Shelved(w', g', MemFreed(m, p, e).size, p, false)
    ensures GivenTo(m, k, w', g', MemFreed(m, p, e), a)
  {
    FreeFacts(m, k, held, a, p, e);
  }

  lemma DroppedIsGiven(m: Mem, k: Ledger, links: Links, held: set<Ptr>, a: nat, p: nat, e: nat, j: nat, w': Words,
                       g': Shape)
    requires Sound(m, k, links, held) && a in k.live && a in m.size && a in m.prev
    requires p == StartOf(TilesOf(m, k), a) && e == EndOf(TilesOf(m, k), a) && p in m.prev && e in m.size
    requires m.prev[p] == FIRST_MARK && m.size[e].mark == Guard
    requires j < |m.segs| && p in k.seg && m.segs[j] == k.seg[p] && m.segs[j].size <= m.realSize
    ensures GivenTo(m, k, w', g', MemDropped(m, j), a)
  {
    FreeFacts(m, k, held, a, p, e);
    RemovedSegment(m.segs, j);
  }

  /** The cached blocks after the live block `a` was freed: a small one joins them while the cache has room. */
  ghost function CachedBy(m: Mem, k: Ledger, a: nat): map<nat, nat>
    requires a in k.live
  {
    if ToCache(m, k, a) then k.cach[a := k.live[a]] else k.cach
  }

  ghost predicate ToCache(m: Mem, k: Ledger, a: nat)
    requires a in k.live
  {
    IsSmall(k.live[a]) && m.cached < CACHE_SIZE
  }

  class Heap {
    const index: Index
    const blockSize: nat
    var m: Mem
    ghost var k: Ledger
    /** What the address space holds. Writing a word of the memory manager leaves anything in its bytes. */
    ghost var mem: Bytes

    /** The heap is consistent, with the blocks `extra` free but not in the index. */
    ghost predicate Core(extra: set<Ptr>)
      reads `m, `k, index
    {
      CoreOf(index.w, index.g, m, k, blockSize, extra)
    }

    /** An empty heap, as `zend_mm_startup_ex` sets it up for a power-of-two granularity. */
    constructor (blockSize: nat)
      requires Granularity(blockSize)
      ensures Core({}) && k.live == map[] && k.cach == map[] && m.segs == [] && Excess(m, k) == 0
      ensures index.BucketsEmpty() && index.RestEmpty() && index.w.freeBitmap == 0
      ensures m.limit == Pow2(62) && m.realSize == 0 && this.blockSize == blockSize && fresh(index)
    {
      index := new Index(map[]);
      this.blockSize := blockSize;
      m := Mem([], map[], map[], seq(NUM_BUCKETS, _ => Null), 0, 0, 0, 0, 0, Pow2(62));
      k := Ledger(map[], map[], map[], map[], seq(NUM_BUCKETS, _ => []));
      mem := (_: nat) => 0;
      new;
      EmptyCache(index.w.prev, m.cache, k.chains);
      EmptyBooks(m, k, index.L(), index.T(map[]));
    }

    /** A free block taken out of the index. */
    method Detach(b: nat, ghost extra: set<Ptr>)
      requires Core(extra) && index.Holds(b)
      modifies `mem, index
      ensures Core(extra + {Blk(b)}) && index.g.home.Keys == old(index.g.home.Keys) - {Blk(b)}
      ensures Spared(old(mem), mem, k.live, k.live)
      ensures m == old(m) && k == old(k)
      ensures !old(index.g).home[Blk(b)].Blk? ==> Unlisted(old(index.w), old(index.g), index.w, index.g, m.size, b)
    {
      ghost var l, t := index.L(), index.T(m.size);
      index.RemoveFromFreeList(b, m.size);
      assert index.g.home.Keys + (extra + {Blk(b)}) == l.home.Keys + extra;
      KeptLinks(l, t, index.L(), index.T(m.size), l.home.Keys, m, k, l.home.Keys + extra);
      mem := IndexSpares(l, t, index.L(), index.T(m.size), m, k, l.home.Keys + extra, l.home.Keys, mem);
    }

    /** A free block put into the index: its list or tree, or the rest list. */
    method Attach(b: nat, toRest: bool)
      requires Core({Blk(b)}) && b in k.seg
      modifies `mem, index
      ensures Core({})
      ensures Spared(old(mem), mem, k.live, k.live)
      ensures m == old(m) && k == old(k)
      ensures Filed(old(index.w), old(index.g), index.w, index.g, m.size, b, toRest)
      ensures Shelved(index.w, index.g, m.size, b, toRest)
    {
      ghost var l, t := index.L(), index.T(m.size);
      Entry(BooksOf(m, k, l.home.Keys + {Blk(b)}), m.segs, b);
      if toRest {
        index.AddToRestList(b, m.size);
      } else {
        index.AddToFreeList(b, m.size);
      }
      assert index.g.home.Keys + {} == l.home.Keys + {Blk(b)};
      KeptLinks(l, t, index.L(), index.T(m.size), index.g.home.Keys, m, k, l.home.Keys + {Blk(b)});
      mem := IndexSpares(l, t, index.L(), index.T(m.size), m, k, l.home.Keys + {Blk(b)}, index.g.home.Keys, mem);
    }

    /** The only free block put into an empty index, where the searches see it. */
    method AttachFirst(b: nat)
      requires Core({Blk(b)}) && b in k.seg && index.BucketsEmpty()
      modifies `mem, index
      ensures Core({}) && index.Visible(b, m.size)
      ensures Spared(old(mem), mem, k.live, k.live)
      ensures m == old(m) && k == old(k)
    {
      ghost var l, t := index.L(), index.T(m.size);
      Entry(BooksOf(m, k, l.home.Keys + {Blk(b)}), m.segs, b);
      assert IsSmall(m.size[b].size) ==> index.BucketEmpty(BucketIndex(m.size[b].size));
      index.AddToFreeList(b, m.size);
      assert index.g.home.Keys + {} == l.home.Keys + {Blk(b)};
      KeptLinks(l, t, index.L(), index.T(m.size), index.g.home.Keys, m, k, l.home.Keys + {Blk(b)});
      mem := IndexSpares(l, t, index.L(), index.T(m.size), m, k, l.home.Keys + {Blk(b)}, index.g.home.Keys, mem);
    }

    /** New words, differing in tags only at headers outside the index. */
    method Install(m': Mem, ghost k': Ledger, ghost extra: set<Ptr>, ghost extra': set<Ptr>,
                   ghost touched: set<nat>, ghost written: set<nat>)
      requires Core(extra) && Sound(m', k', index.w.prev, index.g.home.Keys + extra') && Grained(m'.segs, blockSize)
      requires forall p :: p in extra' ==> p !in index.g.home
      requires forall a :: a in touched ==> Blk(a) !in index.g.home
      requires SizesKept(m.size, m'.size, touched)
      requires Writes(m, k, m', k', written)
      modifies `m, `k, `mem
      ensures Core(extra') && m == m' && k == k'
      ensures Rewritten(old(mem), mem, written) && Spared(old(mem), mem, old(k).live, k.live)
    {
      TagsBeside(index.L(), index.T(m.size), index.w.freeBitmap, index.w.largeBitmap, index.w.restCount, m'.size,
        touched);
      mem := WritesSpare(m, k, index.g.home.Keys + extra, m', k', index.g.home.Keys + extra', written, mem);
      m := m';
      k := k';
    }

    /** The end of allocation: a free block outside the index handed out whole. */
    method TakeWhole(b: nat, request: nat)
      requires Core({Blk(b)}) && TilesOf(m, k).IsFree(b) && request + HEADER <= m.size[b].size
      modifies `m, `k, `mem
      ensures Core({}) && b !in old(k).live
      ensures m == MemTaken(old(m), b) && k == LedgerTaken(old(k), b, old(m).size[b].size, request)
      ensures InUse(old(m), old(k), m, k, b)
      ensures Excess(m, k) == Excess(old(m), old(k)) && SameCache(old(m), m) && Peaked(old(m), m)
      ensures Spared(old(mem), mem, old(k).live, k.live)
      ensures Kept(old(mem), mem, b, old(m).size[b].size)
    {
      TakeStep(m, k, index.w.prev, index.g.home.Keys, b, request);
      Install(MemTaken(m, b), LedgerTaken(k, b, m.size[b].size, request), {Blk(b)}, {}, {b}, TakenHeaders(m, b));
      TakeKeeps(old(mem), mem, old(m), b);
      HandingPeaks(old(m), b, 0);
    }

    /** The end of allocation: a free block outside the index cut, its tail to be indexed. */
    method TakeFront(b: nat, ts: nat, request: nat)
      requires Core({Blk(b)}) && TilesOf(m, k).IsFree(b)
      requires BlockSize(ts) && ts + MIN_BLOCK <= m.size[b].size && request + HEADER <= ts
      modifies `m, `k, `mem
      ensures Core({Blk(BlockAt(b, ts))}) && BlockAt(b, ts) in k.seg && b !in old(k).live && b in old(k).seg
      ensures m == MemCut(old(m), b, ts) && k == LedgerCut(old(k), b, ts, request)
      ensures InUse(old(m), old(k), m, k, b)
      ensures Excess(m, k) == Excess(old(m), old(k))
      ensures Spared(old(mem), mem, old(k).live, k.live)
      ensures Kept(old(mem), mem, b, ts)
    {
      CutStep(m, k, index.w.prev, index.g.home.Keys, b, ts, request);
      Install(MemCut(m, b, ts), LedgerCut(k, b, ts, request), {Blk(b)}, {Blk(BlockAt(b, ts))}, {b, BlockAt(b, ts)},
              CutHeaders(m, b, ts));
      CutKeeps(old(mem), mem, old(m), b, ts);
    }

    /** The storage handler: any address at which it can place `n` bytes, or 0. */
    method StorageAlloc(n: nat) returns (base: nat)
      requires n % ALIGNMENT == 0 && SEGMENT_HEADER + MIN_BLOCK + HEADER <= n
      requires SegmentsOk(m.segs)
      ensures base != 0 ==> Deliverable(Segment(base, n), m.segs)
    {
      var at: int := *;
      if at <= 0 || at % ALIGNMENT != 0 || at + n > WORD {
        return 0;
      }
      for i := 0 to |m.segs|
        invariant forall j :: 0 <= j < i ==> m.segs[j].Disjoint(Segment(at, n))
      {
        if !m.segs[i].Disjoint(Segment(at, n)) {
          return 0;
        }
      }
      assert forall s :: s in m.segs ==> s.Disjoint(Segment(at, n));
      base := at;
    }

    /** A delivered segment entered into the list. */
    method OpenSegment(i: nat, s: Segment)
      requires Core({}) && Deliverable(s, m.segs) && i <= |m.segs| && blockSize <= s.size
      modifies `m, `k, `mem
      ensures Core({Blk(s.First())}) && m == MemOpened(old(m), i, s) && k == LedgerOpened(old(k), s)
      ensures TilesOf(m, k).IsFree(s.First()) && m.realSize < WORD
      ensures NoneFreed(TilesOf(old(m), old(k)), old(m).segs, TilesOf(m, k), old(m).segs)
      ensures k.live == old(k).live && Spared(old(mem), mem, k.live, k.live)
      ensures Kept(old(mem), mem, s.First(), s.size - SEGMENT_HEADER - HEADER)
    {
      OpenStep(m, k, index.w.prev, index.g.home.Keys, i, s, blockSize);
      Install(MemOpened(m, i, s), LedgerOpened(k, s), {}, {Blk(s.First())}, {s.First(), s.GuardAt()}, OpenedHeaders(s));
      OpenKeeps(old(mem), mem, s);
    }

    /** A cached block of exactly the wanted size handed out. */
    method PopCache(i: nat, request: nat) returns (a: nat)
      requires Core({}) && i < NUM_BUCKETS && m.cache[i] != Null && request + HEADER <= BucketSize(i)
      modifies `m, `k
      ensures Core({}) && Popped(old(m), old(k), m, k, i, a, request) && Excess(m, k) == Excess(old(m), old(k))
      ensures mem == old(mem) && a in k.live
    {
      PopSound(m, k, index.w.prev, index.g.home.Keys + {}, i, request);
      a := m.cache[i].addr;
      k := LedgerPopped(k, i, a, request);
      m := MemPopped(m, i, index.w.prev);
    }

    /** The front of the free block `b` handed out, and the rest indexed. */
    method CutBlock(b: nat, ts: nat, request: nat, keepRest: bool)
      requires Core({Blk(b)}) && TilesOf(m, k).IsFree(b)
      requires BlockSize(ts) && ts + MIN_BLOCK <= m.size[b].size && request + HEADER <= ts
      modifies `m, `k, `mem, index
      ensures Core({}) && b !in old(k).live && b in old(k).seg
      ensures m == MemCut(old(m), b, ts) && k == LedgerCut(old(k), b, ts, request)
      ensures InUse(old(m), old(k), m, k, b) && Excess(m, k) == Excess(old(m), old(k))
      ensures SameCache(old(m), m) && Peaked(old(m), m)
      ensures Filed(old(index.w), old(index.g), index.w, index.g, m.size, BlockAt(b, ts), keepRest)
      ensures LeftOver(index.w, index.g, m, b, old(m).size[b].size, ts, keepRest)
      ensures Spared(old(mem), mem, old(k).live, k.live)
      ensures Kept(old(mem), mem, b, ts)
    {
      TakeFront(b, ts, request);
      ghost var d1, live1 := mem, k.live;
      Attach(BlockAt(b, ts), keepRest);
      CutSpares(old(mem), d1, mem, old(k).live, live1, b, ts);
      CutLeavesOver(index.w, index.g, old(m), b, ts, keepRest);
      HandingPeaks(old(m), b, ts);
    }

    /** The end of allocation: the free block `b`, taken from the index, cut if the rest can be a block. */
    method Finish(b: nat, ts: nat, request: nat, keepRest: bool)
      requires Core({Blk(b)}) && TilesOf(m, k).IsFree(b)
      requires BlockSize(ts) && ts <= m.size[b].size && request + HEADER <= ts
      modifies `m, `k, `mem, index
      ensures Core({}) && b !in old(k).live && b in k.live && ts <= k.live[b] < ts + MIN_BLOCK
      ensures k.live == old(k).live[b := k.live[b]] && k.req == old(k).req[b := request]
      ensures k.cach == old(k).cach && k.chains == old(k).chains
      ensures m.limit == old(m).limit && m.realSize == old(m).realSize && InUse(old(m), old(k), m, k, b)
      ensures b in old(k).seg && k.seg[b] == old(k).seg[b]
      ensures Excess(m, k) == Excess(old(m), old(k)) && SameCache(old(m), m) && Peaked(old(m), m)
      ensures ts + MIN_BLOCK <= old(m).size[b].size ==>
                && m == MemCut(old(m), b, ts)
                && Filed(old(index.w), old(index.g), index.w, index.g, m.size, BlockAt(b, ts), keepRest)
      ensures LeftOver(index.w, index.g, m, b, old(m).size[b].size, ts, keepRest)
      ensures Spared(old(mem), mem, old(k).live, k.live)
      ensures Kept(old(mem), mem, b, ts)
    {
      Entry(BooksOf(m, k, index.g.home.Keys + {Blk(b)}), m.segs, b);
      if m.size[b].size - ts < MIN_BLOCK {
        ghost var n, was := m.size[b].size, mem;
        TakeWhole(b, request);
        ShorterKept(was, mem, b, n, ts);
      } else {
        CutBlock(b, ts, request, keepRest);
      }
    }

    /** A live block and its free neighbours, all outside the index, made one free block. */
    method MergeTags(a: nat, p: nat, e: nat, ghost extra: set<Ptr>)
      requires Core(extra) && a in k.live && a in m.size && a in m.prev
      requires p == StartOf(TilesOf(m, k), a) && e == EndOf(TilesOf(m, k), a) && p in m.prev && e in m.size
      requires extra <= {Blk(BlockAt(a, m.size[a].size)), Blk(p)}
      requires Blk(BlockAt(a, m.size[a].size)) !in index.g.home && Blk(p) !in index.g.home
      requires !(m.prev[p] == FIRST_MARK && m.size[e].mark == Guard)
      modifies `m, `k, `mem
      ensures Core({Blk(p)}) && p in k.seg
      ensures p <= e && m == MemFreed(old(m), p, e) && k == LedgerFreed(old(m), old(k), a, p, e)
      ensures NoneFreed(TilesOf(old(m), old(k)), old(m).segs, TilesOf(m, k), m.segs)
      ensures Spared(old(mem), mem, old(k).live, k.live)
    {
      ghost var home := index.g.home.Keys;
      FreeSound(m, k, index.w.prev, home + extra, a, p, e);
      FreeNone(m, k, index.w.prev, home + extra, a, p, e);
      assert home + extra - {Blk(a + m.size[a].size)} + {Blk(p)} == home + {Blk(p)};
      FreeWrites(m, k, home + extra, a, p, e);
      Install(MemFreed(m, p, e), LedgerFreed(m, k, a, p, e), extra, {Blk(p)}, {p}, {p, e});
    }

    /** `zend_mm_del_segment`, for a live block that with its free neighbours fills its segment. */
    method DelSegment(a: nat, p: nat, e: nat, ghost extra: set<Ptr>) returns (j: nat)
      requires Core(extra) && a in k.live && a in m.size && a in m.prev
      requires p == StartOf(TilesOf(m, k), a) && e == EndOf(TilesOf(m, k), a) && p in m.prev && e in m.size
      requires extra <= {Blk(BlockAt(a, m.size[a].size)), Blk(p)}
      requires Blk(BlockAt(a, m.size[a].size)) !in index.g.home && Blk(p) !in index.g.home
      requires m.prev[p] == FIRST_MARK && m.size[e].mark == Guard
      modifies `m, `k, `mem
      ensures Core({}) && p in old(k).seg && j < |old(m).segs| && old(m).segs[j] == old(k).seg[p]
      ensures old(m).segs[j].size <= old(m).realSize && m == MemDropped(old(m), j)
      ensures k == LedgerDeleted(old(k), old(m).segs[j], a)
      ensures NoneFreed(TilesOf(old(m), old(k)), old(m).segs, TilesOf(m, k), m.segs)
      ensures Spared(old(mem), mem, old(k).live, k.live)
      ensures Rewritten(old(mem), mem, {})
    {
      SegmentOfStretch(m, k, index.w.prev, index.g.home.Keys + extra, a, p, e);
      j := FindSegment(m.segs, p - SEGMENT_HEADER, k.seg[p]);
      DelStep(m, k, index.w.prev, index.g.home.Keys, extra, a, p, e, j);
      DropWrites(m, k, j, LedgerDeleted(k, m.segs[j], a));
      Install(MemDropped(m, j), LedgerDeleted(k, m.segs[j], a), extra, {}, {}, {});
    }

    /** The same, and the free block indexed. */
    method MergeBlock(a: nat, p: nat, e: nat, ghost extra: set<Ptr>)
      requires Core(extra) && a in k.live && a in m.size && a in m.prev
      requires p == StartOf(TilesOf(m, k), a) && e == EndOf(TilesOf(m, k), a) && p in m.prev && e in m.size
      requires extra <= {Blk(BlockAt(a, m.size[a].size)), Blk(p)}
      requires Blk(BlockAt(a, m.size[a].size)) !in index.g.home && Blk(p) !in index.g.home
      requires !(m.prev[p] == FIRST_MARK && m.size[e].mark == Guard)
      modifies `m, `k, `mem, index
      ensures Core({}) && p <= e && m == MemFreed(old(m), p, e) && k == LedgerFreed(old(m), old(k), a, p, e)
      ensures NoneFreed(TilesOf(old(m), old(k)), old(m).segs, TilesOf(m, k), m.segs)
      ensures GivenTo(old(m), old(k), index.w, index.g, m, a)
      ensures Spared(old(mem), mem, old(k).live, k.live)
    {
      MergeTags(a, p, e, extra);
      ghost var d1, live1 := mem, k.live;
      Attach(p, false);
      SparedOn(old(mem), d1, mem, old(k).live, live1);
      MergedIsGiven(old(m), old(k), old(index.w).prev, old(index.g).home.Keys + extra, a, p, e, index.w, index.g);
    }

    /** A free block taken out of the index, if `wanted`. */
    method DetachIf(wanted: bool, b: nat, ghost extra: set<Ptr>) returns (ghost extra': set<Ptr>)
      requires Core(extra) && (wanted ==> index.Holds(b))
      modifies `mem, index
      ensures Core(extra') && extra' == extra + (if wanted then {Blk(b)} else {})
      ensures index.g.home.Keys == old(index.g.home.Keys) - (if wanted then {Blk(b)} else {})
      ensures Spared(old(mem), mem, k.live, k.live)
      ensures m == old(m) && k == old(k)
    {
      if wanted {
        extra' := extra + {Blk(b)};
        Detach(b, extra);
      } else {
        NothingWritten(mem, k.live, k.live);
        extra' := extra;
        assert extra + {} == extra && index.g.home.Keys - {} == index.g.home.Keys;
      }
    }

    /** Up to two free blocks taken out of the index, one after the other. */
    method DetachPair(first: bool, p: nat, second: bool, q: nat) returns (ghost extra: set<Ptr>)
      requires Core({}) && (first ==> index.Holds(p)) && (second ==> index.Holds(q)) && p != q
      modifies `mem, index
      ensures Core(extra) && extra <= {Blk(p), Blk(q)} && index.g.home.Keys <= old(index.g.home.Keys)
      ensures (first ==> Blk(p) !in index.g.home) && (second ==> Blk(q) !in index.g.home)
      ensures Spared(old(mem), mem, k.live, k.live)
      ensures m == old(m) && k == old(k)
    {
      extra := DetachIf(first, p, {});
      ghost var d1 := mem;
      extra := DetachIf(second, q, extra);
      SparedThen(old(mem), d1, mem, k.live, k.live);
    }

    /** Where a live block and its free neighbours start and end. */
    method Neighbours(a: nat) returns (p: nat, e: nat, prevFree: bool, nextFree: bool)
      requires Core({}) && a in k.live
      ensures a in m.size && a in m.prev && p in m.prev && e in m.size
      ensures p == StartOf(TilesOf(m, k), a) && e == EndOf(TilesOf(m, k), a)
      ensures var next := BlockAt(a, m.size[a].size);
              && next != p && (nextFree <==> Blk(next) in index.g.home)
              && (prevFree ==> Blk(p) in index.g.home) && (!prevFree ==> Blk(p) !in index.g.home)
    {
      NeighbourFacts(m, k, index.w.prev, index.g.home.Keys + {}, a);
      var next := BlockAt(a, m.size[a].size);
      nextFree, prevFree := m.size[next].mark.Free?, m.prev[a].mark.Free?;
      p := if prevFree then a - m.prev[a].size else a;
      e := if nextFree then next + m.size[next].size else next;
    }

    /** The free neighbours of a live block taken out of the index, in either order. */
    method DetachNeighbours(a: nat, prevFirst: bool) returns (p: nat, e: nat, ghost extra: set<Ptr>)
      requires Core({}) && a in k.live
      modifies `mem, index
      ensures Core(extra) && a in m.size && a in m.prev
      ensures p == StartOf(TilesOf(m, k), a) && e == EndOf(TilesOf(m, k), a) && p in m.prev && e in m.size
      ensures extra <= {Blk(BlockAt(a, m.size[a].size)), Blk(p)}
      ensures Blk(BlockAt(a, m.size[a].size)) !in index.g.home && Blk(p) !in index.g.home
      ensures Spared(old(mem), mem, k.live, k.live)
      ensures m == old(m) && k == old(k)
    {
      var prevFree, nextFree;
      p, e, prevFree, nextFree := Neighbours(a);
      if prevFirst {
        extra := DetachPair(prevFree, p, nextFree, BlockAt(a, m.size[a].size));
      } else {
        extra := DetachPair(nextFree, BlockAt(a, m.size[a].size), prevFree, p);
      }
    }

    /** A live block given back for good: merged with its free neighbours, and its segment
        returned to the storage if that leaves nothing in it. */
    method Release(a: nat, prevFirst: bool)
      requires Core({}) && a in k.live
      modifies `m, `k, `mem, index
      ensures Core({})
      ensures Released(old(m), old(k), m, k, a) && GivenTo(old(m), old(k), index.w, index.g, m, a)
      ensures Spared(old(mem), mem, old(k).live, k.live)
    {
      var p, e, extra := DetachNeighbours(a, prevFirst);
      ghost var d1 := mem;
      if m.prev[p] == FIRST_MARK && m.size[e].mark == Guard {
        ghost var links, held := index.w.prev, index.g.home.Keys + extra;
        var j := DelSegment(a, p, e, extra);
        DroppedIsGiven(old(m), old(k), links, held, a, p, e, j, index.w, index.g);
        SparedThen(old(mem), d1, mem, old(k).live, k.live);
      } else {
        MergeBlock(a, p, e, extra);
        SparedThen(old(mem), d1, mem, old(k).live, k.live);
      }
    }

    /** A live small block put into the cache. */
    method PushCache(a: nat)
      requires Core({}) && a in k.live && IsSmall(k.live[a]) && m.cached + k.live[a] < CACHE_SIZE + MAX_SMALL
      modifies `m, `k, `mem, index
      ensures Core({}) && m == old(m).(cache := m.cache, cached := m.cached) &&
              m.cached == old(m).cached + old(k).live[a]
      ensures k == old(k).(live := old(k).live - {a}, req := old(k).req - {a}, cach := old(k).cach[a := old(k).live[a]],
                           chains := k.chains)
      ensures Excess(m, k) == Excess(old(m), old(k)) && OnTop(m, k, a)
      ensures Spared(old(mem), mem, old(k).live, k.live)
    {
      ghost var links, held := index.w.prev, index.g.home.Keys + {};
      PushSound(m, k, links, held, a);
      NeighbourFacts(m, k, links, held, a);
      LiveTag(m, k, held, a);
      var n := m.size[a].size;
      index.SetPrev(a, m.cache[BucketIndex(n)], m.size);
      k := LedgerPushed(k, a, n);
      m := MemPushed(m, a, n);
      mem := LinkSparesAt(BooksOf(m, k, held), m.segs, a, old(k).live, mem);
    }

    /** `size` lowered by the size of a live block. */
    method Uncharge(a: nat, ghost extra: set<Ptr>)
      requires Core(extra) && Excess(m, k) >= 0 && a in k.live && a in m.size && m.size[a].size == k.live[a]
      modifies `m
      ensures Core(extra) && k.live[a] <= old(m).used && m == old(m).(used := old(m).used - k.live[a]) && k == old(k)
      ensures TilesOf(m, k) == TilesOf(old(m), old(k)) && m.segs == old(m).segs && m.limit == old(m).limit
      ensures mem == old(mem)
      ensures Excess(m, k) == Excess(old(m), old(k)) - k.live[a]
    {
      SumRemove(k.live, a);
      m := m.(used := m.used - m.size[a].size);
    }

    /** The end of freeing: `size` lowered, and the block given back for good. */
    method GiveUp(a: nat)
      requires Core({}) && Excess(m, k) >= 0 && a in k.live && a in m.size && m.size[a].size == k.live[a]
      modifies `m, `k, `mem, index
      ensures Core({}) && Excess(m, k) == Excess(old(m), old(k))
      ensures k.live == old(k).live - {a} && k.req == old(k).req - {a} && k.cach == old(k).cach
      ensures m.limit == old(m).limit && m.realSize <= old(m).realSize
      ensures m.peak == old(m).peak && m.realPeak == old(m).realPeak
      ensures NoneFreed(TilesOf(old(m), old(k)), old(m).segs, TilesOf(m, k), m.segs)
      ensures GivenTo(old(m), old(k), index.w, index.g, m, a)
      ensures Spared(old(mem), mem, old(k).live, k.live)
    {
      Uncharge(a, {});
      ghost var m1 := m;
      Release(a, false);
      GivenBack(old(m), m1, m, old(k), k, a);
      GivenEither(old(m), m1, old(k), index.w, index.g, m, a);
    }

    /** A small block goes to the cache while the cache has room; any other is given back for good. */
    method FreeBlock(a: nat)
      requires Core({}) && Excess(m, k) >= 0 && a in k.live
      modifies `m, `k, `mem, index
      ensures Core({}) && Excess(m, k) == Excess(old(m), old(k))
      ensures k.live == old(k).live - {a} && k.req == old(k).req - {a}
      ensures m.limit == old(m).limit && m.realSize <= old(m).realSize
      ensures m.peak == old(m).peak && m.realPeak == old(m).realPeak
      ensures NoneFreed(TilesOf(old(m), old(k)), old(m).segs, TilesOf(m, k), m.segs)
      ensures k.cach == CachedBy(old(m), old(k), a)
      ensures if ToCache(old(m), old(k), a) then OnTop(m, k, a) else GivenTo(old(m), old(k), index.w, index.g, m, a)
      ensures Spared(old(mem), mem, old(k).live, k.live)
    {
      LiveTag(m, k, index.g.home.Keys + {}, a);
      if IsSmall(m.size[a].size) && m.cached < CACHE_SIZE {
        PushCache(a);
      } else {
        GiveUp(a);
      }
    }

    /** `_zend_mm_free_int` */
    method Free(ptr: nat)
      requires Core({}) && Excess(m, k) >= 0 && (ptr != 0 ==> HEADER <= ptr && HeaderOf(ptr) in k.live)
      modifies `m, `k, `mem, index
      ensures Core({}) && Excess(m, k) == Excess(old(m), old(k))
      ensures ptr == 0 ==> k == old(k) && m == old(m)
      ensures ptr != 0 ==> k.live == old(k).live - {HeaderOf(ptr)} && k.req == old(k).req - {HeaderOf(ptr)}
      ensures m.limit == old(m).limit && m.realSize <= old(m).realSize
      ensures m.peak == old(m).peak && m.realPeak == old(m).realPeak
      ensures NoneFreed(TilesOf(old(m), old(k)), old(m).segs, TilesOf(m, k), m.segs)
      ensures ptr != 0 ==> k.cach == CachedBy(old(m), old(k), HeaderOf(ptr))
      ensures ptr != 0 ==>
                if ToCache(old(m), old(k), HeaderOf(ptr)) then OnTop(m, k, HeaderOf(ptr))
                else GivenTo(old(m), old(k), index.w, index.g, m, HeaderOf(ptr))
      ensures Spared(old(mem), mem, old(k).live, k.live)
    {
      NothingWritten(mem, k.live, k.live);
      if ptr != 0 {
        FreeBlock(HeaderOf(ptr));
      }
    }

    /** The top block of a cache chain given back. */
    method DropCached(i: nat)
      requires Core({}) && i < NUM_BUCKETS && m.cache[i] != Null
      modifies `m, `k, `mem, index
      ensures Core({}) && Draining(old(m), old(k), old(mem), m, k, mem, i) && |k.cach| < |old(k).cach|
    {
      var a := PopCache(i, 0);
      ghost var m1, k1 := m, k;
      Release(a, true);
      PoppedAndReleased(old(m), old(k), old(mem), m1, k1, m, k, mem, a, i);
    }

    /** All blocks of one cache chain given back. */
    method DrainChain(i: nat)
      requires Core({}) && i < NUM_BUCKETS
      modifies `m, `k, `mem, index
      ensures Core({}) && Draining(old(m), old(k), old(mem), m, k, mem, i) && m.cache[i] == Null
    {
      NothingWritten(mem, k.live, k.live);
      while m.cache[i] != Null
        invariant Core({}) && Draining(old(m), old(k), old(mem), m, k, mem, i)
        decreases |k.cach|
      {
        ghost var m1, k1, d1 := m, k, mem;
        DropCached(i);
        DrainingTwice(old(m), old(k), old(mem), m1, k1, d1, m, k, mem, i);
      }
    }

    /** `zend_mm_free_cache`: all cached blocks given back. It lowers `cached` but not `size`, so from
        here on `size` is too high by what was cached. */
    method FreeCache()
      requires Core({})
      modifies `m, `k, `mem, index
      ensures Core({}) && Drained(old(m), old(k), m, k)
      ensures Spared(old(mem), mem, old(k).live, k.live)
    {
      DrainChains();
      EmptiedIsDrained(old(m), old(k), m, k, index.w.prev);
    }

    method DrainChains()
      requires Core({})
      modifies `m, `k, `mem, index
      ensures Core({}) && Swept(old(m), old(k), old(mem), m, k, mem, NUM_BUCKETS)
    {
      NothingWritten(mem, k.live, k.live);
      for i := 0 to NUM_BUCKETS
        invariant Core({}) && Swept(old(m), old(k), old(mem), m, k, mem, i)
      {
        ghost var m1, k1, d1 := m, k, mem;
        DrainChain(i);
        SweptOn(old(m), old(k), old(mem), m1, k1, d1, m, k, mem, i);
      }
    }

    /** Neither the cache nor the index has a block for a true size. */
    ghost predicate Unservable(ts: nat)
      requires BlockSize(ts)
      reads `m, index
    {
      NoneFor(index.w, index.g, m, blockSize, ts)
    }

    /** The searches of allocation: small bitmap, large buckets, and the rest list when the limit is near. */
    method FindFree(ts: nat) returns (best: Ptr)
      requires Core({}) && BlockSize(ts)
      ensures best != Null ==>
                best.Blk? && index.Holds(best.addr) && best.addr in m.size && ts <= m.size[best.addr].size
      ensures best != Null <==> FitIn(index.w, index.g, m, blockSize, ts)
      ensures best != Null ==> Found(index.w, index.g, m, ts, best.addr)
    {
      best := Null;
      if IsSmall(ts) {
        best := index.SearchSmall(ts, m.size);
      }
      if best == Null {
        best := index.SearchLarge(ts, m.size);
      }
      if best == Null && LimitIsNear(m, blockSize) {
        best := index.SearchRest(ts, m.size);
      }
    }

    /** `_zend_mm_alloc_int` */
    method Alloc(size: nat) returns (r: Outcome)
      requires Core({}) && size < WORD
      modifies `m, `k, `mem, index
      ensures Core({})
      ensures r.Granted? ==> Handed(old(m), old(k), m, k, r.block, size) && Snug(k, r.block, TrueSize(size))
      ensures !r.Granted? ==> Emptied(old(m), old(k), m, k)
      ensures !r.Granted? && TrueSize(size) >= size ==> Drained(old(m), old(k), m, k)
      ensures TrueSize(size) < size ==> m == old(m) && k == old(k)
      ensures blockSize > 0 && AllocJustified(old(index.w), old(index.g), old(m), blockSize, size, r)
      ensures r.Granted? ==>
                && BlockSize(TrueSize(size))
                && Supplied(old(m).segs, m.segs, SegmentSize(TrueSize(size), blockSize), r.block,
                            old(Unservable(TrueSize(size))))
                && Apportioned(old(index.w), old(index.g), old(m), blockSize, TrueSize(size), r.block, index.w, index.g,
                               m)
      ensures Spared(old(mem), mem, old(k).live, k.live)
    {
      NothingWritten(mem, k.live, k.live);
      TrueSizeCoversOrIsCaught(size);
      var ts := TrueSize(size);
      if IsSmall(ts) && ts < size {
        return OutOfMemory;
      }
      r := AllocTrue(ts, size);
    }

    /** Allocation of a block of `ts` bytes for a request of `size`: from the cache, from the index,
        or from a new segment. */
    method AllocTrue(ts: nat, size: nat) returns (r: Outcome)
      requires Core({}) && BlockSize(ts) && size + HEADER <= ts
      modifies `m, `k, `mem, index
      ensures Core({})
      ensures r.Granted? ==> Handed(old(m), old(k), m, k, r.block, size) && Snug(k, r.block, ts)
      ensures !r.Granted? ==> Drained(old(m), old(k), m, k)
      ensures blockSize > 0 && Answered(old(index.w), old(index.g), old(m), blockSize, ts, r)
      ensures r.Granted? ==>
                Supplied(old(m).segs, m.segs, SegmentSize(ts, blockSize), r.block, old(Unservable(ts)))
      ensures r.Granted? ==>
                Apportioned(old(index.w), old(index.g), old(m), blockSize, ts, r.block, index.w, index.g, m)
      ensures Spared(old(mem), mem, old(k).live, k.live)
    {
      if IsSmall(ts) && m.cache[BucketIndex(ts)] != Null {
        var a := TakeCached(ts, size);
        r := Granted(a);
      } else {
        r := AllocUncached(ts, size);
      }
    }

    /** Allocation from the index or from a new segment. */
    method AllocUncached(ts: nat, size: nat) returns (r: Outcome)
      requires Core({}) && BlockSize(ts) && size + HEADER <= ts
      modifies `m, `k, `mem, index
      ensures Core({})
      ensures r.Granted? ==> Handed(old(m), old(k), m, k, r.block, size) && Snug(k, r.block, ts)
      ensures !r.Granted? ==> Drained(old(m), old(k), m, k)
      ensures var wanting := !FitIn(old(index.w), old(index.g), old(m), blockSize, ts);
              && blockSize > 0 && Explained(r, wanting, OverLimit(old(m), blockSize, ts))
              && (r.Granted? ==> Supplied(old(m).segs, m.segs, SegmentSize(ts, blockSize), r.block, wanting))
              && (r.Granted? && !wanting ==> Found(old(index.w), old(index.g), old(m), ts, r.block))
      ensures r.Granted? && old(!CacheHit(m, ts)) ==>
                Apportioned(old(index.w), old(index.g), old(m), blockSize, ts, r.block, index.w, index.g, m)
      ensures Spared(old(mem), mem, old(k).live, k.live)
    {
      ghost var fits := FitIn(index.w, index.g, m, blockSize, ts);
      var best := FindFree(ts);
      r := AllocAt(best, ts, size, fits);
    }

    /** The block found in the index, or a new segment if there is none. */
    method AllocAt(best: Ptr, ts: nat, size: nat, ghost fits: bool) returns (r: Outcome)
      requires Core({}) && BlockSize(ts) && size + HEADER <= ts
      requires best != Null ==>
                 best.Blk? && index.Holds(best.addr) && best.addr in m.size && ts <= m.size[best.addr].size
      requires fits <==> best != Null
      modifies `m, `k, `mem, index
      ensures Core({})
      ensures r.Granted? ==> Handed(old(m), old(k), m, k, r.block, size) && Snug(k, r.block, ts)
      ensures !r.Granted? ==> Drained(old(m), old(k), m, k)
      ensures blockSize > 0 && Explained(r, !fits, OverLimit(old(m), blockSize, ts))
      ensures r.Granted? ==> Supplied(old(m).segs, m.segs, SegmentSize(ts, blockSize), r.block, !fits)
      ensures (best != Null ==> r == Granted(best.addr)) && (r.Granted? ==> SameCache(old(m), m))
      ensures r.Granted? ==>
                if best != Null then LeftOver(index.w, index.g, m, r.block, old(m).size[r.block].size, ts, false)
                else LeftOver(index.w, index.g, m, r.block, Capacity(SegmentSize(ts, blockSize)), ts,
                              KeepsRest(ts, blockSize))
      ensures Spared(old(mem), mem, old(k).live, k.live)
    {
      if best == Null {
        r := AllocSegment(ts, size);
      } else {
        TakeFound(best.addr, ts, size);
        r := Granted(best.addr);
      }
    }

    /** A cached block of the wanted size handed out. */
    method TakeCached(ts: nat, size: nat) returns (a: nat)
      requires Core({}) && BlockSize(ts) && size + HEADER <= ts && IsSmall(ts) && m.cache[BucketIndex(ts)] != Null
      modifies `m, `k
      ensures Core({}) && Handed(old(m), old(k), m, k, a, size) && Snug(k, a, ts) && m.segs == old(m).segs
      ensures old(m).cache[BucketIndex(ts)] == Blk(a) && m.size == old(m).size && m.prev == old(m).prev
      ensures Spared(old(mem), mem, old(k).live, k.live)
    {
      a := PopCache(BucketIndex(ts), size);
      NothingWritten(mem, old(k).live, k.live);
      PoppedIsHanded(old(m), old(k), m, k, index.g.home.Keys + {}, a, size, BucketSize(BucketIndex(ts)));
    }

    /** A block of the index handed out. */
    method TakeFound(b: nat, ts: nat, size: nat)
      requires Core({}) && index.Holds(b) && b in m.size && BlockSize(ts) && ts <= m.size[b].size && size + HEADER <= ts
      modifies `m, `k, `mem, index
      ensures Core({}) && Handed(old(m), old(k), m, k, b, size) && Snug(k, b, ts) && m.segs == old(m).segs
      ensures SameCache(old(m), m) && LeftOver(index.w, index.g, m, b, old(m).size[b].size, ts, false)
      ensures Spared(old(mem), mem, old(k).live, k.live)
    {
      HeldIsFree(m, k, index.g.home.Keys + {}, b);
      Detach(b, {});
      assert {} + {Blk(b)} == {Blk(b)};
      ghost var d1 := mem;
      Finish(b, ts, size, false);
      SparedThen(old(mem), d1, mem, old(k).live, k.live);
      CarvedIsHanded(old(m), old(k), m, k, b, size);
    }

    /** A block handed out from a new segment, within the limit. */
    method AllocSegment(ts: nat, size: nat) returns (r: Outcome)
      requires Core({}) && BlockSize(ts) && size + HEADER <= ts
      modifies `m, `k, `mem, index
      ensures Core({})
      ensures r.Granted? ==> Handed(old(m), old(k), m, k, r.block, size) && Snug(k, r.block, ts)
      ensures !r.Granted? ==> Drained(old(m), old(k), m, k)
      ensures blockSize > 0 && !r.StorageLost? && (r.LimitExceeded? <==> OverLimit(old(m), blockSize, ts))
      ensures r.Granted? ==> Prepended(old(m).segs, m.segs, SegmentSize(ts, blockSize), r.block)
      ensures r.Granted? ==>
                SameCache(old(m), m) && LeftOver(index.w, index.g, m, r.block, Capacity(SegmentSize(ts, blockSize)), ts,
                         KeepsRest(ts, blockSize))
      ensures Spared(old(mem), mem, old(k).live, k.live)
    {
      SegmentSizeSufficesOrIsCaught(ts, blockSize);
      var segmentSize := SegmentSize(ts, blockSize);
      var keepRest := KeepsRest(ts, blockSize);
      if OverLimit(m, blockSize, ts) {
        FreeCache();
        return LimitExceeded;
      }
      AtLeastOneGranule(segmentSize, ts, blockSize);
      LimitChecked(m.realSize + segmentSize, m.limit);
      r := UseStorage(segmentSize, ts, size, keepRest);
    }

    /** The storage asked for a segment, and the block taken from its front. */
    method UseStorage(segmentSize: nat, ts: nat, size: nat, keepRest: bool) returns (r: Outcome)
      requires Core({}) && BlockSize(ts) && size + HEADER <= ts
      requires segmentSize % ALIGNMENT == 0 && ts + SEGMENT_HEADER + HEADER <= segmentSize && blockSize <= segmentSize
      requires m.realSize + segmentSize < WORD ==> m.realSize + segmentSize <= m.limit
      modifies `m, `k, `mem, index
      ensures Core({})
      ensures r.Granted? ==> Handed(old(m), old(k), m, k, r.block, size) && Snug(k, r.block, ts)
      ensures !r.Granted? ==> Drained(old(m), old(k), m, k) && r.OutOfMemory?
      ensures r.Granted? ==> Prepended(old(m).segs, m.segs, segmentSize, r.block)
      ensures r.Granted? ==>
                SameCache(old(m), m) && LeftOver(index.w, index.g, m, r.block, Capacity(segmentSize), ts, keepRest)
      ensures Spared(old(mem), mem, old(k).live, k.live)
    {
      var base := StorageAlloc(segmentSize);
      if base == 0 {
        FreeCache();
        return OutOfMemory;
      }
      OpenAndTake(0, Segment(base, segmentSize), ts, size, keepRest);
      r := Granted(Segment(base, segmentSize).First());
    }

    /** A delivered segment entered into the list, and the block taken from its front. */
    method OpenAndTake(i: nat, s: Segment, ts: nat, size: nat, keepRest: bool)
      requires Core({}) && BlockSize(ts) && size + HEADER <= ts
      requires Deliverable(s, m.segs) && i <= |m.segs| && ts + SEGMENT_HEADER + HEADER <= s.size && blockSize <= s.size
      requires m.realSize + s.size < WORD ==> m.realSize + s.size <= m.limit
      modifies `m, `k, `mem, index
      ensures Core({}) && Handed(old(m), old(k), m, k, s.First(), size) && Snug(k, s.First(), ts)
      ensures m.segs == old(m).segs[..i] + [s] + old(m).segs[i..]
      ensures SameCache(old(m), m) && LeftOver(index.w, index.g, m, s.First(), Capacity(s.size), ts, keepRest)
      ensures Spared(old(mem), mem, old(k).live, k.live)
      ensures Kept(old(mem), mem, s.First(), ts)
    {
      OpenSegment(i, s);
      ghost var m1, k1, d1 := m, k, mem;
      Finish(s.First(), ts, size, keepRest);
      OpenedThenTaken(old(mem), d1, mem, old(k).live, k.live, s, ts);
      CarvedIsHanded(m1, k1, m, k, s.First(), size);
      OpenedIsHanded(old(m), old(k), i, s, m, k, size);
    }

    /** The free block behind a live block, if any, taken out of the index. */
    method DetachNext(a: nat) returns (e: nat, ghost extra: set<Ptr>)
      requires Core({}) && a in k.live
      modifies `mem, index
      ensures Core(extra) && a in m.size && a in m.prev && a in k.seg && e == EndOf(TilesOf(m, k), a) && a < e &&
              e in m.size
      ensures var next := BlockAt(a, m.size[a].size);
              && next in m.size && next in k.seg && Blk(next) !in index.g.home
              && extra == if TilesOf(m, k).IsFree(next) then {Blk(next)} else {}
      ensures Spared(old(mem), mem, k.live, k.live)
      ensures m == old(m) && k == old(k)
    {
      NothingWritten(mem, k.live, k.live);
      NeighbourFacts(m, k, index.w.prev, index.g.home.Keys + {}, a);
      LiveTag(m, k, index.g.home.Keys + {}, a);
      var next := BlockAt(a, m.size[a].size);
      extra := {};
      e := next;
      if m.size[next].mark.Free? {
        e := next + m.size[next].size;
        Detach(next, extra);
        extra := extra + {Blk(next)};
      }
    }

    /** The whole stretch up to `e` given to the live block `a`. */
    method WidenTags(a: nat, e: nat, size: nat, ghost extra: set<Ptr>)
      requires Core(extra) && Excess(m, k) >= 0 && a in k.live && a in m.size && e == EndOf(TilesOf(m, k), a)
      requires extra <= {Blk(BlockAt(a, m.size[a].size))} && Blk(BlockAt(a, m.size[a].size)) !in index.g.home
      requires a + size + HEADER <= e
      modifies `m, `k, `mem
      ensures Core({}) && Moved(old(m), old(k), m, k, a, a, size) && k.live[a] == e - a
      ensures m.segs == old(m).segs
      ensures Spared(old(mem), mem, old(k).live, k.live)
    {
      WidenStep(m, k, index.w.prev, index.g.home.Keys, extra, a, e, size);
      Install(MemWidened(m, a, e), LedgerWidened(m, k, a, e, size), extra, {}, {a}, {a, e});
    }

    /** The live block `a` made `ts` bytes long, and the rest up to `e` a free block to be indexed. */
    method NarrowTags(a: nat, e: nat, ts: nat, size: nat, ghost extra: set<Ptr>)
      requires Core(extra) && Excess(m, k) >= 0 && a in k.live && a in m.size && e == EndOf(TilesOf(m, k), a)
      requires extra <= {Blk(BlockAt(a, m.size[a].size))} && Blk(BlockAt(a, m.size[a].size)) !in index.g.home
      requires BlockSize(ts) && a + ts + MIN_BLOCK <= e && size + HEADER <= ts
      modifies `m, `k, `mem
      ensures Core({Blk(BlockAt(a, ts))}) && BlockAt(a, ts) in k.seg && Moved(old(m), old(k), m, k, a, a, size) &&
              k.live[a] == ts
      ensures m.segs == old(m).segs
      ensures BlockAt(a, ts) in m.size && m.size[BlockAt(a, ts)] == FreeTag(e - a - ts)
      ensures Spared(old(mem), mem, old(k).live, k.live)
    {
      NarrowStep(m, k, index.w.prev, index.g.home.Keys, extra, a, e, ts, size);
      Install(MemNarrowed(m, a, e, ts), LedgerNarrowed(m, k, a, e, ts, size), extra, {Blk(BlockAt(a, ts))},
        {a, BlockAt(a, ts)}, {a, BlockAt(a, ts), e});
      NarrowLeavesOver(old(m), a, e, ts);
    }

    /** The live block `a` made `ts` bytes long, and the rest up to `e` indexed. */
    method NarrowBlock(a: nat, e: nat, ts: nat, size: nat, toRest: bool, ghost extra: set<Ptr>)
      requires Core(extra) && Excess(m, k) >= 0 && a in k.live && a in m.size && e == EndOf(TilesOf(m, k), a)
      requires extra <= {Blk(BlockAt(a, m.size[a].size))} && Blk(BlockAt(a, m.size[a].size)) !in index.g.home
      requires BlockSize(ts) && a + ts + MIN_BLOCK <= e && size + HEADER <= ts
      modifies `m, `k, `mem, index
      ensures Core({}) && Moved(old(m), old(k), m, k, a, a, size) && Snug(k, a, ts)
      ensures m.segs == old(m).segs && LeftOver(index.w, index.g, m, a, e - a, ts, toRest)
      ensures Spared(old(mem), mem, old(k).live, k.live)
    {
      NarrowTags(a, e, ts, size, extra);
      ghost var d1, live1 := mem, k.live;
      Attach(BlockAt(a, ts), toRest);
      SparedOn(old(mem), d1, mem, old(k).live, live1);
    }

    /** The live block `a` resized within the stretch that it and a free block behind it make up. */
    method ResizeInPlace(a: nat, ts: nat, size: nat, toRest: bool)
      requires Core({}) && Excess(m, k) >= 0 && a in k.live && a in m.size && BlockSize(ts) && size + HEADER <= ts
      requires a + ts <= EndOf(TilesOf(m, k), a)
      modifies `m, `k, `mem, index
      ensures Core({}) && Moved(old(m), old(k), m, k, a, a, size) && Snug(k, a, ts)
      ensures m.segs == old(m).segs
      ensures LeftOver(index.w, index.g, m, a, old(EndOf(TilesOf(m, k), a)) - a, ts, toRest)
      ensures Spared(old(mem), mem, old(k).live, k.live)
    {
      var e, extra := DetachNext(a);
      ghost var d1 := mem;
      if e - a - ts < MIN_BLOCK {
        WidenTags(a, e, size, extra);
      } else {
        NarrowBlock(a, e, ts, size, toRest, extra);
      }
      SparedThen(old(mem), d1, mem, old(k).live, k.live);
    }

    /** A live block that need not change its size. */
    method KeepBlock(a: nat, size: nat)
      requires Core({}) && a in k.live && size + HEADER <= k.live[a]
      modifies `k
      ensures Core({}) && Moved(old(m), old(k), m, k, a, a, size) && k.live == old(k).live
    {
      SegmentInUse(BooksOf(m, k, index.g.home.Keys + {}), m.segs, a);
      k := k.(req := k.req[a := size]);
      assert k.live == k.live[a := k.live[a]];
      InPlaceIsMoved(m, old(k), m, k, a, k.live[a], size);
    }

    /** `memcpy` of the payload of the live block `a` into the larger live block `b`. */
    method CopyPayload(a: nat, b: nat)
      requires Core({}) && a in k.live && b in k.live
      modifies `mem
      ensures Core({}) && mem == CopiedBytes(old(mem), a, b, k.live[a])
      ensures m == old(m) && k == old(k)
    {
      mem := CopiedBytes(mem, a, b, k.live[a]);
    }

    /** A cached block of the wanted size takes the payload of the live block `a`, which is cached instead. */
    method SwapCached(a: nat, ts: nat, size: nat) returns (b: nat)
      requires Core({}) && a in k.live && a in m.size && a in k.seg && BlockSize(ts) && CacheHit(m, ts)
      requires k.live[a] < ts && size + HEADER <= ts
      modifies `m, `k, `mem, index
      ensures Core({}) && Moved(old(m), old(k), m, k, a, b, size) && k.live[b] == ts
      ensures old(m).cache[BucketIndex(ts)] == Blk(b) && m.segs == old(m).segs
      ensures blockSize > 0 && Resettled(old(m), old(k), blockSize, a, ts, b, index.w, index.g, m, k)
      ensures Carried(old(mem), mem, old(k).live, k.live, a, b)
    {
      b := PopCache(BucketIndex(ts), size);
      ghost var m1, k1 := m, k;
      ghost var held1 := index.g.home.Keys + {};
      NothingWritten(mem, old(k).live, k.live);
      CopyAndCache(a, b);
      SwappedIsMoved(old(m), old(k), m1, k1, m, k, a, b, size);
      CopyCarries(m1, k1, held1, old(mem), old(mem), mem, old(k).live, k.live, a, b);
    }

    /** The payload of the live block `a` copied to the live block `b`, and `a` put into the cache. */
    method CopyAndCache(a: nat, b: nat)
      requires Core({}) && a in k.live && b in k.live
      requires IsSmall(k.live[a]) && m.cached + k.live[a] < CACHE_SIZE + MAX_SMALL
      modifies `m, `k, `mem, index
      ensures Core({}) && m == old(m).(cache := m.cache, cached := m.cached) && k.seg == old(k).seg
      ensures k.live == old(k).live - {a} && k.req == old(k).req - {a} && Excess(m, k) == Excess(old(m), old(k))
      ensures OnTop(m, k, a)
      ensures Spared(CopiedBytes(old(mem), a, b, old(k).live[a]), mem, old(k).live, k.live)
    {
      CopyPayload(a, b);
      PushCache(a);
    }

    /** The payload of the live block `a` copied to the live block `b`, and `a` freed. */
    method CopyAndFree(a: nat, b: nat)
      requires Core({}) && Excess(m, k) >= 0 && a in k.live && b in k.live
      modifies `m, `k, `mem, index
      ensures Core({}) && Excess(m, k) == Excess(old(m), old(k))
      ensures k.live == old(k).live - {a} && k.req == old(k).req - {a}
      ensures if ToCache(old(m), old(k), a) then OnTop(m, k, a) else Returned(index.w, index.g, m, a)
      ensures m.limit == old(m).limit && m.realSize <= old(m).realSize
      ensures NoneFreed(TilesOf(old(m), old(k)), old(m).segs, TilesOf(m, k), m.segs)
      ensures Spared(CopiedBytes(old(mem), a, b, old(k).live[a]), mem, old(k).live, k.live)
    {
      CopyPayload(a, b);
      ghost var links, held := index.w.prev, index.g.home.Keys + {};
      FreeBlock(a);
      if !ToCache(old(m), old(k), a) {
        GivenIsReturned(old(m), old(k), links, held, index.w, index.g, m, a);
      }
    }

    /** Another block allocated, the payload copied, and the live block `a` freed. */
    method MoveByCopy(a: nat, ts: nat, size: nat) returns (r: Outcome)
      requires Core({}) && Excess(m, k) >= 0 && a in k.live && BlockSize(ts) && size + HEADER <= ts && k.live[a] < ts
      requires a in m.size && a in k.seg && !HasRoom(m, k, a, ts) && !Alone(m, k, a)
      modifies `m, `k, `mem, index
      ensures Core({})
      ensures r.Granted? ==> Moved(old(m), old(k), m, k, a, r.block, size) && Snug(k, r.block, ts)
      ensures r.Granted? ==> Carried(old(mem), mem, old(k).live, k.live, a, r.block)
      ensures blockSize > 0 && Answered(old(index.w), old(index.g), old(m), blockSize, ts, r)
      ensures r.Granted? && old(!CacheHit(m, ts)) ==>
                Resettled(old(m), old(k), blockSize, a, ts, r.block, index.w, index.g, m, k)
      ensures !r.Granted? ==> Drained(old(m), old(k), m, k) && Spared(old(mem), mem, old(k).live, k.live)
    {
      r := AllocTrue(ts, size);
      if r.Granted? {
        ghost var m1, k1, d1 := m, k, mem;
        ghost var held1 := index.g.home.Keys + {};
        CopyAndFree(a, r.block);
        HandedThenFreed(old(m), old(k), m1, k1, m, k, a, r.block, size);
        CopyCarries(m1, k1, held1, old(mem), d1, mem, old(k).live, k.live, a, r.block);
      }
    }

    /** Any address beside all segments but `j` at which the storage handler can place `n` bytes, or 0. */
    method FindPlace(j: nat, n: nat) returns (base: nat)
      requires j < |m.segs| && n % ALIGNMENT == 0 && SEGMENT_HEADER + MIN_BLOCK + HEADER <= n
      ensures base != 0 ==> Segment(base, n).Sound() && OthersBeside(m.segs, m.segs[j], Segment(base, n))
    {
      var at: int := *;
      if at <= 0 || at % ALIGNMENT != 0 || at + n > WORD {
        return 0;
      }
      for i := 0 to |m.segs|
        invariant forall i' :: 0 <= i' < i && i' != j ==> m.segs[i'].Disjoint(Segment(at, n))
      {
        if i != j && !m.segs[i].Disjoint(Segment(at, n)) {
          return 0;
        }
      }
      base := at;
    }

    /** The bytes of the segment `j` moved to `base`. */
    method MoveBytes(a: nat, ghost e: nat, j: nat, base: nat, n: nat, ghost extra: set<Ptr>)
      requires Fills(a, e, extra) && j < |m.segs| && m.segs[j].size <= n
      modifies `mem
      ensures Fills(a, e, extra) && Relocated(old(mem), mem, m.segs[j], base, n)
      ensures m == old(m) && k == old(k)
    {
      mem := Relocate(mem, m.segs[j], base, n);
    }

    /** The storage handler resizes the segment `j`, perhaps elsewhere, or returns 0 with nothing changed;
        the bytes of the segment move along and those of other segments stay. */
    method StorageRealloc(a: nat, ghost e: nat, j: nat, n: nat, ghost extra: set<Ptr>) returns (base: nat)
      requires Fills(a, e, extra) && j < |m.segs| && m.segs[j] == k.seg[a] && m.segs[j].size <= n
      requires n % ALIGNMENT == 0 && SEGMENT_HEADER + MIN_BLOCK + HEADER <= n
      modifies `mem
      ensures Fills(a, e, extra) && (base == 0 ==> mem == old(mem))
      ensures base != 0 ==> Segment(base, n).Sound() && Relocated(old(mem), mem, m.segs[j], base, n)
      ensures base != 0 ==> OthersBeside(m.segs, m.segs[j], Segment(base, n))
      ensures m == old(m) && k == old(k)
    {
      base := FindPlace(j, n);
      if base != 0 {
        MoveBytes(a, e, j, base, n, extra);
      }
    }

    /** The live block `a` and the free block behind it, if any, fill a segment up to its guard `e`;
        that free block is what is missing in the index. */
    ghost predicate Fills(a: nat, e: nat, extra: set<Ptr>)
      reads `m, `k, index
    {
      CoreOf(index.w, index.g, m, k, blockSize, extra) && Excess(m, k) >= 0 &&
        Filling(m, k, index.g.home.Keys, a, e, extra)
    }

    /** The segment of the block `a`, which fills it but for a free tail, taken off the list. */
    method TakeOffSegment(a: nat, e: nat, ghost extra: set<Ptr>) returns (j: nat)
      requires Fills(a, e, extra)
      modifies `m, `k, `mem
      ensures Core({}) && Excess(m, k) == Excess(old(m), old(k))
      ensures k.live == old(k).live - {a} && k.req == old(k).req - {a}
      ensures m.limit == old(m).limit && m.realSize == old(m).realSize - old(k).seg[a].size
      ensures NoneFreed(TilesOf(old(m), old(k)), old(m).segs, TilesOf(m, k), m.segs)
      ensures forall s :: s in m.segs ==> s in old(m).segs && s != old(k).seg[a]
      ensures j < |old(m).segs| && old(m).segs[j] == old(k).seg[a]
      ensures m.segs == old(m).segs[..j] + old(m).segs[j + 1..]
      ensures Spared(old(mem), mem, old(k).live, k.live)
      ensures Rewritten(old(mem), mem, {})
    {
      LiveTag(m, k, index.g.home.Keys + extra, a);
      SumRemove(k.live, a);
      Uncharge(a, extra);
      ghost var segs := m.segs;
      j := DelSegment(a, a, e, extra);
      RemovedSegment(segs, j);
    }

    /** The segment of the block `a`, which fills it but for a free tail, replaced by the segment `s`. */
    method ReplaceSegment(a: nat, e: nat, s: Segment, ts: nat, size: nat, ghost extra: set<Ptr>)
      requires Fills(a, e, extra)
      requires BlockSize(ts) && size + HEADER <= ts && ts + SEGMENT_HEADER + HEADER <= s.size && s.Sound() &&
               blockSize <= s.size
      requires OthersBeside(m.segs, k.seg[a], s)
      requires m.realSize - k.seg[a].size + s.size < WORD ==> m.realSize - k.seg[a].size + s.size <= m.limit
      modifies `m, `k, `mem, index
      ensures Core({}) && Moved(old(m), old(k), m, k, a, s.First(), size) && Snug(k, s.First(), ts)
      ensures Regrown(old(m).segs, m.segs, old(k).seg[a], s.size, s.First())
      ensures LeftOver(index.w, index.g, m, s.First(), Capacity(s.size), ts, true)
      ensures Kept(old(mem), mem, s.First(), ts) && Spared(old(mem), mem, old(k).live - {a}, k.live)
    {
      var j := TakeOffSegment(a, e, extra);
      ghost var m1, k1, d1 := m, k, mem;
      OpenAndTake(j, s, ts, size, true);
      FreedThenHanded(old(m), old(k), m1, k1, m, k, a, s.First(), size);
      Substituted(old(m).segs, j, s, m1.segs, m.segs);
      FirstUntouched(old(mem), d1, mem, s.First(), ts, k1.live, k.live);
    }

    /** A segment that may not grow: the free block behind `a` goes back to its list, and the cache is emptied. */
    method RefuseGrowth(a: nat, ghost e: nat, ghost extra: set<Ptr>)
      requires Fills(a, e, extra)
      modifies `m, `k, `mem, index
      ensures Core({}) && Drained(old(m), old(k), m, k)
      ensures Spared(old(mem), mem, old(k).live, k.live)
    {
      NothingWritten(mem, k.live, k.live);
      var next := BlockAt(a, m.size[a].size);
      if m.size[next].mark.Free? {
        Attach(next, false);
      }
      ghost var d1 := mem;
      FreeCache();
      SparedThen(old(mem), d1, mem, old(k).live, k.live);
    }

    /** A segment that the storage cannot resize. A free block behind `a` stays outside the lists, and the
        cache is emptied only if there is none: emptying it beside such a block is not modelled. */
    method FailGrowth(a: nat, ghost e: nat, ghost extra: set<Ptr>)
      requires Fills(a, e, extra)
      modifies `m, `k, `mem, index
      ensures Core(extra) && Emptied(old(m), old(k), m, k)
      ensures extra == {} ==> Drained(old(m), old(k), m, k)
      ensures Spared(old(mem), mem, old(k).live, k.live)
    {
      NothingWritten(mem, k.live, k.live);
      if !m.size[BlockAt(a, m.size[a].size)].mark.Free? {
        FreeCache();
      }
    }

    /** The segment of `a`, whose bytes the storage has moved to `s`, taken over there. */
    method AdoptSegment(a: nat, e: nat, s: Segment, ts: nat, size: nat, ghost d: Bytes, ghost extra: set<Ptr>)
      returns (r: Outcome)
      requires Fills(a, e, extra) && e < a + ts && s.Sound() && OthersBeside(m.segs, k.seg[a], s)
      requires BlockSize(ts) && size + HEADER <= ts && ts + SEGMENT_HEADER + HEADER <= s.size && blockSize <= s.size
      requires m.realSize - k.seg[a].size + s.size < WORD ==> m.realSize - k.seg[a].size + s.size <= m.limit
      requires Relocated(d, mem, k.seg[a], s.base, s.size)
      modifies `m, `k, `mem, index
      ensures r.Granted? && Core({}) && Moved(old(m), old(k), m, k, a, r.block, size) && Snug(k, r.block, ts)
      ensures Regrown(old(m).segs, m.segs, old(k).seg[a], s.size, r.block)
      ensures LeftOver(index.w, index.g, m, r.block, Capacity(s.size), ts, true)
      ensures Carried(d, mem, old(k).live, k.live, a, r.block)
    {
      SegmentMoves(d, mem, m, k, index.w.prev, index.g.home.Keys + extra, a, e, s.base, s.size);
      BlockEnds(m, k, index.g.home.Keys + extra, a);
      ReplaceSegment(a, e, s, ts, size, extra);
      RelocatedOthers(old(mem), mem, old(k).live, k.live, a, s.First(), ts);
      RelocationCarries(d, old(mem), mem, old(k).live, k.live, a, s.First());
      r := Granted(s.First());
    }

    /** The storage asked to resize segment `j`, which `a` fills but for a free tail. */
    method ResizeSegment(a: nat, e: nat, j: nat, n: nat, ts: nat, size: nat, ghost extra: set<Ptr>) returns (r: Outcome)
      requires Fills(a, e, extra) && e < a + ts
      requires BlockSize(ts) && size + HEADER <= ts && ts + SEGMENT_HEADER + HEADER <= n && n % ALIGNMENT == 0 &&
               blockSize <= n
      requires j < |m.segs| && m.segs[j] == k.seg[a] && k.seg[a].size <= n
      requires m.realSize - k.seg[a].size + n < WORD ==> m.realSize - k.seg[a].size + n <= m.limit
      modifies `m, `k, `mem, index
      ensures r.Granted? ==> Core({}) && Moved(old(m), old(k), m, k, a, r.block, size) && Snug(k, r.block, ts)
      ensures r.Granted? ==> Carried(old(mem), mem, old(k).live, k.live, a, r.block)
      ensures !r.Granted? ==> r.StorageLost? && Core(extra) && Emptied(old(m), old(k), m, k)
      ensures !r.Granted? && extra == {} ==> Drained(old(m), old(k), m, k)
      ensures r.Granted? ==> Regrown(old(m).segs, m.segs, old(k).seg[a], n, r.block)
      ensures r.Granted? ==> LeftOver(index.w, index.g, m, r.block, Capacity(n), ts, true)
      ensures !r.Granted? ==> Spared(old(mem), mem, old(k).live, k.live)
    {
      var base := StorageRealloc(a, e, j, n, extra);
      if base == 0 {
        FailGrowth(a, e, extra);
        r := StorageLost;
      } else {
        r := AdoptSegment(a, e, Segment(base, n), ts, size, old(mem), extra);
      }
    }

    /** The size that segment `j` needs for a block of `ts` bytes, and the tests on it. */
    method MayGrow(j: nat, ts: nat) returns (n: nat, allowed: bool)
      requires j < |m.segs| && m.realSize == Total(m.segs) && BlockSize(ts) && Granularity(blockSize)
      requires m.segs[j].size - SEGMENT_HEADER - HEADER < ts
      ensures blockSize > 0 && n == SegmentSize(ts, blockSize)
      ensures allowed <==> !GrowthOverLimit(m, m.segs[j], blockSize, ts)
      ensures allowed ==>
                && ts + SEGMENT_HEADER + HEADER <= n && n % ALIGNMENT == 0 && m.segs[j].size <= n && blockSize <= n
                && (m.realSize - m.segs[j].size + n < WORD ==> m.realSize - m.segs[j].size + n <= m.limit)
    {
      n := SegmentSize(ts, blockSize);
      GrowthBounds(m.segs, j, ts, blockSize, m.limit);
      allowed := !GrowthOverLimit(m, m.segs[j], blockSize, ts);
    }

    /** The place in the list of the segment that `a` fills. */
    method SegmentOf(a: nat, ghost e: nat, ghost extra: set<Ptr>) returns (j: nat)
      requires Fills(a, e, extra)
      ensures j < |m.segs| && m.segs[j] == k.seg[a] && m.segs[j].size - SEGMENT_HEADER - HEADER == e - a
      ensures m.realSize == Total(m.segs) && Granularity(blockSize)
    {
      SegmentOfStretch(m, k, index.w.prev, index.g.home.Keys + extra, a, a, e);
      j := FindSegment(m.segs, a - SEGMENT_HEADER, k.seg[a]);
    }

    /** The label `realloc_segment`: the segment resized by the storage, perhaps elsewhere. */
    method GrowSegment(a: nat, e: nat, ts: nat, size: nat, ghost extra: set<Ptr>) returns (r: Outcome)
      requires Fills(a, e, extra) && BlockSize(ts) && size + HEADER <= ts && e < a + ts
      modifies `m, `k, `mem, index
      ensures r.Granted? ==> Core({}) && Moved(old(m), old(k), m, k, a, r.block, size) && Snug(k, r.block, ts)
      ensures r.Granted? ==> Carried(old(mem), mem, old(k).live, k.live, a, r.block)
      ensures !r.Granted? ==> Core(if r.StorageLost? then extra else {}) && Emptied(old(m), old(k), m, k)
      ensures blockSize > 0 && !r.OutOfMemory?
      ensures r.LimitExceeded? <==> GrowthOverLimit(old(m), old(k).seg[a], blockSize, ts)
      ensures r.Granted? ==> Regrown(old(m).segs, m.segs, old(k).seg[a], SegmentSize(ts, blockSize), r.block)
      ensures r.Granted? ==>
                LeftOver(index.w, index.g, m, r.block, Capacity(SegmentSize(ts, blockSize)), ts, true)
      ensures !r.Granted? && (r.StorageLost? ==> extra == {}) ==> Drained(old(m), old(k), m, k)
      ensures !r.Granted? ==> Spared(old(mem), mem, old(k).live, k.live)
    {
      var j := SegmentOf(a, e, extra);
      var n, allowed := MayGrow(j, ts);
      if allowed {
        r := ResizeSegment(a, e, j, n, ts, size, extra);
      } else {
        RefuseGrowth(a, e, extra);
        r := LimitExceeded;
      }
    }

    /** A block that is the first of its segment, with nothing but free space behind it, outgrows its
        segment. If the storage fails, that free space is left outside the index. */
    method ReallocSegment(a: nat, ts: nat, size: nat) returns (r: Outcome, ghost lost: set<Ptr>)
      requires Core({}) && Excess(m, k) >= 0 && a in k.live && a in m.size && a in m.prev && a in k.seg
      requires m.prev[a] == FIRST_MARK && EndOf(TilesOf(m, k), a) in m.size &&
               m.size[EndOf(TilesOf(m, k), a)].mark == Guard
      requires BlockSize(ts) && size + HEADER <= ts && EndOf(TilesOf(m, k), a) < a + ts
      modifies `m, `k, `mem, index
      ensures Core(lost) && (lost != {} <==> r.StorageLost? && old(TilesOf(m, k).IsFree(BlockAt(a, m.size[a].size))))
      ensures r.Granted? ==> Moved(old(m), old(k), m, k, a, r.block, size) && Snug(k, r.block, ts)
      ensures r.Granted? ==> Carried(old(mem), mem, old(k).live, k.live, a, r.block)
      ensures blockSize > 0 && !r.OutOfMemory?
      ensures r.LimitExceeded? <==> GrowthOverLimit(old(m), old(k).seg[a], blockSize, ts)
      ensures r.Granted? ==> Regrown(old(m).segs, m.segs, old(k).seg[a], SegmentSize(ts, blockSize), r.block)
      ensures r.Granted? && old(k.live[a] < ts && !CacheHit(m, ts)) ==>
                Resettled(old(m), old(k), blockSize, a, ts, r.block, index.w, index.g, m, k)
      ensures !r.Granted? && lost == {} ==> Drained(old(m), old(k), m, k)
      ensures !r.Granted? ==> Emptied(old(m), old(k), m, k) && Spared(old(mem), mem, old(k).live, k.live)
    {
      var e, extra := DetachNext(a);
      ghost var d1 := mem;
      r := GrowSegment(a, e, ts, size, extra);
      lost := if r.StorageLost? then extra else {};
      if r.Granted? {
        SparedThenCarried(old(mem), d1, mem, old(k).live, k.live, a, r.block);
      } else {
        SparedThen(old(mem), d1, mem, old(k).live, k.live);
      }
    }

    /** A block that must become smaller, or may stay. */
    method ShrinkBlock(a: nat, ts: nat, size: nat)
      requires Core({}) && Excess(m, k) >= 0 && a in k.live && a in m.size && a in k.seg && BlockSize(ts) &&
               size + HEADER <= ts <= m.size[a].size
      modifies `m, `k, `mem, index
      ensures Core({}) && Moved(old(m), old(k), m, k, a, a, size) && Snug(k, a, ts)
      ensures blockSize > 0 && Resettled(old(m), old(k), blockSize, a, ts, a, index.w, index.g, m, k)
      ensures Spared(old(mem), mem, old(k).live, k.live)
    {
      LiveTag(m, k, index.g.home.Keys + {}, a);
      if m.size[a].size - ts >= MIN_BLOCK {
        ResizeInPlace(a, ts, size, false);
      } else {
        KeepBlock(a, size);
        NothingWritten(mem, old(k).live, k.live);
      }
    }

    /** Where the block `a` and a free block behind it end. */
    method EndOfStretch(a: nat) returns (e: nat)
      requires Core({}) && a in k.live
      ensures a in m.size && a in m.prev && a in k.seg && e == EndOf(TilesOf(m, k), a) && e in m.size
    {
      LiveTag(m, k, index.g.home.Keys + {}, a);
      NeighbourFacts(m, k, index.w.prev, index.g.home.Keys + {}, a);
      e := BlockAt(a, m.size[a].size);
      if m.size[e].mark.Free? {
        e := BlockAt(e, m.size[e].size);
      }
    }

    /** A block that has room to become larger. */
    method GrowInPlace(a: nat, e: nat, ts: nat, size: nat) returns (r: Outcome)
      requires Core({}) && Excess(m, k) >= 0 && a in k.live && BlockSize(ts) && size + HEADER <= ts && k.live[a] < ts
      requires a in m.size && a in m.prev && a in k.seg && HasRoom(m, k, a, ts)
      requires e == EndOf(TilesOf(m, k), a) && e in m.size
      modifies `m, `k, `mem, index
      ensures Core({}) && r == Granted(a) && m.segs == old(m).segs
      ensures Moved(old(m), old(k), m, k, a, a, size) && Snug(k, a, ts)
      ensures Carried(old(mem), mem, old(k).live, k.live, a, a)
      ensures blockSize > 0
      ensures old(!CacheHit(m, ts)) ==> Resettled(old(m), old(k), blockSize, a, ts, a, index.w, index.g, m, k)
    {
      ResizeInPlace(a, ts, size, m.prev[a] == FIRST_MARK && m.size[e].mark.Guard?);
      MovedInPlace(old(m), old(k), m, k, old(mem), mem, a, size);
      r := Granted(a);
    }

    /** A block that must become larger and finds no cached block: in place, with its segment, or by copying. */
    method GrowBlock(a: nat, ts: nat, size: nat) returns (r: Outcome, ghost lost: set<Ptr>)
      requires Core({}) && Excess(m, k) >= 0 && a in k.live && BlockSize(ts) && size + HEADER <= ts && k.live[a] < ts
      modifies `m, `k, `mem, index
      ensures Core(lost) && (lost != {} ==> r.StorageLost?)
      ensures r.Granted? ==> Moved(old(m), old(k), m, k, a, r.block, size) && Snug(k, r.block, ts)
      ensures r.Granted? ==> Carried(old(mem), mem, old(k).live, k.live, a, r.block)
      ensures blockSize > 0 && a in old(m).size && a in old(k).seg
      ensures old(!CacheHit(m, ts)) ==> Decided(old(index.w), old(index.g), old(m), old(k), blockSize, a, ts, r, m.segs)
      ensures r.Granted? && old(!CacheHit(m, ts)) ==>
                Resettled(old(m), old(k), blockSize, a, ts, r.block, index.w, index.g, m, k)
      ensures !r.Granted? && lost == {} ==> Drained(old(m), old(k), m, k)
      ensures !r.Granted? ==> Emptied(old(m), old(k), m, k) && Spared(old(mem), mem, old(k).live, k.live)
    {
      lost := {};
      var e := EndOfStretch(a);
      if a + ts <= e {
        r := GrowInPlace(a, e, ts, size);
      } else if m.prev[a] == FIRST_MARK && m.size[e].mark.Guard? {
        r, lost := ReallocSegment(a, ts, size);
      } else {
        r := MoveByCopy(a, ts, size);
      }
    }

    /** `_zend_mm_realloc_int` for a block. */
    method Resize(a: nat, size: nat) returns (r: Outcome, ghost lost: set<Ptr>)
      requires Core({}) && Excess(m, k) >= 0 && size < WORD && a in k.live
      modifies `m, `k, `mem, index
      ensures Core(lost) && (lost != {} ==> r.StorageLost?)
      ensures r.Granted? ==> Moved(old(m), old(k), m, k, a, r.block, size) && Snug(k, r.block, TrueSize(size))
      ensures r.Granted? ==> Carried(old(mem), mem, old(k).live, k.live, a, r.block)
      ensures blockSize > 0
      ensures ReallocJustified(old(index.w), old(index.g), old(m), old(k), blockSize, a, size, r, m.segs)
      ensures r.Granted? ==>
                && BlockSize(TrueSize(size)) && a in old(m).size && a in old(k).seg
                && Resettled(old(m), old(k), blockSize, a, TrueSize(size), r.block, index.w, index.g, m, k)
      ensures !r.Granted? && size <= TrueSize(size) && lost == {} ==> Drained(old(m), old(k), m, k)
      ensures !r.Granted? ==> Emptied(old(m), old(k), m, k) && Spared(old(mem), mem, old(k).live, k.live)
      ensures TrueSize(size) < size ==> m == old(m) && k == old(k)
    {
      TrueSizeCoversOrIsCaught(size);
      LiveTag(m, k, index.g.home.Keys + {}, a);
      NothingWritten(mem, k.live, k.live);
      var ts := TrueSize(size);
      if ts < size {
        return OutOfMemory, {};
      }
      if ts <= m.size[a].size {
        ShrinkBlock(a, ts, size);
        MovedInPlace(old(m), old(k), m, k, old(mem), mem, a, size);
        return Granted(a), {};
      }
      if IsSmall(ts) && m.cache[BucketIndex(ts)] != Null {
        var b := SwapCached(a, ts, size);
        return Granted(b), {};
      }
      r, lost := GrowBlock(a, ts, size);
    }

    /** `_zend_mm_realloc_int` */
    method Realloc(ptr: nat, size: nat) returns (r: Outcome, ghost lost: set<Ptr>)
      requires Core({}) && Excess(m, k) >= 0 && size < WORD && (ptr != 0 ==> HEADER <= ptr && HeaderOf(ptr) in k.live)
      modifies `m, `k, `mem, index
      ensures Core(lost) && (lost != {} ==> r.StorageLost?)
      ensures ptr == 0 && r.Granted? ==>
                Handed(old(m), old(k), m, k, r.block, size) && Spared(old(mem), mem, old(k).live, k.live)
      ensures ptr != 0 && r.Granted? ==>
                && Moved(old(m), old(k), m, k, HeaderOf(ptr), r.block, size)
                && Carried(old(mem), mem, old(k).live, k.live, HeaderOf(ptr), r.block)
      ensures r.Granted? ==> Snug(k, r.block, TrueSize(size))
      ensures blockSize > 0
      ensures ptr == 0 ==> AllocJustified(old(index.w), old(index.g), old(m), blockSize, size, r)
      ensures ptr != 0 ==>
                ReallocJustified(old(index.w), old(index.g), old(m), old(k), blockSize, HeaderOf(ptr), size, r, m.segs)
      ensures ptr == 0 && r.Granted? ==>
                && BlockSize(TrueSize(size))
                && Apportioned(old(index.w), old(index.g), old(m), blockSize, TrueSize(size), r.block, index.w, index.g,
                               m)
      ensures ptr != 0 && r.Granted? ==>
                && BlockSize(TrueSize(size)) && HeaderOf(ptr) in old(m).size && HeaderOf(ptr) in old(k).seg
                && Resettled(old(m), old(k), blockSize, HeaderOf(ptr), TrueSize(size), r.block, index.w, index.g, m, k)
      ensures !r.Granted? && size <= TrueSize(size) && lost == {} ==> Drained(old(m), old(k), m, k)
      ensures !r.Granted? ==> Emptied(old(m), old(k), m, k) && Spared(old(mem), mem, old(k).live, k.live)
      ensures TrueSize(size) < size ==> m == old(m) && k == old(k)
    {
      if ptr == 0 {
        r := Alloc(size);
        lost := {};
      } else {
        r, lost := Resize(HeaderOf(ptr), size);
      }
    }

    /** The heap emptied, with stale tags left behind: the resetting part of `zend_mm_shutdown`. */
    method Restart()
      requires Granularity(blockSize)
      modifies `m, `k, index
      ensures Core({}) && m.segs == [] && k.live == map[] && k.req == map[] && k.cach == map[] && Excess(m, k) == 0 &&
              m.limit == old(m).limit
      ensures m.realSize == 0 && m.peak == 0 && m.realPeak == 0
      ensures index.BucketsEmpty()
    {
      index.Init(m.size);
      m := Mem([], m.size, m.prev, seq(NUM_BUCKETS, _ => Null), 0, 0, 0, 0, 0, m.limit);
      k := Ledger(map[], map[], map[], map[], seq(NUM_BUCKETS, _ => []));
      EmptyCache(index.w.prev, m.cache, k.chains);
      EmptyBooks(m, k, index.L(), index.T(m.size));
    }

    /** The kept segment as one free block of the emptied heap. */
    method Reopen(s: Segment)
      requires Core({}) && m.segs == [] && m.realPeak == 0 && s.Sound() && blockSize <= s.size
      requires index.BucketsEmpty()
      modifies `m, `k, `mem, index
      ensures Core({}) && m.segs == [s] && k.live == old(k).live && k.req == old(k).req && k.cach == old(k).cach
      ensures Excess(m, k) == Excess(old(m), old(k)) && m.limit == old(m).limit && m.realSize == s.size == m.realPeak
      ensures index.Visible(s.First(), m.size) && m.size[s.First()].size == s.size - SEGMENT_HEADER - HEADER
    {
      OpenedAlone(m, k, s);
      OpenSegment(0, s);
      AttachFirst(s.First());
    }

    /** The reserve allocated from the emptied heap, whose segment, if one was kept, is all free. */
    method TakeReserve(size: nat, ghost kept: seq<Segment>) returns (r: Outcome)
      requires Core({}) && size < WORD && k.live == map[] && k.req == map[] && k.cach == map[] && Excess(m, k) == 0
      requires m.segs == kept && |kept| <= 1
      requires kept != [] ==> index.Visible(kept[0].First(), m.size)
      requires kept != [] ==> m.size[kept[0].First()].size == kept[0].size - SEGMENT_HEADER - HEADER
      modifies `m, `k, `mem, index
      ensures Core({}) && m.limit == old(m).limit && (m.realSize <= old(m).realSize || m.realSize <= m.limit)
      ensures r.Granted? ==> Reserved(m, k, kept, r.block, size)
      ensures !r.Granted? ==> k.live == map[] && Excess(m, k) == 0
      ensures !r.Granted? ==> blockSize > 0 && ReserveRefused(kept, m.limit, blockSize, size, r)
    {
      ghost var ts := TrueSize(size);
      TrueSizeCoversOrIsCaught(size);
      if kept != [] {
        VisibleFits(kept[0].First(), size);
      }
      r := Alloc(size);
      if r.Granted? {
        ReserveFits(old(m), old(k), m, k, index.w.prev, index.g.home.Keys + {}, kept, r.block, size);
      } else if size <= ts {
        WhyRefused(kept, old(m), old(k), m, k, blockSize, size, r, old(Unservable(ts)));
      }
    }

    /** A block that the searches can see serves every request that it has room for. */
    lemma VisibleFits(b: nat, size: nat)
      requires index.Visible(b, m.size) && size < WORD
      ensures size <= TrueSize(size) && size + HEADER <= m.size[b].size ==>
                BlockSize(TrueSize(size)) && !Unservable(TrueSize(size))
    {
      TrueSizeCoversOrIsCaught(size);
      var ts := TrueSize(size);
      if size <= ts && size + HEADER <= m.size[b].size {
        if IsSmall(m.size[b].size) {
          assert BucketIndex(ts) <= BucketIndex(m.size[b].size) < NUM_BUCKETS;
        } else {
          assert LargeFits(index.g, m.size, ts, b);
        }
      }
    }

    /** The heap emptied but for the segment `s`, which is made free. */
    method FreeAllBut(s: Segment, ghost kept: seq<Segment>)
      requires Core({}) && s in m.segs && kept == [s]
      modifies `m, `k, `mem, index
      ensures Core({}) && m.limit == old(m).limit && m.realSize <= old(m).realSize && m.segs == kept
      ensures k.live == map[] && k.req == map[] && k.cach == map[] && Excess(m, k) == 0
      ensures index.Visible(kept[0].First(), m.size)
      ensures m.size[kept[0].First()].size == kept[0].size - SEGMENT_HEADER - HEADER
    {
      KeptSegment(m.segs, s);
      Restart();
      Reopen(s);
    }

    /** The heap emptied but for the segment `s`, and the reserve allocated. */
    method KeepOnly(s: Segment, reserveSize: nat) returns (r: Outcome)
      requires Core({}) && s in m.segs && reserveSize < WORD
      modifies `m, `k, `mem, index
      ensures Core({}) && m.limit == old(m).limit && (m.realSize <= old(m).realSize || m.realSize <= m.limit)
      ensures r.Granted? ==> Reserved(m, k, [s], r.block, reserveSize)
      ensures !r.Granted? ==> k.live == map[] && Excess(m, k) == 0
      ensures !r.Granted? ==> blockSize > 0 && ReserveRefused([s], m.limit, blockSize, reserveSize, r)
    {
      ghost var kept := [s];
      FreeAllBut(s, kept);
      r := TakeReserve(reserveSize, kept);
    }

    /** `zend_mm_shutdown` at the end of a request: with a reserve the oldest segment is kept and the
        reserve is allocated again; without one every segment is returned. */
    method PartialShutdown(reserveSize: nat) returns (r: Outcome)
      requires Core({}) && reserveSize < WORD
      modifies `m, `k, `mem, index
      ensures Core({}) && m.limit == old(m).limit && (m.realSize <= old(m).realSize || m.realSize <= m.limit)
      ensures reserveSize == 0 ==> r == Granted(0) && m.segs == [] && k.live == map[] && Excess(m, k) == 0
      ensures reserveSize != 0 && r.Granted? ==>
                Reserved(m, k, Oldest(old(m).segs), r.block, reserveSize)
      ensures !r.Granted? ==> k.live == map[] && Excess(m, k) == 0 && reserveSize != 0
      ensures !r.Granted? ==> blockSize > 0 && ReserveRefused(Oldest(old(m).segs), m.limit, blockSize, reserveSize, r)
    {
      if reserveSize == 0 {
        Restart();
        r := Granted(0);
      } else if m.segs == [] {
        Restart();
        r := TakeReserve(reserveSize, []);
      } else {
        r := KeepOnly(m.segs[|m.segs| - 1], reserveSize);
      }
    }

    /** `zend_set_memory_limit` */
    method SetLimit(limit: nat)
      requires Core({})
      modifies `m
      ensures Core({}) && m == old(m).(limit := Max(limit, blockSize))
    {
      m := m.(limit := Max(limit, blockSize));
    }

    /** `zend_memory_usage`: above the sum of the blocks handed out by the excess. */
    method Usage() returns (n: nat)
      requires Core({}) && Excess(m, k) >= 0
      ensures n == Sum(k.live) + Excess(m, k)
    {
      n := m.used - m.cached;
    }
  }

  lemma KeptSegment(segs: seq<Segment>, s: Segment)
    requires SegmentsOk(segs) && s in segs
    ensures s.Sound() && s.size <= Total(segs)
  {
    assert s.Sound();
    var j :| 0 <= j < |segs| && segs[j] == s;
    TotalAt(segs, j);
  }

  /** A segment without a live or cached block is free from end to end. */
  lemma EmptyIsFree(m: Mem, k: Ledger, links: Links, held: set<Ptr>, s: Segment)
    requires Sound(m, k, links, held) && s in m.segs
    requires forall a :: a in k.seg && k.seg[a] == s ==> a !in k.live && a !in k.cach
    ensures WhollyFree(TilesOf(m, k), s)
  {
    var b := BooksOf(m, k, held);
    assert b.t.Closed(s) && s.Sound();
    Entry(b, m.segs, s.First());
    var next := s.First() + m.size[s.First()].size;
    Entry(b, m.segs, next);
    assert b.t.Coalesced(s.First());
  }

  /** The reserve is the only block, and no segment is all free exactly if the kept segment can hold it. */
  ghost predicate Reserved(m: Mem, k: Ledger, kept: seq<Segment>, a: nat, size: nat) {
    && k.live.Keys == {a} && k.req == map[a := size] && Excess(m, k) == 0
    && (AllTaken(TilesOf(m, k), m.segs) <==> kept == [] || ReserveHeld(kept, size))
  }

  /** The segment that a shutdown keeps for its reserve: the oldest, at the end of the list. */
  function Oldest(segs: seq<Segment>): seq<Segment> {
    if segs == [] then [] else [segs[|segs| - 1]]
  }

  /** A request of `size` bytes has room in the segment that is kept, if one is. */
  predicate ReserveHeld(kept: seq<Segment>, size: nat) {
    kept != [] && size + HEADER <= kept[0].size - SEGMENT_HEADER - HEADER
  }

  /** Why a reserve was refused: it overflows, or the segment that is kept does not hold it and the limit or the
      storage does not allow another. */
  ghost predicate ReserveRefused(kept: seq<Segment>, limit: nat, blockSize: nat, size: nat, r: Outcome)
    requires blockSize > 0
  {
    if TrueSize(size) < size then r.OutOfMemory?
    else
      && !ReserveHeld(kept, size) && (r.LimitExceeded? || r.OutOfMemory?)
      && (r.LimitExceeded? <==> PastLimit(Total(kept), limit, blockSize, TrueSize(size)))
  }

  lemma WhyRefused(kept: seq<Segment>, m: Mem, k: Ledger, m': Mem, k': Ledger, blockSize: nat, size: nat, r: Outcome,
                   unservable: bool)
    requires blockSize > 0 && !r.Granted? && size <= TrueSize(size) && m.segs == kept
    requires Explained(r, unservable, OverLimit(m, blockSize, TrueSize(size)))
    requires ReserveHeld(kept, size) ==> !unservable
    requires Counters(m, k) && k.cach == map[] && Drained(m, k, m', k')
    ensures ReserveRefused(kept, m'.limit, blockSize, size, r) && Excess(m', k') == Excess(m, k)
  {
  }

  lemma ReserveFits(m: Mem, k: Ledger, m': Mem, k': Ledger, links: Links, held: set<Ptr>, kept: seq<Segment>, a: nat,
                    size: nat)
    requires Sound(m', k', links, held) && Handed(m, k, m', k', a, size)
    requires k.live == map[] && k.req == map[] && k.cach == map[] && Excess(m, k) == 0
    requires m.segs == kept && |kept| <= 1
    requires m'.segs == m.segs || kept == [] || kept[0].size - SEGMENT_HEADER - HEADER < size + HEADER
    ensures Reserved(m', k', kept, a, size)
  {
    LiveTag(m', k', held, a);
    Entry(BooksOf(m', k', held), m'.segs, a);
    Entry(BooksOf(m', k', held), m'.segs, a + m'.size[a].size);
    if kept != [] && size + HEADER > kept[0].size - SEGMENT_HEADER - HEADER {
      assert k'.seg[a] != kept[0];
      EmptyIsFree(m', k', links, held, kept[0]);
    }
  }

  /** What the tests before a segment is resized tell. */
  lemma GrowthBounds(segs: seq<Segment>, j: nat, ts: nat, blockSize: nat, limit: nat)
    requires j < |segs| && BlockSize(ts) && Granularity(blockSize) && segs[j].size - SEGMENT_HEADER - HEADER < ts
    ensures var n, x := SegmentSize(ts, blockSize), Total(segs) + SegmentSize(ts, blockSize) - segs[j].size;
            && segs[j].size <= Total(segs)
            && (n >= ts ==>
                 ts + SEGMENT_HEADER + HEADER <= n && n % ALIGNMENT == 0 && segs[j].size <= n && blockSize <= n)
            && (x % WORD <= limit ==> (x < WORD ==> x <= limit))
  {
    TotalAt(segs, j);
    SegmentSizeSufficesOrIsCaught(ts, blockSize);
    if SegmentSize(ts, blockSize) >= ts { AtLeastOneGranule(SegmentSize(ts, blockSize), ts, blockSize); }
    LimitChecked(Total(segs) - segs[j].size + SegmentSize(ts, blockSize), limit);
  }

  /** The limit test is made on the wrapped sum, which is the sum for what the storage can deliver. */
  lemma LimitChecked(x: nat, limit: nat)
    ensures x % WORD <= limit && x < WORD ==> x <= limit
  {
  }

  lemma HeldIsFree(m: Mem, k: Ledger, held: set<Ptr>, b: nat)
    requires BooksOf(m, k, held).Valid(m.segs) && Blk(b) in held
    ensures TilesOf(m, k).IsFree(b)
  {
    assert BooksOf(m, k, held).Owns(b);
    assert BooksOf(m, k, held).Kind(b);
  }

  /** Cached blocks were given back; the blocks handed out and `size` are as before. */
  ghost predicate Emptied(m: Mem, k: Ledger, m': Mem, k': Ledger) {
    && k'.live == k.live && k'.req == k.req
    && m'.used == m.used && m'.limit == m.limit && m'.realSize <= m.realSize
    && m'.peak == m.peak && m'.realPeak == m.realPeak
    && NoneFreed(TilesOf(m, k), m.segs, TilesOf(m', k'), m'.segs)
  }

  /** The top `a` of chain `i` was handed out. */
  ghost predicate Popped(m: Mem, k: Ledger, m': Mem, k': Ledger, i: nat, a: nat, request: nat) {
    && m' == m.(cache := m'.cache, cached := m'.cached) && k'.seg == k.seg
    && i < |m.cache| && m.cache[i] == Blk(a) && OtherChains(m.cache, m'.cache, i)
    && a !in k.live && a !in k.req && k'.live == k.live[a := BucketSize(i)] && k'.req == k.req[a := request]
    && a in k.cach && k'.cach == k.cach - {a} && m'.cached == m.cached - BucketSize(i)
  }

  /** The live block `a` was given back for good, and nothing else changed hands. */
  ghost predicate Released(m: Mem, k: Ledger, m': Mem, k': Ledger, a: nat) {
    && k' == k.(seg := k'.seg, live := k.live - {a}, req := k.req - {a})
    && m' == m.(size := m'.size, prev := m'.prev, segs := m'.segs, realSize := m'.realSize)
    && m'.realSize <= m.realSize && NoneFreed(TilesOf(m, k), m.segs, TilesOf(m', k'), m'.segs)
  }

  /** The cache was emptied, and `size` is now too high by what was cached. */
  ghost predicate Drained(m: Mem, k: Ledger, m': Mem, k': Ledger) {
    Emptied(m, k, m', k') && k'.cach == map[] && m'.cached == 0 && Excess(m', k') == Excess(m, k) + m.cached
  }

  /** The cache chains below `n` are empty. */
  ghost predicate EmptyBelow(cache: seq<Ptr>, n: nat) {
    n <= |cache| && forall j :: 0 <= j < n ==> cache[j] == Null
  }

  /** All cache chains but `i` are as they were. */
  ghost predicate OtherChains(cache: seq<Ptr>, cache': seq<Ptr>, i: nat) {
    |cache'| == |cache| && forall j :: 0 <= j < |cache| && j != i ==> cache'[j] == cache[j]
  }

  /** The cache chains below `n` were given back. */
  ghost predicate Swept(m: Mem, k: Ledger, d: Bytes, m': Mem, k': Ledger, d': Bytes, n: nat) {
    Emptied(m, k, m', k') && Spared(d, d', k.live, k'.live) && EmptyBelow(m'.cache, n)
  }

  /** Blocks of chain `i` were given back. */
  ghost predicate Draining(m: Mem, k: Ledger, d: Bytes, m': Mem, k': Ledger, d': Bytes, i: nat) {
    Emptied(m, k, m', k') && Spared(d, d', k.live, k'.live) && OtherChains(m.cache, m'.cache, i)
  }

  lemma DrainingTwice(m: Mem, k: Ledger, d: Bytes, m1: Mem, k1: Ledger, d1: Bytes, m2: Mem, k2: Ledger, d2: Bytes,
                      i: nat)
    requires Draining(m, k, d, m1, k1, d1, i) && Draining(m1, k1, d1, m2, k2, d2, i)
    ensures Draining(m, k, d, m2, k2, d2, i)
  {
    EmptiedTwice(m, k, m1, k1, m2, k2);
    SparedThen(d, d1, d2, k.live, k2.live);
  }

  lemma SweptOn(m: Mem, k: Ledger, d: Bytes, m1: Mem, k1: Ledger, d1: Bytes, m2: Mem, k2: Ledger, d2: Bytes, i: nat)
    requires Swept(m, k, d, m1, k1, d1, i) && Draining(m1, k1, d1, m2, k2, d2, i)
    requires i < |m2.cache| && m2.cache[i] == Null
    ensures Swept(m, k, d, m2, k2, d2, i + 1)
  {
    EmptiedTwice(m, k, m1, k1, m2, k2);
    SparedThen(d, d1, d2, k.live, k2.live);
  }

  lemma EmptiedIsDrained(m: Mem, k: Ledger, m': Mem, k': Ledger, links: Links)
    requires Emptied(m, k, m', k') && Counters(m, k) && Counters(m', k')
    requires CacheOk(links, m'.cache, k'.chains, k'.cach) && EmptyBelow(m'.cache, NUM_BUCKETS)
    ensures Drained(m, k, m', k')
  {
    NothingCached(links, m'.cache, k'.chains, k'.cach);
  }

  lemma PoppedAndReleased(m: Mem, k: Ledger, d: Bytes, m1: Mem, k1: Ledger, m2: Mem, k2: Ledger, d2: Bytes,
                          a: nat, i: nat)
    requires Popped(m, k, m1, k1, i, a, 0)
    requires Released(m1, k1, m2, k2, a) && Spared(d, d2, k1.live, k2.live)
    ensures Draining(m, k, d, m2, k2, d2, i) && |k2.cach| < |k.cach|
  {
    assert k2.live == k.live && k2.req == k.req;
    assert k2.cach.Keys == k.cach.Keys - {a};
    NothingWritten(d, k.live, k1.live);
    SparedTwice(d, d, d2, k.live, k1.live, k2.live);
  }

  lemma EmptiedTwice(m: Mem, k: Ledger, m1: Mem, k1: Ledger, m2: Mem, k2: Ledger)
    requires Emptied(m, k, m1, k1) && Emptied(m1, k1, m2, k2)
    ensures Emptied(m, k, m2, k2)
  {
  }

  /** The payloads of the blocks handed out are pairwise disjoint. */
  lemma LivePayloads(m: Mem, k: Ledger, held: set<Ptr>)
    requires BooksOf(m, k, held).Valid(m.segs)
    ensures forall a, b :: a in k.live && b in k.live && a < b ==> a + k.live[a] <= b
  {
    forall a, b | a in k.live && b in k.live && a < b ensures a + k.live[a] <= b {
      LiveTag(m, k, held, a);
      LiveTag(m, k, held, b);
      Entry(BooksOf(m, k, held), m.segs, a);
      assert TilesOf(m, k).NoOverlap(a, b);
    }
  }

  lemma HandedThenFreed(m: Mem, k: Ledger, m1: Mem, k1: Ledger, m2: Mem, k2: Ledger, a: nat, b: nat, request: nat)
    requires Handed(m, k, m1, k1, b, request) && a in k.live
    requires k2.live == k1.live - {a} && k2.req == k1.req - {a} && Excess(m2, k2) == Excess(m1, k1)
    requires m2.limit == m1.limit && m2.realSize <= m1.realSize
    requires NoneFreed(TilesOf(m1, k1), m1.segs, TilesOf(m2, k2), m2.segs)
    ensures Moved(m, k, m2, k2, a, b, request)
  {
  }

  lemma FreedThenHanded(m: Mem, k: Ledger, m1: Mem, k1: Ledger, m2: Mem, k2: Ledger, a: nat, b: nat, request: nat)
    requires a in k.live && k1.live == k.live - {a} && k1.req == k.req - {a} && Excess(m1, k1) == Excess(m, k)
    requires m1.limit == m.limit && m1.realSize <= m.realSize
    requires NoneFreed(TilesOf(m, k), m.segs, TilesOf(m1, k1), m1.segs)
    requires Handed(m1, k1, m2, k2, b, request)
    ensures Moved(m, k, m2, k2, a, b, request)
  {
  }

  lemma SwappedIsMoved(m: Mem, k: Ledger, m1: Mem, k1: Ledger, m2: Mem, k2: Ledger, a: nat, b: nat, request: nat)
    requires a in k.live && b !in k.live && b in k1.live && request + HEADER <= k1.live[b]
    requires m1 == m.(cache := m1.cache, cached := m1.cached) && k1.seg == k.seg
    requires k1.live == k.live[b := k1.live[b]] && k1.req == k.req[b := request] && Excess(m1, k1) == Excess(m, k)
    requires m2 == m1.(cache := m2.cache, cached := m2.cached) && k2.seg == k1.seg
    requires k2.live == k1.live - {a} && k2.req == k1.req - {a} && Excess(m2, k2) == Excess(m1, k1)
    ensures Moved(m, k, m2, k2, a, b, request)
  {
  }

  lemma LiveTag(m: Mem, k: Ledger, held: set<Ptr>, a: nat)
    requires BooksOf(m, k, held).Valid(m.segs) && a in k.live
    ensures a in m.size && m.size[a] == Tag(k.live[a], Used) && BlockSize(k.live[a]) && a in k.seg && Blk(a) !in held
  {
    var b := BooksOf(m, k, held);
    assert b.Owns(a);
    Entry(b, m.segs, a);
  }

  lemma NothingCached(links: Links, cache: seq<Ptr>, chains: seq<seq<nat>>, cach: map<nat, nat>)
    requires CacheOk(links, cache, chains, cach) && forall j :: 0 <= j < NUM_BUCKETS ==> cache[j] == Null
    ensures cach == map[]
  {
    forall a ensures a !in cach {
      if a in cach { CachedChain(links, cache, chains, cach, a); }
    }
  }

  lemma CachedChain(links: Links, cache: seq<Ptr>, chains: seq<seq<nat>>, cach: map<nat, nat>, a: nat)
    requires CacheOk(links, cache, chains, cach) && a in cach
    ensures BlockSize(cach[a]) && BucketIndex(cach[a]) < NUM_BUCKETS && cache[BucketIndex(cach[a])] != Null
  {
    var i := BucketIndex(cach[a]);
    assert ChainOk(links, cache, chains, cach, i);
    assert a in chains[i];
  }

  /** The neighbours of a live block are headers, and those marked free are in the books as free. */
  lemma NeighbourFacts(m: Mem, k: Ledger, links: Links, held: set<Ptr>, a: nat)
    requires Sound(m, k, links, held) && a in k.live
    ensures a in m.size && a in m.prev
    ensures var next := a + m.size[a].size;
            && next in m.size && next in k.seg && next != a
            && (m.size[next].mark == Free <==> Blk(next) in held)
            && (m.size[next].mark == Free <==> TilesOf(m, k).IsFree(next))
            && EndOf(TilesOf(m, k), a) in m.size
    ensures m.prev[a].mark == Free ==>
              && 0 < m.prev[a].size <= a && Blk(a - m.prev[a].size) in held
              && a - m.prev[a].size in m.prev
    ensures Blk(a) !in held
  {
    var b := BooksOf(m, k, held);
    assert b.Owns(a);
    Entry(b, m.segs, a);
    Entry(b, m.segs, a + m.size[a].size);
    Stretch(b, m.segs, a);
    Entry(b, m.segs, EndOf(b.t, a));
    Entry(b, m.segs, StartOf(b.t, a));
  }
}
