/** Whole runs of the memory manager: any sequence of the public operations, up to the first failure.
    The heap is compared with an ideal one, a map from pointers to buffers that have nothing in common. */
module HeapRuns {
  import opened Bits
  import opened Layout
  import opened Common
  import opened HeapIndex
  import opened Tiling
  import opened Bookkeeping
  import opened Sums
  import opened Payload
  import opened ZendHeap

  /** What a caller does: the public operations, and storing a byte in a buffer that it owns. */
  datatype Op =
    | AllocOp(size: nat)
    | FreeOp(ptr: nat)
    | ReallocOp(ptr: nat, size: nat)
    | WriteOp(ptr: nat, offset: nat, value: int)
    | SetLimitOp(limit: nat)
    | ShutdownOp(reserveSize: nat)

  // ---------------------------------------------------------------- the ideal heap

  /** A buffer as its owner sees it: the size asked for, and the bytes that the owner has stored. */
  datatype Buffer = Buffer(size: nat, bytes: map<nat, int>)

  type Buffers = map<nat, Buffer>

  function Shortened(bytes: map<nat, int>, n: nat): map<nat, int> {
    map i | i in bytes && i < n :: bytes[i]
  }

  /** Callers owe `free` and `realloc` a pointer that they own, and write only where they asked for room. */
  predicate Owed(op: Op, s: Buffers) {
    match op
    case FreeOp(ptr) => ptr == 0 || ptr in s
    case ReallocOp(ptr, _) => ptr == 0 || ptr in s
    case WriteOp(ptr, offset, _) => ptr in s && offset < s[ptr].size
    case _ => true
  }

  /** One operation on the ideal heap, where `q` is the pointer handed out, if any. */
  function Applied(op: Op, q: nat, s: Buffers): Buffers
    requires Owed(op, s)
  {
    match op
    case AllocOp(size) => s[q := Buffer(size, map[])]
    case FreeOp(ptr) => s - {ptr}
    case ReallocOp(ptr, size) =>
      if ptr !in s then s[q := Buffer(size, map[])]
      else (s - {ptr})[q := Buffer(size, Shortened(s[ptr].bytes, size))]
    case WriteOp(ptr, offset, value) => s[ptr := s[ptr].(bytes := s[ptr].bytes[offset := value])]
    case SetLimitOp(_) => s
    case ShutdownOp(_) => map[]
  }

  /** A pointer that is handed out is not in use, unless it is the one being resized. */
  predicate Unused(op: Op, q: nat, s: Buffers) {
    match op
    case AllocOp(_) => q !in s
    case ReallocOp(ptr, _) => q !in s || (q == ptr && ptr in s)
    case _ => true
  }

  /** The operations `ops` on the ideal heap, with `qs` the pointers handed out; what callers must not do is skipped. */
  function After(ops: seq<Op>, qs: seq<nat>, s: Buffers): Buffers
    requires |qs| == |ops|
  {
    if ops == [] then s else
      var n := |ops| - 1;
      var before := After(ops[..n], qs[..n], s);
      if Owed(ops[n], before) then Applied(ops[n], qs[n], before) else before
  }

  ghost predicate AllUnused(ops: seq<Op>, qs: seq<nat>, s: Buffers)
    requires |qs| == |ops|
  {
    forall i {:trigger ops[..i]} :: 0 <= i < |ops| && Owed(ops[i], After(ops[..i], qs[..i], s)) ==>
      Unused(ops[i], qs[i], After(ops[..i], qs[..i], s))
  }

  /** The operation is about the buffer at `p`. */
  predicate Names(op: Op, p: nat) {
    match op
    case FreeOp(ptr) => ptr == p
    case ReallocOp(ptr, _) => ptr == p
    case WriteOp(ptr, _, _) => ptr == p
    case ShutdownOp(_) => true
    case _ => false
  }

  ghost predicate NoneNames(ops: seq<Op>, p: nat) {
    forall i {:trigger ops[i]} :: 0 <= i < |ops| ==> !Names(ops[i], p)
  }

  // ---------------------------------------------------------------- the heap beside it

  function PointerTo(block: nat): nat {
    block + HEADER
  }

  /** The block behind the pointer `p` has room for the buffer and holds its bytes. */
  ghost predicate Stores(b: Buffer, k: Ledger, d: Bytes, p: nat) {
    && HEADER <= p && HeaderOf(p) in k.live && HeaderOf(p) in k.req
    && k.req[HeaderOf(p)] == b.size && b.size + HEADER <= k.live[HeaderOf(p)]
    && forall i {:trigger i in b.bytes} :: i in b.bytes ==> i < b.size && d(ByteOf(HeaderOf(p), i)) == b.bytes[i]
  }

  /** Every buffer of the ideal heap is in the heap. */
  ghost predicate Faithful(s: Buffers, k: Ledger, d: Bytes) {
    forall p {:trigger p in s} :: p in s ==> Stores(s[p], k, d, p)
  }

  /** The block `a` is where it was, as large as it was, and holds what it held. */
  ghost predicate Undisturbed(k: Ledger, d: Bytes, k': Ledger, d': Bytes, a: nat) {
    && a in k.live && a in k'.live && k'.live[a] == k.live[a]
    && a in k.req && a in k'.req && k'.req[a] == k.req[a] && Kept(d, d', a, k.live[a])
  }

  lemma StillStored(b: Buffer, k: Ledger, d: Bytes, k': Ledger, d': Bytes, p: nat)
    requires Stores(b, k, d, p) && Undisturbed(k, d, k', d', HeaderOf(p))
    ensures Stores(b, k', d', p)
  {
    var a := HeaderOf(p);
    forall i | i in b.bytes ensures d'(ByteOf(a, i)) == b.bytes[i] {
      assert InPayload(a, k.live[a], ByteOf(a, i));
    }
  }

  lemma UndisturbedTwice(k: Ledger, d: Bytes, k1: Ledger, d1: Bytes, k2: Ledger, d2: Bytes, a: nat)
    requires Undisturbed(k, d, k1, d1, a) && Undisturbed(k1, d1, k2, d2, a)
    ensures Undisturbed(k, d, k2, d2, a)
  {
    KeptOn(d, d1, d2, a, k.live[a], k.live[a], k.live[a]);
  }

  /** Nothing that the callers own was disturbed but the buffers that the operation names. */
  ghost predicate OthersUndisturbed(op: Op, s: Buffers, k: Ledger, d: Bytes, k': Ledger, d': Bytes) {
    forall p {:trigger Names(op, p)} :: p in s && !Names(op, p) ==>
      HEADER <= p && Undisturbed(k, d, k', d', HeaderOf(p))
  }

  /** The heap follows the ideal one through the operation. */
  ghost predicate Follows(op: Op, q: nat, s: Buffers, k: Ledger, d: Bytes, k': Ledger, d': Bytes) {
    && Owed(op, s) && Unused(op, q, s) && Faithful(Applied(op, q, s), k', d') && OthersUndisturbed(op, s, k, d, k', d')
  }

  /** Nothing happened to the buffers. */
  ghost predicate AllUndisturbed(s: Buffers, k: Ledger, d: Bytes, k': Ledger, d': Bytes) {
    && Faithful(s, k', d')
    && forall p {:trigger p in s} :: p in s ==> HEADER <= p && Undisturbed(k, d, k', d', HeaderOf(p))
  }

  lemma SparedBuffers(s: Buffers, k: Ledger, d: Bytes, k': Ledger, d': Bytes)
    requires Faithful(s, k, d) && Spared(d, d', k.live, k'.live)
    requires forall a :: a in k.live ==> a in k'.live && k'.live[a] == k.live[a]
    requires forall a :: a in k.live && a in k.req ==> a in k'.req && k'.req[a] == k.req[a]
    ensures AllUndisturbed(s, k, d, k', d')
  {
    forall p | p in s ensures HEADER <= p && Undisturbed(k, d, k', d', HeaderOf(p)) && Stores(s[p], k', d', p) {
      BesideFreed(s[p], k, d, k', d', p);
    }
  }

  lemma AllocFollows(op: Op, s: Buffers, m: Mem, k: Ledger, d: Bytes, m': Mem, k': Ledger, d': Bytes, b: nat, size: nat)
    requires Faithful(s, k, d) && Handed(m, k, m', k', b, size) && Spared(d, d', k.live, k'.live)
    requires op == AllocOp(size) || op == ReallocOp(0, size)
    ensures Follows(op, PointerTo(b), s, k, d, k', d')
  {
    assert 0 !in s;
    assert b + HEADER !in s;
    SparedBuffers(s, k, d, k', d');
    assert Stores(Buffer(size, map[]), k', d', b + HEADER);
  }

  /** A buffer whose block is not the one given back. */
  lemma BesideFreed(buffer: Buffer, k: Ledger, d: Bytes, k': Ledger, d': Bytes, p: nat)
    requires Stores(buffer, k, d, p) && Spared(d, d', k.live, k'.live)
    requires HeaderOf(p) in k'.live && k'.live[HeaderOf(p)] == k.live[HeaderOf(p)]
    requires HeaderOf(p) in k'.req && k'.req[HeaderOf(p)] == k.req[HeaderOf(p)]
    ensures Undisturbed(k, d, k', d', HeaderOf(p)) && Stores(buffer, k', d', p)
  {
    var a := HeaderOf(p);
    assert Kept(d, d', a, Min(k.live[a], k'.live[a]));
    StillStored(buffer, k, d, k', d', p);
  }

  lemma FreeFollows(ptr: nat, s: Buffers, k: Ledger, d: Bytes, k': Ledger, d': Bytes)
    requires Faithful(s, k, d) && Spared(d, d', k.live, k'.live) && (ptr == 0 || ptr in s)
    requires ptr == 0 ==> k' == k
    requires ptr in s ==> k'.live == k.live - {HeaderOf(ptr)} && k'.req == k.req - {HeaderOf(ptr)}
    ensures Follows(FreeOp(ptr), 0, s, k, d, k', d')
  {
    assert 0 !in s;
    forall p | p in s && p != ptr
      ensures HEADER <= p && Undisturbed(k, d, k', d', HeaderOf(p)) && Stores(s[p], k', d', p)
    {
      NotFreed(s, k, k', d, ptr, p);
      BesideFreed(s[p], k, d, k', d', p);
    }
  }

  lemma NotFreed(s: Buffers, k: Ledger, k': Ledger, d: Bytes, ptr: nat, p: nat)
    requires Faithful(s, k, d) && (ptr == 0 || ptr in s) && p in s && p != ptr
    requires ptr == 0 ==> k' == k
    requires ptr in s ==> k'.live == k.live - {HeaderOf(ptr)} && k'.req == k.req - {HeaderOf(ptr)}
    ensures HEADER <= p && HeaderOf(p) in k.live && HeaderOf(p) in k'.live
    ensures k'.live[HeaderOf(p)] == k.live[HeaderOf(p)]
    ensures HeaderOf(p) in k.req && HeaderOf(p) in k'.req && k'.req[HeaderOf(p)] == k.req[HeaderOf(p)]
  {
    assert Stores(s[p], k, d, p) && (ptr in s ==> Stores(s[ptr], k, d, ptr));
  }

  /** A resized buffer holds its bytes as far as the new size reaches. */
  lemma ResizedStores(b: Buffer, k: Ledger, d: Bytes, k': Ledger, d': Bytes, ptr: nat, q: nat, size: nat)
    requires Stores(b, k, d, ptr) && Carried(d, d', k.live, k'.live, HeaderOf(ptr), q)
    requires q in k'.req && k'.req[q] == size && size + HEADER <= k'.live[q]
    ensures Stores(Buffer(size, Shortened(b.bytes, size)), k', d', q + HEADER)
  {
    var a := HeaderOf(ptr);
    forall i | i in b.bytes && i < size ensures d'(ByteOf(q, i)) == b.bytes[i] {
      assert i < Min(k.live[a], k'.live[q]) - HEADER;
    }
  }

  /** A buffer beside a resized one. */
  lemma BesideMoved(buffer: Buffer, m: Mem, k: Ledger, d: Bytes, m': Mem, k': Ledger, d': Bytes,
                    ptr: nat, b: nat, size: nat, p: nat)
    requires Stores(buffer, k, d, p) && HEADER <= ptr && p != ptr && Moved(m, k, m', k', HeaderOf(ptr), b, size)
    requires Carried(d, d', k.live, k'.live, HeaderOf(ptr), b)
    ensures Undisturbed(k, d, k', d', HeaderOf(p)) && Stores(buffer, k', d', p)
  {
    var c := HeaderOf(p);
    assert c != HeaderOf(ptr) && c != b && Kept(d, d', c, k.live[c]);
    StillStored(buffer, k, d, k', d', p);
  }

  lemma ReallocFollows(s: Buffers, m: Mem, k: Ledger, d: Bytes, m': Mem, k': Ledger, d': Bytes, ptr: nat, b: nat,
                       size: nat)
    requires Faithful(s, k, d) && ptr in s && Moved(m, k, m', k', HeaderOf(ptr), b, size)
    requires Carried(d, d', k.live, k'.live, HeaderOf(ptr), b)
    ensures Follows(ReallocOp(ptr, size), PointerTo(b), s, k, d, k', d')
  {
    var a := HeaderOf(ptr);
    assert b + HEADER in s ==> Stores(s[b + HEADER], k, d, b + HEADER);
    ResizedStores(s[ptr], k, d, k', d', ptr, b, size);
    forall p | p in s && p != ptr
      ensures HEADER <= p && Undisturbed(k, d, k', d', HeaderOf(p)) && Stores(s[p], k', d', p)
    {
      BesideMoved(s[p], m, k, d, m', k', d', ptr, b, size, p);
    }
  }

  /** One byte stored. */
  function Stored(d: Bytes, x: nat, value: int): Bytes {
    (w: nat) => if w == x then value else d(w)
  }

  lemma WriteFollows(s: Buffers, k: Ledger, d: Bytes, ptr: nat, offset: nat, value: int)
    requires Faithful(s, k, d) && ptr in s && offset < s[ptr].size
    requires forall a, b :: a in k.live && b in k.live && a < b ==> a + k.live[a] <= b
    ensures Follows(WriteOp(ptr, offset, value), 0, s, k, d, k, Stored(d, ByteOf(HeaderOf(ptr), offset), value))
  {
    var d' := Stored(d, ByteOf(HeaderOf(ptr), offset), value);
    var s' := Applied(WriteOp(ptr, offset, value), 0, s);
    assert Stores(s[ptr], k, d, ptr);
    forall p | p in s && p != ptr
      ensures HEADER <= p && Undisturbed(k, d, k, d', HeaderOf(p)) && Stores(s[p], k, d', p)
    {
      assert Stores(s[p], k, d, p);
      var a, c := HeaderOf(ptr), HeaderOf(p);
      assert a + k.live[a] <= c || c + k.live[c] <= a;
      StillStored(s[p], k, d, k, d', p);
    }
    assert Stores(s'[ptr], k, d', ptr);
  }

  /** The buffer at `p` is what and where it was. */
  ghost predicate Survives(s0: Buffers, k0: Ledger, d0: Bytes, s: Buffers, k: Ledger, d: Bytes, p: nat) {
    && HEADER <= p && p in s0 && p in s && s[p] == s0[p] && Undisturbed(k0, d0, k, d, HeaderOf(p))
  }

  ghost predicate UnnamedSurvive(ops: seq<Op>, s0: Buffers, k0: Ledger, d0: Bytes, s: Buffers, k: Ledger, d: Bytes) {
    forall p {:trigger NoneNames(ops, p)} :: p in s0 && NoneNames(ops, p) ==> Survives(s0, k0, d0, s, k, d, p)
  }

  lemma SurviveStart(s: Buffers, k: Ledger, d: Bytes)
    requires Faithful(s, k, d)
    ensures UnnamedSurvive([], s, k, d, s, k, d)
  {
    NothingWritten(d, k.live, k.live);
    SparedBuffers(s, k, d, k, d);
  }

  lemma Unnamed(ops: seq<Op>, i: nat, p: nat)
    requires i < |ops| && NoneNames(ops[..i + 1], p)
    ensures NoneNames(ops[..i], p) && !Names(ops[i], p)
  {
    forall j | 0 <= j < i ensures !Names(ops[..i][j], p) { assert ops[..i][j] == ops[..i + 1][j]; }
    assert ops[i] == ops[..i + 1][i];
  }

  lemma SurviveStep(ops: seq<Op>, i: nat, q: nat, s0: Buffers, k0: Ledger, d0: Bytes,
                    s: Buffers, k: Ledger, d: Bytes, k': Ledger, d': Bytes)
    requires i < |ops| && UnnamedSurvive(ops[..i], s0, k0, d0, s, k, d) && Follows(ops[i], q, s, k, d, k', d')
    ensures UnnamedSurvive(ops[..i + 1], s0, k0, d0, Applied(ops[i], q, s), k', d')
  {
    forall p | p in s0 && NoneNames(ops[..i + 1], p) ensures Survives(s0, k0, d0, Applied(ops[i], q, s), k', d', p) {
      Unnamed(ops, i, p);
      assert Survives(s0, k0, d0, s, k, d, p);
      UndisturbedTwice(k0, d0, k, d, k', d', HeaderOf(p));
    }
  }

  lemma SurvivePause(ops: seq<Op>, i: nat, s0: Buffers, k0: Ledger, d0: Bytes,
                     s: Buffers, k: Ledger, d: Bytes, k': Ledger, d': Bytes)
    requires i < |ops| && UnnamedSurvive(ops[..i], s0, k0, d0, s, k, d)
    requires !ops[i].ShutdownOp? ==> AllUndisturbed(s, k, d, k', d')
    ensures UnnamedSurvive(ops[..i + 1], s0, k0, d0, s, k', d')
  {
    forall p | p in s0 && NoneNames(ops[..i + 1], p) ensures Survives(s0, k0, d0, s, k', d', p) {
      Unnamed(ops, i, p);
      assert Survives(s0, k0, d0, s, k, d, p);
      UndisturbedTwice(k0, d0, k, d, k', d', HeaderOf(p));
    }
  }

  // ---------------------------------------------------------------- runs

  /** The counters are exact, and within `top`, which is at least every limit set so far. */
  ghost predicate Exact(m: Mem, k: Ledger, top: nat) {
    Excess(m, k) == 0 && m.realSize <= top && m.limit <= top
  }

  /** What holds between operations as long as none has failed. */
  ghost predicate Healthy(h: Heap, top: nat)
    reads h, h.index
  {
    h.Core({}) && Exact(h.m, h.k, top)
  }

  /** No segment is free from end to end. */
  ghost predicate Trim(m: Mem, k: Ledger) {
    AllTaken(TilesOf(m, k), m.segs)
  }

  /** Sizes are machine words, and limits are at most `top`. */
  predicate Admissible(op: Op, blockSize: nat, top: nat) {
    match op
    case AllocOp(size) => size < WORD
    case ReallocOp(_, size) => size < WORD
    case SetLimitOp(limit) => limit <= top && blockSize <= top
    case ShutdownOp(reserveSize) => reserveSize < WORD
    case _ => true
  }

  /** A reserve fits the smallest segment. */
  predicate FitsGranule(op: Op, blockSize: nat) {
    op.ShutdownOp? ==> op.reserveSize + HEADER <= blockSize - SEGMENT_HEADER - HEADER
  }

  /** What a successful operation does; a shutdown keeps the heap trim if its reserve `fits`. */
  ghost predicate Served(op: Op, q: nat, s: Buffers, m: Mem, k: Ledger, d: Bytes, m': Mem, k': Ledger, d': Bytes,
                         fits: bool, top: nat) {
    Exact(m', k', top) && (Trim(m, k) && fits ==> Trim(m', k')) && Follows(op, q, s, k, d, k', d')
  }

  // ---------------------------------------------------------------- why operations succeed or fail

  /** What the words of the heap and the bytes of the address space are at one moment. */
  datatype Moment = Moment(w: Words, g: Shape, m: Mem, k: Ledger, d: Bytes)

  ghost function MomentOf(h: Heap): Moment
    reads h, h.index
  {
    Moment(h.index.w, h.index.g, h.m, h.k, h.mem)
  }

  /** The outcome is the one that the heap at the moment `t` calls for, as far as the storage does not decide it:
      only allocation, resizing and the reserve of a shutdown can fail, and each says why. */
  ghost predicate Justified(op: Op, r: Outcome, t: Moment, t': Moment, blockSize: nat)
    requires blockSize > 0
  {
    match op
    case AllocOp(size) => AllocJustified(t.w, t.g, t.m, blockSize, size, r)
    case ReallocOp(ptr, size) =>
      if ptr < HEADER then AllocJustified(t.w, t.g, t.m, blockSize, size, r)
      else ReallocJustified(t.w, t.g, t.m, t.k, blockSize, HeaderOf(ptr), size, r, t'.m.segs)
    case ShutdownOp(reserveSize) =>
      r.Granted? || (reserveSize != 0 && ReserveRefused(Oldest(t.m.segs), t.m.limit, blockSize, reserveSize, r))
    case _ => r.Granted?
  }

  /** What became of the remainder, of the old block or of the freed block when the operation got the block `b`. */
  ghost predicate Arranged(op: Op, b: nat, t: Moment, t': Moment, blockSize: nat)
    requires blockSize > 0
  {
    match op
    case AllocOp(size) => AllocArranged(b, t, t', blockSize, size)
    case FreeOp(ptr) => ptr < HEADER || FreeArranged(HeaderOf(ptr), t, t')
    case ReallocOp(ptr, size) =>
      if ptr < HEADER then AllocArranged(b, t, t', blockSize, size)
      else ReallocArranged(HeaderOf(ptr), b, t, t', blockSize, size)
    case _ => true
  }

  ghost predicate AllocArranged(b: nat, t: Moment, t': Moment, blockSize: nat, size: nat)
    requires blockSize > 0
  {
    BlockSize(TrueSize(size)) && Apportioned(t.w, t.g, t.m, blockSize, TrueSize(size), b, t'.w, t'.g, t'.m)
  }

  ghost predicate FreeArranged(a: nat, t: Moment, t': Moment) {
    a in t.k.live && if ToCache(t.m, t.k, a) then OnTop(t'.m, t'.k, a) else GivenTo(t.m, t.k, t'.w, t'.g, t'.m, a)
  }

  ghost predicate ReallocArranged(a: nat, b: nat, t: Moment, t': Moment, blockSize: nat, size: nat)
    requires blockSize > 0
  {
    && BlockSize(TrueSize(size)) && a in t.k.live && a in t.m.size && a in t.k.seg
    && Resettled(t.m, t.k, blockSize, a, TrueSize(size), b, t'.w, t'.g, t'.m, t'.k)
  }

  /** The operation succeeded, with the pointer `q`. */
  ghost predicate Went(op: Op, q: nat, s: Buffers, t: Moment, t': Moment, blockSize: nat, top: nat)
    requires blockSize > 0
  {
    && CoreOf(t'.w, t'.g, t'.m, t'.k, blockSize, {})
    && Served(op, q, s, t.m, t.k, t.d, t'.m, t'.k, t'.d, FitsGranule(op, blockSize), top)
    && Justified(op, Granted(HeaderOf(q)), t, t', blockSize) && Arranged(op, HeaderOf(q), t, t', blockSize)
  }

  /** The operation failed; unless it is a shutdown, nothing happened to the buffers. */
  ghost predicate Failed(op: Op, r: Outcome, s: Buffers, t: Moment, t': Moment, blockSize: nat)
    requires blockSize > 0
  {
    && Owed(op, s) && !r.Granted? && Justified(op, r, t, t', blockSize)
    && (!op.ShutdownOp? ==> AllUndisturbed(s, t.k, t.d, t'.k, t'.d))
  }

  lemma AllocWent(op: Op, s: Buffers, t: Moment, t': Moment, b: nat, size: nat, blockSize: nat, top: nat)
    requires blockSize > 0 && CoreOf(t'.w, t'.g, t'.m, t'.k, blockSize, {})
    requires Faithful(s, t.k, t.d) && Exact(t.m, t.k, top)
    requires Handed(t.m, t.k, t'.m, t'.k, b, size) && Spared(t.d, t'.d, t.k.live, t'.k.live)
    requires op == AllocOp(size) || op == ReallocOp(0, size)
    requires AllocJustified(t.w, t.g, t.m, blockSize, size, Granted(b)) && AllocArranged(b, t, t', blockSize, size)
    ensures Went(op, PointerTo(b), s, t, t', blockSize, top)
  {
    AllocServed(op, s, t.m, t.k, t.d, t'.m, t'.k, t'.d, b, size, top);
    AllocCase(op, t, t', b, size, blockSize);
  }

  lemma AllocCase(op: Op, t: Moment, t': Moment, b: nat, size: nat, blockSize: nat)
    requires blockSize > 0 && (op == AllocOp(size) || op == ReallocOp(0, size))
    requires AllocJustified(t.w, t.g, t.m, blockSize, size, Granted(b)) && AllocArranged(b, t, t', blockSize, size)
    ensures Justified(op, Granted(HeaderOf(PointerTo(b))), t, t', blockSize)
    ensures Arranged(op, HeaderOf(PointerTo(b)), t, t', blockSize)
  {
    assert HeaderOf(PointerTo(b)) == b;
  }

  lemma ReallocCase(t: Moment, t': Moment, ptr: nat, b: nat, size: nat, blockSize: nat)
    requires blockSize > 0 && HEADER <= ptr
    requires ReallocJustified(t.w, t.g, t.m, t.k, blockSize, HeaderOf(ptr), size, Granted(b), t'.m.segs)
    requires ReallocArranged(HeaderOf(ptr), b, t, t', blockSize, size)
    ensures Justified(ReallocOp(ptr, size), Granted(HeaderOf(PointerTo(b))), t, t', blockSize)
    ensures Arranged(ReallocOp(ptr, size), HeaderOf(PointerTo(b)), t, t', blockSize)
  {
    assert HeaderOf(PointerTo(b)) == b;
  }

  lemma ReallocWent(s: Buffers, t: Moment, t': Moment, ptr: nat, b: nat, size: nat, blockSize: nat, top: nat)
    requires blockSize > 0 && CoreOf(t'.w, t'.g, t'.m, t'.k, blockSize, {})
    requires Faithful(s, t.k, t.d) && Exact(t.m, t.k, top)
    requires ptr in s && Moved(t.m, t.k, t'.m, t'.k, HeaderOf(ptr), b, size)
    requires Carried(t.d, t'.d, t.k.live, t'.k.live, HeaderOf(ptr), b)
    requires ReallocJustified(t.w, t.g, t.m, t.k, blockSize, HeaderOf(ptr), size, Granted(b), t'.m.segs)
    requires HEADER <= ptr && ReallocArranged(HeaderOf(ptr), b, t, t', blockSize, size)
    ensures Went(ReallocOp(ptr, size), PointerTo(b), s, t, t', blockSize, top)
  {
    ReallocServed(s, t.m, t.k, t.d, t'.m, t'.k, t'.d, ptr, b, size, top);
    ReallocCase(t, t', ptr, b, size, blockSize);
  }

  lemma NotServed(op: Op, r: Outcome, s: Buffers, t: Moment, t': Moment, blockSize: nat)
    requires blockSize > 0 && Owed(op, s) && Faithful(s, t.k, t.d) && !r.Granted? && Justified(op, r, t, t', blockSize)
    requires Emptied(t.m, t.k, t'.m, t'.k) && Spared(t.d, t'.d, t.k.live, t'.k.live)
    ensures Failed(op, r, s, t, t', blockSize)
  {
    FailedUndisturbed(s, t.m, t.k, t.d, t'.m, t'.k, t'.d);
  }

  lemma AllocServed(op: Op, s: Buffers, m: Mem, k: Ledger, d: Bytes, m': Mem, k': Ledger, d': Bytes, b: nat, size: nat,
                    top: nat)
    requires Faithful(s, k, d) && Exact(m, k, top) && Handed(m, k, m', k', b, size) && Spared(d, d', k.live, k'.live)
    requires op == AllocOp(size) || op == ReallocOp(0, size)
    ensures Served(op, PointerTo(b), s, m, k, d, m', k', d', true, top)
  {
    AllocFollows(op, s, m, k, d, m', k', d', b, size);
  }

  lemma ReallocServed(s: Buffers, m: Mem, k: Ledger, d: Bytes, m': Mem, k': Ledger, d': Bytes,
                      ptr: nat, b: nat, size: nat, top: nat)
    requires Faithful(s, k, d) && Exact(m, k, top) && ptr in s && Moved(m, k, m', k', HeaderOf(ptr), b, size)
    requires Carried(d, d', k.live, k'.live, HeaderOf(ptr), b)
    ensures Served(ReallocOp(ptr, size), PointerTo(b), s, m, k, d, m', k', d', true, top)
  {
    ReallocFollows(s, m, k, d, m', k', d', ptr, b, size);
  }

  lemma FreeServed(ptr: nat, s: Buffers, m: Mem, k: Ledger, d: Bytes, m': Mem, k': Ledger, d': Bytes, top: nat)
    requires Faithful(s, k, d) && Exact(m, k, top) && Spared(d, d', k.live, k'.live) && (ptr == 0 || ptr in s)
    requires ptr == 0 ==> k' == k
    requires ptr != 0 ==> HEADER <= ptr && k'.live == k.live - {HeaderOf(ptr)} && k'.req == k.req - {HeaderOf(ptr)}
    requires Excess(m', k') == Excess(m, k) && m'.limit == m.limit && m'.realSize <= m.realSize
    requires NoneFreed(TilesOf(m, k), m.segs, TilesOf(m', k'), m'.segs)
    ensures Served(FreeOp(ptr), 0, s, m, k, d, m', k', d', true, top)
  {
    FreeFollows(ptr, s, k, d, k', d');
  }

  lemma WriteServed(s: Buffers, m: Mem, k: Ledger, d: Bytes, ptr: nat, offset: nat, value: int, top: nat)
    requires Faithful(s, k, d) && Exact(m, k, top) && ptr in s && offset < s[ptr].size
    requires forall a, b :: a in k.live && b in k.live && a < b ==> a + k.live[a] <= b
    ensures Served(WriteOp(ptr, offset, value), 0, s, m, k, d, m, k, Stored(d, ByteOf(HeaderOf(ptr), offset), value),
            true, top)
  {
    WriteFollows(s, k, d, ptr, offset, value);
  }

  lemma SetLimitServed(s: Buffers, m: Mem, k: Ledger, d: Bytes, limit: nat, blockSize: nat, top: nat)
    requires Faithful(s, k, d) && Exact(m, k, top) && limit <= top && blockSize <= top
    ensures Served(SetLimitOp(limit), 0, s, m, k, d, m.(limit := Max(limit, blockSize)), k, d, true, top)
  {
    NothingWritten(d, k.live, k.live);
    SparedBuffers(s, k, d, k, d);
  }

  lemma ShutServed(s: Buffers, m: Mem, k: Ledger, d: Bytes, m': Mem, k': Ledger, d': Bytes,
                   kept: seq<Segment>, a: nat, size: nat, blockSize: nat, top: nat)
    requires Exact(m, k, top) && Grained(m.segs, blockSize) && (kept == [] || (|kept| == 1 && kept[0] in m.segs))
    requires m'.limit == m.limit && (m'.realSize <= m.realSize || m'.realSize <= m'.limit)
    requires if size == 0 then m'.segs == [] && Excess(m', k') == 0 else Reserved(m', k', kept, a, size)
    ensures Served(ShutdownOp(size), 0, s, m, k, d, m', k', d', FitsGranule(ShutdownOp(size), blockSize), top)
  {
  }

  lemma FailedUndisturbed(s: Buffers, m: Mem, k: Ledger, d: Bytes, m': Mem, k': Ledger, d': Bytes)
    requires Faithful(s, k, d) && Emptied(m, k, m', k') && Spared(d, d', k.live, k'.live)
    ensures AllUndisturbed(s, k, d, k', d')
  {
    SparedBuffers(s, k, d, k', d');
  }

  /** What a caller sees of a healthy heap: payloads that hold the requests, lie inside a segment, do not
      overlap and have no word of the memory manager in them, and counters that say what is in use. */
  lemma HealthyMeans(h: Heap, top: nat)
    requires Healthy(h, top)
    ensures forall a :: a in h.k.live ==>
              && a in h.k.req && h.k.req[a] + HEADER <= h.k.live[a]
              && a in h.k.seg && h.k.seg[a] in h.m.segs
              && h.k.seg[a].First() <= a && a + h.k.live[a] <= h.k.seg[a].GuardAt()
    ensures forall a, b :: a in h.k.live && b in h.k.live && a < b ==> a + h.k.live[a] <= b
    ensures forall a, x: nat :: a in h.k.live && InPayload(a, h.k.live[a], x) ==>
              !MetaByte(BooksOf(h.m, h.k, h.index.g.home.Keys + {}), h.m.segs, x)
    ensures h.m.realSize == Total(h.m.segs) <= top && h.m.cached == Sum(h.k.cach) < CACHE_SIZE + MAX_SMALL
    ensures h.m.used == Sum(h.k.live) + Sum(h.k.cach)
  {
    var held := h.index.g.home.Keys + {};
    var b := BooksOf(h.m, h.k, held);
    forall a | a in h.k.live ensures
        && a in h.k.seg && h.k.seg[a] in h.m.segs
        && h.k.seg[a].First() <= a && a + h.k.live[a] <= h.k.seg[a].GuardAt()
    {
      LiveTag(h.m, h.k, held, a);
      Entry(b, h.m.segs, a);
      Entry(b, h.m.segs, a + h.m.size[a].size);
    }
    LivePayloads(h.m, h.k, held);
    forall a, x: nat | a in h.k.live && InPayload(a, h.k.live[a], x) ensures !MetaByte(b, h.m.segs, x) {
      MetadataApart(b, h.m.segs, a, x);
    }
  }

  method Allocate(h: Heap, op: Op, size: nat, ghost s: Buffers, ghost top: nat) returns (r: Outcome, q: nat)
    requires Healthy(h, top) && Faithful(s, h.k, h.mem) && size < WORD &&
             (op == AllocOp(size) || op == ReallocOp(0, size))
    modifies h`m, h`k, h`mem, h.index
    ensures h.blockSize > 0
    ensures r.Granted? ==> Went(op, q, s, old(MomentOf(h)), MomentOf(h), h.blockSize, top)
    ensures !r.Granted? ==> Failed(op, r, s, old(MomentOf(h)), MomentOf(h), h.blockSize)
  {
    q := 0;
    r := h.Alloc(size);
    if r.Granted? {
      q := PointerTo(r.block);
      AllocWent(op, s, old(MomentOf(h)), MomentOf(h), r.block, size, h.blockSize, top);
    } else {
      NotServed(op, r, s, old(MomentOf(h)), MomentOf(h), h.blockSize);
    }
  }

  method Release(h: Heap, ptr: nat, ghost s: Buffers, ghost top: nat)
    requires Healthy(h, top) && Faithful(s, h.k, h.mem) && (ptr == 0 || ptr in s)
    modifies h`m, h`k, h`mem, h.index
    ensures h.blockSize > 0 && Went(FreeOp(ptr), 0, s, old(MomentOf(h)), MomentOf(h), h.blockSize, top)
  {
    assert ptr in s ==> Stores(s[ptr], h.k, h.mem, ptr);
    h.Free(ptr);
    FreeServed(ptr, s, old(h.m), old(h.k), old(h.mem), h.m, h.k, h.mem, top);
  }

  method Reallocate(h: Heap, ptr: nat, size: nat, ghost s: Buffers, ghost top: nat) returns (r: Outcome, q: nat)
    requires Healthy(h, top) && Faithful(s, h.k, h.mem) && size < WORD && ptr in s
    modifies h`m, h`k, h`mem, h.index
    ensures h.blockSize > 0
    ensures r.Granted? ==> Went(ReallocOp(ptr, size), q, s, old(MomentOf(h)), MomentOf(h), h.blockSize, top)
    ensures !r.Granted? ==> Failed(ReallocOp(ptr, size), r, s, old(MomentOf(h)), MomentOf(h), h.blockSize)
  {
    assert Stores(s[ptr], h.k, h.mem, ptr);
    ghost var lost;
    q := 0;
    r, lost := h.Realloc(ptr, size);
    if r.Granted? {
      q := PointerTo(r.block);
      ReallocWent(s, old(MomentOf(h)), MomentOf(h), ptr, r.block, size, h.blockSize, top);
    } else {
      NotServed(ReallocOp(ptr, size), r, s, old(MomentOf(h)), MomentOf(h), h.blockSize);
    }
  }

  lemma TopIsChosen(w: Words, g: Shape, m: Mem, k: Ledger, blockSize: nat, size: nat, a: nat, r: Outcome)
    requires blockSize > 0 && OnTop(m, k, a) && k.cach[a] == TrueSize(size) >= size
    requires AllocJustified(w, g, m, blockSize, size, r)
    ensures r == Granted(a)
  {
    assert CacheHit(m, TrueSize(size));
  }

  /** The cache is a stack: a block freed into it is the one that the next request of its size gets. */
  method Reuse(h: Heap, ptr: nat, size: nat) returns (r: Outcome)
    requires h.Core({}) && Excess(h.m, h.k) >= 0 && HEADER <= ptr && HeaderOf(ptr) in h.k.live
    requires size < WORD && ToCache(h.m, h.k, HeaderOf(ptr)) && TrueSize(size) == h.k.live[HeaderOf(ptr)] >= size
    modifies h`m, h`k, h`mem, h.index
    ensures h.Core({}) && r == Granted(HeaderOf(ptr))
  {
    ghost var a := HeaderOf(ptr);
    h.Free(ptr);
    ghost var t := MomentOf(h);
    r := h.Alloc(size);
    TopIsChosen(t.w, t.g, t.m, t.k, h.blockSize, size, a, r);
  }

  /** A caller stores a byte; by `HealthyMeans` no word of the memory manager is there. */
  method Write(h: Heap, ptr: nat, offset: nat, value: int, ghost s: Buffers, ghost top: nat)
    requires Healthy(h, top) && Faithful(s, h.k, h.mem) && ptr in s && offset < s[ptr].size
    modifies h`mem
    ensures h.m == old(h.m) && h.k == old(h.k) && h.blockSize > 0
    ensures Went(WriteOp(ptr, offset, value), 0, s, old(MomentOf(h)), MomentOf(h), h.blockSize, top)
  {
    assert Stores(s[ptr], h.k, h.mem, ptr);
    LivePayloads(h.m, h.k, h.index.g.home.Keys + {});
    WriteServed(s, h.m, h.k, h.mem, ptr, offset, value, top);
    h.mem := Stored(h.mem, ByteOf(HeaderOf(ptr), offset), value);
  }

  method Limit(h: Heap, limit: nat, ghost s: Buffers, ghost top: nat)
    requires Healthy(h, top) && Faithful(s, h.k, h.mem) && limit <= top && h.blockSize <= top
    modifies h`m
    ensures h.k == old(h.k) && h.mem == old(h.mem) && h.blockSize > 0
    ensures Went(SetLimitOp(limit), 0, s, old(MomentOf(h)), MomentOf(h), h.blockSize, top)
  {
    SetLimitServed(s, h.m, h.k, h.mem, limit, h.blockSize, top);
    h.SetLimit(limit);
  }

  method Shut(h: Heap, reserveSize: nat, ghost s: Buffers, ghost top: nat) returns (r: Outcome)
    requires Healthy(h, top) && reserveSize < WORD
    modifies h`m, h`k, h`mem, h.index
    ensures h.blockSize > 0
    ensures r.Granted? ==> Went(ShutdownOp(reserveSize), 0, s, old(MomentOf(h)), MomentOf(h), h.blockSize, top)
    ensures !r.Granted? ==> Failed(ShutdownOp(reserveSize), r, s, old(MomentOf(h)), MomentOf(h), h.blockSize)
  {
    ghost var kept := Oldest(h.m.segs);
    r := h.PartialShutdown(reserveSize);
    if r.Granted? {
      ShutServed(s, old(h.m), old(h.k), old(h.mem), h.m, h.k, h.mem, kept, r.block, reserveSize, h.blockSize, top);
    }
  }

  /** One operation of a caller. */
  method Perform(h: Heap, op: Op, ghost s: Buffers, ghost top: nat) returns (r: Outcome, q: nat)
    requires Healthy(h, top) && Faithful(s, h.k, h.mem) && Admissible(op, h.blockSize, top) && Owed(op, s)
    modifies h`m, h`k, h`mem, h.index
    ensures h.blockSize > 0
    ensures r.Granted? ==> Went(op, q, s, old(MomentOf(h)), MomentOf(h), h.blockSize, top)
    ensures !r.Granted? ==> Failed(op, r, s, old(MomentOf(h)), MomentOf(h), h.blockSize)
  {
    r, q := Granted(0), 0;
    match op
    case AllocOp(size) => r, q := Allocate(h, op, size, s, top);
    case FreeOp(ptr) => Release(h, ptr, s, top);
    case ReallocOp(ptr, size) =>
      if ptr == 0 {
        r, q := Allocate(h, op, size, s, top);
      } else {
        r, q := Reallocate(h, ptr, size, s, top);
      }
    case WriteOp(ptr, offset, value) => Write(h, ptr, offset, value, s, top);
    case SetLimitOp(limit) => Limit(h, limit, s, top);
    case ShutdownOp(reserveSize) => r := Shut(h, reserveSize, s, top);
  }

  /** One more operation of the ideal heap. */
  lemma AfterOne(ops: seq<Op>, i: nat, qs: seq<nat>, q: nat, s: Buffers)
    requires i < |ops| && |qs| == i && AllUnused(ops[..i], qs, s)
    requires Owed(ops[i], After(ops[..i], qs, s)) ==> Unused(ops[i], q, After(ops[..i], qs, s))
    ensures After(ops[..i + 1], qs + [q], s) ==
            var before := After(ops[..i], qs, s);
            if Owed(ops[i], before) then Applied(ops[i], q, before) else before
    ensures AllUnused(ops[..i + 1], qs + [q], s)
  {
    assert ops[..i + 1][..i] == ops[..i] && (qs + [q])[..i] == qs;
    forall j | 0 <= j < i + 1 && Owed(ops[..i + 1][j], After(ops[..i + 1][..j], (qs + [q])[..j], s))
      ensures Unused(ops[..i + 1][j], (qs + [q])[j], After(ops[..i + 1][..j], (qs + [q])[..j], s))
    {
      if j < i {
        assert ops[..i + 1][..j] == ops[..i][..j] && (qs + [q])[..j] == qs[..j];
        assert ops[..i][j] == ops[..i + 1][j];
      }
    }
  }

  /** A run that has come as far as `qs`: it followed the ideal heap, with pointers that were not in use; every
      buffer is in the heap, and the blocks of buffers that no operation named are undisturbed. */
  ghost predicate Stage(ops: seq<Op>, qs: seq<nat>, s0: Buffers, k0: Ledger, d0: Bytes, s: Buffers, k: Ledger,
                        d: Bytes) {
    && |qs| <= |ops| && s == After(ops[..|qs|], qs, s0) && AllUnused(ops[..|qs|], qs, s0)
    && Faithful(s, k, d) && UnnamedSurvive(ops[..|qs|], s0, k0, d0, s, k, d)
  }

  /** A run that failed after `qs` with the outcome `r`, at the moment `t`: the heap called for it, and every buffer
      is still in the heap, unless the shutdown failed. */
  ghost predicate Stopped(ops: seq<Op>, qs: seq<nat>, s0: Buffers, k0: Ledger, d0: Bytes, s: Buffers, r: Outcome,
                          t: Moment, t': Moment, blockSize: nat)
    requires blockSize > 0
  {
    && |qs| < |ops| && s == After(ops[..|qs|], qs, s0) && AllUnused(ops[..|qs|], qs, s0)
    && Failed(ops[|qs|], r, s, t, t', blockSize)
    && UnnamedSurvive(ops[..|qs| + 1], s0, k0, d0, s, t'.k, t'.d)
  }

  lemma StageStart(ops: seq<Op>, s: Buffers, k: Ledger, d: Bytes)
    requires Faithful(s, k, d)
    ensures Stage(ops, [], s, k, d, s, k, d)
  {
    SurviveStart(s, k, d);
    assert ops[..0] == [];
  }

  lemma StageStep(ops: seq<Op>, qs: seq<nat>, q: nat, s0: Buffers, k0: Ledger, d0: Bytes,
                  s: Buffers, k: Ledger, d: Bytes, k': Ledger, d': Bytes)
    requires Stage(ops, qs, s0, k0, d0, s, k, d) && |qs| < |ops| && Follows(ops[|qs|], q, s, k, d, k', d')
    ensures Stage(ops, qs + [q], s0, k0, d0, Applied(ops[|qs|], q, s), k', d')
  {
    AfterOne(ops, |qs|, qs, q, s0);
    SurviveStep(ops, |qs|, q, s0, k0, d0, s, k, d, k', d');
  }

  lemma StageSkip(ops: seq<Op>, qs: seq<nat>, s0: Buffers, k0: Ledger, d0: Bytes, s: Buffers, k: Ledger, d: Bytes)
    requires Stage(ops, qs, s0, k0, d0, s, k, d) && |qs| < |ops| && !Owed(ops[|qs|], s)
    ensures Stage(ops, qs + [0], s0, k0, d0, s, k, d)
  {
    AfterOne(ops, |qs|, qs, 0, s0);
    NothingWritten(d, k.live, k.live);
    SparedBuffers(s, k, d, k, d);
    SurvivePause(ops, |qs|, s0, k0, d0, s, k, d, k, d);
  }

  /** A heap that was trim still is after operations whose reserves fit. */
  ghost predicate StaysTrim(ops: seq<Op>, blockSize: nat, trim: bool, m: Mem, k: Ledger) {
    trim && (forall i {:trigger ops[i]} :: 0 <= i < |ops| ==> FitsGranule(ops[i], blockSize)) ==> Trim(m, k)
  }

  lemma TrimStep(ops: seq<Op>, i: nat, blockSize: nat, trim: bool, m: Mem, k: Ledger, m': Mem, k': Ledger)
    requires i < |ops| && StaysTrim(ops[..i], blockSize, trim, m, k)
    requires Trim(m, k) && FitsGranule(ops[i], blockSize) ==> Trim(m', k')
    ensures StaysTrim(ops[..i + 1], blockSize, trim, m', k')
  {
    if forall j {:trigger ops[..i + 1][j]} :: 0 <= j < i + 1 ==> FitsGranule(ops[..i + 1][j], blockSize) {
      forall j | 0 <= j < i ensures FitsGranule(ops[..i][j], blockSize) { assert ops[..i][j] == ops[..i + 1][j]; }
      assert ops[..i + 1][i] == ops[i];
    }
  }

  /** Step `i` of a run: the operation succeeded, or was skipped as one that callers must not do. */
  ghost predicate StepAt(ops: seq<Op>, qs: seq<nat>, s0: Buffers, trace: seq<Moment>, i: nat, blockSize: nat, top: nat)
    requires blockSize > 0 && i < |qs| <= |ops| && |trace| == |qs| + 1
  {
    var s := After(ops[..i], qs[..i], s0);
    if Owed(ops[i], s) then Went(ops[i], qs[i], s, trace[i], trace[i + 1], blockSize, top) else trace[i + 1] == trace[i]
  }

  /** The moments between the operations of a run. */
  ghost predicate Traced(ops: seq<Op>, qs: seq<nat>, s0: Buffers, trace: seq<Moment>, blockSize: nat, top: nat)
    requires blockSize > 0
  {
    && |qs| <= |ops| && |trace| == |qs| + 1
    && forall i: nat {:trigger StepAt(ops, qs, s0, trace, i, blockSize, top)} :: i < |qs| ==>
         StepAt(ops, qs, s0, trace, i, blockSize, top)
  }

  lemma TracedOn(ops: seq<Op>, qs: seq<nat>, q: nat, s0: Buffers, trace: seq<Moment>, t: Moment,
                 blockSize: nat, top: nat)
    requires blockSize > 0 && Traced(ops, qs, s0, trace, blockSize, top) && |qs| < |ops|
    requires var s := After(ops[..|qs|], qs, s0);
             if Owed(ops[|qs|], s) then Went(ops[|qs|], q, s, trace[|qs|], t, blockSize, top) else t == trace[|qs|]
    ensures Traced(ops, qs + [q], s0, trace + [t], blockSize, top)
  {
    forall i: nat | i < |qs| + 1 ensures StepAt(ops, qs + [q], s0, trace + [t], i, blockSize, top) {
      if i < |qs| {
        assert StepAt(ops, qs, s0, trace, i, blockSize, top) && (qs + [q])[..i] == qs[..i];
      } else {
        assert (qs + [q])[..i] == qs;
      }
    }
  }

  /** What a run has come to after `qs`. */
  ghost predicate Reached(ops: seq<Op>, qs: seq<nat>, s0: Buffers, s: Buffers, trace: seq<Moment>,
                          blockSize: nat, top: nat)
    requires blockSize > 0
  {
    && Traced(ops, qs, s0, trace, blockSize, top)
    && Stage(ops, qs, s0, trace[0].k, trace[0].d, s, trace[|qs|].k, trace[|qs|].d)
    && StaysTrim(ops[..|qs|], blockSize, Trim(trace[0].m, trace[0].k), trace[|qs|].m, trace[|qs|].k)
  }

  lemma ReachedFirst(ops: seq<Op>, s: Buffers, t: Moment, blockSize: nat, top: nat)
    requires blockSize > 0 && Faithful(s, t.k, t.d)
    ensures Reached(ops, [], s, s, [t], blockSize, top)
  {
    StageStart(ops, s, t.k, t.d);
  }

  lemma ReachedNext(ops: seq<Op>, qs: seq<nat>, q: nat, s0: Buffers, s: Buffers, trace: seq<Moment>, t: Moment,
                    blockSize: nat, top: nat)
    requires blockSize > 0 && Reached(ops, qs, s0, s, trace, blockSize, top) && |qs| < |ops|
    requires Went(ops[|qs|], q, s, trace[|qs|], t, blockSize, top)
    ensures Owed(ops[|qs|], s) && Reached(ops, qs + [q], s0, Applied(ops[|qs|], q, s), trace + [t], blockSize, top)
  {
    TracedOn(ops, qs, q, s0, trace, t, blockSize, top);
    StageWent(ops, qs, q, s0, s, trace[0], trace[|qs|], t, blockSize, top);
    assert |qs + [q]| == |qs| + 1 && (trace + [t])[0] == trace[0] && (trace + [t])[|qs| + 1] == t;
  }

  lemma StageWent(ops: seq<Op>, qs: seq<nat>, q: nat, s0: Buffers, s: Buffers, t0: Moment, t1: Moment, t: Moment,
                  blockSize: nat, top: nat)
    requires blockSize > 0 && |qs| < |ops| && Went(ops[|qs|], q, s, t1, t, blockSize, top)
    requires Stage(ops, qs, s0, t0.k, t0.d, s, t1.k, t1.d)
    requires StaysTrim(ops[..|qs|], blockSize, Trim(t0.m, t0.k), t1.m, t1.k)
    ensures Owed(ops[|qs|], s) && Stage(ops, qs + [q], s0, t0.k, t0.d, Applied(ops[|qs|], q, s), t.k, t.d)
    ensures StaysTrim(ops[..|qs| + 1], blockSize, Trim(t0.m, t0.k), t.m, t.k)
  {
    StageStep(ops, qs, q, s0, t0.k, t0.d, s, t1.k, t1.d, t.k, t.d);
    TrimStep(ops, |qs|, blockSize, Trim(t0.m, t0.k), t1.m, t1.k, t.m, t.k);
  }

  lemma ReachedSkip(ops: seq<Op>, qs: seq<nat>, s0: Buffers, s: Buffers, trace: seq<Moment>, blockSize: nat, top: nat)
    requires blockSize > 0 && Reached(ops, qs, s0, s, trace, blockSize, top) && |qs| < |ops| && !Owed(ops[|qs|], s)
    ensures Reached(ops, qs + [0], s0, s, trace + [trace[|qs|]], blockSize, top)
  {
    var t0, t1 := trace[0], trace[|qs|];
    TracedOn(ops, qs, 0, s0, trace, t1, blockSize, top);
    StageSkip(ops, qs, s0, t0.k, t0.d, s, t1.k, t1.d);
    TrimStep(ops, |qs|, blockSize, Trim(t0.m, t0.k), t1.m, t1.k, t1.m, t1.k);
  }

  lemma StoppedHere(ops: seq<Op>, qs: seq<nat>, s0: Buffers, s: Buffers, trace: seq<Moment>, r: Outcome, t: Moment,
                    blockSize: nat, top: nat)
    requires blockSize > 0 && Reached(ops, qs, s0, s, trace, blockSize, top) && |qs| < |ops|
    requires Failed(ops[|qs|], r, s, trace[|qs|], t, blockSize)
    ensures Stopped(ops, qs, s0, trace[0].k, trace[0].d, s, r, trace[|qs|], t, blockSize)
  {
    SurvivePause(ops, |qs|, s0, trace[0].k, trace[0].d, s, trace[|qs|].k, trace[|qs|].d, t.k, t.d);
  }

  /** One step of a run. */
  method Next(h: Heap, ops: seq<Op>, qs: seq<nat>, s: Buffers, ghost s0: Buffers, ghost trace: seq<Moment>,
              ghost top: nat)
    returns (r: Outcome, qs': seq<nat>, s': Buffers, ghost trace': seq<Moment>)
    requires Healthy(h, top) && |qs| < |ops| && Admissible(ops[|qs|], h.blockSize, top)
    requires h.blockSize > 0 && Reached(ops, qs, s0, s, trace, h.blockSize, top) && trace[|qs|] == MomentOf(h)
    modifies h`m, h`k, h`mem, h.index
    ensures r.Granted? ==>
              && |qs'| == |qs| + 1 && Healthy(h, top) && Reached(ops, qs', s0, s', trace', h.blockSize, top)
              && trace'[|qs'|] == MomentOf(h) && trace'[0] == trace[0]
    ensures !r.Granted? ==>
              && qs' == qs && trace' == trace
              && Stopped(ops, qs, s0, trace[0].k, trace[0].d, s', r, trace[|qs|], MomentOf(h), h.blockSize)
  {
    if !Owed(ops[|qs|], s) {
      ReachedSkip(ops, qs, s0, s, trace, h.blockSize, top);
      return Granted(0), qs + [0], s, trace + [trace[|qs|]];
    }
    var q;
    r, q := Perform(h, ops[|qs|], s, top);
    if r.Granted? {
      ReachedNext(ops, qs, q, s0, s, trace, MomentOf(h), h.blockSize, top);
      qs', s', trace' := qs + [q], Applied(ops[|qs|], q, s), trace + [MomentOf(h)];
    } else {
      StoppedHere(ops, qs, s0, s, trace, r, MomentOf(h), h.blockSize, top);
      qs', s', trace' := qs, s, trace;
    }
  }

  /** Every run, up to its first failure, keeps the heap healthy and follows the ideal heap, and a failure is one
      that the heap at that moment calls for. */
  method Run(h: Heap, ops: seq<Op>, s0: Buffers, ghost top: nat)
    returns (r: Outcome, qs: seq<nat>, s: Buffers, ghost trace: seq<Moment>)
    requires Healthy(h, top) && Faithful(s0, h.k, h.mem)
    requires forall i :: 0 <= i < |ops| ==> Admissible(ops[i], h.blockSize, top)
    modifies h`m, h`k, h`mem, h.index
    ensures h.blockSize > 0 && |trace| == |qs| + 1 && trace[0] == old(MomentOf(h))
    ensures Traced(ops, qs, s0, trace, h.blockSize, top)
    ensures r.Granted? ==>
              && |qs| == |ops| && Healthy(h, top) && trace[|qs|] == MomentOf(h)
              && Reached(ops, qs, s0, s, trace, h.blockSize, top)
    ensures !r.Granted? ==>
              Stopped(ops, qs, s0, old(h.k), old(h.mem), s, r, trace[|qs|], MomentOf(h), h.blockSize)
  {
    r, qs, s, trace := Granted(0), [], s0, [MomentOf(h)];
    ReachedFirst(ops, s0, MomentOf(h), h.blockSize, top);
    while |qs| < |ops|
      invariant |qs| <= |ops| && Healthy(h, top) && r.Granted?
      invariant Reached(ops, qs, s0, s, trace, h.blockSize, top)
      invariant trace[|qs|] == MomentOf(h) && trace[0] == old(MomentOf(h))
    {
      r, qs, s, trace := Next(h, ops, qs, s, s0, trace, top);
      if !r.Granted? {
        return;
      }
    }
  }

  lemma WholeRun(ops: seq<Op>, qs: seq<nat>, s0: Buffers, s: Buffers, trace: seq<Moment>, blockSize: nat, top: nat)
    requires blockSize > 0 && Reached(ops, qs, s0, s, trace, blockSize, top) && |qs| == |ops|
    ensures var t0, t := trace[0], trace[|qs|];
            && Faithful(s, t.k, t.d) && s == After(ops, qs, s0) && AllUnused(ops, qs, s0)
            && StaysTrim(ops, blockSize, Trim(t0.m, t0.k), t.m, t.k)
  {
    assert ops[..|qs|] == ops;
  }

  /** A whole process: the heap set up empty, and then any run of it. */
  method Process(blockSize: nat, ops: seq<Op>, ghost top: nat)
    returns (h: Heap, r: Outcome, qs: seq<nat>, s: Buffers, ghost trace: seq<Moment>)
    requires Granularity(blockSize) && Pow2(62) <= top
    requires forall i :: 0 <= i < |ops| ==> Admissible(ops[i], blockSize, top)
    ensures |trace| == |qs| + 1 && trace[0].m.segs == [] && trace[0].k.live == map[] && trace[0].m.limit == Pow2(62)
    ensures Traced(ops, qs, map[], trace, blockSize, top)
    ensures r.Granted? ==>
              && |qs| == |ops| && Healthy(h, top) && Faithful(s, h.k, h.mem) && trace[|qs|] == MomentOf(h)
              && s == After(ops, qs, map[]) && AllUnused(ops, qs, map[]) && StaysTrim(ops, blockSize, true, h.m, h.k)
    ensures !r.Granted? ==>
              Stopped(ops, qs, map[], trace[0].k, trace[0].d, s, r, trace[|qs|], MomentOf(h), blockSize)
  {
    h := new Heap(blockSize);
    r, qs, s, trace := Run(h, ops, map[], top);
    if r.Granted? {
      WholeRun(ops, qs, map[], s, trace, blockSize, top);
    }
  }
}
