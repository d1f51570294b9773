/** The bytes of the address space: where the memory manager keeps its own words, and why writing them
    never touches the payload of a block that is handed out. */
module Payload {
  import opened Common
  import opened Layout
  import opened Rings
  import opened Tiling
  import opened Bookkeeping

  type Bytes = nat -> int

  /** Byte `i` of the payload of the block at `b`. */
  function ByteOf(b: nat, i: nat): nat {
    b + HEADER + i
  }

  // ---------------------------------------------------------------- the words of the memory manager

  /** Where the fields of a free block of `size` bytes end: two links behind the header, and in a large
      block the parent and two children. */
  function FieldsEnd(size: nat): nat {
    if IsSmall(size) then HEADER + 16 else HEADER + 40
  }

  /** Where the link of a cached block ends. */
  const LINK_END := HEADER + 8

  /** A block header, a guard or a segment header starts at `h`; all have the same size. */
  ghost predicate IsHeader(b: Books, segs: seq<Segment>, h: nat) {
    h in b.t.seg || exists s :: s in segs && s.base == h
  }

  ghost predicate HeaderByte(h: nat, x: nat) {
    h <= x < h + HEADER
  }

  /** Byte `x` belongs to the fields that the free block at `p` has. */
  ghost predicate FieldByte(b: Books, p: nat, x: nat) {
    Blk(p) in b.held && p in b.t.size && p + HEADER <= x < p + FieldsEnd(b.t.size[p].size)
  }

  ghost predicate LinkByte(b: Books, p: nat, x: nat) {
    p in b.cach && p + HEADER <= x < p + LINK_END
  }

  ghost predicate InPayload(c: nat, n: nat, x: nat) {
    c + HEADER <= x < c + n
  }

  lemma HeaderApart(b: Books, segs: seq<Segment>, h: nat, c: nat, x: nat)
    requires b.Valid(segs) && IsHeader(b, segs, h) && c in b.live && HeaderByte(h, x)
    ensures !InPayload(c, b.live[c], x)
  {
    assert b.Owns(c);
    Entry(b, segs, c);
    if h in b.t.seg {
      assert b.t.NoOverlap(c, h);
    } else {
      var s :| s in segs && s.base == h;
      Entry(b, segs, c + b.t.size[c].size);
      var s' := b.t.seg[c];
      assert s.Sound() && s'.Sound() && (s == s' || s.Disjoint(s'));
    }
  }

  lemma OtherBlockApart(b: Books, segs: seq<Segment>, p: nat, c: nat, x: nat)
    requires b.Valid(segs) && c in b.live && p != c && b.t.IsBlock(p) && p <= x < p + b.t.size[p].size
    ensures !InPayload(c, b.live[c], x)
  {
    assert b.Owns(c);
    Entry(b, segs, c);
    assert b.t.NoOverlap(c, p) && b.t.NoOverlap(p, c);
  }

  lemma FieldApart(b: Books, segs: seq<Segment>, p: nat, c: nat, x: nat)
    requires b.Valid(segs) && FieldByte(b, p, x) && c in b.live
    ensures !InPayload(c, b.live[c], x)
  {
    assert b.Owns(p) && b.Owns(c);
    Entry(b, segs, p);
    Entry(b, segs, c);
    OtherBlockApart(b, segs, p, c, x);
  }

  lemma LinkApart(b: Books, segs: seq<Segment>, p: nat, c: nat, x: nat)
    requires b.Valid(segs) && LinkByte(b, p, x) && c in b.live
    ensures !InPayload(c, b.live[c], x)
  {
    assert b.Owns(p) && b.Owns(c);
    Entry(b, segs, p);
    Entry(b, segs, c);
    OtherBlockApart(b, segs, p, c, x);
  }

  /** Byte `x` is part of the words that the memory manager keeps in its segments. */
  ghost predicate MetaByte(b: Books, segs: seq<Segment>, x: nat) {
    || (exists h: nat {:trigger HeaderByte(h, x)} :: IsHeader(b, segs, h) && HeaderByte(h, x))
    || (exists p: nat {:trigger FieldByte(b, p, x)} :: FieldByte(b, p, x))
    || (exists p: nat {:trigger LinkByte(b, p, x)} :: LinkByte(b, p, x))
  }

  /** No word of the memory manager lies in the payload of a block that is handed out. */
  lemma MetadataApart(b: Books, segs: seq<Segment>, c: nat, x: nat)
    requires b.Valid(segs) && c in b.live && InPayload(c, b.live[c], x)
    ensures !MetaByte(b, segs, x)
  {
    forall h: nat | IsHeader(b, segs, h) ensures !HeaderByte(h, x) {
      if HeaderByte(h, x) { HeaderApart(b, segs, h, c, x); }
    }
    forall p: nat ensures !FieldByte(b, p, x) {
      if FieldByte(b, p, x) { FieldApart(b, segs, p, c, x); }
    }
    forall p: nat ensures !LinkByte(b, p, x) {
      if LinkByte(b, p, x) { LinkApart(b, segs, p, c, x); }
    }
  }

  // ---------------------------------------------------------------- writing them

  /** The payload of the block of `n` bytes at `c` is unchanged. */
  ghost predicate Kept(d: Bytes, d': Bytes, c: nat, n: nat) {
    forall x: nat {:trigger d'(x)} :: InPayload(c, n, x) ==> d'(x) == d(x)
  }

  /** Every block that is handed out before and after keeps its payload, as far as both its sizes reach. */
  ghost predicate Spared(d: Bytes, d': Bytes, live: map<nat, nat>, live': map<nat, nat>) {
    forall c: nat {:trigger Kept(d, d', c, Min(live[c], live'[c]))} :: c in live && c in live' ==>
      Kept(d, d', c, Min(live[c], live'[c]))
  }

  lemma SparedTwice(d: Bytes, d1: Bytes, d2: Bytes, live: map<nat, nat>, live1: map<nat, nat>, live2: map<nat, nat>)
    requires Spared(d, d1, live, live1) && Spared(d1, d2, live1, live2)
    requires forall c :: c in live && c in live2 ==> c in live1 && Min(live[c], live2[c]) <= live1[c]
    ensures Spared(d, d2, live, live2)
  {
    forall c | c in live && c in live2 ensures Kept(d, d2, c, Min(live[c], live2[c])) {
      assert Kept(d, d1, c, Min(live[c], live1[c])) && Kept(d1, d2, c, Min(live1[c], live2[c]));
      KeptOn(d, d1, d2, c, Min(live[c], live1[c]), Min(live1[c], live2[c]), Min(live[c], live2[c]));
    }
  }

  /** Two steps, the first of which hands out and takes back nothing. */
  lemma SparedThen(d: Bytes, d1: Bytes, d2: Bytes, live: map<nat, nat>, live': map<nat, nat>)
    requires Spared(d, d1, live, live) && Spared(d1, d2, live, live')
    ensures Spared(d, d2, live, live')
  {
    SparedTwice(d, d1, d2, live, live, live');
  }

  /** Two steps, the second of which hands out and takes back nothing. */
  lemma SparedOn(d: Bytes, d1: Bytes, d2: Bytes, live: map<nat, nat>, live': map<nat, nat>)
    requires Spared(d, d1, live, live') && Spared(d1, d2, live', live')
    ensures Spared(d, d2, live, live')
  {
    SparedTwice(d, d1, d2, live, live', live');
  }

  lemma KeptOn(d: Bytes, d1: Bytes, d2: Bytes, c: nat, n1: nat, n2: nat, n: nat)
    requires Kept(d, d1, c, n1) && Kept(d1, d2, c, n2) && n <= n1 && n <= n2
    ensures Kept(d, d2, c, n)
  {
    forall x: nat | InPayload(c, n, x) ensures d2(x) == d(x) { assert d1(x) == d(x) && d2(x) == d1(x); }
  }

  lemma ShorterKept(d: Bytes, d': Bytes, c: nat, n: nat, n': nat)
    requires Kept(d, d', c, n) && n' <= n
    ensures Kept(d, d', c, n')
  {
  }

  /** The front of a block handed out, and then the fields of free blocks written. */
  lemma CutSpares(d: Bytes, d1: Bytes, d2: Bytes, live: map<nat, nat>, live1: map<nat, nat>, b: nat, n: nat)
    requires b !in live && b in live1 && live1[b] == n && live1 == live[b := n]
    requires Spared(d, d1, live, live1) && Kept(d, d1, b, n) && Spared(d1, d2, live1, live1)
    ensures Spared(d, d2, live, live1) && Kept(d, d2, b, n)
  {
    SparedTwice(d, d1, d2, live, live1, live1);
    assert Kept(d1, d2, b, Min(live1[b], live1[b]));
    KeptOn(d, d1, d2, b, n, n, n);
  }

  lemma NothingWritten(d: Bytes, live: map<nat, nat>, live': map<nat, nat>)
    ensures Spared(d, d, live, live')
  {
    forall c | c in live && c in live' ensures Kept(d, d, c, Min(live[c], live'[c])) { }
  }

  /** No byte outside the headers `written` differs. */
  ghost predicate Rewritten(d: Bytes, d': Bytes, written: set<nat>) {
    forall x: nat {:trigger d'(x)} :: (forall h {:trigger HeaderByte(h, x)} :: h in written ==> !HeaderByte(h, x)) ==>
      d'(x) == d(x)
  }

  /** Each header in `written` is one before or after. */
  ghost predicate Headers(b: Books, segs: seq<Segment>, b': Books, segs': seq<Segment>, written: set<nat>) {
    forall h {:trigger IsHeader(b, segs, h)} {:trigger IsHeader(b', segs', h)} :: h in written ==>
      IsHeader(b, segs, h) || IsHeader(b', segs', h)
  }

  lemma RewriteSpares(b: Books, segs: seq<Segment>, b': Books, segs': seq<Segment>, written: set<nat>, d: Bytes,
                      d': Bytes)
    requires b.Valid(segs) && b'.Valid(segs') && Headers(b, segs, b', segs', written) && Rewritten(d, d', written)
    ensures Spared(d, d', b.live, b'.live)
  {
    forall c | c in b.live && c in b'.live ensures Kept(d, d', c, Min(b.live[c], b'.live[c])) {
      forall x: nat | InPayload(c, Min(b.live[c], b'.live[c]), x) ensures d'(x) == d(x) {
        forall h | h in written ensures !HeaderByte(h, x) {
          if HeaderByte(h, x) { RewrittenApart(b, segs, b', segs', h, c, x); }
        }
      }
    }
  }

  lemma RewrittenApart(b: Books, segs: seq<Segment>, b': Books, segs': seq<Segment>, h: nat, c: nat, x: nat)
    requires b.Valid(segs) && b'.Valid(segs') && (IsHeader(b, segs, h) || IsHeader(b', segs', h)) && HeaderByte(h, x)
    requires c in b.live && c in b'.live
    ensures !InPayload(c, Min(b.live[c], b'.live[c]), x)
  {
    if IsHeader(b, segs, h) { HeaderApart(b, segs, h, c, x); } else { HeaderApart(b', segs', h, c, x); }
  }

  /** No byte outside the fields of free blocks differs. */
  ghost predicate Relinked(d: Bytes, d': Bytes, b: Books) {
    forall x: nat {:trigger d'(x)} :: (forall p: nat {:trigger FieldByte(b, p, x)} :: !FieldByte(b, p, x)) ==>
      d'(x) == d(x)
  }

  lemma RelinkSpares(b: Books, segs: seq<Segment>, d: Bytes, d': Bytes)
    requires b.Valid(segs) && Relinked(d, d', b)
    ensures Spared(d, d', b.live, b.live)
  {
    forall c | c in b.live ensures Kept(d, d', c, Min(b.live[c], b.live[c])) {
      forall x: nat | InPayload(c, b.live[c], x) ensures d'(x) == d(x) {
        forall p: nat ensures !FieldByte(b, p, x) {
          if FieldByte(b, p, x) { FieldApart(b, segs, p, c, x); }
        }
      }
    }
  }

  /** No byte outside the link of the cached block at `p` differs. */
  ghost predicate LinkWritten(d: Bytes, d': Bytes, p: nat) {
    forall x: nat {:trigger d'(x)} :: !(p + HEADER <= x < p + LINK_END) ==> d'(x) == d(x)
  }

  lemma LinkSpares(b: Books, segs: seq<Segment>, p: nat, live: map<nat, nat>, d: Bytes, d': Bytes)
    requires b.Valid(segs) && p in b.cach && LinkWritten(d, d', p)
    ensures Spared(d, d', live, b.live)
  {
    forall c | c in live && c in b.live ensures Kept(d, d', c, Min(live[c], b.live[c])) {
      forall x: nat | InPayload(c, Min(live[c], b.live[c]), x) ensures d'(x) == d(x) {
        if LinkByte(b, p, x) { LinkApart(b, segs, p, c, x); }
      }
    }
  }

  // ---------------------------------------------------------------- moving payloads

  /** The first `n` payload bytes of the block at `b` are those that the block at `a` had. */
  ghost predicate Copied(d: Bytes, d': Bytes, a: nat, b: nat, n: int) {
    forall i: nat {:trigger ByteOf(b, i)} :: i < n ==> d'(ByteOf(b, i)) == d(ByteOf(a, i))
  }

  /** The payload of the block of `n` bytes at `a` copied to `b`. */
  function CopiedBytes(d: Bytes, a: nat, b: nat, n: nat): Bytes {
    (w: nat) => if b + HEADER <= w < b + n then d(a + (w - b)) else d(w)
  }

  /** The payload of all blocks of `live` but `a` is unchanged. */
  ghost predicate OthersKept(d: Bytes, d': Bytes, live: map<nat, nat>, a: nat) {
    forall c: nat {:trigger Kept(d, d', c, live[c])} :: c in live && c != a ==> Kept(d, d', c, live[c])
  }

  /** The payload of the block `a`, as far as its old and its new size reach, is at `b`, and the payload
      of the other blocks is where it was. */
  ghost predicate Carried(d: Bytes, d': Bytes, live: map<nat, nat>, live': map<nat, nat>, a: nat, b: nat) {
    && a in live && b in live' && Copied(d, d', a, b, Min(live[a], live'[b]) - HEADER) && OthersKept(d, d', live, a)
  }

  lemma CopiedByte(d: Bytes, a: nat, b: nat, n: nat, i: nat)
    requires i < n - HEADER
    ensures CopiedBytes(d, a, b, n)(ByteOf(b, i)) == d(ByteOf(a, i))
  {
    assert a + (ByteOf(b, i) - b) == ByteOf(a, i);
  }

  lemma CopyBeside(d: Bytes, a: nat, b: nat, n: nat, c: nat, size: nat)
    requires c + size <= b || b + n <= c
    ensures Kept(d, CopiedBytes(d, a, b, n), c, size)
  {
  }

  /** A block resized in place. */
  lemma SparedIsCarried(d: Bytes, d': Bytes, live: map<nat, nat>, live': map<nat, nat>, a: nat)
    requires a in live && a in live' && live' == live[a := live'[a]] && Spared(d, d', live, live')
    ensures Carried(d, d', live, live', a, a)
  {
    assert Kept(d, d', a, Min(live[a], live'[a]));
    forall i: nat | i < Min(live[a], live'[a]) - HEADER ensures d'(ByteOf(a, i)) == d(ByteOf(a, i)) { }
    forall c | c in live && c != a ensures Kept(d, d', c, live[c]) {
      assert c in live' && Min(live[c], live'[c]) == live[c];
    }
  }

  /** Another block `b` handed out, the payload of `a` copied into it, and `a` given up: nothing on the
      way disturbs the payload of `b` or of any other block. */
  lemma MoveCarries(d: Bytes, d1: Bytes, d3: Bytes, live: map<nat, nat>, live1: map<nat, nat>, live3: map<nat, nat>,
                    a: nat, b: nat)
    requires a in live && b !in live && b in live1 && live1 == live[b := live1[b]] && live3 == live1 - {a}
    requires live[a] <= live1[b] && forall c, c' :: c in live1 && c' in live1 && c < c' ==> c + live1[c] <= c'
    requires Spared(d, d1, live, live1) && Spared(CopiedBytes(d1, a, b, live[a]), d3, live1, live3)
    ensures Carried(d, d3, live, live3, a, b)
  {
    var d2, n := CopiedBytes(d1, a, b, live[a]), live[a];
    assert Kept(d, d1, a, Min(live[a], live1[a])) && Kept(d2, d3, b, Min(live1[b], live3[b]));
    forall i: nat | i < n - HEADER ensures d3(ByteOf(b, i)) == d(ByteOf(a, i)) {
      CopiedByte(d1, a, b, n, i);
      assert InPayload(a, n, ByteOf(a, i)) && InPayload(b, live1[b], ByteOf(b, i));
      assert d1(ByteOf(a, i)) == d(ByteOf(a, i)) && d3(ByteOf(b, i)) == d2(ByteOf(b, i));
    }
    forall c | c in live && c != a ensures Kept(d, d3, c, live[c]) {
      assert c in live1 && live1[c] == live[c] && c != b && c in live3;
      assert Kept(d, d1, c, Min(live[c], live1[c])) && Kept(d2, d3, c, Min(live1[c], live3[c]));
      CopyBeside(d1, a, b, n, c, live[c]);
      KeptOn(d, d1, d2, c, live[c], live[c], live[c]);
      KeptOn(d, d2, d3, c, live[c], live[c], live[c]);
    }
  }

  function Offset(base: nat, i: nat): nat {
    base + i
  }

  /** The bytes of the segment `s` moved to `base`. */
  function RelocatedBytes(d: Bytes, s: Segment, base: nat): Bytes {
    (w: nat) => if base <= w < base + s.size then d(s.base + (w - base)) else d(w)
  }

  /** The bytes of `s` are now at `base`, and no byte outside `s` and the `n` bytes there differs. */
  ghost predicate Relocated(d: Bytes, d': Bytes, s: Segment, base: nat, n: nat) {
    && (forall i: nat {:trigger Offset(base, i)} :: i < s.size ==> d'(Offset(base, i)) == d(Offset(s.base, i)))
    && (forall w: nat {:trigger d'(w)} :: !(s.base <= w < s.base + s.size) && !(base <= w < base + n) ==> d'(w) == d(w))
  }

  /** What the storage does to the bytes when it resizes a segment: whatever the rest of its new place holds. */
  lemma Relocate(d: Bytes, s: Segment, base: nat, n: nat) returns (d': Bytes)
    requires s.size <= n
    ensures Relocated(d, d', s, base, n)
  {
    d' := RelocatedBytes(d, s, base);
    forall i: nat | i < s.size ensures d'(Offset(base, i)) == d(Offset(s.base, i)) {
      assert s.base + (Offset(base, i) - base) == Offset(s.base, i);
    }
  }

  /** The segment of `a` moved, and the block at `b` in the moved segment handed out in place of `a`. */
  lemma RelocationCarries(d: Bytes, d1: Bytes, d2: Bytes, live: map<nat, nat>, live2: map<nat, nat>, a: nat, b: nat)
    requires a in live && b in live2 && live2 == (live - {a})[b := live2[b]] && (b == a || b !in live)
    requires Copied(d, d1, a, b, live[a] - HEADER) && OthersKept(d, d1, live, a) && live[a] <= live2[b]
    requires Kept(d1, d2, b, live[a]) && forall c :: c in live && c != a ==> Kept(d1, d2, c, live[c])
    ensures Carried(d, d2, live, live2, a, b)
  {
    forall i: nat | i < live[a] - HEADER ensures d2(ByteOf(b, i)) == d(ByteOf(a, i)) {
      assert InPayload(b, live[a], ByteOf(b, i)) && d1(ByteOf(b, i)) == d(ByteOf(a, i));
    }
    forall c | c in live && c != a ensures Kept(d, d2, c, live[c]) {
      assert Kept(d, d1, c, live[c]);
      KeptOn(d, d1, d2, c, live[c], live[c], live[c]);
    }
  }

  /** No byte written at first, and then the front of a new block kept. */
  lemma FirstUntouched(d: Bytes, d1: Bytes, d2: Bytes, b: nat, n: nat, live: map<nat, nat>, live': map<nat, nat>)
    requires Rewritten(d, d1, {}) && Kept(d1, d2, b, n) && Spared(d1, d2, live, live')
    ensures Kept(d, d2, b, n) && Spared(d, d2, live, live')
  {
    forall x: nat ensures d1(x) == d(x) { }
    forall c | c in live && c in live' ensures Kept(d, d2, c, Min(live[c], live'[c])) {
      assert Kept(d1, d2, c, Min(live[c], live'[c]));
    }
  }

  lemma RelocatedOthers(d: Bytes, d': Bytes, live: map<nat, nat>, live': map<nat, nat>, a: nat, b: nat, n: nat)
    requires a in live && b in live' && live' == (live - {a})[b := live'[b]] && (b == a || b !in live)
    requires Spared(d, d', live - {a}, live') && Kept(d, d', b, n) && live[a] <= n
    ensures Kept(d, d', b, live[a]) && forall c :: c in live && c != a ==> Kept(d, d', c, live[c])
  {
    ShorterKept(d, d', b, n, live[a]);
    forall c | c in live && c != a ensures Kept(d, d', c, live[c]) {
      assert c in live - {a} && c in live' && Min((live - {a})[c], live'[c]) == live[c];
    }
  }

  lemma SparedThenCarried(d: Bytes, d1: Bytes, d2: Bytes, live: map<nat, nat>, live': map<nat, nat>, a: nat, b: nat)
    requires Spared(d, d1, live, live) && Carried(d1, d2, live, live', a, b)
    ensures Carried(d, d2, live, live', a, b)
  {
    forall c | c in live ensures Kept(d, d1, c, live[c]) { assert Min(live[c], live[c]) == live[c]; }
    forall i: nat | i < Min(live[a], live'[b]) - HEADER ensures d2(ByteOf(b, i)) == d(ByteOf(a, i)) {
      assert InPayload(a, live[a], ByteOf(a, i));
      assert d1(ByteOf(a, i)) == d(ByteOf(a, i)) && d2(ByteOf(b, i)) == d1(ByteOf(a, i));
    }
    forall c | c in live && c != a ensures Kept(d, d2, c, live[c]) {
      KeptOn(d, d1, d2, c, live[c], live[c], live[c]);
    }
  }
}
