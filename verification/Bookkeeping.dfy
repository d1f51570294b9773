/** Who owns each block of the tiling: the caller, the cache or the free index. The steps here
    are the pieces from which allocation, freeing and resizing are put together. */
module Bookkeeping {
  import opened Layout
  import opened Rings
  import opened Tiling

  /** `live` and `cach` give the size of every block handed out and of every cached block;
      `held` are the nodes of the free index. */
  datatype Books = Books(t: Tiles, live: map<nat, nat>, cach: map<nat, nat>, held: set<Ptr>) {

    /** A used block is live or cached and not both; a free block is indexed; a guard is neither. */
    ghost predicate Kind(h: nat) {
      && h in t.seg && h in t.size
      && match t.size[h].mark {
           case Guard => h !in live && h !in cach && Blk(h) !in held
           case Free => h !in live && h !in cach && Blk(h) in held
           case Used =>
             && Blk(h) !in held && (h in live <==> h !in cach)
             && (h in live ==> live[h] == t.size[h].size)
             && (h in cach ==> cach[h] == t.size[h].size && IsSmall(cach[h]))
         }
    }

    ghost predicate Owns(h: nat) {
      h in live || h in cach || Blk(h) in held
    }

    ghost predicate Valid(segs: seq<Segment>) {
      && t.Valid(segs)
      && (forall h {:trigger Kind(h)} :: h in t.seg ==> Kind(h))
      && (forall h {:trigger Owns(h)} :: Owns(h) ==> h in t.seg)
    }

    /** No free block outside `except` is followed by a free block. */
    ghost predicate CoalescedBut(except: set<nat>) {
      forall h {:trigger t.Coalesced(h)} :: h in t.seg && h !in except ==> t.Coalesced(h)
    }
  }

  /** The facts about one header. */
  lemma Entry(b: Books, segs: seq<Segment>, h: nat)
    requires b.Valid(segs)
    ensures h in b.t.seg ==> b.Kind(h) && b.t.EndsOk(h) && b.t.StartsOk(h) && b.t.seg[h] in segs
    ensures b.Owns(h) ==> h in b.t.seg && b.t.IsBlock(h)
  {
    if b.Owns(h) { assert b.Kind(h) && b.t.EndsOk(h); }
  }

  // ---------------------------------------------------------------- free block to caller

  /** A free block handed out whole. */
  ghost function Taken(b: Books, a: nat): Books
    requires a in b.t.size
  {
    var n := b.t.size[a].size;
    Books(Covered(b.t, a, Tag(n, Used)), b.live[a := n], b.cach, b.held - {Blk(a)})
  }

  lemma Take(b: Books, segs: seq<Segment>, a: nat)
    requires b.Valid(segs) && b.t.IsFree(a)
    ensures a in b.t.size && Taken(b, a).Valid(segs)
    ensures Taken(b, a).t.seg == b.t.seg
    ensures b.CoalescedBut({}) ==> Taken(b, a).CoalescedBut({})
  {
    Entry(b, segs, a);
    var n := b.t.size[a].size;
    Cover(b.t, segs, a, Tag(n, Used));
    NothingInside(b.t, segs, a);
    var b' := Taken(b, a);
    forall h | h in b'.t.seg ensures b'.Kind(h) { assert b.Kind(h); }
    forall h | b'.Owns(h) ensures h in b'.t.seg { assert b.Owns(h); }
    if b.CoalescedBut({}) {
      forall h | h in b'.t.seg ensures b'.t.Coalesced(h) { assert b.t.Coalesced(h); }
    }
  }

  /** There is no header inside a block. */
  lemma NothingInside(t: Tiles, segs: seq<Segment>, a: nat)
    requires t.Valid(segs) && t.IsBlock(a)
    ensures Inside(t, a, a + t.size[a].size) == {}
  {
    forall h | h in t.seg ensures !(a < h < a + t.size[a].size) { assert t.NoOverlap(a, h); }
  }

  /** A live block cut: its owner keeps the front, the rest becomes a free block. */
  ghost function Trimmed(b: Books, a: nat, n: nat): Books
    requires a in b.t.seg && a in b.t.size && n < b.t.size[a].size
  {
    var r := b.t.size[a].size - n;
    Books(Cut(b.t, a, Tag(n, Used), Tag(r, Free)), b.live[a := n], b.cach, b.held + {Blk(a + n)})
  }

  lemma Trim(b: Books, segs: seq<Segment>, a: nat, n: nat)
    requires b.Valid(segs) && a in b.live && BlockSize(n) && n + MIN_BLOCK <= b.live[a]
    ensures a in b.t.seg && a in b.t.size && b.t.size[a].size == b.live[a]
    ensures a + n !in b.t.seg && Trimmed(b, a, n).Valid(segs)
    ensures b.CoalescedBut({}) && !b.t.IsFree(a + b.live[a]) ==> Trimmed(b, a, n).CoalescedBut({})
  {
    assert b.Owns(a);
    Entry(b, segs, a);
    var r := b.t.size[a].size - n;
    Split(b.t, segs, a, Tag(n, Used), Tag(r, Free));
    var b', m := Trimmed(b, a, n), a + n;
    assert !b.Owns(m);
    forall h | h in b'.t.seg ensures b'.Kind(h) { if h != m { assert b.Kind(h); } }
    forall h | b'.Owns(h) ensures h in b'.t.seg { if h != m { assert b.Owns(h); } }
    if b.CoalescedBut({}) && !b.t.IsFree(a + b.live[a]) {
      forall h | h in b'.t.seg ensures b'.t.Coalesced(h) {
        if h != m && h != a { assert b.t.Coalesced(h); Entry(b, segs, h); }
      }
    }
  }

  /** The front of a free block handed out. */
  lemma TakeAndTrim(b: Books, segs: seq<Segment>, a: nat, n: nat)
    requires b.Valid(segs) && b.CoalescedBut({}) && b.t.IsFree(a) && BlockSize(n) && n + MIN_BLOCK <= b.t.size[a].size
    ensures a !in b.live && a + n !in b.t.seg && Blk(a + n) !in b.held
    ensures a in Taken(b, a).t.seg && a in Taken(b, a).t.size && n < Taken(b, a).t.size[a].size &&
            Taken(b, a).t.seg == b.t.seg
    ensures Trimmed(Taken(b, a), a, n).Valid(segs) && Trimmed(Taken(b, a), a, n).CoalescedBut({})
  {
    Entry(b, segs, a);
    Take(b, segs, a);
    assert b.t.Coalesced(a);
    Trim(Taken(b, a), segs, a, n);
    assert !b.Owns(a + n);
  }

  // ---------------------------------------------------------------- cache

  /** A live block put aside, still marked used. */
  ghost function Cached(b: Books, a: nat): Books
    requires a in b.live
  {
    Books(b.t, b.live - {a}, b.cach[a := b.live[a]], b.held)
  }

  lemma Cache(b: Books, segs: seq<Segment>, a: nat)
    requires b.Valid(segs) && a in b.live && IsSmall(b.live[a])
    ensures Cached(b, a).Valid(segs)
  {
    var b' := Cached(b, a);
    assert b.Owns(a);
    forall h | h in b'.t.seg ensures b'.Kind(h) { assert b.Kind(h); }
    forall h | b'.Owns(h) ensures h in b'.t.seg { assert b.Owns(h); }
  }

  /** A cached block handed out again, or about to be freed for good. */
  ghost function Uncached(b: Books, a: nat): Books
    requires a in b.cach
  {
    Books(b.t, b.live[a := b.cach[a]], b.cach - {a}, b.held)
  }

  lemma Uncache(b: Books, segs: seq<Segment>, a: nat)
    requires b.Valid(segs) && a in b.cach
    ensures Uncached(b, a).Valid(segs)
  {
    var b' := Uncached(b, a);
    assert b.Owns(a);
    forall h | h in b'.t.seg ensures b'.Kind(h) { assert b.Kind(h); }
    forall h | b'.Owns(h) ensures h in b'.t.seg { assert b.Owns(h); }
  }

  // ---------------------------------------------------------------- freeing

  /** Where the free stretch ends that `a` joins: behind the next block if that is free. */
  ghost function EndOf(t: Tiles, a: nat): nat
    requires a in t.size
  {
    var n := a + t.size[a].size;
    if t.IsFree(n) then n + t.size[n].size else n
  }

  /** Where it starts: at the previous block if the `_prev` tag of `a` says that this is free. */
  ghost function StartOf(t: Tiles, a: nat): int
    requires a in t.prev
  {
    if t.prev[a].mark == Free then a - t.prev[a].size else a
  }

  /** A live block given back: one free block over it and its free neighbours. */
  ghost function Freed(b: Books, a: nat): Books
    requires a in b.t.size && a in b.t.prev && 0 <= StartOf(b.t, a) <= EndOf(b.t, a)
  {
    var p, e := StartOf(b.t, a), EndOf(b.t, a);
    Books(Covered(b.t, p, Tag(e - p, Free)), b.live - {a}, b.cach,
          b.held - {Blk(a + b.t.size[a].size)} + {Blk(p)})
  }

  /** The stretch starts and ends at headers of one segment, has no other header inside than those
      of `a` and the next block, and is not followed by a free block. */
  lemma Stretch(b: Books, segs: seq<Segment>, a: nat)
    requires b.Valid(segs) && b.CoalescedBut({}) && a in b.live
    ensures a in b.t.size && a in b.t.prev && a in b.t.seg && b.t.size[a].size == b.live[a]
    ensures 0 <= StartOf(b.t, a) <= a < EndOf(b.t, a)
    ensures var p, e := StartOf(b.t, a), EndOf(b.t, a);
            && b.t.IsBlock(p) && b.t.seg[p] == b.t.seg[a]
            && e in b.t.seg && b.t.seg[e] == b.t.seg[a] && BlockSize(e - p) && !b.t.IsFree(e)
            && (p != a ==> b.t.IsFree(p) && p + b.t.size[p].size == a)
  {
    StretchEnd(b, segs, a);
    StretchStart(b, segs, a);
    HeaderDistance(b.t, segs, StartOf(b.t, a), EndOf(b.t, a));
  }

  lemma StretchEnd(b: Books, segs: seq<Segment>, a: nat)
    requires b.Valid(segs) && b.CoalescedBut({}) && a in b.live
    ensures a in b.t.size && a in b.t.prev && a in b.t.seg && b.t.size[a].size == b.live[a]
    ensures var e := EndOf(b.t, a);
            a + MIN_BLOCK <= e && e in b.t.seg && b.t.seg[e] == b.t.seg[a] && !b.t.IsFree(e)
  {
    assert b.Owns(a);
    Entry(b, segs, a);
    var n := a + b.t.size[a].size;
    Entry(b, segs, n);
    if b.t.IsFree(n) {
      assert b.t.Coalesced(n);
    }
  }

  lemma StretchStart(b: Books, segs: seq<Segment>, a: nat)
    requires b.Valid(segs) && a in b.live
    ensures a in b.t.size && a in b.t.prev && a in b.t.seg && 0 <= StartOf(b.t, a) <= a
    ensures var p := StartOf(b.t, a);
            && b.t.IsBlock(p) && b.t.seg[p] == b.t.seg[a]
            && (p != a ==> b.t.IsFree(p) && p + b.t.size[p].size == a)
  {
    assert b.Owns(a);
    Entry(b, segs, a);
  }

  /** The distance between two headers of a segment is the size of a possible block. */
  lemma HeaderDistance(t: Tiles, segs: seq<Segment>, p: nat, e: nat)
    requires t.Valid(segs) && p in t.seg && e in t.seg && t.seg[p] == t.seg[e] && p + MIN_BLOCK <= e
    ensures BlockSize(e - p)
  {
    Header(t, segs, p);
    Header(t, segs, e);
    assert t.seg[p].Sound();
  }

  lemma OnlyOwnInside(b: Books, segs: seq<Segment>, a: nat)
    requires b.Valid(segs) && b.CoalescedBut({}) && a in b.live
    ensures a in b.t.size && a in b.t.prev && 0 <= StartOf(b.t, a) <= EndOf(b.t, a)
    ensures forall h {:trigger h in b.t.seg} :: h in b.t.seg && StartOf(b.t, a) < h < EndOf(b.t, a) ==>
              h == a || (h == a + b.t.size[a].size && b.t.IsFree(h))
  {
    Stretch(b, segs, a);
    var p, e := StartOf(b.t, a), EndOf(b.t, a);
    var n := a + b.t.size[a].size;
    forall h | h in b.t.seg && p < h < e ensures h == a || (h == n && b.t.IsFree(h)) {
      Entry(b, segs, h);
      Entry(b, segs, a);
      Entry(b, segs, n);
      assert b.t.NoOverlap(p, h) && b.t.NoOverlap(a, h) && b.t.NoOverlap(n, h);
    }
  }

  /** A live block grown over the free block behind it, if there is one. */
  ghost function Widened(b: Books, a: nat): Books
    requires a in b.t.size && a <= EndOf(b.t, a)
  {
    var n := EndOf(b.t, a) - a;
    Books(Covered(b.t, a, Tag(n, Used)), b.live[a := n], b.cach, b.held - {Blk(a + b.t.size[a].size)})
  }

  lemma WidenedTiles(b: Books, segs: seq<Segment>, a: nat)
    requires b.Valid(segs) && b.CoalescedBut({}) && a in b.live
    ensures a in b.t.size && a <= EndOf(b.t, a)
    ensures Widened(b, a).t.Valid(segs) && !Widened(b, a).t.IsFree(EndOf(b.t, a))
    ensures Widened(b, a).t.seg == b.t.seg - Inside(b.t, a, EndOf(b.t, a))
  {
    Stretch(b, segs, a);
    var e := EndOf(b.t, a);
    StretchEnd(b, segs, a);
    HeaderDistance(b.t, segs, a, e);
    assert b.t.IsBlock(a) by { assert b.Owns(a); Entry(b, segs, a); }
    Cover(b.t, segs, a, Tag(e - a, Used));
  }

  lemma Widen(b: Books, segs: seq<Segment>, a: nat)
    requires b.Valid(segs) && b.CoalescedBut({}) && a in b.live
    ensures a in b.t.size && a <= EndOf(b.t, a)
    ensures Widened(b, a).Valid(segs) && Widened(b, a).CoalescedBut({})
    ensures !Widened(b, a).t.IsFree(EndOf(b.t, a))
    ensures Widened(b, a).t.seg == b.t.seg - Inside(b.t, a, EndOf(b.t, a))
  {
    WidenedTiles(b, segs, a);
    OnlyOwnInside(b, segs, a);
    Stretch(b, segs, a);
    var b' := Widened(b, a);
    forall h | h in b'.t.seg ensures b'.Kind(h) { WidenedKind(b, segs, a, h); }
    forall h | b'.Owns(h) ensures h in b'.t.seg {
      assert b.Owns(h);
      Entry(b, segs, h);
    }
    forall h | h in b'.t.seg ensures b'.t.Coalesced(h) { assert b.t.Coalesced(h); }
  }

  /** A live block made `n` bytes long within its stretch, the rest of which becomes a free block. */
  lemma WidenAndTrim(b: Books, segs: seq<Segment>, a: nat, n: nat)
    requires b.Valid(segs) && b.CoalescedBut({}) && a in b.live && a in b.t.size
    requires BlockSize(n) && a + n + MIN_BLOCK <= EndOf(b.t, a)
    ensures a in b.t.seg && a in Widened(b, a).t.seg && a in Widened(b, a).t.size && n < Widened(b, a).t.size[a].size
    ensures Widened(b, a).t.seg == b.t.seg - Inside(b.t, a, EndOf(b.t, a)) && Blk(a + n) !in Widened(b, a).held
    ensures Trimmed(Widened(b, a), a, n).Valid(segs) && Trimmed(Widened(b, a), a, n).CoalescedBut({})
  {
    assert b.Owns(a);
    Entry(b, segs, a);
    Widen(b, segs, a);
    Trim(Widened(b, a), segs, a, n);
    assert !Widened(b, a).Owns(a + n);
  }

  lemma WidenedKind(b: Books, segs: seq<Segment>, a: nat, h: nat)
    requires b.Valid(segs) && b.CoalescedBut({}) && a in b.live
    requires a in b.t.size && a <= EndOf(b.t, a) && h in Widened(b, a).t.seg
    ensures Widened(b, a).Kind(h)
  {
    Stretch(b, segs, a);
    Entry(b, segs, h);
    Entry(b, segs, a);
    Entry(b, segs, a + b.t.size[a].size);
  }

  lemma GiveBack(b: Books, segs: seq<Segment>, a: nat)
    requires b.Valid(segs) && b.CoalescedBut({}) && a in b.live
    ensures a in b.t.size && a in b.t.prev && 0 <= StartOf(b.t, a) <= EndOf(b.t, a)
    ensures Freed(b, a).Valid(segs) && Freed(b, a).CoalescedBut({})
    ensures Freed(b, a).t.IsFree(StartOf(b.t, a))
  {
    Stretch(b, segs, a);
    OnlyOwnInside(b, segs, a);
    var p, e := StartOf(b.t, a), EndOf(b.t, a);
    Cover(b.t, segs, p, Tag(e - p, Free));
    var b' := Freed(b, a);
    forall h | h in b'.t.seg ensures b'.Kind(h) { FreedKind(b, segs, a, h); }
    forall h | b'.Owns(h) ensures h in b'.t.seg {
      if h != p {
        assert b.Owns(h);
        Entry(b, segs, h);
      }
    }
    forall h | h in b'.t.seg ensures b'.t.Coalesced(h) { FreedCoalesced(b, segs, a, h); }
  }

  lemma FreedKind(b: Books, segs: seq<Segment>, a: nat, h: nat)
    requires b.Valid(segs) && b.CoalescedBut({}) && a in b.live
    requires a in b.t.size && a in b.t.prev && 0 <= StartOf(b.t, a) <= EndOf(b.t, a)
    requires h in Freed(b, a).t.seg
    ensures Freed(b, a).Kind(h)
  {
    Stretch(b, segs, a);
    Entry(b, segs, h);
    var n := a + b.t.size[a].size;
    Entry(b, segs, a);
    Entry(b, segs, n);
  }

  lemma FreedCoalesced(b: Books, segs: seq<Segment>, a: nat, h: nat)
    requires b.Valid(segs) && b.CoalescedBut({}) && a in b.live
    requires a in b.t.size && a in b.t.prev && 0 <= StartOf(b.t, a) <= EndOf(b.t, a)
    requires h in Freed(b, a).t.seg
    ensures Freed(b, a).t.Coalesced(h)
  {
    Stretch(b, segs, a);
    var p, e := StartOf(b.t, a), EndOf(b.t, a);
    Entry(b, segs, h);
    Entry(b, segs, p);
    assert b.t.Coalesced(h);
    if h != p && b.t.IsBlock(h) { Entry(b, segs, h + b.t.size[h].size); }
  }

  // ---------------------------------------------------------------- segments

  /** A new segment, one free block from end to end. */
  ghost function Extended(b: Books, s: Segment): Books
    requires s.Sound()
  {
    Books(Opened(b.t, s, Free), b.live, b.cach, b.held + {Blk(s.First())})
  }

  lemma Extend(b: Books, segs: seq<Segment>, s: Segment, segs': seq<Segment>)
    requires b.Valid(segs) && CanOpen(b.t, segs, s, Free)
    requires forall s' :: s' in segs' <==> s' in segs || s' == s
    ensures Extended(b, s).Valid(segs') && Extended(b, s).t.IsFree(s.First())
    ensures b.CoalescedBut({}) ==> Extended(b, s).CoalescedBut({})
    ensures !b.Owns(s.First()) && s !in segs
  {
    Open(b.t, segs, s, Free, segs');
    var b' := Extended(b, s);
    assert !b.Owns(s.First()) && !b.Owns(s.GuardAt());
    forall h | h in b'.t.seg ensures b'.Kind(h) { if h in b.t.seg { assert b.Kind(h); } }
    forall h | b'.Owns(h) ensures h in b'.t.seg { if h != s.First() { assert b.Owns(h); } }
    if b.CoalescedBut({}) {
      forall h | h in b'.t.seg ensures b'.t.Coalesced(h) {
        if h in b.t.seg { assert b.t.Coalesced(h); Entry(b, segs, h); }
      }
    }
  }

  /** A segment that is one free block from end to end given back. */
  ghost function Shrunk(b: Books, s: Segment): Books {
    Books(Dropped(b.t, s), b.live, b.cach, b.held - {Blk(s.First())})
  }

  ghost predicate WhollyFree(t: Tiles, s: Segment) {
    s.First() in t.size && t.IsFree(s.First()) && s.First() + t.size[s.First()].size == s.GuardAt()
  }

  lemma Shrink(b: Books, segs: seq<Segment>, s: Segment, segs': seq<Segment>)
    requires b.Valid(segs) && s in segs && WhollyFree(b.t, s)
    requires forall s' :: s' in segs' <==> s' in segs && s' != s
    ensures Shrunk(b, s).Valid(segs')
    ensures b.CoalescedBut({}) ==> Shrunk(b, s).CoalescedBut({})
  {
    Drop(b.t, segs, s, segs');
    var b' := Shrunk(b, s);
    assert b.t.Closed(s) && s.Sound();
    Entry(b, segs, s.First());
    forall h | h in b'.t.seg ensures b'.Kind(h) { assert b.Kind(h); }
    forall h | b'.Owns(h) ensures h in b'.t.seg {
      assert b.Owns(h);
      Entry(b, segs, h);
      assert b.t.NoOverlap(s.First(), h);
    }
    if b.CoalescedBut({}) {
      forall h | h in b'.t.seg ensures b'.t.Coalesced(h) { assert b.t.Coalesced(h); }
    }
  }

  // ---------------------------------------------------------------- stale words

  ghost predicate SameHeader(t: Tiles, t': Tiles, h: nat) {
    && h in t.size && h in t'.size && t'.size[h] == t.size[h]
    && h in t.prev && h in t'.prev && t'.prev[h] == t.prev[h]
  }

  /** `t'` has the headers of `t` and the same words in them. */
  ghost predicate SameHeaders(t: Tiles, t': Tiles) {
    && t'.seg == t.seg
    && (forall h {:trigger SameHeader(t, t', h)} :: h in t.seg ==> SameHeader(t, t', h))
  }

  lemma RestateHeader(t: Tiles, segs: seq<Segment>, t': Tiles, h: nat)
    requires t.Valid(segs) && SameHeaders(t, t') && h in t.seg
    ensures t'.EndsOk(h) && t'.StartsOk(h)
  {
    Header(t, segs, h);
    assert SameHeader(t, t', h);
    if h != t.seg[h].First() { assert SameHeader(t, t', h - t.prev[h].size); }
    if t.IsBlock(h) { assert SameHeader(t, t', h + t.size[h].size); }
  }

  lemma RestateTiles(t: Tiles, segs: seq<Segment>, t': Tiles)
    requires t.Valid(segs) && SameHeaders(t, t')
    ensures t'.Valid(segs)
  {
    forall s | s in segs ensures t'.Closed(s) { assert t.Closed(s); }
    forall h | h in t'.seg ensures t'.EndsOk(h) && t'.StartsOk(h) { RestateHeader(t, segs, t', h); }
    forall h, h' | h in t'.seg && h' in t'.seg ensures t'.NoOverlap(h, h') {
      assert t.NoOverlap(h, h') && SameHeader(t, t', h);
    }
  }

  /** Only the words at current headers matter. */
  lemma Restate(b: Books, segs: seq<Segment>, t': Tiles)
    requires b.Valid(segs) && SameHeaders(b.t, t')
    ensures b.(t := t').Valid(segs)
  {
    var b' := b.(t := t');
    RestateTiles(b.t, segs, t');
    forall h | h in t'.seg ensures b'.Kind(h) { assert b.Kind(h) && SameHeader(b.t, t', h); }
    forall h | b'.Owns(h) ensures h in t'.seg { assert b.Owns(h); }
  }

  lemma RestateCoalesced(b: Books, segs: seq<Segment>, t': Tiles, x: set<nat>)
    requires b.Valid(segs) && SameHeaders(b.t, t') && b.CoalescedBut(x)
    ensures b.(t := t').CoalescedBut(x)
  {
    forall h | h in t'.seg && h !in x ensures t'.Coalesced(h) {
      assert b.t.Coalesced(h) && SameHeader(b.t, t', h);
      if b.t.IsFree(h) {
        Entry(b, segs, h);
        assert SameHeader(b.t, t', h + b.t.size[h].size);
      }
    }
  }
}
