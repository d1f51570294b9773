/** Segments tiled by boundary-tagged blocks, from the first block to the guard. */
module Tiling {
  import opened Bits
  import opened Layout

  /** A storage segment; `segments_list` is a sequence of them. */
  datatype Segment = Segment(base: nat, size: nat) {
    /** Where the first block starts, behind the segment header. */
    function First(): nat {
      base + SEGMENT_HEADER
    }

    /** Where the guard block closes the segment. */
    function GuardAt(): int {
      base + size - HEADER
    }

    /** A piece of the address space that can hold a block. */
    predicate Sound() {
      && base > 0 && base % ALIGNMENT == 0 && size % ALIGNMENT == 0
      && SEGMENT_HEADER + MIN_BLOCK + HEADER <= size && base + size <= WORD
    }

    predicate Disjoint(other: Segment) {
      base + size <= other.base || other.base + other.size <= base
    }
  }

  /** The mark that `ZEND_MM_MARK_FIRST_BLOCK` leaves in the `_prev` word of a first block. */
  const FIRST_MARK := Tag(0, Guard)
  /** The `_size` word of a guard block. */
  const GUARD_TAG := Tag(HEADER, Guard)

  ghost predicate SegmentsOk(segs: seq<Segment>) {
    && (forall s {:trigger s.Sound()} :: s in segs ==> s.Sound())
    && (forall s, s' {:trigger s.Disjoint(s')} :: s in segs && s' in segs && s != s' ==> s.Disjoint(s'))
  }

  /** The `_size` and `_prev` words of all headers ever written, and for every current header
      its segment. Headers that were swallowed by a neighbour leave stale words behind. */
  datatype Tiles = Tiles(size: map<nat, Tag>, prev: map<nat, Tag>, seg: map<nat, Segment>) {

    ghost predicate IsBlock(h: nat) {
      h in seg && h in size && h != seg[h].GuardAt()
    }

    /** The block at `h` ends at another header of its segment, which repeats its tag. */
    ghost predicate EndsOk(h: nat) {
      && h in seg && h in size && h in prev
      && seg[h].First() <= h <= seg[h].GuardAt() && h % ALIGNMENT == 0
      && (h == seg[h].GuardAt() ==> size[h] == GUARD_TAG)
      && (h != seg[h].GuardAt() ==>
            && size[h].mark != Guard && BlockSize(size[h].size)
            && var n := h + size[h].size;
            && n in seg && seg[n] == seg[h] && n in prev && prev[n] == size[h])
    }

    /** The header at `h` is the first of its segment or repeats the tag of the block before it. */
    ghost predicate StartsOk(h: nat) {
      && h in seg && h in prev
      && (h == seg[h].First() ==> prev[h] == FIRST_MARK)
      && (h != seg[h].First() ==>
            && 0 < prev[h].size <= h
            && var p := h - prev[h].size;
            && IsBlock(p) && seg[p] == seg[h] && size[p] == prev[h])
    }

    /** A block ends at or before any later header. */
    ghost predicate NoOverlap(h: nat, h': nat) {
      IsBlock(h) && h < h' ==> h + size[h].size <= h'
    }

    ghost predicate Closed(s: Segment) {
      && s.GuardAt() >= 0 && s.First() in seg && seg[s.First()] == s
      && s.GuardAt() in seg && seg[s.GuardAt()] == s
    }

    /** Every segment is tiled exactly. */
    ghost predicate Valid(segs: seq<Segment>) {
      && SegmentsOk(segs)
      && (forall h {:trigger seg[h]} :: h in seg ==> seg[h] in segs)
      && (forall s {:trigger Closed(s)} :: s in segs ==> Closed(s))
      && (forall h {:trigger EndsOk(h)} :: h in seg ==> EndsOk(h))
      && (forall h {:trigger StartsOk(h)} :: h in seg ==> StartsOk(h))
      && (forall h, h' {:trigger NoOverlap(h, h')} :: h in seg && h' in seg ==> NoOverlap(h, h'))
    }

    ghost predicate IsFree(h: nat) {
      h in seg && h in size && size[h].mark == Free
    }

    /** The block at `h`, if free, is not followed by another free block. */
    ghost predicate Coalesced(h: nat) {
      IsFree(h) ==> !IsFree(h + size[h].size)
    }

    /** `ZEND_MM_BLOCK`: a block header, and its echo in the next one. */
    function Put(h: nat, tag: Tag, seg': map<nat, Segment>): Tiles {
      Tiles(size[h := tag], prev[h + tag.size := tag], seg')
    }
  }

  /** The facts about one header of a valid tiling. */
  lemma Header(t: Tiles, segs: seq<Segment>, h: nat)
    requires t.Valid(segs)
    ensures h in t.seg ==> t.EndsOk(h) && t.StartsOk(h) && t.seg[h] in segs
  {
  }

  // ---------------------------------------------------------------- one block over a region

  ghost function Inside(t: Tiles, a: nat, e: nat): set<nat> {
    set h | h in t.seg && a < h < e
  }

  /** One block written over a stretch of blocks. */
  ghost function Covered(t: Tiles, a: nat, tag: Tag): Tiles {
    t.Put(a, tag, t.seg - Inside(t, a, a + tag.size))
  }

  ghost predicate CanCover(t: Tiles, segs: seq<Segment>, a: nat, tag: Tag) {
    && t.Valid(segs) && t.IsBlock(a) && tag.mark != Guard && BlockSize(tag.size)
    && a + tag.size in t.seg && t.seg[a + tag.size] == t.seg[a]
  }

  lemma Cover(t: Tiles, segs: seq<Segment>, a: nat, tag: Tag)
    requires CanCover(t, segs, a, tag)
    ensures Covered(t, a, tag).Valid(segs)
  {
    var t' := Covered(t, a, tag);
    forall s | s in segs ensures t'.Closed(s) { CoveredSegment(t, segs, a, tag, s); }
    forall h | h in t'.seg ensures t'.EndsOk(h) { CoveredEnd(t, segs, a, tag, h); }
    forall h | h in t'.seg ensures t'.StartsOk(h) { CoveredStart(t, segs, a, tag, h); }
    forall h, h' | h in t'.seg && h' in t'.seg ensures t'.NoOverlap(h, h') { CoveredPair(t, segs, a, tag, h, h'); }
  }

  lemma CoveredSegment(t: Tiles, segs: seq<Segment>, a: nat, tag: Tag, s: Segment)
    requires CanCover(t, segs, a, tag) && s in segs
    ensures Covered(t, a, tag).Closed(s)
  {
    assert t.Closed(s);
    CoverKeepsEnds(t, segs, a, tag, s);
  }

  lemma CoveredPair(t: Tiles, segs: seq<Segment>, a: nat, tag: Tag, h: nat, h': nat)
    requires CanCover(t, segs, a, tag) && h in Covered(t, a, tag).seg && h' in Covered(t, a, tag).seg
    ensures Covered(t, a, tag).NoOverlap(h, h')
  {
    assert t.NoOverlap(h, h');
  }

  lemma CoverKeepsEnds(t: Tiles, segs: seq<Segment>, a: nat, tag: Tag, s: Segment)
    requires CanCover(t, segs, a, tag) && s in segs && t.Closed(s)
    ensures !(a < s.First() < a + tag.size) && !(a < s.GuardAt() < a + tag.size)
  {
    Header(t, segs, a);
    Header(t, segs, a + tag.size);
    var s' := t.seg[a];
    assert s.Sound() && s'.Sound() && (s == s' || s.Disjoint(s'));
  }

  lemma CoveredEnd(t: Tiles, segs: seq<Segment>, a: nat, tag: Tag, h: nat)
    requires CanCover(t, segs, a, tag) && h in Covered(t, a, tag).seg
    ensures Covered(t, a, tag).EndsOk(h)
  {
    Header(t, segs, h); Header(t, segs, a);
    if h != a && t.IsBlock(h) {
      assert t.NoOverlap(h, a);
      Header(t, segs, h + t.size[h].size);
    }
    assert h == a + tag.size || t.NoOverlap(a, h);
  }

  lemma CoveredStart(t: Tiles, segs: seq<Segment>, a: nat, tag: Tag, h: nat)
    requires CanCover(t, segs, a, tag) && h in Covered(t, a, tag).seg
    ensures Covered(t, a, tag).StartsOk(h)
  {
    var e := a + tag.size;
    Header(t, segs, h); Header(t, segs, a); Header(t, segs, e);
    if h != e && h != t.seg[h].First() {
      var p := h - t.prev[h].size;
      Header(t, segs, p);
      assert t.NoOverlap(p, e) && t.NoOverlap(p, a);
    }
  }

  // ---------------------------------------------------------------- one block cut in two

  ghost function Cut(t: Tiles, a: nat, t1: Tag, t2: Tag): Tiles
    requires a in t.seg
  {
    t.Put(a, t1, t.seg).Put(a + t1.size, t2, t.seg[a + t1.size := t.seg[a]])
  }

  ghost predicate CanSplit(t: Tiles, segs: seq<Segment>, a: nat, t1: Tag, t2: Tag) {
    && t.Valid(segs) && t.IsBlock(a) && t1.size + t2.size == t.size[a].size
    && t1.mark != Guard && t2.mark != Guard && BlockSize(t1.size) && BlockSize(t2.size)
  }

  lemma Split(t: Tiles, segs: seq<Segment>, a: nat, t1: Tag, t2: Tag)
    requires CanSplit(t, segs, a, t1, t2)
    ensures a + t1.size !in t.seg
    ensures Cut(t, a, t1, t2).Valid(segs)
  {
    var t', m := Cut(t, a, t1, t2), a + t1.size;
    CutIsInside(t, segs, a, t1, t2);
    forall s | s in segs ensures t'.Closed(s) { assert t.Closed(s); }
    forall h | h in t'.seg ensures t'.EndsOk(h) { CutEnd(t, segs, a, t1, t2, h); }
    forall h | h in t'.seg ensures t'.StartsOk(h) { CutStart(t, segs, a, t1, t2, h); }
    forall h, h' | h in t'.seg && h' in t'.seg ensures t'.NoOverlap(h, h') { CutPair(t, segs, a, t1, t2, h, h'); }
  }

  lemma CutIsInside(t: Tiles, segs: seq<Segment>, a: nat, t1: Tag, t2: Tag)
    requires CanSplit(t, segs, a, t1, t2)
    ensures a + t1.size !in t.seg
    ensures t.EndsOk(a) && a < a + t1.size < a + t.size[a].size
  {
    Header(t, segs, a);
    assert a + t1.size in t.seg ==> t.NoOverlap(a, a + t1.size);
  }

  lemma CutEnd(t: Tiles, segs: seq<Segment>, a: nat, t1: Tag, t2: Tag, h: nat)
    requires CanSplit(t, segs, a, t1, t2) && h in Cut(t, a, t1, t2).seg
    ensures Cut(t, a, t1, t2).EndsOk(h)
  {
    var m, e := a + t1.size, a + t.size[a].size;
    CutIsInside(t, segs, a, t1, t2);
    Header(t, segs, h); Header(t, segs, e);
    if h != a && t.IsBlock(h) {
      Header(t, segs, h + t.size[h].size);
      assert t.NoOverlap(h, a) && t.NoOverlap(a, h);
    }
  }

  lemma CutStart(t: Tiles, segs: seq<Segment>, a: nat, t1: Tag, t2: Tag, h: nat)
    requires CanSplit(t, segs, a, t1, t2) && h in Cut(t, a, t1, t2).seg
    ensures Cut(t, a, t1, t2).StartsOk(h)
  {
    var m, e := a + t1.size, a + t.size[a].size;
    CutIsInside(t, segs, a, t1, t2);
    Header(t, segs, h); Header(t, segs, a); Header(t, segs, e);
    if h != m && h != e && h != t.seg[h].First() {
      var p := h - t.prev[h].size;
      Header(t, segs, p);
    }
  }

  lemma CutPair(t: Tiles, segs: seq<Segment>, a: nat, t1: Tag, t2: Tag, h: nat, h': nat)
    requires CanSplit(t, segs, a, t1, t2) && h in Cut(t, a, t1, t2).seg && h' in Cut(t, a, t1, t2).seg
    ensures Cut(t, a, t1, t2).NoOverlap(h, h')
  {
    var m := a + t1.size;
    CutIsInside(t, segs, a, t1, t2);
    if h in t.seg && h' in t.seg { assert t.NoOverlap(h, h'); }
    if h in t.seg { assert t.NoOverlap(h, a) && t.NoOverlap(a, h); }
    if h' in t.seg { assert t.NoOverlap(a, h'); }
  }

  // ---------------------------------------------------------------- whole segments

  /** A new segment with one block between its header and its guard. */
  ghost function Opened(t: Tiles, s: Segment, mark: Mark): Tiles
    requires s.Sound()
  {
    var tag := Tag(s.size - SEGMENT_HEADER - HEADER, mark);
    Tiles(t.size[s.GuardAt() := GUARD_TAG][s.First() := tag],
          t.prev[s.First() := FIRST_MARK][s.GuardAt() := tag],
          t.seg[s.First() := s][s.GuardAt() := s])
  }

  ghost predicate CanOpen(t: Tiles, segs: seq<Segment>, s: Segment, mark: Mark) {
    && t.Valid(segs) && s.Sound() && mark != Guard
    && forall s' {:trigger s'.Disjoint(s)} :: s' in segs ==> s'.Disjoint(s)
  }

  lemma Open(t: Tiles, segs: seq<Segment>, s: Segment, mark: Mark, segs': seq<Segment>)
    requires CanOpen(t, segs, s, mark)
    requires forall s' :: s' in segs' <==> s' in segs || s' == s
    ensures Opened(t, s, mark).Valid(segs')
    ensures s !in segs && s.First() !in t.seg && s.GuardAt() !in t.seg
  {
    var t' := Opened(t, s, mark);
    OpenedSegments(t, segs, s, mark, segs');
    forall h | h in t'.seg ensures t'.EndsOk(h) { OpenedEnd(t, segs, s, mark, h); }
    forall h | h in t'.seg ensures t'.StartsOk(h) { OpenedStart(t, segs, s, mark, h); }
    forall h, h' | h in t'.seg && h' in t'.seg ensures t'.NoOverlap(h, h') { OpenedPair(t, segs, s, mark, h, h'); }
  }

  lemma OpenedSegments(t: Tiles, segs: seq<Segment>, s: Segment, mark: Mark, segs': seq<Segment>)
    requires CanOpen(t, segs, s, mark)
    requires forall s' :: s' in segs' <==> s' in segs || s' == s
    ensures SegmentsOk(segs') && s !in segs && s.First() !in t.seg && s.GuardAt() !in t.seg
    ensures forall s' {:trigger Opened(t, s, mark).Closed(s')} :: s' in segs' ==> Opened(t, s, mark).Closed(s')
    ensures forall h {:trigger Opened(t, s, mark).seg[h]} :: h in Opened(t, s, mark).seg ==>
            Opened(t, s, mark).seg[h] in segs'
  {
    var t' := Opened(t, s, mark);
    assert s in segs ==> s.Disjoint(s);
    forall s' | s' in segs' ensures s'.Sound() { }
    forall s1, s2 | s1 in segs' && s2 in segs' && s1 != s2 ensures s1.Disjoint(s2) {
      if s1 == s { assert s2.Disjoint(s); } else if s2 != s { assert s1.Disjoint(s2); }
    }
    if s.First() in t.seg { OutsideNew(t, segs, s, mark, s.First()); }
    if s.GuardAt() in t.seg { OutsideNew(t, segs, s, mark, s.GuardAt()); }
    forall s' | s' in segs' ensures t'.Closed(s') { if s' != s { assert t.Closed(s'); } }
  }

  lemma OutsideNew(t: Tiles, segs: seq<Segment>, s: Segment, mark: Mark, h: nat)
    requires CanOpen(t, segs, s, mark) && h in t.seg
    ensures !(s.base <= h < s.base + s.size)
    ensures t.IsBlock(h) ==> h + t.size[h].size <= s.base || s.base + s.size <= h
  {
    Header(t, segs, h);
    assert t.seg[h].Disjoint(s);
    if t.IsBlock(h) { Header(t, segs, h + t.size[h].size); }
  }

  lemma OpenedEnd(t: Tiles, segs: seq<Segment>, s: Segment, mark: Mark, h: nat)
    requires CanOpen(t, segs, s, mark) && h in Opened(t, s, mark).seg
    ensures Opened(t, s, mark).EndsOk(h)
  {
    if h in t.seg {
      OldEnd(t, segs, s, mark, h);
    } else if h == s.First() {
      NewFirst(t, s, mark);
    } else {
      NewGuard(t, s, mark);
    }
  }

  lemma OpenedStart(t: Tiles, segs: seq<Segment>, s: Segment, mark: Mark, h: nat)
    requires CanOpen(t, segs, s, mark) && h in Opened(t, s, mark).seg
    ensures Opened(t, s, mark).StartsOk(h)
  {
    if h in t.seg {
      OldStart(t, segs, s, mark, h);
    } else if h == s.First() {
      NewFirst(t, s, mark);
    } else {
      NewGuard(t, s, mark);
    }
  }

  /** The words at a header outside the new segment are kept. */
  lemma OldWords(t: Tiles, segs: seq<Segment>, s: Segment, mark: Mark, h: nat)
    requires CanOpen(t, segs, s, mark) && h in t.seg
    ensures var t' := Opened(t, s, mark);
            && h in t'.seg && t'.seg[h] == t.seg[h]
            && (h in t.size ==> h in t'.size && t'.size[h] == t.size[h])
            && (h in t.prev ==> h in t'.prev && t'.prev[h] == t.prev[h])
  {
    OutsideNew(t, segs, s, mark, h);
  }

  lemma OldEnd(t: Tiles, segs: seq<Segment>, s: Segment, mark: Mark, h: nat)
    requires CanOpen(t, segs, s, mark) && h in t.seg
    ensures Opened(t, s, mark).EndsOk(h)
  {
    Header(t, segs, h);
    OldWords(t, segs, s, mark, h);
    if t.IsBlock(h) { OldWords(t, segs, s, mark, h + t.size[h].size); }
  }

  lemma OldStart(t: Tiles, segs: seq<Segment>, s: Segment, mark: Mark, h: nat)
    requires CanOpen(t, segs, s, mark) && h in t.seg
    ensures Opened(t, s, mark).StartsOk(h)
  {
    Header(t, segs, h);
    OldWords(t, segs, s, mark, h);
    if h != t.seg[h].First() { OldWords(t, segs, s, mark, h - t.prev[h].size); }
  }

  lemma NewFirst(t: Tiles, s: Segment, mark: Mark)
    requires s.Sound() && mark != Guard
    ensures Opened(t, s, mark).EndsOk(s.First()) && Opened(t, s, mark).StartsOk(s.First())
  {
  }

  lemma NewGuard(t: Tiles, s: Segment, mark: Mark)
    requires s.Sound() && mark != Guard
    ensures Opened(t, s, mark).EndsOk(s.GuardAt()) && Opened(t, s, mark).StartsOk(s.GuardAt())
  {
  }

  lemma OpenedPair(t: Tiles, segs: seq<Segment>, s: Segment, mark: Mark, h: nat, h': nat)
    requires CanOpen(t, segs, s, mark) && h in Opened(t, s, mark).seg && h' in Opened(t, s, mark).seg
    ensures Opened(t, s, mark).NoOverlap(h, h')
  {
    if h in t.seg { OutsideNew(t, segs, s, mark, h); }
    if h' in t.seg { OutsideNew(t, segs, s, mark, h'); }
    if h in t.seg && h' in t.seg { assert t.NoOverlap(h, h'); }
  }

  /** A segment given back: its headers are no longer headers. */
  ghost function Dropped(t: Tiles, s: Segment): Tiles {
    Tiles(t.size, t.prev, map h | h in t.seg && t.seg[h] != s :: t.seg[h])
  }

  lemma Drop(t: Tiles, segs: seq<Segment>, s: Segment, segs': seq<Segment>)
    requires t.Valid(segs)
    requires forall s' :: s' in segs' <==> s' in segs && s' != s
    ensures Dropped(t, s).Valid(segs')
  {
    var t' := Dropped(t, s);
    FewerSegments(segs, segs');
    forall s' | s' in segs' ensures t'.Closed(s') { assert t.Closed(s'); }
    forall h | h in t'.seg ensures t'.EndsOk(h) { DroppedHeader(t, segs, s, h); }
    forall h | h in t'.seg ensures t'.StartsOk(h) { DroppedHeader(t, segs, s, h); }
    forall h, h' | h in t'.seg && h' in t'.seg ensures t'.NoOverlap(h, h') { assert t.NoOverlap(h, h'); }
  }

  lemma FewerSegments(segs: seq<Segment>, segs': seq<Segment>)
    requires SegmentsOk(segs) && forall s :: s in segs' ==> s in segs
    ensures SegmentsOk(segs')
  {
    forall s1, s2 | s1 in segs' && s2 in segs' && s1 != s2 ensures s1.Disjoint(s2) { }
  }

  lemma DroppedHeader(t: Tiles, segs: seq<Segment>, s: Segment, h: nat)
    requires t.Valid(segs) && h in t.seg && t.seg[h] != s
    ensures Dropped(t, s).EndsOk(h) && Dropped(t, s).StartsOk(h)
  {
    Header(t, segs, h);
  }
}
