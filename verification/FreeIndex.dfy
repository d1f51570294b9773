/** The index of free blocks: 64 exact-size lists for small blocks, a tree with rings of equal
    sizes per power of two for large ones, and the rest list that new segments feed first. */
module FreeIndex {
  import opened Bits
  import opened Layout
  import opened Rings
  import opened Trie

  // ---------------------------------------------------------------- the invariant

  /** A node is a list head exactly if it is a sentinel or a tree node. */
  ghost predicate HeadOk(l: Lists, t: Tree, p: Ptr) {
    && p in l.home && p != Null
    && (p.Small? ==> p.i < NUM_BUCKETS)
    && (p.Blk? ==> (l.home[p] == p <==> p.addr in t.pos))
    && (!p.Blk? ==> l.home[p] == p)
  }

  ghost predicate HeadsOk(l: Lists, t: Tree) {
    && Rest in l.home
    && (forall i: nat {:trigger Small(i)} :: i < NUM_BUCKETS ==> Small(i) in l.home)
    && (forall a: nat {:trigger Blk(a)} :: a in t.pos ==> Blk(a) in l.home)
    && (forall p {:trigger HeadOk(l, t, p)} :: p in l.home ==> HeadOk(l, t, p))
  }

  /** A block is in the list that its size calls for, and its `parent` field says which kind. */
  ghost predicate Placed(l: Lists, t: Tree, a: nat) {
    && Blk(a) in l.home && a in t.tag && BlockSize(t.tag[a].size)
    && match l.home[Blk(a)] {
         case Null => false
         case Small(i) => i < NUM_BUCKETS && t.tag[a].size == BucketSize(i)
         case Rest => !IsSmall(t.tag[a].size) ==> a in t.parent && t.parent[a] == RestBlock
         case Blk(h) =>
           && !IsSmall(t.tag[a].size) && h in t.tag && t.tag[h].size == t.tag[a].size
           && a in t.parent && (h != a ==> t.parent[a] == NoSlot)
       }
  }

  ghost predicate PlacesOk(l: Lists, t: Tree) {
    forall a: nat {:trigger Placed(l, t, a)} :: Blk(a) in l.home ==> Placed(l, t, a)
  }

  /** A set bit of the small bitmap means a non-empty bucket. The converse fails: see `LostBit`. */
  ghost predicate SmallBitsOk(l: Lists, freeBitmap: nat) {
    && freeBitmap < WORD
    && forall i: nat {:trigger Bit(freeBitmap, i)} :: i < NUM_BUCKETS && Bit(freeBitmap, i) ==>
         Small(i) in l.prev && l.prev[Small(i)] != Small(i)
  }

  /** The large blocks on the rest list. */
  ghost function RestLarge(l: Lists, t: Tree): set<Ptr> {
    set p | p in l.home && l.home[p] == Rest && p.Blk? && p.addr in t.tag && !IsSmall(t.tag[p.addr].size)
  }

  /** The rest list, with its sentinel. */
  ghost function RestMembers(l: Lists): set<Ptr> {
    set p | p in l.home && l.home[p] == Rest
  }

  ghost predicate RestOk(l: Lists, t: Tree, restCount: nat) {
    restCount == |RestLarge(l, t)| <= MAX_REST_BLOCKS
  }

  ghost predicate IndexOk(l: Lists, t: Tree, freeBitmap: nat, largeBitmap: nat, restCount: nat) {
    && l.Valid() && t.Valid() && HeadsOk(l, t) && PlacesOk(l, t)
    && SmallBitsOk(l, freeBitmap) && MapsRoots(t, largeBitmap) && RestOk(l, t, restCount)
  }

  // ---------------------------------------------------------------- what updates leave alone

  ghost predicate SameAt<K, V>(m: map<K, V>, m': map<K, V>, k: K) {
    (k in m <==> k in m') && (k in m ==> m[k] == m'[k])
  }

  /** No list link kept inside the block at `a` differs. */
  ghost predicate KeepLinks(l: Lists, l': Lists, a: nat) {
    SameAt(l.prev, l'.prev, Blk(a)) && SameAt(l.next, l'.next, Blk(a))
  }

  /** No tree field kept inside the block at `a` differs. */
  ghost predicate KeepFields(t: Tree, t': Tree, a: nat) {
    && SameAt(t.parent, t'.parent, a)
    && SameAt(t.slots, t'.slots, Child(a, 0)) && SameAt(t.slots, t'.slots, Child(a, 1))
  }

  ghost predicate LinksKept(l: Lists, l': Lists, inside: set<Ptr>) {
    forall a: nat {:trigger KeepLinks(l, l', a)} :: Blk(a) !in inside ==> KeepLinks(l, l', a)
  }

  /** The block at `a` is one of `inside` and large enough to have tree fields. */
  ghost predicate HasFields(t: Tree, inside: set<Ptr>, a: nat) {
    Blk(a) in inside && a in t.tag && !IsSmall(t.tag[a].size)
  }

  ghost predicate FieldsKept(t: Tree, t': Tree, inside: set<Ptr>) {
    t'.tag == t.tag && forall a: nat {:trigger KeepFields(t, t', a)} :: !HasFields(t, inside, a) ==>
      KeepFields(t, t', a)
  }

  /** Outside the blocks `inside`, no link word that lives in a block differs, and no tree field but
      those of the large blocks `inside`. */
  ghost predicate WordsKept(l: Lists, t: Tree, l': Lists, t': Tree, inside: set<Ptr>) {
    LinksKept(l, l', inside) && FieldsKept(t, t', inside)
  }

  lemma KeptTwice(l: Lists, t: Tree, l1: Lists, t1: Tree, s1: set<Ptr>, l2: Lists, t2: Tree, s2: set<Ptr>)
    requires WordsKept(l, t, l1, t1, s1) && WordsKept(l1, t1, l2, t2, s2) && s1 <= s2
    ensures WordsKept(l, t, l2, t2, s2)
  {
    forall a: nat | Blk(a) !in s2 ensures KeepLinks(l, l2, a) {
      assert KeepLinks(l, l1, a) && KeepLinks(l1, l2, a);
    }
    forall a: nat | !HasFields(t, s2, a) ensures KeepFields(t, t2, a) {
      assert !HasFields(t, s1, a) && !HasFields(t1, s2, a);
      assert KeepFields(t, t1, a) && KeepFields(t1, t2, a);
    }
  }

  /** The index has gained exactly `b`, not on the rest list, and written to indexed blocks only. */
  ghost predicate Grew(l: Lists, t: Tree, l': Lists, t': Tree, b: nat) {
    && l'.home.Keys == l.home.Keys + {Blk(b)}
    && RestMembers(l') == RestMembers(l)
    && WordsKept(l, t, l', t', l'.home.Keys)
  }

  /** The index has lost exactly `b`, and written to indexed blocks only. */
  ghost predicate Shrank(l: Lists, t: Tree, l': Lists, t': Tree, b: nat) {
    && l'.home.Keys == l.home.Keys - {Blk(b)}
    && WordsKept(l, t, l', t', l.home.Keys)
  }

  lemma UnlinkStaysInside(l: Lists, b: Ptr, home': Links)
    requires l.Valid() && b in l.home
    ensures b in l.prev && b in l.next
    ensures LinksKept(l, Unlinked(l, b, home'), l.home.Keys)
  {
    assert l.Linked(b);
  }

  lemma InsertStaysInside(l: Lists, h: Ptr, b: Ptr)
    requires l.Valid() && h in l.home && h in l.next && (l.next[h] == h || l.next[h] in l.rank)
    ensures LinksKept(l, InsertedFront(l, h, b), l.home.Keys + {b})
  {
    assert l.Linked(h);
  }

  lemma AppendStaysInside(l: Lists, b: Ptr)
    requires l.Valid() && Rest in l.home && Rest in l.prev && (l.prev[Rest] == Rest || l.prev[Rest] in l.rank)
    ensures LinksKept(l, InsertedBack(l, b), l.home.Keys + {b})
  {
    assert l.Linked(Rest);
  }

  // ---------------------------------------------------------------- bitmap bounds

  lemma {:induction false} SetBitBound(b: nat, i: nat, n: nat)
    requires b < Pow2(n) && i < n
    ensures SetBit(b, i) < Pow2(n)
  {
    if i > 0 {
      SetBitBound(b / 2, i - 1, n - 1);
    } else {
      assert Pow2(n) == 2 * Pow2(n - 1);
    }
  }

  lemma {:induction false} ClearBitBound(b: nat, i: nat)
    ensures ClearBit(b, i) <= b
  {
    if i > 0 {
      ClearBitBound(b / 2, i - 1);
    }
  }

  lemma SetBitWord(b: nat, i: nat)
    requires b < WORD && i < NUM_BUCKETS
    ensures SetBit(b, i) < WORD
    ensures forall j: nat {:trigger Bit(SetBit(b, i), j)} :: Bit(SetBit(b, i), j) <==> i == j || Bit(b, j)
  {
    Pow2Word();
    SetBitBound(b, i, 64);
    forall j: nat ensures Bit(SetBit(b, i), j) <==> i == j || Bit(b, j) { SetBitSpec(b, i, j); }
  }

  lemma ClearBitWord(b: nat, i: nat)
    requires b < WORD
    ensures ClearBit(b, i) < WORD
    ensures forall j: nat {:trigger Bit(ClearBit(b, i), j)} :: Bit(ClearBit(b, i), j) <==> i != j && Bit(b, j)
  {
    ClearBitBound(b, i);
    forall j: nat ensures Bit(ClearBit(b, i), j) <==> i != j && Bit(b, j) { ClearBitSpec(b, i, j); }
  }

  // ---------------------------------------------------------------- adding

  /** `b` is a block outside the index. */
  ghost predicate Outside(l: Lists, t: Tree, b: nat) {
    Blk(b) !in l.home && b !in t.pos && b in t.tag && BlockSize(t.tag[b].size)
  }

  lemma AddSmall(l: Lists, t: Tree, fb: nat, lb: nat, rc: nat, b: nat, fb': nat)
    requires IndexOk(l, t, fb, lb, rc) && Outside(l, t, b) && IsSmall(t.tag[b].size)
    requires var h := Small(BucketIndex(t.tag[b].size));
             h in l.prev && fb' == if l.prev[h] == h then SetBit(fb, h.i) else fb
    ensures var h := Small(BucketIndex(t.tag[b].size));
            && h in l.next && (l.next[h] == h || l.next[h] in l.rank)
            && IndexOk(InsertedFront(l, h, Blk(b)), t, fb', lb, rc)
            && Grew(l, t, InsertedFront(l, h, Blk(b)), t, b)
  {
    var i := BucketIndex(t.tag[b].size);
    var h := Small(i);
    assert HeadOk(l, t, h);
    InsertFront(l, h, Blk(b));
    InsertStaysInside(l, h, Blk(b));
    var l' := InsertedFront(l, h, Blk(b));
    forall p | p in l'.home ensures HeadOk(l', t, p) { if p != Blk(b) { assert HeadOk(l, t, p); } }
    forall a: nat | Blk(a) in l'.home ensures Placed(l', t, a) { if a != b { assert Placed(l, t, a); } }
    assert l.Linked(h);
    SetBitWord(fb, i);
    assert SmallBitsOk(l', fb') by {
      forall j: nat | j < NUM_BUCKETS && Bit(fb', j) ensures Small(j) in l'.prev && l'.prev[Small(j)] != Small(j) {
        assert HeadOk(l, t, Small(j)) && l.Linked(Small(j));
      }
    }
    assert RestLarge(l', t) == RestLarge(l, t);
  }

  /** `b` becomes a tree node of its own at the vacant place `p`. */
  lemma AddLeaf(l: Lists, t: Tree, fb: nat, lb: nat, rc: nat, b: nat, p: Pos, lb': nat)
    requires IndexOk(l, t, fb, lb, rc) && Outside(l, t, b) && !IsSmall(t.tag[b].size)
    requires CanGraft(t, p, b)
    requires forall p' :: p' in t.tree ==> t.tree[p'] in t.tag && t.tag[t.tree[p']].size != t.tag[b].size
    requires lb' == if p.q == 1 then SetBit(lb, p.k) else lb
    ensures var l' := Lists(l.prev[Blk(b) := Blk(b)], l.next[Blk(b) := Blk(b)], l.home[Blk(b) := Blk(b)], l.rank);
            && IndexOk(l', Grafted(t, p, b), fb, lb', rc)
            && Grew(l, t, l', Grafted(t, p, b), b)
  {
    var l' := Lists(l.prev[Blk(b) := Blk(b)], l.next[Blk(b) := Blk(b)], l.home[Blk(b) := Blk(b)], l.rank);
    var t' := Grafted(t, p, b);
    AddHead(l, Blk(b));
    Graft(t, p, b);
    LeafPlaces(l, t, b, p);
    SetBitWord(lb, p.k);
    assert MapsRoots(t', lb');
    assert RestLarge(l', t') == RestLarge(l, t);
  }

  lemma LeafPlaces(l: Lists, t: Tree, b: nat, p: Pos)
    requires l.Valid() && HeadsOk(l, t) && PlacesOk(l, t) && Outside(l, t, b) && !IsSmall(t.tag[b].size)
    requires CanGraft(t, p, b)
    ensures var l' := Lists(l.prev[Blk(b) := Blk(b)], l.next[Blk(b) := Blk(b)], l.home[Blk(b) := Blk(b)], l.rank);
            && HeadsOk(l', Grafted(t, p, b)) && PlacesOk(l', Grafted(t, p, b))
            && WordsKept(l, t, l', Grafted(t, p, b), l'.home.Keys)
  {
    var l' := Lists(l.prev[Blk(b) := Blk(b)], l.next[Blk(b) := Blk(b)], l.home[Blk(b) := Blk(b)], l.rank);
    var t' := Grafted(t, p, b);
    forall p | p in l'.home ensures HeadOk(l', t', p) { if p != Blk(b) { assert HeadOk(l, t, p); } }
    forall a: nat | Blk(a) in l'.home ensures Placed(l', t', a) { if a != b { assert Placed(l, t, a); } }
    Node(t, Up(p));
  }

  /** `b` joins the ring of the tree node `h` of its size. */
  lemma AddRing(l: Lists, t: Tree, fb: nat, lb: nat, rc: nat, b: nat, h: nat)
    requires IndexOk(l, t, fb, lb, rc) && Outside(l, t, b) && !IsSmall(t.tag[b].size)
    requires h in t.pos && h in t.tag && t.tag[h].size == t.tag[b].size
    ensures var t' := t.(slots := t.slots[Child(b, 0) := Null][Child(b, 1) := Null], parent := t.parent[b := NoSlot]);
            && Blk(h) in l.next && (l.next[Blk(h)] == Blk(h) || l.next[Blk(h)] in l.rank)
            && IndexOk(InsertedFront(l, Blk(h), Blk(b)), t', fb, lb, rc)
            && Grew(l, t, InsertedFront(l, Blk(h), Blk(b)), t', b)
  {
    var t' := t.(slots := t.slots[Child(b, 0) := Null][Child(b, 1) := Null], parent := t.parent[b := NoSlot]);
    assert HeadOk(l, t, Blk(h));
    InsertFront(l, Blk(h), Blk(b));
    InsertStaysInside(l, Blk(h), Blk(b));
    StrayFields(t, b, NoSlot);
    RingMembers(l, t, fb, b, h, t');
    assert RestLarge(InsertedFront(l, Blk(h), Blk(b)), t') == RestLarge(l, t);
  }

  lemma RingMembers(l: Lists, t: Tree, fb: nat, b: nat, h: nat, t': Tree)
    requires l.Valid() && HeadsOk(l, t) && PlacesOk(l, t) && SmallBitsOk(l, fb) && Outside(l, t, b) &&
             !IsSmall(t.tag[b].size)
    requires h in t.pos && h in t.tag && t.tag[h].size == t.tag[b].size && l.home[Blk(h)] == Blk(h)
    requires Blk(h) in l.next && (l.next[Blk(h)] == Blk(h) || l.next[Blk(h)] in l.rank)
    requires t'.tag == t.tag && t'.pos == t.pos && t'.parent == t.parent[b := NoSlot]
    ensures var l' := InsertedFront(l, Blk(h), Blk(b)); HeadsOk(l', t') && PlacesOk(l', t') && SmallBitsOk(l', fb)
  {
    var l' := InsertedFront(l, Blk(h), Blk(b));
    forall p | p in l'.home ensures HeadOk(l', t', p) { if p != Blk(b) { assert HeadOk(l, t, p); } }
    forall a: nat | Blk(a) in l'.home ensures Placed(l', t', a) { if a != b { assert Placed(l, t, a); } }
    assert l.Linked(Blk(h));
    forall j: nat | j < NUM_BUCKETS && Bit(fb, j) ensures Small(j) in l'.prev && l'.prev[Small(j)] != Small(j) {
      assert HeadOk(l, t, Small(j)) && l.Linked(Small(j));
    }
  }

  /** `b` goes to the end of the rest list. */
  lemma AddRest(l: Lists, t: Tree, fb: nat, lb: nat, rc: nat, b: nat)
    requires IndexOk(l, t, fb, lb, rc) && Outside(l, t, b) && rc < MAX_REST_BLOCKS
    ensures var t' := Rested(t, b);
            && Rest in l.prev && (l.prev[Rest] == Rest || l.prev[Rest] in l.rank)
            && IndexOk(InsertedBack(l, Blk(b)), t', fb, lb, if IsSmall(t.tag[b].size) then rc else rc + 1)
            && WordsKept(l, t, InsertedBack(l, Blk(b)), t', l.home.Keys + {Blk(b)})
  {
    assert HeadOk(l, t, Rest);
    InsertBack(l, Blk(b));
    AppendStaysInside(l, Blk(b));
    StrayFields(t, b, RestBlock);
    AppendedPlaces(l, t, b);
    AppendedRest(l, t, b);
    var l' := InsertedBack(l, Blk(b));
    assert l.Linked(Rest);
    forall j: nat | j < NUM_BUCKETS && Bit(fb, j) ensures Small(j) in l'.prev && l'.prev[Small(j)] != Small(j) {
      assert HeadOk(l, t, Small(j)) && l.Linked(Small(j));
    }
  }

  /** A large block on the rest list has `ZEND_MM_REST_BLOCK` for a parent. */
  ghost function Rested(t: Tree, b: nat): Tree
    requires b in t.tag
  {
    if IsSmall(t.tag[b].size) then t else t.(parent := t.parent[b := RestBlock])
  }

  lemma AppendedPlaces(l: Lists, t: Tree, b: nat)
    requires l.Valid() && HeadsOk(l, t) && PlacesOk(l, t) && Outside(l, t, b)
    requires Rest in l.prev && (l.prev[Rest] == Rest || l.prev[Rest] in l.rank)
    ensures HeadsOk(InsertedBack(l, Blk(b)), Rested(t, b)) && PlacesOk(InsertedBack(l, Blk(b)), Rested(t, b))
  {
    var l', t' := InsertedBack(l, Blk(b)), Rested(t, b);
    forall p | p in l'.home ensures HeadOk(l', t', p) { if p != Blk(b) { assert HeadOk(l, t, p); } }
    forall a: nat | Blk(a) in l'.home ensures Placed(l', t', a) { if a != b { assert Placed(l, t, a); } }
  }

  lemma AppendedRest(l: Lists, t: Tree, b: nat)
    requires Outside(l, t, b) && Rest in l.prev && (l.prev[Rest] == Rest || l.prev[Rest] in l.rank)
    ensures var s := RestLarge(InsertedBack(l, Blk(b)), Rested(t, b));
            |s| == |RestLarge(l, t)| + if IsSmall(t.tag[b].size) then 0 else 1
  {
    var l', t' := InsertedBack(l, Blk(b)), Rested(t, b);
    assert l'.home == l.home[Blk(b) := Rest] && t'.tag == t.tag;
    OneMoreRest(l, t, l', t', b);
  }

  lemma OneMoreRest(l: Lists, t: Tree, l': Lists, t': Tree, b: nat)
    requires Blk(b) !in l.home && b in t.tag && l'.home == l.home[Blk(b) := Rest] && t'.tag == t.tag
    ensures |RestLarge(l', t')| == |RestLarge(l, t)| + if IsSmall(t.tag[b].size) then 0 else 1
  {
    var r, r' := RestLarge(l, t), RestLarge(l', t');
    forall p ensures p in r' <==> p in r || (p == Blk(b) && !IsSmall(t.tag[b].size)) {
      if p != Blk(b) { assert p in l'.home <==> p in l.home; }
    }
    if IsSmall(t.tag[b].size) {
      assert r' == r;
    } else {
      assert r' == r + {Blk(b)};
    }
  }

  // ---------------------------------------------------------------- removing

  /** Everything but the tree after taking `b` away, when the other lists keep their members. */
  lemma RestCounted(l: Lists, t: Tree, b: nat)
    requires Blk(b) in l.home && l.home[Blk(b)] == Rest && b in t.tag && !IsSmall(t.tag[b].size)
    ensures |RestLarge(l, t)| > 0
  {
    assert Blk(b) in RestLarge(l, t);
  }

  lemma RestAfterRemoval(l: Lists, t: Tree, l': Lists, t': Tree, b: nat)
    requires Blk(b) in l.home && t'.tag == t.tag
    requires l'.home.Keys == l.home.Keys - {Blk(b)}
    requires forall p :: p in l'.home ==> (l'.home[p] == Rest <==> l.home[p] == Rest)
    ensures RestLarge(l', t') == RestLarge(l, t) - {Blk(b)}
  {
  }

  /** A block of a small bucket or of the rest list unlinked. */
  lemma RemoveListed(l: Lists, t: Tree, fb: nat, lb: nat, rc: nat, b: nat, fb': nat, rc': nat)
    requires IndexOk(l, t, fb, lb, rc) && Blk(b) in l.home && b in t.tag && !l.home[Blk(b)].Blk?
    requires Blk(b) in l.prev && Blk(b) in l.next
    requires fb' == BitsUnlinked(l, t, fb, b) || (fb' == fb && l.home[Blk(b)] == Rest)
    requires rc' == if l.home[Blk(b)] == Rest && !IsSmall(t.tag[b].size) then rc - 1 else rc
    ensures IndexOk(Unlinked(l, Blk(b), l.home - {Blk(b)}), t, fb', lb, rc')
    ensures Shrank(l, t, Unlinked(l, Blk(b), l.home - {Blk(b)}), t, b)
  {
    var l' := Unlinked(l, Blk(b), l.home - {Blk(b)});
    assert HeadOk(l, t, Blk(b)) && Placed(l, t, b);
    RemoveMember(l, Blk(b));
    forall p | p in l'.home ensures HeadOk(l', t, p) { assert HeadOk(l, t, p); }
    forall a: nat | Blk(a) in l'.home ensures Placed(l', t, a) { assert Placed(l, t, a); }
    BitsAfterUnlink(l, t, fb, b, fb');
    RestAfterRemoval(l, t, l', t, b);
    UnlinkStaysInside(l, Blk(b), l.home - {Blk(b)});
  }

  /** The small bitmap after a block was unlinked; eviction from the rest list leaves it alone. */
  ghost function BitsUnlinked(l: Lists, t: Tree, fb: nat, b: nat): nat
    requires b in t.tag && Blk(b) in l.prev && Blk(b) in l.next
  {
    if l.prev[Blk(b)] == l.next[Blk(b)] && LooksEmpty(Unlinked(l, Blk(b), l.home - {Blk(b)}), t.tag[b].size)
    then ClearBit(fb, BucketIndex(t.tag[b].size)) else fb
  }

  lemma BitsAfterUnlink(l: Lists, t: Tree, fb: nat, b: nat, fb': nat)
    requires l.Valid() && HeadsOk(l, t) && Blk(b) in l.home && Placed(l, t, b) && SmallBitsOk(l, fb)
    requires Blk(b) in l.prev && Blk(b) in l.next && l.home[Blk(b)] != Blk(b)
    requires fb' == BitsUnlinked(l, t, fb, b) || (fb' == fb && l.home[Blk(b)] == Rest)
    ensures SmallBitsOk(Unlinked(l, Blk(b), l.home - {Blk(b)}), fb')
  {
    var l' := Unlinked(l, Blk(b), l.home - {Blk(b)});
    assert l.Linked(Blk(b));
    if BlockSize(t.tag[b].size) && IsSmall(t.tag[b].size) { ClearBitWord(fb, BucketIndex(t.tag[b].size)); }
    forall j: nat | j < NUM_BUCKETS && Bit(fb', j) ensures Small(j) in l'.prev && l'.prev[Small(j)] != Small(j) {
      assert HeadOk(l, t, Small(j)) && l.Linked(Small(j));
    }
  }

  /** The emptiness test on a small bucket: it holds of an empty bucket, and of one with a single block. */
  ghost predicate LooksEmpty(l: Lists, size: nat)
  {
    && BlockSize(size) && IsSmall(size)
    && var h := Small(BucketIndex(size));
    h in l.prev && h in l.next && l.prev[h] == l.next[h]
  }

  /** A ring member that is not the tree node unlinked. */
  lemma RemoveRingMember(l: Lists, t: Tree, fb: nat, lb: nat, rc: nat, b: nat)
    requires IndexOk(l, t, fb, lb, rc) && Blk(b) in l.home && l.home[Blk(b)].Blk? && b !in t.pos
    ensures Blk(b) in l.prev && Blk(b) in l.next
    ensures IndexOk(Unlinked(l, Blk(b), l.home - {Blk(b)}), t, fb, lb, rc)
    ensures Shrank(l, t, Unlinked(l, Blk(b), l.home - {Blk(b)}), t, b)
  {
    assert HeadOk(l, t, Blk(b)) && Placed(l, t, b);
    RemoveMember(l, Blk(b));
    var l' := Unlinked(l, Blk(b), l.home - {Blk(b)});
    assert l.Linked(Blk(b));
    forall p | p in l'.home ensures HeadOk(l', t, p) { assert HeadOk(l, t, p); }
    forall a: nat | Blk(a) in l'.home ensures Placed(l', t, a) { assert Placed(l, t, a); }
    OtherBitsKept(l, t, fb, b, l');
    RestAfterRemoval(l, t, l', t, b);
    UnlinkStaysInside(l, Blk(b), l.home - {Blk(b)});
  }

  /** Relinking within the ring of a tree node leaves the small buckets alone. */
  lemma OtherBitsKept(l: Lists, t: Tree, fb: nat, b: nat, l': Lists)
    requires l.Valid() && HeadsOk(l, t) && SmallBitsOk(l, fb) && Blk(b) in l.home && l.home[Blk(b)].Blk?
    requires Blk(b) in l.next && Blk(b) in l.prev
    requires l'.prev == l.prev[l.next[Blk(b)] := l.prev[Blk(b)]]
    ensures SmallBitsOk(l', fb)
  {
    assert l.Linked(Blk(b));
    forall j: nat | j < NUM_BUCKETS && Bit(fb, j) ensures Small(j) in l'.prev && l'.prev[Small(j)] != Small(j) {
      assert HeadOk(l, t, Small(j)) && l.Linked(Small(j));
    }
  }

  /** A tree node with a ring unlinked: the block before it takes its place in the tree. */
  lemma RemoveRingHead(l: Lists, t: Tree, fb: nat, lb: nat, rc: nat, b: nat)
    requires IndexOk(l, t, fb, lb, rc) && b in t.pos && Blk(b) in l.prev && l.prev[Blk(b)] != Blk(b)
    ensures Blk(b) in l.home && Blk(b) in l.next && l.prev[Blk(b)].Blk?
    ensures var x := l.prev[Blk(b)].addr;
            && CanReplace(t, b, x)
            && IndexOk(Unlinked(l, Blk(b), Rehomed(l.home, Blk(b), Blk(x))), Replaced(t, b, x), fb, lb, rc)
            && Shrank(l, t, Unlinked(l, Blk(b), Rehomed(l.home, Blk(b), Blk(x))), Replaced(t, b, x), b)
  {
    assert HeadOk(l, t, Blk(b)) && Placed(l, t, b);
    SwapHead(l, Blk(b));
    var p := l.prev[Blk(b)];
    assert l.Linked(Blk(b)) && l.Linked(p);
    assert HeadOk(l, t, p);
    var x := p.addr;
    assert Placed(l, t, x);
    Node(t, t.pos[b]);
    forall p' | p' in t.tree && p' != t.pos[b] ensures t.tree[p'] in t.tag && t.tag[t.tree[p']].size != t.tag[x].size {
      assert t.Apart(p', t.pos[b]);
    }
    Replace(t, b, x);
    var l' := Unlinked(l, Blk(b), Rehomed(l.home, Blk(b), p));
    SwappedPlaces(l, t, b, x);
    OtherBitsKept(l, t, fb, b, l');
    RestAfterRemoval(l, t, l', Replaced(t, b, x), b);
    ReplaceStaysInside(l, t, b, x);
    UnlinkStaysInside(l, Blk(b), Rehomed(l.home, Blk(b), p));
    assert l'.home.Keys == l.home.Keys - {Blk(b)};
  }

  /** Tree nodes are large blocks. */
  lemma NodeIsLarge(l: Lists, t: Tree, a: nat)
    requires HeadsOk(l, t) && PlacesOk(l, t) && a in t.pos
    ensures HasFields(t, l.home.Keys, a)
  {
    assert HeadOk(l, t, Blk(a)) && Placed(l, t, a);
  }

  /** Substituting a node writes to tree nodes and the substitute only. */
  lemma ReplaceStaysInside(l: Lists, t: Tree, b: nat, x: nat)
    requires t.Valid() && HeadsOk(l, t) && PlacesOk(l, t) && b in t.pos && HasFields(t, l.home.Keys, x)
    requires b in t.parent && Child(b, 0) in t.slots && Child(b, 1) in t.slots
    ensures FieldsKept(t, Replaced(t, b, x), l.home.Keys)
  {
    var p := t.pos[b];
    Node(t, p); Node(t, Down(p, 0)); Node(t, Down(p, 1)); Node(t, Up(p));
    forall a | a in t.pos ensures HasFields(t, l.home.Keys, a) { NodeIsLarge(l, t, a); }
  }

  lemma SwappedPlaces(l: Lists, t: Tree, b: nat, x: nat)
    requires l.Valid() && HeadsOk(l, t) && PlacesOk(l, t) && CanReplace(t, b, x)
    requires Blk(b) in l.home && Blk(b) in l.prev && Blk(b) in l.next && l.prev[Blk(b)] == Blk(x)
    requires Blk(x) in l.home && l.home[Blk(x)] == Blk(b) && l.home[Blk(b)] == Blk(b)
    ensures var l' := Unlinked(l, Blk(b), Rehomed(l.home, Blk(b), Blk(x)));
            HeadsOk(l', Replaced(t, b, x)) && PlacesOk(l', Replaced(t, b, x))
  {
    var l' := Unlinked(l, Blk(b), Rehomed(l.home, Blk(b), Blk(x)));
    var t' := Replaced(t, b, x);
    assert Placed(l, t, x);
    Node(t, t.pos[b]); Node(t, Down(t.pos[b], 0)); Node(t, Down(t.pos[b], 1));
    forall p | p in l'.home ensures HeadOk(l', t', p) { assert HeadOk(l, t, p); }
    forall a: nat | Blk(a) in l'.home ensures Placed(l', t', a) {
      assert Placed(l, t, a) && HeadOk(l, t, Blk(a));
    }
  }

  /** A childless tree node without a ring taken away. */
  lemma RemoveLeaf(l: Lists, t: Tree, fb: nat, lb: nat, rc: nat, b: nat, lb': nat)
    requires IndexOk(l, t, fb, lb, rc) && b in t.pos && Blk(b) in l.prev && l.prev[Blk(b)] == Blk(b)
    requires b in t.parent && b in t.tag
    requires Child(b, 0) in t.slots && t.slots[Child(b, 0)] == Null
    requires Child(b, 1) in t.slots && t.slots[Child(b, 1)] == Null
    requires var i := HighBitOf(t.tag[b].size); lb' == if t.parent[b] == Bucket(i) then ClearBit(lb, i) else lb
    ensures IndexOk(Lists(l.prev, l.next, l.home - {Blk(b)}, l.rank), Pruned(t, b), fb, lb', rc)
    ensures Shrank(l, t, Lists(l.prev, l.next, l.home - {Blk(b)}, l.rank), Pruned(t, b), b)
  {
    assert HeadOk(l, t, Blk(b)) && Placed(l, t, b);
    var l' := Lists(l.prev, l.next, l.home - {Blk(b)}, l.rank);
    var t' := Pruned(t, b);
    DropHead(l, Blk(b));
    Prune(t, b);
    forall p | p in l'.home ensures HeadOk(l', t', p) { assert HeadOk(l, t, p); }
    forall a: nat | Blk(a) in l'.home ensures Placed(l', t', a) { assert Placed(l, t, a); }
    RestAfterRemoval(l, t, l', t', b);
    RootBits(t, lb, b, lb');
    PruneStaysInside(l, t, b);
  }

  lemma PruneStaysInside(l: Lists, t: Tree, b: nat)
    requires t.Valid() && HeadsOk(l, t) && PlacesOk(l, t) && b in t.pos && b in t.parent
    ensures FieldsKept(t, Pruned(t, b), l.home.Keys)
  {
    Node(t, t.pos[b]); Node(t, Up(t.pos[b]));
    forall a | a in t.pos ensures HasFields(t, l.home.Keys, a) { NodeIsLarge(l, t, a); }
  }

  lemma RootBits(t: Tree, lb: nat, b: nat, lb': nat)
    requires t.Valid() && MapsRoots(t, lb) && b in t.pos && b in t.parent && b in t.tag
    requires var i := HighBitOf(t.tag[b].size); lb' == if t.parent[b] == Bucket(i) then ClearBit(lb, i) else lb
    ensures MapsRoots(Pruned(t, b), lb')
  {
    Node(t, t.pos[b]);
    var h := HighBitOf(t.tag[b].size);
    ClearBitWord(lb, h);
    HighBitIsHighest(t.tag[b].size, t.pos[b].k);
  }

  /** A tree node with children and without a ring taken away: the leaf `x` takes its place. */
  lemma RemoveInner(l: Lists, t: Tree, fb: nat, lb: nat, rc: nat, b: nat, x: nat)
    requires IndexOk(l, t, fb, lb, rc) && b in t.pos && Blk(b) in l.prev && l.prev[Blk(b)] == Blk(b)
    requires Below(t, b, x) && x in t.parent
    requires Child(x, 0) in t.slots && t.slots[Child(x, 0)] == Null
    requires Child(x, 1) in t.slots && t.slots[Child(x, 1)] == Null
    ensures var t1 := Pruned(t, x);
            && b in t1.parent && b in t1.pos && Child(b, 0) in t1.slots && Child(b, 1) in t1.slots
            && IndexOk(Lists(l.prev, l.next, l.home - {Blk(b)}, l.rank), Replaced(t1, b, x), fb, lb, rc)
            && Shrank(l, t, Lists(l.prev, l.next, l.home - {Blk(b)}, l.rank), Replaced(t1, b, x), b)
  {
    assert HeadOk(l, t, Blk(b)) && Placed(l, t, b);
    var l' := Lists(l.prev, l.next, l.home - {Blk(b)}, l.rank);
    DropHead(l, Blk(b));
    Substitute(t, b, x);
    var t1 := Pruned(t, x);
    var t' := Replaced(t1, b, x);
    forall p | p in l'.home ensures HeadOk(l', t', p) { assert HeadOk(l, t, p); }
    forall a: nat | Blk(a) in l'.home ensures Placed(l', t', a) {
      assert Placed(l, t, a) && HeadOk(l, t, Blk(a));
      ParentsKept(t1, b, x, a);
    }
    RestAfterRemoval(l, t, l', t', b);
    SubstituteStaysInside(l, t, b, x);
  }

  lemma SubstituteStaysInside(l: Lists, t: Tree, b: nat, x: nat)
    requires t.Valid() && HeadsOk(l, t) && PlacesOk(l, t) && b in t.pos && x in t.pos && x != b && x in t.parent
    requires Pruned(t, x).Valid()
    requires b in t.parent && Child(b, 0) in Pruned(t, x).slots && Child(b, 1) in Pruned(t, x).slots
    ensures FieldsKept(t, Replaced(Pruned(t, x), b, x), l.home.Keys)
  {
    var t1 := Pruned(t, x);
    PruneStaysInside(l, t, x);
    var p := t.pos[b];
    Node(t1, p); Node(t1, Down(p, 0)); Node(t1, Down(p, 1)); Node(t1, Up(p));
    var t' := Replaced(t1, b, x);
    forall a | a in t.pos ensures HasFields(t, l.home.Keys, a) { NodeIsLarge(l, t, a); }
    forall a: nat | !HasFields(t, l.home.Keys, a) ensures KeepFields(t, t', a) {
      assert KeepFields(t, t1, a);
    }
  }

  /** Blocks that are no tree nodes keep their `parent` field. */
  lemma ParentsKept(t: Tree, b: nat, x: nat, a: nat)
    requires t.Valid() && b in t.pos && b in t.parent && Child(b, 0) in t.slots && Child(b, 1) in t.slots
    ensures a in t.parent ==> a in Replaced(t, b, x).parent
    ensures a in t.parent && a !in t.pos && a != x ==> Replaced(t, b, x).parent[a] == t.parent[a]
  {
    Node(t, t.pos[b]); Node(t, Down(t.pos[b], 0)); Node(t, Down(t.pos[b], 1));
  }

  // ---------------------------------------------------------------- frames

  /** The index only looks at the tags of the blocks it holds. */
  lemma IndexTagFrame(l: Lists, t: Tree, fb: nat, lb: nat, rc: nat, tag': map<nat, Tag>)
    requires IndexOk(l, t, fb, lb, rc)
    requires forall a: nat {:trigger Blk(a)} :: Blk(a) in l.home ==>
               a in t.tag && a in tag' && tag'[a].size == t.tag[a].size
    ensures IndexOk(l, t.(tag := tag'), fb, lb, rc)
  {
    var t' := t.(tag := tag');
    forall a | a in t.pos ensures a in tag' && a in t.tag && tag'[a].size == t.tag[a].size {
      assert Blk(a) in l.home;
    }
    TagFrame(t, tag');
    forall p | p in l.home ensures HeadOk(l, t', p) { assert HeadOk(l, t, p); }
    forall a: nat | Blk(a) in l.home ensures Placed(l, t', a) {
      assert Placed(l, t, a);
      assert l.Linked(Blk(a));
    }
    assert RestLarge(l, t') == RestLarge(l, t);
  }

  /** The first `n` small sentinels, each linked to itself. */
  ghost predicate Sentinels(m: Links, n: nat) {
    && (forall p {:trigger p in m} :: p in m <==> p.Small? && p.i < n)
    && (forall p :: p in m ==> m[p] == p)
  }

  ghost predicate EmptyBuckets(slots: map<Slot, Ptr>, n: nat) {
    forall i: nat {:trigger Bucket(i)} :: i < n ==> Bucket(i) in slots && slots[Bucket(i)] == Null
  }

  /** The index that `zend_mm_init` sets up. */
  lemma EmptyIndex(prev: Links, next: Links, home: Links, slots: map<Slot, Ptr>, tag: map<nat, Tag>)
    requires Sentinels(prev, NUM_BUCKETS) && Sentinels(next, NUM_BUCKETS) && Sentinels(home, NUM_BUCKETS)
    requires EmptyBuckets(slots, NUM_BUCKETS)
    ensures IndexOk(Lists(prev[Rest := Rest], next[Rest := Rest], home[Rest := Rest], map[]),
                    Tree(slots, map[], tag, map[], map[]), 0, 0, 0)
    ensures forall a: nat {:trigger Blk(a)} :: Blk(a) !in home[Rest := Rest]
  {
    var l := Lists(prev[Rest := Rest], next[Rest := Rest], home[Rest := Rest], map[]);
    var t := Tree(slots, map[], tag, map[], map[]);
    forall p | p in l.home ensures l.Linked(p) && HeadOk(l, t, p) { }
    forall i | 0 <= i < NUM_BUCKETS ensures t.RootAt(i) { }
    assert RestLarge(l, t) == {};
    forall i: nat ensures !Bit(0, i) { ShrZero(i); }
  }

  /** The `prev_free_block` word of a block outside the index may hold anything. */
  lemma StrayPrev(l: Lists, t: Tree, fb: nat, lb: nat, rc: nat, b: nat, p: Ptr)
    requires IndexOk(l, t, fb, lb, rc) && Blk(b) !in l.home
    ensures IndexOk(l.(prev := l.prev[Blk(b) := p]), t, fb, lb, rc)
  {
    var l' := l.(prev := l.prev[Blk(b) := p]);
    StrayLink(l, Blk(b), p);
    forall q | q in l'.home ensures HeadOk(l', t, q) { assert HeadOk(l, t, q); }
    forall a: nat | Blk(a) in l'.home ensures Placed(l', t, a) { assert Placed(l, t, a); }
    assert RestLarge(l', t) == RestLarge(l, t);
  }

  // ---------------------------------------------------------------- the small bitmap is not exact

  /** A bit of the small bitmap is set exactly if its bucket is not empty. */
  ghost predicate ExactBits(l: Lists, freeBitmap: nat) {
    && freeBitmap < WORD
    && forall i: nat {:trigger Bit(freeBitmap, i)} :: i < NUM_BUCKETS ==>
         (Bit(freeBitmap, i) <==> Small(i) in l.prev && l.prev[Small(i)] != Small(i))
  }

  /** A small block is alone on the rest list while the bucket of its size holds exactly one block. */
  ghost predicate Confusing(l: Lists, t: Tree, b: nat)
    requires Placed(l, t, b) && Blk(b) in l.prev && Blk(b) in l.next
  {
    && l.home[Blk(b)] == Rest && IsSmall(t.tag[b].size) && l.prev[Blk(b)] == l.next[Blk(b)]
    && var h := Small(BucketIndex(t.tag[b].size));
    h in l.prev && h in l.next && l.prev[h] == l.next[h] != h
  }

  /** Unlinking a block keeps the bitmap exact unless the block is on the rest list and its size
      belongs to a bucket with a single block: that block is then lost to the bitmap search. */
  lemma LostBit(l: Lists, t: Tree, fb: nat, b: nat)
    requires l.Valid() && HeadsOk(l, t) && Placed(l, t, b) && ExactBits(l, fb)
    requires Blk(b) in l.prev && Blk(b) in l.next && l.home[Blk(b)] != Blk(b)
    ensures ExactBits(Unlinked(l, Blk(b), l.home - {Blk(b)}), BitsUnlinked(l, t, fb, b)) <==> !Confusing(l, t, b)
  {
    var l', fb' := Unlinked(l, Blk(b), l.home - {Blk(b)}), BitsUnlinked(l, t, fb, b);
    var p := l.prev[Blk(b)];
    assert l.Linked(Blk(b)) && l.Linked(p) && l.Linked(l.next[Blk(b)]);
    if IsSmall(t.tag[b].size) { ClearBitWord(fb, BucketIndex(t.tag[b].size)); }
    if Confusing(l, t, b) {
      var i := BucketIndex(t.tag[b].size);
      assert HeadOk(l, t, Small(i)) && l.Linked(Small(i));
      assert !Bit(fb', i) && l'.prev[Small(i)] != Small(i);
    } else {
      forall j: nat | j < NUM_BUCKETS ensures Bit(fb', j) <==> Small(j) in l'.prev && l'.prev[Small(j)] != Small(j) {
        assert HeadOk(l, t, Small(j)) && l.Linked(Small(j));
        assert Bit(fb, j) <==> l.prev[Small(j)] != Small(j);
      }
    }
  }

  /** Only bit 0 of the bitmap is set, and only bucket 0 is not empty. */
  lemma OneBucketExact(l: Lists)
    requires forall i: nat :: i < NUM_BUCKETS ==> Small(i) in l.prev && (l.prev[Small(i)] != Small(i) <==> i == 0)
    ensures ExactBits(l, SetBit(0, 0))
  {
    SetBitWord(0, 0);
    forall i: nat | i < NUM_BUCKETS
      ensures Bit(SetBit(0, 0), i) <==> Small(i) in l.prev && l.prev[Small(i)] != Small(i)
    {
      ShrZero(i);
      assert !Bit(0, i);
    }
  }

  /** The index with two blocks of 32 bytes, one in bucket 0 and the other alone on the rest list. */
  lemma TwoSmallBlocks() returns (l: Lists, t: Tree)
    ensures IndexOk(l, t, SetBit(0, 0), 0, 0) && Blk(16) in l.home && 16 in t.tag && Blk(16) in l.prev &&
            Blk(16) in l.next
    ensures Placed(l, t, 16) && Confusing(l, t, 16) && l.home[Blk(16)] == Rest
    ensures forall i: nat :: i < NUM_BUCKETS ==> Small(i) in l.prev && (l.prev[Small(i)] != Small(i) <==> i == 0)
  {
    var heads: Links := map i: nat | i < NUM_BUCKETS :: Small(i) := Small(i);
    var slots: map<Slot, Ptr> := map i: nat | i < NUM_BUCKETS :: Bucket(i) := Null;
    assert Sentinels(heads, NUM_BUCKETS) && EmptyBuckets(slots, NUM_BUCKETS);
    var tag := map[16 := Tag(MIN_BLOCK, Free), 112 := Tag(MIN_BLOCK, Free)];
    EmptyIndex(heads, heads, heads, slots, tag);
    var ends := heads[Rest := Rest];
    var l0 := Lists(ends, ends, ends, map[]);
    t := Tree(slots, map[], tag, map[], map[]);
    AddSmall(l0, t, 0, 0, 0, 112, SetBit(0, 0));
    var l1 := InsertedFront(l0, Small(0), Blk(112));
    AddRest(l1, t, SetBit(0, 0), 0, 0, 16);
    l, t := InsertedBack(l1, Blk(16)), Rested(t, 16);
    assert l.Linked(Blk(16)) && Placed(l, t, 16);
  }

  /** The bitmap does lose a bit: in that index, when the block on the rest list is removed. */
  lemma LostBitHappens()
    ensures exists l: Lists, t: Tree, fb: nat, b: nat ::
              && IndexOk(l, t, fb, 0, 0) && ExactBits(l, fb) && Blk(b) in l.home && b in t.tag
              && Blk(b) in l.prev && Blk(b) in l.next
              && !ExactBits(Unlinked(l, Blk(b), l.home - {Blk(b)}), BitsUnlinked(l, t, fb, b))
  {
    var l, t := TwoSmallBlocks();
    OneBucketExact(l);
    LostBit(l, t, SetBit(0, 0), 16);
  }
}
