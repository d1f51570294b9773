/** The part of `zend_mm_heap` that finds free blocks, updated in place. */
module HeapIndex {
  import opened Bits
  import opened Layout
  import opened Rings
  import opened Trie
  import opened FreeIndex

  /** The words of `zend_mm_heap` and of free blocks that make up the index. */
  datatype Words = Words(
    /** `prev_free_block` and `next_free_block` of blocks and sentinels; the two entries of a
        sentinel are `free_buckets[2 * i]`, `free_buckets[2 * i + 1]` or `rest_buckets`. */
    prev: Links, next: Links,
    /** `large_free_buckets` and the `child` fields, by their addresses. */
    slots: map<Slot, Ptr>, parent: map<nat, Slot>,
    freeBitmap: nat, largeBitmap: nat, restCount: nat)

  /** The shape that the words form. */
  datatype Shape = Shape(home: Links, rank: map<Ptr, nat>, tree: map<Pos, nat>, pos: map<nat, Pos>)

  ghost function ListsOf(w: Words, g: Shape): Lists {
    Lists(w.prev, w.next, g.home, g.rank)
  }

  ghost function TreeOf(w: Words, g: Shape, tag: map<nat, Tag>): Tree {
    Tree(w.slots, w.parent, tag, g.tree, g.pos)
  }

  /** A block of at least `s` bytes is in a large bucket: a tree node or a member of its ring. */
  ghost predicate LargeFits(g: Shape, tag: map<nat, Tag>, s: nat, a: nat) {
    Blk(a) in g.home && g.home[Blk(a)].Blk? && a in tag && tag[a].size >= s
  }

  /** A block of at least `s` bytes is on the rest list. */
  ghost predicate RestFits(g: Shape, tag: map<nat, Tag>, s: nat, a: nat) {
    Blk(a) in g.home && g.home[Blk(a)] == Rest && a in tag && tag[a].size >= s
  }

  /** A bit at or above the bucket of `s` bytes is set. */
  ghost predicate SomeBucket(w: Words, s: nat)
    requires BlockSize(s) && IsSmall(s)
  {
    exists i: nat {:trigger Bit(w.freeBitmap, i)} :: BucketIndex(s) <= i < NUM_BUCKETS && Bit(w.freeBitmap, i)
  }

  /** `b` is the block last in the lowest bucket at or above that of `s` bytes whose bit is set. */
  ghost predicate LowestFit(w: Words, tag: map<nat, Tag>, s: nat, b: nat)
    requires BlockSize(s) && IsSmall(s)
  {
    && b in tag && BlockSize(tag[b].size) && IsSmall(tag[b].size) && s <= tag[b].size
    && var i := BucketIndex(tag[b].size);
    && Bit(w.freeBitmap, i) && Small(i) in w.prev && w.prev[Small(i)] == Blk(b)
    && forall j: nat {:trigger Bit(w.freeBitmap, j)} :: BucketIndex(s) <= j < i ==> !Bit(w.freeBitmap, j)
  }

  /** `b` is a large fit, of the exact size if there is one, in the lowest power-of-two class that has a fit, and so
      less than twice as large as any other fit. */
  ghost predicate LargeChoice(g: Shape, tag: map<nat, Tag>, s: nat, b: nat) {
    && LargeFits(g, tag, s, b)
    && ((exists a :: LargeFits(g, tag, s, a) && tag[a].size == s) ==> tag[b].size == s)
    && forall a :: LargeFits(g, tag, s, a) ==>
         HighBitOf(tag[b].size) <= HighBitOf(tag[a].size) && tag[b].size < 2 * tag[a].size
  }

  /** `b` is the smallest fit of the rest list. */
  ghost predicate RestChoice(g: Shape, tag: map<nat, Tag>, s: nat, b: nat) {
    RestFits(g, tag, s, b) && forall a :: RestFits(g, tag, s, a) ==> tag[b].size <= tag[a].size
  }

  /** No rank but that of `b` differs. */
  ghost predicate RanksKept(l: Lists, l': Lists, b: Ptr) {
    forall p {:trigger SameRank(l, l', p)} :: p in l.rank && p != b ==> SameRank(l, l', p)
  }

  /** On the rest list `x` is older than `y`: ranks rise from the oldest block to the newest. */
  ghost predicate Older(l: Lists, x: Ptr, y: Ptr) {
    x in l.rank && y in l.rank && l.rank[x] < l.rank[y]
  }

  ghost predicate SameRank(l: Lists, l': Lists, p: Ptr) {
    p in l.rank && p in l'.rank && l'.rank[p] == l.rank[p]
  }

  /** What has left the rest list is older than what is still there, whose order is as it was. */
  ghost predicate OldestLeft(l: Lists, l': Lists) {
    && RestMembers(l') <= RestMembers(l)
    && (forall x, y {:trigger Older(l, x, y)} ::
          x in RestMembers(l) - RestMembers(l') && x != Rest && y in RestMembers(l') && y != Rest ==> Older(l, x, y))
    && (forall y {:trigger SameRank(l, l', y)} :: y in RestMembers(l') && y != Rest ==> SameRank(l, l', y))
  }

  /** `b` is the newest block of the rest list. */
  ghost predicate Newest(l: Lists, b: Ptr) {
    && b in RestMembers(l)
    && forall y {:trigger Older(l, y, b)} :: y in RestMembers(l) && y != Rest && y != b ==> Older(l, y, b)
  }

  /** `b` is linked in behind the last block of the rest list, and no other list, tree or bit differs. */
  ghost predicate Appended(w: Words, g: Shape, w': Words, g': Shape, b: nat) {
    && Rest in w.prev && (w.prev[Rest] == Rest || w.prev[Rest] in g.rank)
    && ListsOf(w', g') == InsertedBack(ListsOf(w, g), Blk(b))
    && w'.freeBitmap == w.freeBitmap && w'.largeBitmap == w.largeBitmap && w'.slots == w.slots
  }

  /** `b` is linked in behind the sentinel of small bucket `i`, whose bit is set if it was empty. */
  ghost predicate Bucketed(w: Words, g: Shape, w': Words, g': Shape, i: nat, b: nat) {
    && Small(i) in w.prev && Small(i) in w.next && (w.next[Small(i)] == Small(i) || w.next[Small(i)] in g.rank)
    && ListsOf(w', g') == InsertedFront(ListsOf(w, g), Small(i), Blk(b))
    && w'.freeBitmap == (if w.prev[Small(i)] == Small(i) then SetBit(w.freeBitmap, i) else w.freeBitmap)
    && w'.restCount == w.restCount
  }

  /** Where a block just added is: last on the rest list, or first in the small bucket of its size, or in the trees. */
  ghost predicate Shelved(w: Words, g: Shape, tag: map<nat, Tag>, b: nat, toRest: bool) {
    && Blk(b) in g.home && b in tag && BlockSize(tag[b].size)
    && if toRest then g.home[Blk(b)] == Rest && Rest in w.prev && w.prev[Rest] == Blk(b)
       else if IsSmall(tag[b].size) then
         var h := Small(BucketIndex(tag[b].size));
         g.home[Blk(b)] == h && h in w.next && w.next[h] == Blk(b)
       else g.home[Blk(b)].Blk?
  }

  /** `b` is unlinked from a small bucket or the rest list, and the small bitmap is what the emptiness test makes it. */
  ghost predicate Unlisted(w: Words, g: Shape, w': Words, g': Shape, tag: map<nat, Tag>, b: nat) {
    && b in tag && Blk(b) in w.prev && Blk(b) in w.next
    && ListsOf(w', g') == Unlinked(ListsOf(w, g), Blk(b), g.home - {Blk(b)})
    && w'.freeBitmap == BitsUnlinked(ListsOf(w, g), TreeOf(w, g, tag), w.freeBitmap, b)
  }

  /** The number of large blocks on the rest list once there is room for one more, and no more room than that. */
  function AfterRoom(restCount: nat): nat {
    if restCount < MAX_REST_BLOCKS then restCount else MAX_REST_BLOCKS - 1
  }

  class Index {
    var w: Words
    ghost var g: Shape

    ghost function L(): Lists
      reads this
    {
      ListsOf(w, g)
    }

    ghost function T(tag: map<nat, Tag>): Tree
      reads this
    {
      TreeOf(w, g, tag)
    }

    ghost predicate Valid(tag: map<nat, Tag>)
      reads this
    {
      IndexOk(L(), T(tag), w.freeBitmap, w.largeBitmap, w.restCount)
    }

    /** The block at `a` is in the index. */
    ghost predicate Holds(a: nat)
      reads this
    {
      Blk(a) in g.home
    }

    /** The list of small bucket `i` is empty. */
    ghost predicate BucketEmpty(i: nat)
      reads this
    {
      Small(i) in w.prev && w.prev[Small(i)] == Small(i) && Small(i) in w.next && w.next[Small(i)] == Small(i)
    }

    ghost predicate BucketsEmpty()
      reads this
    {
      forall i: nat {:trigger BucketEmpty(i)} :: i < NUM_BUCKETS ==> BucketEmpty(i)
    }

    /** The rest list is empty. */
    ghost predicate RestEmpty()
      reads this
    {
      Rest in w.prev && w.prev[Rest] == Rest && Rest in w.next && w.next[Rest] == Rest && w.restCount == 0
    }

    /** The searches can see the block at `b`: it is in a tree, or the bit of its bucket is set. */
    ghost predicate Visible(b: nat, tag: map<nat, Tag>)
      reads this
    {
      && Holds(b) && b in tag && BlockSize(tag[b].size)
      && if IsSmall(tag[b].size) then Bit(w.freeBitmap, BucketIndex(tag[b].size)) else g.home[Blk(b)].Blk?
    }

    constructor (ghost tag: map<nat, Tag>)
      ensures Valid(tag)
      ensures forall a: nat {:trigger Blk(a)} :: Blk(a) !in g.home
      ensures BucketsEmpty() && RestEmpty() && w.freeBitmap == 0
    {
      new;
      Init(tag);
    }

    /** `zend_mm_init`: every list a lone sentinel, every large bucket empty. */
    method Init(ghost tag: map<nat, Tag>)
      modifies this
      ensures Valid(tag)
      ensures forall a: nat {:trigger Blk(a)} :: Blk(a) !in g.home
      ensures BucketsEmpty() && RestEmpty() && w.freeBitmap == 0
    {
      var p: Links, n: Links, s: map<Slot, Ptr> := map[], map[], map[];
      ghost var h: Links := map[];
      for i := 0 to NUM_BUCKETS
        invariant Sentinels(h, i) && Sentinels(p, i) && Sentinels(n, i) && EmptyBuckets(s, i)
      {
        n := n[Small(i) := Small(i)];
        p := p[Small(i) := Small(i)];
        s := s[Bucket(i) := Null];
        h := h[Small(i) := Small(i)];
      }
      w := Words(p[Rest := Rest], n[Rest := Rest], s, map[], 0, 0, 0);
      g := Shape(h[Rest := Rest], map[], map[], map[]);
      EmptyIndex(p, n, h, s, tag);
    }

    /** `zend_mm_add_to_free_list` */
    method AddToFreeList(b: nat, tag: map<nat, Tag>)
      requires Valid(tag) && !Holds(b) && b in tag && BlockSize(tag[b].size)
      modifies this
      ensures Valid(tag) && w.restCount == old(w.restCount)
      ensures Grew(old(L()), old(T(tag)), L(), T(tag), b) && RanksKept(old(L()), L(), Blk(b))
      ensures IsSmall(tag[b].size) ==> Bucketed(old(w), old(g), w, g, BucketIndex(tag[b].size), b)
      ensures (IsSmall(tag[b].size) ==> old(BucketEmpty(BucketIndex(tag[b].size)))) ==> Visible(b, tag)
      ensures Shelved(w, g, tag, b, false)
    {
      ghost var l := L();
      ghost var t := T(tag);
      var size := tag[b].size;
      if !IsSmall(size) {
        var index := HighBit(size);
        HighBitShr(size);
        assert t.RootAt(index);
        if w.slots[Bucket(index)] == Null {
          RootVacant(t, size);
          StoreLeaf(b, Bucket(index), tag, Pos(index, 1));
        } else {
          var slot, same, p := Descend(w.slots, tag, size, index, t);
          if same == Null {
            StoreLeaf(b, slot, tag, p);
          } else {
            JoinRing(b, same.addr, tag);
          }
        }
        LargeIsInTrees(l, t, L(), T(tag), b);
      } else {
        JoinBucket(b, tag);
      }
    }

    /** A block stored through an empty slot: the root of its bucket, or a child field. */
    method StoreLeaf(b: nat, slot: Slot, tag: map<nat, Tag>, ghost p: Pos)
      requires Valid(tag) && !Holds(b) && b in tag && BlockSize(tag[b].size) && !IsSmall(tag[b].size)
      requires p !in g.tree && 0 <= p.k < NUM_BUCKETS && p.q >= 1 && Shr(tag[b].size, p.k) == p.q
      requires (p.q == 1 || Up(p) in g.tree) && slot == T(tag).SlotOf(p)
      requires forall p' :: p' in g.tree ==> g.tree[p'] in tag && tag[g.tree[p']].size != tag[b].size
      modifies this
      ensures Valid(tag) && w.restCount == old(w.restCount)
      ensures Grew(old(L()), old(T(tag)), L(), T(tag), b) && RanksKept(old(L()), L(), Blk(b))
    {
      ghost var l, t := L(), T(tag);
      NotNode(l, t, b);
      var bitmap := if slot.Bucket? then SetBit(w.largeBitmap, slot.i) else w.largeBitmap;
      AddLeaf(l, t, w.freeBitmap, w.largeBitmap, w.restCount, b, p, bitmap);
      w := w.(slots := w.slots[Child(b, 0) := Null][Child(b, 1) := Null][slot := Blk(b)],
              parent := w.parent[b := slot],
              prev := w.prev[Blk(b) := Blk(b)], next := w.next[Blk(b) := Blk(b)],
              largeBitmap := bitmap);
      g := g.(home := g.home[Blk(b) := Blk(b)], tree := g.tree[p := b], pos := g.pos[b := p]);
    }

    /** A block linked into the ring of the tree node `h` of the same size. */
    method JoinRing(b: nat, h: nat, tag: map<nat, Tag>)
      requires Valid(tag) && !Holds(b) && b in tag && BlockSize(tag[b].size) && !IsSmall(tag[b].size)
      requires h in g.pos && h in tag && tag[h].size == tag[b].size
      modifies this
      ensures Valid(tag) && w.restCount == old(w.restCount)
      ensures Grew(old(L()), old(T(tag)), L(), T(tag), b) && RanksKept(old(L()), L(), Blk(b))
    {
      ghost var l, t := L(), T(tag);
      NotNode(l, t, b);
      ListNode(l, t, Blk(h));
      AddRing(l, t, w.freeBitmap, w.largeBitmap, w.restCount, b, h);
      w := w.(slots := w.slots[Child(b, 0) := Null][Child(b, 1) := Null], parent := w.parent[b := NoSlot]);
      LinkBehind(Blk(h), b);
    }

    /** A block linked into its small bucket. */
    method JoinBucket(b: nat, tag: map<nat, Tag>)
      requires Valid(tag) && !Holds(b) && b in tag && BlockSize(tag[b].size) && IsSmall(tag[b].size)
      modifies this
      ensures Valid(tag) && w.restCount == old(w.restCount)
      ensures Grew(old(L()), old(T(tag)), L(), T(tag), b) && RanksKept(old(L()), L(), Blk(b))
      ensures Bucketed(old(w), old(g), w, g, BucketIndex(tag[b].size), b)
      ensures old(BucketEmpty(BucketIndex(tag[b].size))) ==> Bit(w.freeBitmap, BucketIndex(tag[b].size))
    {
      ghost var l, t := L(), T(tag);
      NotNode(l, t, b);
      var head := Small(BucketIndex(tag[b].size));
      ListNode(l, t, head);
      var bitmap := if w.prev[head] == head then SetBit(w.freeBitmap, head.i) else w.freeBitmap;
      AddSmall(l, t, w.freeBitmap, w.largeBitmap, w.restCount, b, bitmap);
      SetBitWord(w.freeBitmap, head.i);
      w := w.(freeBitmap := bitmap);
      LinkBehind(head, b);
    }

    /** The assignments that link `b` in right behind a list head. */
    method LinkBehind(head: Ptr, b: nat)
      requires L().Valid() && head in g.home && g.home[head] == head && Blk(b) !in g.home
      requires head in w.next && (w.next[head] == head || w.next[head] in g.rank)
      modifies this
      ensures L() == InsertedFront(old(L()), head, Blk(b))
      ensures w == old(w).(prev := w.prev, next := w.next) && g == old(g).(home := g.home, rank := g.rank)
    {
      assert L().Linked(head);
      var n := w.next[head];
      g := g.(home := g.home[Blk(b) := head], rank := g.rank[Blk(b) := if n == head then 0 else g.rank[n] + 1]);
      w := w.(prev := w.prev[Blk(b) := head][n := Blk(b)], next := w.next[Blk(b) := n][head := Blk(b)]);
    }

    /** `zend_mm_remove_from_free_list` */
    method RemoveFromFreeList(b: nat, tag: map<nat, Tag>)
      requires Valid(tag) && Holds(b)
      modifies this
      ensures Valid(tag) && Shrank(old(L()), old(T(tag)), L(), T(tag), b)
      ensures !old(g).home[Blk(b)].Blk? ==> Unlisted(old(w), old(g), w, g, tag, b)
    {
      Kinds(L(), T(tag), b);
      if w.prev[Blk(b)] == Blk(b) {
        var c := w.slots[Child(b, if w.slots[Child(b, 1)] != Null then 1 else 0)];
        if c == Null {
          DetachLeaf(b, tag);
        } else {
          DetachInner(b, tag);
        }
      } else if IsSmall(tag[b].size) || w.parent[b] == RestBlock {
        Unlist(b, tag);
      } else if w.parent[b] != NoSlot {
        DetachRingHead(b, tag);
      } else {
        ghost var l, t := L(), T(tag);
        RemoveRingMember(l, t, w.freeBitmap, w.largeBitmap, w.restCount, b);
        Unlink(b, g.home - {Blk(b)});
      }
    }

    /** The two assignments that unlink a block from its list. */
    method Unlink(b: nat, ghost home: Links)
      requires Blk(b) in w.prev && Blk(b) in w.next
      modifies this
      ensures L() == Unlinked(old(L()), Blk(b), home)
      ensures w == old(w).(prev := w.prev, next := w.next) && g == old(g).(home := home)
    {
      var p, n := w.prev[Blk(b)], w.next[Blk(b)];
      w := w.(next := w.next[p := n], prev := w.prev[n := p]);
      g := g.(home := home);
    }

    /** A leaf without a ring: its parent slot is cleared, and with it the bucket's bit if it was the root. */
    method DetachLeaf(b: nat, tag: map<nat, Tag>)
      requires Valid(tag) && Holds(b) && b in g.pos && b in tag && b in w.parent && 0 < tag[b].size < WORD
      requires Blk(b) in w.prev && w.prev[Blk(b)] == Blk(b)
      requires Child(b, 0) in w.slots && w.slots[Child(b, 0)] == Null
      requires Child(b, 1) in w.slots && w.slots[Child(b, 1)] == Null
      modifies this
      ensures Valid(tag) && Shrank(old(L()), old(T(tag)), L(), T(tag), b)
    {
      var index := HighBit(tag[b].size);
      var bitmap := if w.parent[b] == Bucket(index) then ClearBit(w.largeBitmap, index) else w.largeBitmap;
      ghost var l, t := L(), T(tag);
      RemoveLeaf(l, t, w.freeBitmap, w.largeBitmap, w.restCount, b, bitmap);
      w := w.(slots := w.slots[w.parent[b] := Null], largeBitmap := bitmap);
      g := g.(home := g.home - {Blk(b)}, tree := g.tree - {g.pos[b]}, pos := g.pos - {b});
    }

    /** A node with children and no ring: a leaf from below is detached and takes its place. */
    method DetachInner(b: nat, tag: map<nat, Tag>)
      requires Valid(tag) && Holds(b) && b in g.pos && b in w.parent
      requires Blk(b) in w.prev && w.prev[Blk(b)] == Blk(b)
      requires Child(b, 0) in w.slots && Child(b, 1) in w.slots
      requires w.slots[Child(b, 0)] != Null || w.slots[Child(b, 1)] != Null
      modifies this
      ensures Valid(tag) && Shrank(old(L()), old(T(tag)), L(), T(tag), b)
    {
      ghost var l, t := L(), T(tag);
      var rp, leaf := LeafBelow(w.slots, b, t);
      RemoveInner(l, t, w.freeBitmap, w.largeBitmap, w.restCount, b, leaf.addr);
      w := w.(slots := w.slots[rp := Null]);
      ghost var q := g.pos[leaf.addr];
      g := g.(home := g.home - {Blk(b)}, tree := g.tree - {q}, pos := g.pos - {leaf.addr});
      Substitute(b, leaf.addr);
    }

    /** A node with a ring: the block before it in the ring takes its place. */
    method DetachRingHead(b: nat, tag: map<nat, Tag>)
      requires Valid(tag) && Holds(b) && b in g.pos
      requires Blk(b) in w.prev && w.prev[Blk(b)] != Blk(b)
      modifies this
      ensures Valid(tag) && Shrank(old(L()), old(T(tag)), L(), T(tag), b)
    {
      ghost var l, t := L(), T(tag);
      RemoveRingHead(l, t, w.freeBitmap, w.largeBitmap, w.restCount, b);
      var x := w.prev[Blk(b)].addr;
      Unlink(b, Rehomed(g.home, Blk(b), Blk(x)));
      Substitute(b, x);
    }

    /** The label `subst_block`: `x` gets the parent slot and the children of `b`. */
    method Substitute(b: nat, x: nat)
      requires b in w.parent && b in g.pos && Child(b, 0) in w.slots && Child(b, 1) in w.slots
      modifies this
      ensures forall tag :: T(tag) == Replaced(old(T(tag)), b, x)
      ensures w == old(w).(slots := w.slots, parent := w.parent) && g == old(g).(tree := g.tree, pos := g.pos)
    {
      var c0, c1 := w.slots[Child(b, 0)], w.slots[Child(b, 1)];
      w := w.(slots := w.slots[w.parent[b] := Blk(x)][Child(x, 0) := c0][Child(x, 1) := c1],
              parent := Reparented(Reparented(w.parent[x := w.parent[b]], c0, Child(x, 0)), c1, Child(x, 1)));
      g := g.(tree := g.tree[g.pos[b] := x], pos := (g.pos - {b})[x := g.pos[b]]);
    }

    /** A block taken off a small bucket or the rest list. */
    method Unlist(b: nat, tag: map<nat, Tag>)
      requires Valid(tag) && Holds(b) && b in tag && BlockSize(tag[b].size) && !g.home[Blk(b)].Blk?
      requires Blk(b) in w.prev && Blk(b) in w.next
      requires !IsSmall(tag[b].size) ==> g.home[Blk(b)] == Rest
      modifies this
      ensures Valid(tag) && Shrank(old(L()), old(T(tag)), L(), T(tag), b)
      ensures Unlisted(old(w), old(g), w, g, tag, b)
    {
      ghost var l, t, w0 := L(), T(tag), w;
      if g.home[Blk(b)] == Rest && !IsSmall(tag[b].size) { RestCounted(l, t, b); }
      var p, n := w.prev[Blk(b)], w.next[Blk(b)];
      Unlink(b, g.home - {Blk(b)});
      if IsSmall(tag[b].size) {
        var head := Small(BucketIndex(tag[b].size));
        StillLinked(l, t, b, head);
        if p == n && w.prev[head] == w.next[head] {
          w := w.(freeBitmap := ClearBit(w.freeBitmap, head.i));
        }
      } else {
        w := w.(restCount := w.restCount - 1);
      }
      RemoveListed(l, t, w0.freeBitmap, w0.largeBitmap, w0.restCount, b, w.freeBitmap, w.restCount);
    }

    /** `zend_mm_add_to_rest_list`: the oldest entries make room, then the block goes to the end. */
    method AddToRestList(b: nat, tag: map<nat, Tag>)
      requires Valid(tag) && !Holds(b) && b in tag && BlockSize(tag[b].size)
      modifies this
      ensures Valid(tag) && g.home.Keys == old(g.home.Keys) + {Blk(b)}
      ensures w.restCount == AfterRoom(old(w.restCount)) + if IsSmall(tag[b].size) then 0 else 1
      ensures WordsKept(old(L()), old(T(tag)), L(), T(tag), g.home.Keys)
      ensures Newest(L(), Blk(b)) && Shelved(w, g, tag, b, true)
      ensures exists l :: OldestLeft(old(L()), l) && RestMembers(L()) == RestMembers(l) + {Blk(b)}
      ensures old(w.restCount) < MAX_REST_BLOCKS ==> Appended(old(w), old(g), w, g, b)
    {
      MakeRoom(tag);
      ghost var l, t, s := L(), T(tag), g.home.Keys;
      Append(b, tag);
      KeptTwice(old(L()), old(T(tag)), l, t, s, L(), T(tag), g.home.Keys);
    }

    /** The oldest entries of the rest list moved to the lists or trees of their sizes, until it has room. */
    method MakeRoom(tag: map<nat, Tag>)
      requires Valid(tag)
      modifies this
      ensures Valid(tag) && g.home.Keys == old(g.home.Keys)
      ensures w.restCount == AfterRoom(old(w.restCount))
      ensures WordsKept(old(L()), old(T(tag)), L(), T(tag), g.home.Keys) && OldestLeft(old(L()), L())
      ensures old(w.restCount) < MAX_REST_BLOCKS ==> w == old(w) && g == old(g)
    {
      StillThere(L(), T(tag));
      while w.restCount >= MAX_REST_BLOCKS
        invariant Valid(tag) && g.home.Keys == old(g.home.Keys)
        invariant WordsKept(old(L()), old(T(tag)), L(), T(tag), g.home.Keys) && OldestLeft(old(L()), L())
        invariant old(w.restCount) < MAX_REST_BLOCKS ==> w == old(w) && g == old(g)
        invariant AfterRoom(old(w.restCount)) <= w.restCount <= old(w.restCount)
        decreases |RestMembers(L())|
      {
        ghost var l, t := L(), T(tag);
        Evict(tag);
        KeptTwice(old(L()), old(T(tag)), l, t, g.home.Keys, L(), T(tag), g.home.Keys);
        LeftTwice(old(L()), l, L());
      }
    }

    /** A block linked in behind the last one of the rest list. */
    method Append(b: nat, tag: map<nat, Tag>)
      requires Valid(tag) && !Holds(b) && b in tag && BlockSize(tag[b].size) && w.restCount < MAX_REST_BLOCKS
      modifies this
      ensures Valid(tag) && g.home.Keys == old(g.home.Keys) + {Blk(b)}
      ensures w.restCount == old(w.restCount) + if IsSmall(tag[b].size) then 0 else 1
      ensures WordsKept(old(L()), old(T(tag)), L(), T(tag), g.home.Keys)
      ensures Newest(L(), Blk(b)) && RestMembers(L()) == RestMembers(old(L())) + {Blk(b)}
      ensures Appended(old(w), old(g), w, g, b)
    {
      ghost var l, t := L(), T(tag);
      NotNode(l, t, b);
      AddRest(l, t, w.freeBitmap, w.largeBitmap, w.restCount, b);
      RestLast(l, t);
      if !IsSmall(tag[b].size) {
        w := w.(parent := w.parent[b := RestBlock], restCount := w.restCount + 1);
      }
      var p := w.prev[Rest];
      w := w.(prev := w.prev[Blk(b) := p][Rest := Blk(b)], next := w.next[Blk(b) := w.next[p]][p := Blk(b)]);
      g := g.(home := g.home[Blk(b) := Rest], rank := g.rank[Blk(b) := if p == Rest then 0 else g.rank[p] + 1]);
      assert g.home.Keys == l.home.Keys + {Blk(b)};
      NewestLast(l, t, Blk(b));
    }

    /** The oldest block of the rest list moved to the list or tree of its size. */
    method Evict(tag: map<nat, Tag>)
      requires Valid(tag) && w.restCount > 0
      modifies this
      ensures Valid(tag) && g.home.Keys == old(g.home.Keys)
      ensures WordsKept(old(L()), old(T(tag)), L(), T(tag), g.home.Keys) && OldestLeft(old(L()), L())
      ensures |RestMembers(L())| < old(|RestMembers(L())|) && old(w.restCount) - 1 <= w.restCount <= old(w.restCount)
    {
      ghost var l, t := L(), T(tag);
      RestFirst(l, t);
      var p := w.next[Rest].addr;
      UnlinkOldest(p, tag);
      ghost var l1, t1 := L(), T(tag);
      AddToFreeList(p, tag);
      KeptTwice(l, t, l1, t1, l.home.Keys, L(), T(tag), g.home.Keys);
      FirstLeft(l, t, l1, L());
    }

    method UnlinkOldest(p: nat, tag: map<nat, Tag>)
      requires Valid(tag) && Holds(p) && g.home[Blk(p)] == Rest && p in tag && BlockSize(tag[p].size)
      requires Blk(p) in w.prev && Blk(p) in w.next
      modifies this
      ensures Valid(tag) && Shrank(old(L()), old(T(tag)), L(), T(tag), p)
      ensures RestMembers(L()) == RestMembers(old(L())) - {Blk(p)} && L().rank == old(L()).rank
      ensures w.restCount == old(w.restCount) - if IsSmall(tag[p].size) then 0 else 1
      ensures |RestMembers(L())| < old(|RestMembers(L())|)
    {
      ghost var l, t, w0 := L(), T(tag), w;
      if !IsSmall(tag[p].size) {
        RestCounted(l, t, p);
        w := w.(restCount := w.restCount - 1);
      }
      Unlink(p, g.home - {Blk(p)});
      RemoveListed(l, t, w0.freeBitmap, w0.largeBitmap, w0.restCount, p, w.freeBitmap, w.restCount);
      assert RestMembers(l) == RestMembers(L()) + {Blk(p)};
    }

    /** The `prev_free_block` word of a block outside the index, which the cache uses for its chains. */
    method SetPrev(a: nat, p: Ptr, ghost tag: map<nat, Tag>)
      requires Valid(tag) && !Holds(a)
      modifies this
      ensures Valid(tag) && g == old(g) && w == old(w).(prev := old(w).prev[Blk(a) := p])
    {
      StrayPrev(L(), T(tag), w.freeBitmap, w.largeBitmap, w.restCount, a, p);
      w := w.(prev := w.prev[Blk(a) := p]);
    }

    /** `zend_mm_search_large_block`: nothing exactly if nothing fits; otherwise a fit, of the
        exact size if there is one, and less than twice as large as any other fit. */
    method SearchLarge(trueSize: nat, tag: map<nat, Tag>) returns (r: Ptr)
      requires Valid(tag) && BlockSize(trueSize)
      ensures r == Null <==> forall a :: !LargeFits(g, tag, trueSize, a)
      ensures r != Null ==> r.Blk? && LargeChoice(g, tag, trueSize, r.addr)
    {
      ghost var l, t := L(), T(tag);
      var best := Search(w.slots, tag, w.largeBitmap, trueSize, t);
      forall a | LargeFits(g, tag, trueSize, a)
        ensures && Blk(a) in g.home && g.home[Blk(a)].Blk?
                && var h := g.home[Blk(a)].addr;
                Fits(t, h, trueSize) && tag[h].size == tag[a].size
      {
        NodeOfRing(l, t, a);
      }
      if best == Null {
        assert forall a :: !LargeFits(g, tag, trueSize, a);
        return Null;
      }
      RingNext(l, t, best.addr);
      r := w.next[best];
      forall a | LargeFits(g, tag, trueSize, a) ensures tag[r.addr].size < 2 * tag[a].size {
        WithinTwo(tag[a].size, tag[r.addr].size);
      }
      assert LargeFits(g, tag, trueSize, r.addr);
    }

    /** The small search of allocation: the lowest set bit at or above the bucket of the size
        names a non-empty bucket, whose last block is taken. */
    method SearchSmall(trueSize: nat, tag: map<nat, Tag>) returns (r: Ptr)
      requires Valid(tag) && BlockSize(trueSize) && IsSmall(trueSize)
      ensures r != Null <==> SomeBucket(w, trueSize)
      ensures r != Null ==> r.Blk? && Holds(r.addr) && LowestFit(w, tag, trueSize, r.addr)
    {
      var index := BucketIndex(trueSize);
      var bitmap := Shr(w.freeBitmap, index);
      if bitmap == 0 {
        forall i: nat | index <= i < NUM_BUCKETS ensures !Bit(w.freeBitmap, i) {
          BitOfShr(w.freeBitmap, index, i - index);
          ShrZero(i - index);
        }
        return Null;
      }
      ShrMonotoneInShift(w.freeBitmap, 0, index);
      var low := LowBit(bitmap);
      LowestBucket(w.freeBitmap, index, low);
      BitsBelowWord(w.freeBitmap, index + low);
      BucketTail(L(), T(tag), w.freeBitmap, index + low);
      r := w.prev[Small(index + low)];
      assert index <= index + low < NUM_BUCKETS && Bit(w.freeBitmap, index + low);
    }

    /** The walk of the rest list in allocation: nothing exactly if nothing there fits, else the smallest fit. */
    method SearchRest(trueSize: nat, tag: map<nat, Tag>) returns (r: Ptr)
      requires Valid(tag) && BlockSize(trueSize)
      ensures r == Null <==> forall a :: !RestFits(g, tag, trueSize, a)
      ensures r != Null ==> r.Blk? && RestChoice(g, tag, trueSize, r.addr)
    {
      r := Null;
      ghost var l, t := L(), T(tag);
      ListNode(l, t, Rest);
      var p := w.prev[Rest];
      var bestSize: nat := WORD - 1;
      ghost var seen, last := {Rest}, Rest;
      while p != Rest
        invariant p in g.home && g.home[p] == Rest && last in seen && last in g.home && last in w.prev &&
                  p == w.prev[last]
        invariant Rest in seen && forall v :: v in seen && v != Rest ==> v in w.next && w.next[v] in seen
        invariant BestOfSeen(l, t, trueSize, seen, r, bestSize)
        decreases if p == Rest || p !in g.rank then 0 else g.rank[p] + 1
      {
        RestNode(l, t, p);
        assert l.Linked(last);
        if tag[p.addr].size == trueSize {
          assert RestFits(g, tag, trueSize, p.addr);
          return p;
        } else if tag[p.addr].size > trueSize && tag[p.addr].size < bestSize {
          bestSize := tag[p.addr].size;
          r := p;
        }
        seen, last := seen + {p}, p;
        p := w.prev[p];
      }
      assert l.Linked(last);
      forall a | RestFits(g, tag, trueSize, a) ensures Blk(a) in seen { AllSeen(l, seen, Blk(a)); }
      assert r != Null ==> RestFits(g, tag, trueSize, r.addr);
    }
  }

  lemma WithinTwo(s: nat, r: nat)
    requires s > 0 && HighBitOf(r) <= HighBitOf(s)
    ensures r < 2 * s
  {
    if r > s {
      HighBitMonotone(s, r);
      SameHighBitWithinTwo(s, r);
    }
  }

  /** A block of a large bucket has the size of the tree node whose ring it is in. */
  lemma NodeOfRing(l: Lists, t: Tree, a: nat)
    requires l.Valid() && HeadsOk(l, t) && PlacesOk(l, t) && Blk(a) in l.home && l.home[Blk(a)].Blk?
    ensures var h := l.home[Blk(a)].addr;
            h in t.pos && h in t.tag && a in t.tag && t.tag[h].size == t.tag[a].size && t.tag[a].size > 0
  {
    assert l.Linked(Blk(a)) && Placed(l, t, a);
    assert HeadOk(l, t, l.home[Blk(a)]);
  }

  lemma RingNext(l: Lists, t: Tree, h: nat)
    requires l.Valid() && HeadsOk(l, t) && PlacesOk(l, t) && h in t.pos
    ensures Blk(h) in l.next && l.next[Blk(h)].Blk? && l.next[Blk(h)] in l.home && l.home[l.next[Blk(h)]] == Blk(h)
    ensures l.next[Blk(h)].addr in t.tag && h in t.tag && t.tag[l.next[Blk(h)].addr].size == t.tag[h].size
  {
    ListNode(l, t, Blk(h));
    var n := l.next[Blk(h)];
    assert l.Linked(n) && HeadOk(l, t, n);
    assert Placed(l, t, n.addr) && Placed(l, t, h);
  }

  /** The lowest bit of the shifted bitmap is the lowest one at or above `index`. */
  lemma LowestBucket(bitmap: nat, index: nat, low: nat)
    requires Shr(bitmap, index) > 0 && low == LowBitOf(Shr(bitmap, index))
    ensures Bit(bitmap, index + low)
    ensures forall j: nat {:trigger Bit(bitmap, j)} :: index <= j < index + low ==> !Bit(bitmap, j)
  {
    LowBitIsLowest(Shr(bitmap, index), 0);
    BitOfShr(bitmap, index, low);
    forall j: nat | index <= j < index + low ensures !Bit(bitmap, j) {
      LowBitIsLowest(Shr(bitmap, index), j - index);
      BitOfShr(bitmap, index, j - index);
    }
  }

  lemma BucketTail(l: Lists, t: Tree, freeBitmap: nat, i: nat)
    requires l.Valid() && HeadsOk(l, t) && PlacesOk(l, t) && SmallBitsOk(l, freeBitmap) && i < NUM_BUCKETS &&
             Bit(freeBitmap, i)
    ensures Small(i) in l.prev && l.prev[Small(i)].Blk? && l.prev[Small(i)] in l.home
    ensures l.prev[Small(i)].addr in t.tag && t.tag[l.prev[Small(i)].addr].size == BucketSize(i)
  {
    ListNode(l, t, Small(i));
    var p := l.prev[Small(i)];
    assert l.Linked(p) && HeadOk(l, t, p);
    assert Placed(l, t, p.addr);
  }

  lemma RestNode(l: Lists, t: Tree, p: Ptr)
    requires l.Valid() && HeadsOk(l, t) && PlacesOk(l, t) && p in l.home && l.home[p] == Rest && p != Rest
    ensures p.Blk? && p.addr in t.tag && p in l.prev && l.prev[p] in l.home && l.home[l.prev[p]] == Rest && p in l.rank
    ensures l.prev[p] == Rest || (l.prev[p] in l.rank && l.rank[l.prev[p]] < l.rank[p])
    ensures t.tag[p.addr].size < WORD - 1
  {
    assert l.Linked(p) && HeadOk(l, t, p);
    assert Placed(l, t, p.addr);
  }

  /** The first block of a rest list that counts one. */
  lemma RestFirst(l: Lists, t: Tree)
    requires l.Valid() && HeadsOk(l, t) && PlacesOk(l, t) && |RestLarge(l, t)| > 0
    ensures Rest in l.next && l.next[Rest].Blk?
    ensures var p := l.next[Rest];
            && p in l.home && l.home[p] == Rest && p in l.prev && p in l.next
            && p.addr in t.tag && BlockSize(t.tag[p.addr].size)
  {
    var x :| x in RestLarge(l, t);
    ListNode(l, t, Rest);
    if l.next[Rest] == Rest { LonelyHead(l, Rest, x); }
    var p := l.next[Rest];
    assert HeadOk(l, t, p) && l.Linked(p);
    assert Placed(l, t, p.addr);
  }

  /** The block behind the sentinel of the rest list is older than all others on it. */
  lemma {:induction false} OldestFirst(l: Lists, t: Tree, q: Ptr)
    requires l.Valid() && HeadsOk(l, t) && q in RestMembers(l) && q != Rest
    ensures Rest in l.next && (q == l.next[Rest] || Older(l, l.next[Rest], q))
    decreases if q in l.rank then l.rank[q] else 0
  {
    ListNode(l, t, Rest);
    assert l.Linked(q) && l.Linked(l.prev[q]);
    if l.prev[q] != Rest {
      OldestFirst(l, t, l.prev[q]);
    }
  }

  /** The first block of the rest list taken off it and added elsewhere. */
  lemma FirstLeft(l: Lists, t: Tree, l1: Lists, l2: Lists)
    requires l.Valid() && HeadsOk(l, t) && Rest in l.next && l.next[Rest] in RestMembers(l) && l.next[Rest] != Rest
    requires RestMembers(l1) == RestMembers(l) - {l.next[Rest]} && l1.rank == l.rank
    requires RestMembers(l2) == RestMembers(l1) && RanksKept(l1, l2, l.next[Rest])
    ensures OldestLeft(l, l2)
  {
    forall y | y in RestMembers(l) && y != Rest
      ensures y in l.rank && (y == l.next[Rest] || Older(l, l.next[Rest], y))
    {
      assert l.Linked(y);
      OldestFirst(l, t, y);
    }
    forall y | y in RestMembers(l2) && y != Rest ensures SameRank(l, l2, y) {
      assert l.Linked(y) && SameRank(l1, l2, y);
    }
  }

  lemma LeftTwice(l: Lists, l1: Lists, l2: Lists)
    requires OldestLeft(l, l1) && OldestLeft(l1, l2)
    ensures OldestLeft(l, l2)
  {
    forall x, y | x in RestMembers(l) - RestMembers(l2) && x != Rest && y in RestMembers(l2) && y != Rest
      ensures Older(l, x, y)
    {
      assert y in RestMembers(l1);
      if x in RestMembers(l1) {
        assert Older(l1, x, y) && SameRank(l, l1, x) && SameRank(l, l1, y);
      } else {
        assert Older(l, x, y);
      }
    }
    forall y | y in RestMembers(l2) && y != Rest ensures SameRank(l, l2, y) {
      assert SameRank(l, l1, y) && SameRank(l1, l2, y);
    }
  }

  lemma StillThere(l: Lists, t: Tree)
    requires l.Valid()
    ensures OldestLeft(l, l)
  {
    forall y | y in RestMembers(l) && y != Rest ensures y in l.rank { assert l.Linked(y); }
  }

  /** A block put behind the last one of the rest list is the newest. */
  lemma NewestLast(l: Lists, t: Tree, b: Ptr)
    requires l.Valid() && HeadsOk(l, t) && b.Blk? && b !in l.home
    ensures Rest in l.prev && (l.prev[Rest] == Rest || l.prev[Rest] in l.rank)
    ensures Newest(InsertedBack(l, b), b) && RestMembers(InsertedBack(l, b)) == RestMembers(l) + {b}
  {
    ListNode(l, t, Rest);
    assert l.Linked(l.prev[Rest]);
    forall y | y in RestMembers(l) && y != Rest ensures Older(InsertedBack(l, b), y, b) { AtMostLast(l, t, y); }
  }

  /** The blocks of the rest list that are newer than `q`. */
  ghost function Newer(l: Lists, q: Ptr): set<Ptr> {
    set p | p in RestMembers(l) && p != Rest && Older(l, q, p)
  }

  lemma {:induction false} AtMostLast(l: Lists, t: Tree, q: Ptr)
    requires l.Valid() && HeadsOk(l, t) && q in RestMembers(l) && q != Rest
    ensures Rest in l.prev && l.prev[Rest] != Rest && l.prev[Rest] in l.rank
    ensures q in l.rank && l.rank[q] <= l.rank[l.prev[Rest]]
    decreases |Newer(l, q)|
  {
    ListNode(l, t, Rest);
    assert l.Linked(q) && l.Linked(l.next[q]);
    var n := l.next[q];
    if n != Rest {
      assert Older(l, q, n);
      Fewer(Newer(l, n), Newer(l, q), n);
      AtMostLast(l, t, n);
    }
  }

  lemma Fewer(s: set<Ptr>, s': set<Ptr>, p: Ptr)
    requires s <= s' && p in s' && p !in s
    ensures |s| < |s'|
  {
    assert s' == s + (s' - s) && p in s' - s;
  }

  lemma RestLast(l: Lists, t: Tree)
    requires l.Valid() && HeadsOk(l, t)
    ensures Rest in l.prev && l.prev[Rest] in l.next && l.next[l.prev[Rest]] == Rest
  {
    ListNode(l, t, Rest);
  }

  /** The sentinel of a small bucket keeps links while a block is unlinked somewhere. */
  lemma StillLinked(l: Lists, t: Tree, b: nat, head: Ptr)
    requires l.Valid() && HeadsOk(l, t) && Blk(b) in l.home && Blk(b) in l.prev && Blk(b) in l.next
    requires head.Small? && head.i < NUM_BUCKETS
    ensures var l' := Unlinked(l, Blk(b), l.home - {Blk(b)}); head in l'.prev && head in l'.next
  {
    ListNode(l, t, head);
  }

  /** What the link words of an indexed block say about where it is. */
  lemma Kinds(l: Lists, t: Tree, b: nat)
    requires l.Valid() && t.Valid() && HeadsOk(l, t) && PlacesOk(l, t) && Blk(b) in l.home
    ensures Blk(b) in l.prev && Blk(b) in l.next && b in t.tag && BlockSize(t.tag[b].size)
    ensures l.prev[Blk(b)] == Blk(b) ==> b in t.pos
    ensures IsSmall(t.tag[b].size) ==> !l.home[Blk(b)].Blk? && b !in t.pos
    ensures !IsSmall(t.tag[b].size) ==>
              && b in t.parent
              && (t.parent[b] == RestBlock <==> l.home[Blk(b)] == Rest)
              && (t.parent[b] == RestBlock || t.parent[b] == NoSlot <==> b !in t.pos)
              && (l.home[Blk(b)] != Rest ==> l.home[Blk(b)].Blk?)
    ensures b in t.pos ==> b in t.parent && Child(b, 0) in t.slots && Child(b, 1) in t.slots
  {
    assert HeadOk(l, t, Blk(b)) && Placed(l, t, b) && l.Linked(Blk(b));
    if b in t.pos { Node(t, t.pos[b]); }
  }

  /** `r`, of `bestSize` bytes, is the smallest fit among the blocks `seen` of the rest list, none of
      which has exactly `s` bytes. */
  ghost predicate BestOfSeen(l: Lists, t: Tree, s: nat, seen: set<Ptr>, r: Ptr, bestSize: nat) {
    && (r == Null ==> bestSize == WORD - 1)
    && (r != Null ==>
         r.Blk? && r in l.home && l.home[r] == Rest && r.addr in t.tag && t.tag[r.addr].size == bestSize > s)
    && (forall v :: v in seen && v.Blk? ==>
         v.addr in t.tag && (t.tag[v.addr].size < s || (r != Null && bestSize <= t.tag[v.addr].size)))
  }

  /** A set that has the head of the rest list and is closed under the forward link has all of the list. */
  lemma {:induction false} AllSeen(l: Lists, seen: set<Ptr>, p: Ptr)
    requires l.Valid() && p in l.home && l.home[p] == Rest
    requires Rest in seen && forall v :: v in seen ==> v in l.next && l.next[v] in seen
    ensures p in seen
    decreases if p == Rest || p !in l.rank then 0 else l.rank[p] + 1
  {
    assert l.Linked(p);
    if p != Rest { AllSeen(l, seen, l.prev[p]); }
  }

  /** A large block that did not go to the rest list is in a tree. */
  lemma LargeIsInTrees(l: Lists, t: Tree, l': Lists, t': Tree, b: nat)
    requires Grew(l, t, l', t', b) && Blk(b) !in l.home && PlacesOk(l', t') && b in t'.tag && !IsSmall(t'.tag[b].size)
    ensures Blk(b) in l'.home && l'.home[Blk(b)].Blk?
  {
    assert Placed(l', t', b);
    assert Blk(b) in RestMembers(l') ==> Blk(b) in RestMembers(l);
  }

  lemma NotNode(l: Lists, t: Tree, b: nat)
    requires HeadsOk(l, t) && Blk(b) !in l.home
    ensures b !in t.pos
  {
  }

  lemma ListNode(l: Lists, t: Tree, p: Ptr)
    requires l.Valid() && HeadsOk(l, t) && (p == Rest || (p.Small? && p.i < NUM_BUCKETS) || (p.Blk? && p.addr in t.pos))
    ensures p in l.home && l.home[p] == p && l.Linked(p)
    ensures l.next[p] == p || l.next[p] in l.rank
    ensures l.prev[p] == p || l.prev[p] in l.rank
  {
    assert HeadOk(l, t, p) && l.Linked(p) && l.Linked(l.next[p]) && l.Linked(l.prev[p]);
  }

  /** A bucket without a root has no node of its sizes. */
  lemma RootVacant(t: Tree, size: nat)
    requires t.Valid() && BlockSize(size) && Pos(HighBitOf(size), 1) !in t.tree
    ensures forall p' :: p' in t.tree ==> t.tree[p'] in t.tag && t.tag[t.tree[p']].size != size
  {
    forall p' | p' in t.tree ensures t.tree[p'] in t.tag && t.tag[t.tree[p']].size != size {
      Node(t, p');
      var i := HighBitOf(size);
      HighBitShr(size);
      assert On(size, i) == Pos(i, 1);
      if t.tag[t.tree[p']].size == size {
        if p'.k > i { ShrBeyond(size, i, p'.k); }
        PathClosed(t, size, p'.k, i);
      }
    }
  }
}
