/** The large buckets: bucket `i` holds the free blocks whose size has its highest bit at `i`,
    one tree node per size, placed by the size's lower bits from the top down. */
module Trie {
  import opened Bits
  import opened Layout
  import opened Rings

  /** What a `zend_mm_free_block **` can be: a large bucket, a child field of a node, or the two
      values that are never dereferenced, NULL and `ZEND_MM_REST_BLOCK`. */
  datatype Slot = NoSlot | RestBlock | Bucket(i: nat) | Child(addr: nat, bit: nat)

  /** A place in a tree: `q` is the prefix that all sizes below share after shifting out `k` bits.
      The root of bucket `i` is `Pos(i, 1)`. */
  datatype Pos = Pos(k: int, q: nat)

  function Up(p: Pos): Pos {
    Pos(p.k + 1, p.q / 2)
  }

  function Down(p: Pos, bit: nat): Pos {
    Pos(p.k - 1, 2 * p.q + bit)
  }

  /** Where a block of size `s` belongs once only `k` of its bits are left to be told apart. */
  function On(s: nat, k: nat): Pos {
    Pos(k, Shr(s, k))
  }

  /** The tree fields of the blocks (`parent`, `slots`), the size tags, and the shape they form. */
  datatype Tree = Tree(slots: map<Slot, Ptr>, parent: map<nat, Slot>, tag: map<nat, Tag>,
                       tree: map<Pos, nat>, pos: map<nat, Pos>)
  {
    ghost function At(p: Pos): Ptr {
      if p in tree then Blk(tree[p]) else Null
    }

    ghost function SlotOf(p: Pos): Slot
      requires p.k >= 0 && (p.q == 1 || Up(p) in tree)
    {
      if p.q == 1 then Bucket(p.k) else Child(tree[Up(p)], p.q % 2)
    }

    /** The node at `p` has the prefix of its place, its parent slot points back at it, and its
        child fields hold the nodes one level down. */
    ghost predicate NodeAt(p: Pos) {
      && p in tree
      && var a := tree[p];
      && a in pos && pos[a] == p
      && a in tag && BlockSize(tag[a].size)
      && 0 <= p.k < NUM_BUCKETS && p.q >= 1 && Shr(tag[a].size, p.k) == p.q
      && (p.q == 1 || Up(p) in tree)
      && a in parent && parent[a] == SlotOf(p)
      && SlotOf(p) in slots && slots[SlotOf(p)] == Blk(a)
      && Child(a, 0) in slots && slots[Child(a, 0)] == At(Down(p, 0))
      && Child(a, 1) in slots && slots[Child(a, 1)] == At(Down(p, 1))
    }

    ghost predicate RootAt(i: nat) {
      Bucket(i) in slots && slots[Bucket(i)] == At(Pos(i, 1))
    }

    ghost predicate Apart(p: Pos, p': Pos) {
      && p in tree && p' in tree && tree[p] in tag && tree[p'] in tag
      && (tag[tree[p]].size == tag[tree[p']].size ==> p == p')
    }

    ghost predicate Valid() {
      && (forall p {:trigger NodeAt(p)} :: p in tree ==> NodeAt(p))
      && (forall i {:trigger RootAt(i)} :: 0 <= i < NUM_BUCKETS ==> RootAt(i))
      && (forall p, p' {:trigger Apart(p, p')} :: p in tree && p' in tree ==> Apart(p, p'))
      && (forall a :: a in pos ==> pos[a] in tree && tree[pos[a]] == a)
    }
  }

  // ---------------------------------------------------------------- updates

  /** A new leaf `b` stored through the slot of the vacant place `p`. */
  ghost function Grafted(t: Tree, p: Pos, b: nat): Tree
    requires p.k >= 0 && (p.q == 1 || Up(p) in t.tree)
  {
    Tree(t.slots[Child(b, 0) := Null][Child(b, 1) := Null][t.SlotOf(p) := Blk(b)],
         t.parent[b := t.SlotOf(p)], t.tag, t.tree[p := b], t.pos[b := p])
  }

  ghost predicate CanGraft(t: Tree, p: Pos, b: nat) {
    && t.Valid() && b !in t.pos && p !in t.tree
    && b in t.tag && BlockSize(t.tag[b].size)
    && 0 <= p.k < NUM_BUCKETS && p.q >= 1 && Shr(t.tag[b].size, p.k) == p.q
    && (p.q == 1 || Up(p) in t.tree)
  }

  lemma Graft(t: Tree, p: Pos, b: nat)
    requires CanGraft(t, p, b)
    requires forall p' :: p' in t.tree ==> t.tree[p'] in t.tag && t.tag[t.tree[p']].size != t.tag[b].size
    ensures Grafted(t, p, b).Valid()
  {
    var t' := Grafted(t, p, b);
    forall p' | p' in t'.tree ensures t'.NodeAt(p') {
      if p' == p { GraftedLeaf(t, p, b); } else { GraftedOther(t, p, b, p'); }
    }
    forall i | 0 <= i < NUM_BUCKETS ensures t'.RootAt(i) {
      assert t.RootAt(i);
      if p.q > 1 { assert t.NodeAt(Up(p)); }
    }
    forall p1, p2 | p1 in t'.tree && p2 in t'.tree ensures t'.Apart(p1, p2) {
      if p1 != p && p2 != p { assert t.Apart(p1, p2); }
    }
  }

  lemma GraftedLeaf(t: Tree, p: Pos, b: nat)
    requires CanGraft(t, p, b)
    ensures Grafted(t, p, b).NodeAt(p)
  {
    assert Up(Down(p, 0)) == p && Up(Down(p, 1)) == p;
    Node(t, Down(p, 0)); Node(t, Down(p, 1)); Node(t, Up(p));
  }

  lemma GraftedOther(t: Tree, p: Pos, b: nat, p': Pos)
    requires CanGraft(t, p, b) && p' in t.tree
    ensures Grafted(t, p, b).NodeAt(p')
  {
    Node(t, p'); Node(t, Up(p)); Node(t, Up(p'));
    DownUp(p', p);
  }

  /** The facts about one place of a well-formed tree. */
  lemma Node(t: Tree, p: Pos)
    requires t.Valid()
    ensures p in t.tree ==> t.NodeAt(p)
  {
  }

  lemma DownUp(p: Pos, c: Pos)
    ensures Down(p, 0) == c <==> Up(c) == p && c.q % 2 == 0
    ensures Down(p, 1) == c <==> Up(c) == p && c.q % 2 == 1
  {
  }

  /** A leaf detached by clearing its parent slot. */
  ghost function Pruned(t: Tree, b: nat): Tree
    requires b in t.parent && b in t.pos
  {
    Tree(t.slots[t.parent[b] := Null], t.parent, t.tag, t.tree - {t.pos[b]}, t.pos - {b})
  }

  lemma Prune(t: Tree, b: nat)
    requires t.Valid() && b in t.pos && b in t.parent
    requires Child(b, 0) in t.slots && t.slots[Child(b, 0)] == Null
    requires Child(b, 1) in t.slots && t.slots[Child(b, 1)] == Null
    ensures Pruned(t, b).Valid()
  {
    var t' := Pruned(t, b);
    var p := t.pos[b];
    assert t.NodeAt(p);
    forall p' | p' in t'.tree ensures t'.NodeAt(p') {
      assert t.NodeAt(p');
      DownUp(p', p);
      if p.q > 1 { assert t.NodeAt(Up(p)); }
    }
    forall i | 0 <= i < NUM_BUCKETS ensures t'.RootAt(i) { assert t.RootAt(i); }
    forall p1, p2 | p1 in t'.tree && p2 in t'.tree ensures t'.Apart(p1, p2) {
      assert t.Apart(p1, p2);
    }
  }

  /** The children of `b` told that their parent field is now that of `x`. */
  function Reparented(parent: map<nat, Slot>, c: Ptr, slot: Slot): map<nat, Slot> {
    if c.Blk? then parent[c.addr := slot] else parent
  }

  /** `x` put in the place of the node `b`: the label `subst_block`. */
  ghost function Replaced(t: Tree, b: nat, x: nat): Tree
    requires b in t.parent && b in t.pos && Child(b, 0) in t.slots && Child(b, 1) in t.slots
  {
    var c0, c1 := t.slots[Child(b, 0)], t.slots[Child(b, 1)];
    Tree(t.slots[t.parent[b] := Blk(x)][Child(x, 0) := c0][Child(x, 1) := c1],
         Reparented(Reparented(t.parent[x := t.parent[b]], c0, Child(x, 0)), c1, Child(x, 1)),
         t.tag, t.tree[t.pos[b] := x], (t.pos - {b})[x := t.pos[b]])
  }

  ghost predicate CanReplace(t: Tree, b: nat, x: nat) {
    && t.Valid() && b in t.pos && x !in t.pos
    && x in t.tag && BlockSize(t.tag[x].size)
    && t.pos[b].k >= 0 && Shr(t.tag[x].size, t.pos[b].k) == t.pos[b].q
    && b in t.parent && Child(b, 0) in t.slots && Child(b, 1) in t.slots
  }

  lemma Replace(t: Tree, b: nat, x: nat)
    requires CanReplace(t, b, x)
    requires forall p' :: p' in t.tree && p' != t.pos[b] ==>
               t.tree[p'] in t.tag && t.tag[t.tree[p']].size != t.tag[x].size
    ensures Replaced(t, b, x).Valid()
  {
    var t' := Replaced(t, b, x);
    var p := t.pos[b];
    assert t.NodeAt(p);
    forall p' | p' in t'.tree ensures t'.NodeAt(p') {
      if p' == p { ReplacedNode(t, b, x); } else { ReplacedOther(t, b, x, p'); }
    }
    forall i | 0 <= i < NUM_BUCKETS ensures t'.RootAt(i) { assert t.RootAt(i); }
    forall p1, p2 | p1 in t'.tree && p2 in t'.tree ensures t'.Apart(p1, p2) {
      assert t.Apart(p1, p2);
    }
  }

  lemma ReplacedNode(t: Tree, b: nat, x: nat)
    requires CanReplace(t, b, x)
    ensures Replaced(t, b, x).NodeAt(t.pos[b])
  {
    var p := t.pos[b];
    Node(t, p); Node(t, Down(p, 0)); Node(t, Down(p, 1)); Node(t, Up(p));
  }

  lemma ReplacedOther(t: Tree, b: nat, x: nat, p': Pos)
    requires CanReplace(t, b, x) && p' in t.tree && p' != t.pos[b]
    ensures Replaced(t, b, x).NodeAt(p')
  {
    var p := t.pos[b];
    Node(t, p);
    if p' == Down(p, 0) || p' == Down(p, 1) {
      ReplacedChild(t, b, x, p');
    } else {
      ReplacedElsewhere(t, b, x, p');
    }
  }

  lemma ReplacedChild(t: Tree, b: nat, x: nat, p': Pos)
    requires CanReplace(t, b, x) && p' in t.tree
    requires p' == Down(t.pos[b], 0) || p' == Down(t.pos[b], 1)
    ensures Replaced(t, b, x).NodeAt(p')
  {
    var p := t.pos[b];
    Node(t, p); Node(t, p'); Node(t, Down(p, 0)); Node(t, Down(p, 1)); Node(t, Up(p));
    assert Up(p') == p;
    DownUp(p', p);
  }

  lemma ReplacedElsewhere(t: Tree, b: nat, x: nat, p': Pos)
    requires CanReplace(t, b, x) && p' in t.tree && p' != t.pos[b]
    requires p' != Down(t.pos[b], 0) && p' != Down(t.pos[b], 1)
    ensures Replaced(t, b, x).NodeAt(p')
  {
    var p := t.pos[b];
    Node(t, p); Node(t, p'); Node(t, Down(p, 0)); Node(t, Down(p, 1)); Node(t, Up(p));
    Node(t, Up(p'));
    DownUp(p', p);
    DownUp(p, p');
    assert Up(p') != p;
  }

  /** The tree only looks at the tags of its own nodes. */
  lemma TagFrame(t: Tree, tag': map<nat, Tag>)
    requires t.Valid()
    requires forall a :: a in t.pos ==> a in tag' && a in t.tag && tag'[a].size == t.tag[a].size
    ensures t.(tag := tag').Valid()
  {
    var t' := t.(tag := tag');
    forall p | p in t'.tree ensures t'.NodeAt(p) { assert t.NodeAt(p); }
    forall i | 0 <= i < NUM_BUCKETS ensures t'.RootAt(i) { assert t.RootAt(i); }
    forall p1, p2 | p1 in t'.tree && p2 in t'.tree ensures t'.Apart(p1, p2) {
      assert t.NodeAt(p1) && t.NodeAt(p2);
      assert t.Apart(p1, p2);
    }
  }

  /** The tree does not look at the tree fields of blocks that are no nodes. */
  lemma StrayFields(t: Tree, b: nat, slot: Slot)
    requires t.Valid() && b !in t.pos
    ensures t.(parent := t.parent[b := slot]).Valid()
    ensures t.(slots := t.slots[Child(b, 0) := Null][Child(b, 1) := Null], parent := t.parent[b := slot]).Valid()
  {
    StrayParent(t, b, slot);
    StrayChildren(t.(parent := t.parent[b := slot]), b);
  }

  lemma StrayParent(t: Tree, b: nat, slot: Slot)
    requires t.Valid() && b !in t.pos
    ensures t.(parent := t.parent[b := slot]).Valid()
  {
    var t' := t.(parent := t.parent[b := slot]);
    forall p | p in t.tree ensures t'.NodeAt(p) { Node(t, p); Node(t, Up(p)); }
    forall i | 0 <= i < NUM_BUCKETS ensures t'.RootAt(i) { assert t.RootAt(i); }
    forall p1, p2 | p1 in t.tree && p2 in t.tree ensures t'.Apart(p1, p2) { assert t.Apart(p1, p2); }
  }

  lemma StrayChildren(t: Tree, b: nat)
    requires t.Valid() && b !in t.pos
    ensures t.(slots := t.slots[Child(b, 0) := Null][Child(b, 1) := Null]).Valid()
  {
    var t' := t.(slots := t.slots[Child(b, 0) := Null][Child(b, 1) := Null]);
    forall p | p in t.tree ensures t'.NodeAt(p) { Node(t, p); Node(t, Up(p)); }
    forall i | 0 <= i < NUM_BUCKETS ensures t'.RootAt(i) { assert t.RootAt(i); }
    forall p1, p2 | p1 in t.tree && p2 in t.tree ensures t'.Apart(p1, p2) { assert t.Apart(p1, p2); }
  }

  // ---------------------------------------------------------------- paths

  /** Trees are closed upwards: above a node of the path of `s`, the path is populated. */
  lemma {:induction false} PathClosed(t: Tree, s: nat, k: nat, k': nat)
    requires t.Valid() && On(s, k) in t.tree && k <= k' && Shr(s, k') >= 1
    ensures On(s, k') in t.tree
    decreases k' - k
  {
    if k < k' {
      Node(t, On(s, k));
      if Shr(s, k) == 1 {
        ShrBeyond(s, k, k');
      } else {
        assert Up(On(s, k)) == On(s, k + 1);
        PathClosed(t, s, k + 1, k');
      }
    }
  }

  /** Sizes that agree above bit `j` agree above every higher bit. */
  lemma SamePrefix(s: nat, s': nat, j: nat, i: nat)
    requires Shr(s, j) == Shr(s', j) && j <= i
    ensures Shr(s, i) == Shr(s', i)
  {
    ShrSum(s, j, i - j);
    ShrSum(s', j, i - j);
  }

  /** If the path of `s` was followed without meeting `s` until it ends, no node has size `s`. */
  lemma NotInTree(t: Tree, s: nat, k: nat)
    requires t.Valid() && 0 < k
    requires On(s, k - 1) !in t.tree && Shr(s, k - 1) >= 1
    requires forall j: nat {:trigger On(s, j)} :: k <= j && On(s, j) in t.tree ==>
               t.tree[On(s, j)] in t.tag && t.tag[t.tree[On(s, j)]].size != s
    ensures forall p :: p in t.tree ==> t.tree[p] in t.tag && t.tag[t.tree[p]].size != s
  {
    forall p | p in t.tree ensures t.tree[p] in t.tag && t.tag[t.tree[p]].size != s {
      Node(t, p);
      if t.tag[t.tree[p]].size == s {
        assert p == On(s, p.k);
        if p.k < k {
          PathClosed(t, s, p.k, k - 1);
        }
      }
    }
  }

  /** The descent of `zend_mm_add_to_free_list`: from the root of the size's bucket down the
      bits of the size, to a node of the same size or to the empty slot where the size belongs. */
  method Descend(slots: map<Slot, Ptr>, tag: map<nat, Tag>, size: nat, index: nat, ghost t: Tree)
    returns (p: Slot, same: Ptr, ghost place: Pos)
    requires t.Valid() && slots == t.slots && tag == t.tag
    requires BlockSize(size) && index == HighBitOf(size) && index < NUM_BUCKETS
    requires Pos(index, 1) in t.tree
    ensures same != Null ==> same.Blk? && same.addr in t.pos && same.addr in tag && tag[same.addr].size == size
    ensures same == Null ==>
              && place !in t.tree && 0 <= place.k < NUM_BUCKETS && place.q > 1
              && Shr(size, place.k) == place.q
              && Up(place) in t.tree && p == t.SlotOf(place)
              && forall p' :: p' in t.tree ==> t.tree[p'] in tag && tag[t.tree[p']].size != size
  {
    p := Bucket(index);
    same := Null;
    ghost var k: nat := index;
    var m: nat := Shl(size, NUM_BUCKETS - index);
    assert t.RootAt(index);
    HighBitShr(size);
    while true
      invariant Descending(t, size, index, k, p, m)
      decreases k
    {
      var prev := slots[p];
      OnPath(t, size, k);
      if tag[prev.addr].size == size {
        same, place := prev, On(size, k);
        return;
      }
      DescentTurns(t, size, index, k, p, m);
      p := Child(prev.addr, m / TOP);
      if slots[p] == Null {
        place := On(size, k - 1);
        Vacant(t, size, k, index);
        return;
      }
      DescentGoesOn(t, size, index, k, m);
      m := (2 * m) % WORD;
      k := k - 1;
    }
  }

  /** The descent has come to level `k`: the slot `p` holds the node of the path there, the top bit of `m` is the next
      bit of the size, and no node above has the size. */
  ghost predicate Descending(t: Tree, size: nat, index: nat, k: nat, p: Slot, m: nat) {
    && k <= index < NUM_BUCKETS && On(size, k) in t.tree && p in t.slots && t.slots[p] == Blk(t.tree[On(size, k)])
    && m == Shl(size, NUM_BUCKETS - k) && Missed(t, size, k, index)
  }

  /** The next bit of the size chooses the child field that leads to the next place of the path. */
  lemma DescentTurns(t: Tree, size: nat, index: nat, k: nat, p: Slot, m: nat)
    requires t.Valid() && BlockSize(size) && index == HighBitOf(size) && Descending(t, size, index, k, p, m)
    requires t.tree[On(size, k)] in t.tag && t.tag[t.tree[On(size, k)]].size != size
    ensures k > 0 && m / TOP == Shr(size, k - 1) % 2
    ensures var c := Child(t.tree[On(size, k)], m / TOP); c in t.slots && t.slots[c] == t.At(On(size, k - 1))
  {
    OnPath(t, size, k);
    CursorTop(size, k);
    StepDown(t, size, k);
  }

  lemma DescentGoesOn(t: Tree, size: nat, index: nat, k: nat, m: nat)
    requires t.Valid() && BlockSize(size) && index == HighBitOf(size) && 0 < k <= index < NUM_BUCKETS
    requires On(size, k) in t.tree && Missed(t, size, k, index) && m == Shl(size, NUM_BUCKETS - k)
    requires t.tree[On(size, k)] in t.tag && t.tag[t.tree[On(size, k)]].size != size
    requires var c := Child(t.tree[On(size, k)], m / TOP);
             c in t.slots && t.slots[c] == t.At(On(size, k - 1)) && t.slots[c] != Null
    ensures Descending(t, size, index, k - 1, Child(t.tree[On(size, k)], m / TOP), (2 * m) % WORD)
  {
  }

  /** No node on the path of `s` above level `k` has size `s`. */
  ghost predicate Missed(t: Tree, s: nat, k: nat, index: nat) {
    forall j: nat {:trigger On(s, j)} :: k < j <= index && On(s, j) in t.tree ==>
      t.tree[On(s, j)] in t.tag && t.tag[t.tree[On(s, j)]].size != s
  }

  /** A node of the path is recorded, tagged, and, on the last level, of the very size. */
  lemma OnPath(t: Tree, s: nat, k: nat)
    requires t.Valid() && On(s, k) in t.tree
    ensures var a := t.tree[On(s, k)];
            a in t.pos && t.pos[a] == On(s, k) && a in t.tag && k < NUM_BUCKETS && (k == 0 ==> t.tag[a].size == s)
  {
    assert t.NodeAt(On(s, k));
  }

  /** The child field chosen by the next bit of the size leads to the next place of its path. */
  lemma StepDown(t: Tree, s: nat, k: nat)
    requires t.Valid() && k > 0 && On(s, k) in t.tree
    ensures var c := Child(t.tree[On(s, k)], Shr(s, k - 1) % 2);
            c in t.slots && t.slots[c] == t.At(On(s, k - 1))
  {
    assert t.NodeAt(On(s, k));
    assert Down(On(s, k), Shr(s, k - 1) % 2) == On(s, k - 1);
  }

  lemma Vacant(t: Tree, s: nat, k: nat, index: nat)
    requires t.Valid() && 0 < k <= index < NUM_BUCKETS && Shr(s, index) == 1
    requires On(s, k) in t.tree && On(s, k - 1) !in t.tree
    requires Missed(t, s, k, index) && t.tree[On(s, k)] in t.tag && t.tag[t.tree[On(s, k)]].size != s
    ensures var place := On(s, k - 1);
            && place.q > 1 && Up(place) == On(s, k)
            && t.SlotOf(place) == Child(t.tree[On(s, k)], Shr(s, k - 1) % 2)
    ensures forall p :: p in t.tree ==> t.tree[p] in t.tag && t.tag[t.tree[p]].size != s
  {
    ShrMonotoneInShift(s, k, index);
    ShrMonotoneInShift(s, k - 1, index);
    forall j: nat | k <= j && On(s, j) in t.tree
      ensures t.tree[On(s, j)] in t.tag && t.tag[t.tree[On(s, j)]].size != s
    {
      if j > index {
        Node(t, On(s, j));
        ShrBeyond(s, index, j);
      }
    }
    NotInTree(t, s, k);
  }

  /** `x` is below the node `b`, and so has the prefix of `b`'s place. */
  ghost predicate Below(t: Tree, b: nat, x: nat) {
    && b in t.pos && x in t.pos && x in t.tag && t.pos[b].k >= 0
    && t.pos[x].k < t.pos[b].k && Shr(t.tag[x].size, t.pos[b].k) == t.pos[b].q
  }

  lemma ChildBelow(t: Tree, b: nat, x: nat, bit: nat)
    requires t.Valid() && b in t.pos && (x == b || Below(t, b, x)) && bit < 2
    ensures x in t.pos && Child(x, bit) in t.slots
    ensures var c := t.slots[Child(x, bit)];
            c != Null ==> c.Blk? && Below(t, b, c.addr) && t.pos[c.addr].k < t.pos[x].k
                          && c.addr in t.parent && t.parent[c.addr] == Child(x, bit)
  {
    var p := t.pos[x];
    Node(t, p); Node(t, t.pos[b]);
    if Down(p, bit) in t.tree {
      Node(t, Down(p, bit));
      assert Up(Down(p, bit)) == p;
      SamePrefix(t.tag[t.tree[Down(p, bit)]].size, t.tag[x].size, p.k, t.pos[b].k);
    }
  }

  /** The walk of `zend_mm_remove_from_free_list` from a node with children to a leaf below it,
      by `child[1]` where there is one. */
  method LeafBelow(slots: map<Slot, Ptr>, b: nat, ghost t: Tree) returns (rp: Slot, leaf: Ptr)
    requires t.Valid() && slots == t.slots && b in t.pos
    requires Child(b, 0) in slots && Child(b, 1) in slots
    requires slots[Child(b, 0)] != Null || slots[Child(b, 1)] != Null
    ensures leaf.Blk? && Below(t, b, leaf.addr)
    ensures leaf.addr in t.parent && t.parent[leaf.addr] == rp
    ensures Child(leaf.addr, 0) in slots && slots[Child(leaf.addr, 0)] == Null
    ensures Child(leaf.addr, 1) in slots && slots[Child(leaf.addr, 1)] == Null
  {
    ChildBelow(t, b, b, 0);
    ChildBelow(t, b, b, 1);
    rp := Child(b, if slots[Child(b, 1)] != Null then 1 else 0);
    leaf := slots[rp];
    ChildBelow(t, b, leaf.addr, 0);
    ChildBelow(t, b, leaf.addr, 1);
    var cp := Child(leaf.addr, if slots[Child(leaf.addr, 1)] != Null then 1 else 0);
    while slots[cp] != Null
      invariant leaf.Blk? && Below(t, b, leaf.addr)
      invariant leaf.addr in t.parent && t.parent[leaf.addr] == rp
      invariant Child(leaf.addr, 0) in slots && Child(leaf.addr, 1) in slots
      invariant cp == Child(leaf.addr, if slots[Child(leaf.addr, 1)] != Null then 1 else 0)
      decreases t.pos[leaf.addr].k
    {
      ChildBelow(t, b, leaf.addr, cp.bit);
      Node(t, t.pos[leaf.addr]);
      leaf := slots[cp];
      rp := cp;
      ChildBelow(t, b, leaf.addr, 0);
      ChildBelow(t, b, leaf.addr, 1);
      cp := Child(leaf.addr, if slots[Child(leaf.addr, 1)] != Null then 1 else 0);
    }
  }

  /** The leaf `x` below `b` detached and put in its place. */
  lemma Substitute(t: Tree, b: nat, x: nat)
    requires t.Valid() && Below(t, b, x) && x in t.parent
    requires Child(x, 0) in t.slots && t.slots[Child(x, 0)] == Null
    requires Child(x, 1) in t.slots && t.slots[Child(x, 1)] == Null
    ensures var t1 := Pruned(t, x);
            && b in t1.parent && b in t1.pos && Child(b, 0) in t1.slots && Child(b, 1) in t1.slots
            && t1.Valid() && Replaced(t1, b, x).Valid()
            && Replaced(t1, b, x).pos.Keys == t.pos.Keys - {b}
            && (forall i: int :: Pos(i, 1) in Replaced(t1, b, x).tree <==> Pos(i, 1) in t.tree)
  {
    var t1 := Pruned(t, x);
    Node(t, t.pos[b]); Node(t, t.pos[x]);
    Prune(t, x);
    Node(t1, t.pos[b]);
    forall p' | p' in t1.tree && p' != t1.pos[b]
      ensures t1.tree[p'] in t1.tag && t1.tag[t1.tree[p']].size != t1.tag[x].size
    {
      Node(t, p');
      assert t.Apart(p', t.pos[x]);
    }
    Replace(t1, b, x);
    var q := t.pos[x];
    if q.q == 1 { ShrUniqueBelow(t.tag[x].size, t.pos[b].k, q.k); }
  }

  lemma ShrUniqueBelow(s: nat, i: nat, j: nat)
    requires j < i && Shr(s, j) == 1
    ensures Shr(s, i) == 0
  {
    ShrBeyond(s, j, i);
  }

  // ---------------------------------------------------------------- best-fit search

  /** The root bitmap has a bit for every bucket that has a root, and for no other. */
  ghost predicate MapsRoots(t: Tree, bitmap: nat) {
    && bitmap < WORD
    && forall i: nat {:trigger Bit(bitmap, i)} :: i < NUM_BUCKETS ==> (Bit(bitmap, i) <==> Pos(i, 1) in t.tree)
  }

  /** `a` is a tree node of at least `s` bytes. */
  ghost predicate Fits(t: Tree, a: nat, s: nat) {
    a in t.pos && a in t.tag && t.tag[a].size >= s
  }

  /** What `zend_mm_search_large_block` promises of the node it settles on: none if and only if
      no node fits; else a fit, of the exact size if there is one, and of the least high bit. */
  ghost predicate GoodFit(t: Tree, s: nat, best: Ptr) {
    && (best == Null <==> forall a :: !Fits(t, a, s))
    && (best != Null ==>
          && best.Blk? && Fits(t, best.addr, s)
          && ((exists a :: Fits(t, a, s) && t.tag[a].size == s) ==> t.tag[best.addr].size == s)
          && forall a :: Fits(t, a, s) ==> HighBitOf(t.tag[best.addr].size) <= HighBitOf(t.tag[a].size))
  }

  /** `a` is a node of bucket `index`. */
  ghost predicate InBucket(t: Tree, a: nat, index: nat) {
    a in t.pos && a in t.tag && Shr(t.tag[a].size, index) == 1
  }

  /** The walk along the bits of `s` has done levels above `k`: nothing of size `s` was there,
      `best` is a fit of bucket `index` unless all of it was too small, and `rst` is the last
      right-hand subtree passed by. */
  ghost predicate Walked(t: Tree, s: nat, k: int, index: nat, best: Ptr, bestSize: nat, rst: Ptr) {
    && (forall j: nat {:trigger On(s, j)} :: k < j <= index && On(s, j) in t.tree ==>
          && t.tree[On(s, j)] in t.tag && t.tag[t.tree[On(s, j)]].size != s
          && (best == Null ==> t.tag[t.tree[On(s, j)]].size < s))
    && (rst == Null ==> forall j: nat {:trigger On(s, j)} :: k < j <= index && 0 < j && Shr(s, j - 1) % 2 == 0 ==>
          Down(On(s, j), 1) !in t.tree)
    && BestSoFar(t, s, index, best, bestSize)
    && (rst != Null ==> rst.Blk? && InBucket(t, rst.addr, index) && t.tag[rst.addr].size > s)
  }

  ghost predicate BestSoFar(t: Tree, s: nat, index: nat, best: Ptr, bestSize: nat) {
    && (best == Null ==> bestSize == WORD - 1)
    && (best != Null ==> best.Blk? && InBucket(t, best.addr, index)
                         && t.tag[best.addr].size == bestSize && bestSize > s)
  }

  /** A right-hand neighbour of the path holds only larger sizes, of the same bucket. */
  lemma RightOfPath(t: Tree, s: nat, j: nat, index: nat)
    requires t.Valid() && 0 < j <= index && Shr(s, index) == 1 && Shr(s, j - 1) % 2 == 0
    requires Down(On(s, j), 1) in t.tree
    ensures var a := t.tree[Down(On(s, j), 1)];
            InBucket(t, a, index) && t.tag[a].size > s
  {
    var p := Down(On(s, j), 1);
    assert t.NodeAt(p);
    var size := t.tag[t.tree[p]].size;
    assert Shr(size, j - 1) == Shr(s, j - 1) + 1;
    SamePrefix(s, size, j, index);
    if size <= s { ShrMonotone(size, s, j - 1); }
  }

  /** When the walk has ended with neither a fit nor a right-hand subtree, the bucket has no fit. */
  lemma NoFitInBucket(t: Tree, s: nat, k: nat, index: nat, a: nat)
    requires t.Valid() && 0 < k <= index && Shr(s, index) == 1 && On(s, k - 1) !in t.tree
    requires Walked(t, s, k - 1, index, Null, WORD - 1, Null)
    requires InBucket(t, a, index)
    ensures t.tag[a].size < s
  {
    var size := t.tag[a].size;
    var p := t.pos[a];
    assert t.NodeAt(p);
    if p.k > index { ShrBeyond(size, index, p.k); }
    if size >= s {
      var j := LeavesPath(t, s, index, a, p.k);
      if j < k {
        ShrMonotoneInShift(s, k - 1, index);
        PathClosed(t, s, j, k - 1);
      }
    }
  }

  /** A node not smaller than `s` is on the path of `s`, or its ancestors leave it to the right. */
  lemma {:induction false} LeavesPath(t: Tree, s: nat, index: nat, a: nat, j: nat) returns (l: nat)
    requires t.Valid() && Shr(s, index) == 1
    requires InBucket(t, a, index) && t.tag[a].size >= s
    requires 0 <= t.pos[a].k <= j <= index && On(t.tag[a].size, j) in t.tree
    requires j > t.pos[a].k ==> Shr(t.tag[a].size, j - 1) != Shr(s, j - 1) && On(t.tag[a].size, j - 1) in t.tree
    ensures l <= index && On(s, l) in t.tree
    ensures t.tree[On(s, l)] == a || (l > 0 && Shr(s, l - 1) % 2 == 0 && Down(On(s, l), 1) in t.tree)
    decreases index - j
  {
    var size := t.tag[a].size;
    var p := t.pos[a];
    assert t.NodeAt(p);
    assert p == On(size, p.k);
    if Shr(size, j) == Shr(s, j) {
      l := j;
      if j > p.k {
        ShrMonotone(s, size, j - 1);
        assert On(size, j - 1) == Down(On(s, j), 1);
      }
    } else {
      assert j < index;
      ShrMonotoneInShift(size, j + 1, index);
      PathClosed(t, size, j, j + 1);
      l := LeavesPath(t, s, index, a, j + 1);
    }
  }

  /** What one level of the walk does: level `k` is added to what has been seen. */
  lemma WalkLevel(t: Tree, s: nat, k: nat, index: nat, best: Ptr, bestSize: nat, rst: Ptr,
                  best': Ptr, bestSize': nat, rst': Ptr)
    requires t.Valid() && 0 < k <= index && Shr(s, index) == 1 && On(s, k) in t.tree
    requires Walked(t, s, k, index, best, bestSize, rst)
    requires t.tree[On(s, k)] in t.tag && t.tag[t.tree[On(s, k)]].size != s
    requires var a := t.tree[On(s, k)];
             if t.tag[a].size >= s && t.tag[a].size < bestSize
             then best' == Blk(a) && bestSize' == t.tag[a].size
             else best' == best && bestSize' == bestSize
    requires rst' == if Shr(s, k - 1) % 2 == 0 && Down(On(s, k), 1) in t.tree
                     then Blk(t.tree[Down(On(s, k), 1)]) else rst
    ensures Walked(t, s, k - 1, index, best', bestSize', rst')
  {
    assert t.NodeAt(On(s, k));
    SamePrefix(t.tag[t.tree[On(s, k)]].size, s, k, index);
    if Shr(s, k - 1) % 2 == 0 && Down(On(s, k), 1) in t.tree {
      RightOfPath(t, s, k, index);
    }
  }

  lemma ChildFields(t: Tree, p: Pos)
    requires t.Valid() && p in t.tree
    ensures var a := t.tree[p];
            && Child(a, 0) in t.slots && t.slots[Child(a, 0)] == t.At(Down(p, 0))
            && Child(a, 1) in t.slots && t.slots[Child(a, 1)] == t.At(Down(p, 1))
  {
    assert t.NodeAt(p);
  }

  /** A node of size `s` lies on the path of `s`, so a walk that ended without it proves it absent. */
  lemma ExactIsOnPath(t: Tree, s: nat, k: nat, index: nat, best: Ptr, bestSize: nat, rst: Ptr, a: nat)
    requires t.Valid() && 0 < k <= index && Shr(s, index) == 1 && On(s, k - 1) !in t.tree
    requires Walked(t, s, k - 1, index, best, bestSize, rst) && a in t.pos && a in t.tag
    ensures t.tag[a].size != s
  {
    var p := t.pos[a];
    assert t.NodeAt(p);
    if t.tag[a].size == s {
      assert p == On(s, p.k);
      if p.k > index { ShrBeyond(s, index, p.k); }
      if p.k < k {
        ShrMonotoneInShift(s, k - 1, index);
        PathClosed(t, s, p.k, k - 1);
      }
    }
  }

  /** The search of one bucket: down the bits of the size, then into the last subtree to the
      right of that path, where it goes on to `child[1]` only while there is a `child[0]`. */
  method SearchBucket(slots: map<Slot, Ptr>, tag: map<nat, Tag>, s: nat, index: nat, ghost t: Tree)
    returns (best: Ptr)
    requires t.Valid() && slots == t.slots && tag == t.tag
    requires BlockSize(s) && index == HighBitOf(s) && index < NUM_BUCKETS
    requires Pos(index, 1) in t.tree
    ensures best == Null ==> forall a :: InBucket(t, a, index) ==> tag[a].size < s
    ensures best != Null ==> best.Blk? && InBucket(t, best.addr, index) && tag[best.addr].size >= s
    ensures best != Null && tag[best.addr].size != s ==> forall a :: a in t.pos && a in tag ==> tag[a].size != s
  {
    best := Null;
    var rst := Null;
    var bestSize: nat := WORD - 1;
    assert t.RootAt(index);
    HighBitShr(s);
    var p := slots[Bucket(index)];
    var m := Shl(s, NUM_BUCKETS - index);
    ghost var k: nat := index;
    while true
      invariant k <= index && On(s, k) in t.tree && p == Blk(t.tree[On(s, k)])
      invariant m == Shl(s, NUM_BUCKETS - k)
      invariant Walked(t, s, k, index, best, bestSize, rst)
      decreases k
    {
      OnPath(t, s, k);
      if tag[p.addr].size == s {
        SamePrefix(tag[p.addr].size, s, k, index);
        best := p;
        return;
      }
      var c;
      c, best, bestSize, rst := PassNode(slots, tag, s, index, p.addr, m, best, bestSize, rst, k, t);
      if c == Null {
        break;
      }
      p := c;
      CursorTop(s, k);
      m := (2 * m) % WORD;
      k := k - 1;
    }
    best := LeavePath(slots, tag, s, index, rst, best, bestSize, k, t);
  }

  /** A node of another size passed on the path of `s`: it may be the best fit so far, and its right
      subtree is noted if the path goes left. */
  method PassNode(slots: map<Slot, Ptr>, tag: map<nat, Tag>, s: nat, index: nat, a: nat, m: nat,
                  best: Ptr, bestSize: nat, rst: Ptr, ghost k: nat, ghost t: Tree)
    returns (c: Ptr, best': Ptr, bestSize': nat, rst': Ptr)
    requires t.Valid() && slots == t.slots && tag == t.tag && Shr(s, index) == 1 && index < NUM_BUCKETS && s < WORD
    requires 0 < k <= index && On(s, k) in t.tree && a == t.tree[On(s, k)] && a in tag && tag[a].size != s
    requires m == Shl(s, NUM_BUCKETS - k) && Walked(t, s, k, index, best, bestSize, rst)
    ensures c == t.At(On(s, k - 1)) && Walked(t, s, k - 1, index, best', bestSize', rst')
  {
    best', bestSize', rst' := best, bestSize, rst;
    if tag[a].size >= s && tag[a].size < bestSize {
      best', bestSize' := Blk(a), tag[a].size;
    }
    ChildFields(t, On(s, k));
    StepDown(t, s, k);
    CursorTop(s, k);
    var c0, c1 := slots[Child(a, 0)], slots[Child(a, 1)];
    if m / TOP == 0 && c1 != Null {
      rst' := c1;
    }
    WalkLevel(t, s, k, index, best, bestSize, rst, best', bestSize', rst');
    c := if m / TOP == 0 then c0 else c1;
  }

  /** The end of the path of `s`: no node has exactly `s` bytes, and every fit is behind `best` or `rst`. */
  method LeavePath(slots: map<Slot, Ptr>, tag: map<nat, Tag>, s: nat, index: nat, rst: Ptr,
                   best: Ptr, bestSize: nat, ghost k: nat, ghost t: Tree)
    returns (r: Ptr)
    requires t.Valid() && slots == t.slots && tag == t.tag && Shr(s, index) == 1
    requires 0 < k <= index && On(s, k - 1) !in t.tree && Walked(t, s, k - 1, index, best, bestSize, rst)
    ensures r == Null ==> forall a :: InBucket(t, a, index) ==> tag[a].size < s
    ensures r != Null ==> r.Blk? && InBucket(t, r.addr, index) && tag[r.addr].size >= s
    ensures forall a :: a in t.pos && a in tag ==> tag[a].size != s
  {
    r := SearchRight(slots, tag, s, index, rst, best, bestSize, t);
    forall a | a in t.pos && a in tag ensures tag[a].size != s {
      ExactIsOnPath(t, s, k, index, best, bestSize, rst, a);
    }
    if r == Null {
      forall a | InBucket(t, a, index) ensures tag[a].size < s {
        NoFitInBucket(t, s, k, index, a);
      }
    }
  }

  /** The second loop of the search, over the subtree `rst`. */
  method SearchRight(slots: map<Slot, Ptr>, tag: map<nat, Tag>, s: nat, index: nat, rst: Ptr,
                     best: Ptr, bestSize: nat, ghost t: Tree)
    returns (r: Ptr)
    requires t.Valid() && slots == t.slots && tag == t.tag
    requires BestSoFar(t, s, index, best, bestSize)
    requires rst != Null ==> rst.Blk? && InBucket(t, rst.addr, index) && tag[rst.addr].size > s
    ensures r == Null <==> best == Null && rst == Null
    ensures r != Null ==> r.Blk? && InBucket(t, r.addr, index) && tag[r.addr].size >= s
  {
    r := best;
    var rSize := bestSize;
    var p := rst;
    while p != Null
      invariant p != Null ==> p.Blk? && InBucket(t, p.addr, index)
      invariant BestSoFar(t, s, index, r, rSize)
      invariant rst == Null ==> r == best
      invariant r != Null || (best == Null && p == rst)
      decreases if p == Null then -1 else t.pos[p.addr].k
    {
      BucketNode(t, p.addr, index);
      if tag[p.addr].size == s {
        r := p;
        return;
      } else if tag[p.addr].size > s && tag[p.addr].size < rSize {
        rSize := tag[p.addr].size;
        r := p;
      }
      p := NextDown(slots, p.addr);
    }
  }

  /** A node of a bucket, and its children in the same bucket one level down. */
  lemma BucketNode(t: Tree, a: nat, index: nat)
    requires t.Valid() && InBucket(t, a, index)
    ensures BlockSize(t.tag[a].size) && 0 <= t.pos[a].k <= index
    ensures forall b: nat {:trigger Child(a, b)} :: b < 2 ==>
              && Child(a, b) in t.slots
              && var c := t.slots[Child(a, b)];
                 c != Null ==> c.Blk? && InBucket(t, c.addr, index) && t.pos[c.addr].k < t.pos[a].k
  {
    var p := t.pos[a];
    assert t.NodeAt(p);
    if p.k > index { ShrBeyond(t.tag[a].size, index, p.k); }
    forall b: nat | b < 2 ensures
              && Child(a, b) in t.slots
              && var c := t.slots[Child(a, b)];
                 c != Null ==> c.Blk? && InBucket(t, c.addr, index) && t.pos[c.addr].k < t.pos[a].k
    {
      if Down(p, b) in t.tree {
        assert t.NodeAt(Down(p, b));
        SamePrefix(t.tag[t.tree[Down(p, b)]].size, t.tag[a].size, p.k, index);
      }
    }
  }

  /** Where the searches go down from the node `a`: to its second child, if it has a first one, and else nowhere. */
  function NextDown(slots: map<Slot, Ptr>, a: nat): Ptr
    requires Child(a, 0) in slots && Child(a, 1) in slots
  {
    slots[Child(a, if slots[Child(a, 0)] != Null then 1 else 0)]
  }

  /** `x` is one of the nodes that a search going down from `a` meets. */
  ghost predicate OnWay(t: Tree, index: nat, a: nat, x: nat)
    requires t.Valid() && InBucket(t, a, index)
    decreases t.pos[a].k
  {
    BucketNode(t, a, index);
    assert Child(a, 0) in t.slots && Child(a, 1) in t.slots;
    x == a || (NextDown(t.slots, a) != Null && OnWay(t, index, NextDown(t.slots, a).addr, x))
  }

  /** Of the nodes met below `p`, all but those still ahead are at least as large as `best`. */
  ghost predicate BestOnWay(t: Tree, index: nat, root: nat, best: nat, p: Ptr)
    requires t.Valid() && InBucket(t, root, index)
  {
    && best in t.tag && OnWay(t, index, root, best)
    && (p != Null ==> p.Blk? && InBucket(t, p.addr, index))
    && (forall x {:trigger OnWay(t, index, root, x)} :: OnWay(t, index, root, x) ==>
          || (x in t.tag && t.tag[best].size <= t.tag[x].size)
          || (p != Null && OnWay(t, index, p.addr, x)))
    && (p != Null ==> forall x {:trigger OnWay(t, index, p.addr, x)} :: OnWay(t, index, p.addr, x) ==>
          OnWay(t, index, root, x))
  }

  lemma BestStep(t: Tree, index: nat, root: nat, best: nat, p: nat, best': nat)
    requires t.Valid() && InBucket(t, root, index) && BestOnWay(t, index, root, best, Blk(p))
    requires p in t.tag && best' == if t.tag[p].size < t.tag[best].size then p else best
    ensures Child(p, 0) in t.slots && Child(p, 1) in t.slots && BestOnWay(t, index, root, best', NextDown(t.slots, p))
  {
    BucketNode(t, p, index);
    assert Child(p, 0) in t.slots && Child(p, 1) in t.slots;
    assert OnWay(t, index, p, p);
    var c := NextDown(t.slots, p);
    if c != Null {
      forall x | OnWay(t, index, c.addr, x) ensures OnWay(t, index, root, x) { assert OnWay(t, index, p, x); }
    }
  }

  /** The search of the lowest non-empty bucket above the request: any node of it fits, and the one found is the
      smallest of those that the search meets on its way down. */
  method SearchRoot(slots: map<Slot, Ptr>, tag: map<nat, Tag>, index: nat, ghost t: Tree) returns (best: Ptr)
    requires t.Valid() && slots == t.slots && tag == t.tag
    requires index < NUM_BUCKETS && Pos(index, 1) in t.tree
    ensures best.Blk? && InBucket(t, best.addr, index)
    ensures InBucket(t, t.tree[Pos(index, 1)], index)
    ensures BestOnWay(t, index, t.tree[Pos(index, 1)], best.addr, Null)
  {
    assert t.RootAt(index);
    assert t.NodeAt(Pos(index, 1));
    var p := slots[Bucket(index)];
    best := p;
    ghost var root := p.addr;
    BucketNode(t, root, index);
    assert BestOnWay(t, index, root, root, p);
    BestStep(t, index, root, root, root, root);
    p := NextDown(slots, p.addr);
    while p != Null
      invariant best.Blk? && InBucket(t, best.addr, index) && BestOnWay(t, index, root, best.addr, p)
      decreases if p == Null then -1 else t.pos[p.addr].k
    {
      BucketNode(t, p.addr, index);
      BestStep(t, index, root, best.addr, p.addr, if tag[p.addr].size < tag[best.addr].size then p.addr else best.addr);
      if tag[p.addr].size < tag[best.addr].size {
        best := p;
      }
      p := NextDown(slots, p.addr);
    }
  }

  /** What the search finds is the smallest of its bucket exactly if a smallest one is on the way down. */
  lemma SmallestIfOnWay(t: Tree, index: nat, root: nat, best: nat)
    requires t.Valid() && InBucket(t, root, index) && InBucket(t, best, index) && BestOnWay(t, index, root, best, Null)
    ensures Smallest(t, index, best) <==> exists x :: OnWay(t, index, root, x) && Smallest(t, index, x)
  {
    if x :| OnWay(t, index, root, x) && Smallest(t, index, x) {
      assert t.tag[best].size <= t.tag[x].size;
    }
  }

  ghost predicate Smallest(t: Tree, index: nat, x: nat) {
    InBucket(t, x, index) && forall a {:trigger InBucket(t, a, index)} :: InBucket(t, a, index) ==>
      t.tag[x].size <= t.tag[a].size
  }

  /** A smaller fit is missed: a block of 1536 bytes at the root, with one of 1024 bytes for its only child. */
  method MissesSmaller() returns (best: Ptr, ghost t: Tree)
    ensures t.Valid() && best == Blk(16) && InBucket(t, 16, 10) && InBucket(t, 2048, 10)
    ensures t.tag[2048].size < t.tag[16].size
  {
    var slots: map<Slot, Ptr> := map i: nat | i < NUM_BUCKETS :: Bucket(i) := Null;
    var tag := map[16 := Tag(1536, Free), 2048 := Tag(1024, Free)];
    ghost var t0 := Tree(slots, map[], tag, map[], map[]);
    forall i | 0 <= i < NUM_BUCKETS ensures t0.RootAt(i) { assert Bucket(i) in slots; }
    TwoGrafts(t0);
    t := Grafted(Grafted(t0, Pos(10, 1), 16), Pos(9, 2), 2048);
    slots := slots[Child(16, 0) := Null][Child(16, 1) := Null][Bucket(10) := Blk(16)];
    slots := slots[Child(2048, 0) := Null][Child(2048, 1) := Null][Child(16, 0) := Blk(2048)];
    best := SearchRoot(slots, tag, 10, t);
    assert OnWay(t, 10, 16, best.addr) && NextDown(t.slots, 16) == Null;
  }

  lemma TwoGrafts(t: Tree)
    requires t.Valid() && t.tree == map[] && t.pos == map[]
    requires t.tag == map[16 := Tag(1536, Free), 2048 := Tag(1024, Free)]
    ensures var t1 := Grafted(t, Pos(10, 1), 16);
            && Up(Pos(9, 2)) in t1.tree && t1.SlotOf(Pos(9, 2)) == Child(16, 0)
            && Grafted(t1, Pos(9, 2), 2048).Valid()
            && InBucket(Grafted(t1, Pos(9, 2), 2048), 16, 10) && InBucket(Grafted(t1, Pos(9, 2), 2048), 2048, 10)
  {
    Shifts();
    assert BlockSize(1536) && BlockSize(1024);
    Graft(t, Pos(10, 1), 16);
    SecondGraft(Grafted(t, Pos(10, 1), 16));
  }

  lemma SecondGraft(t: Tree)
    requires t.Valid() && t.tree == map[Pos(10, 1) := 16] && t.pos == map[16 := Pos(10, 1)]
    requires t.tag == map[16 := Tag(1536, Free), 2048 := Tag(1024, Free)]
    ensures Up(Pos(9, 2)) in t.tree && t.SlotOf(Pos(9, 2)) == Child(16, 0) && Grafted(t, Pos(9, 2), 2048).Valid()
  {
    Shifts();
    assert Up(Pos(9, 2)) == Pos(10, 1);
    Graft(t, Pos(9, 2), 2048);
  }

  lemma Shifts()
    ensures Shr(1536, 10) == 1 && Shr(1024, 10) == 1 && Shr(1024, 9) == 2
  {
    assert Shr(1536, 2) == 384 && Shr(1024, 2) == 256;
    assert Shr(1536, 4) == 96 && Shr(1024, 4) == 64;
    assert Shr(1536, 6) == 24 && Shr(1024, 6) == 16;
    assert Shr(1536, 8) == 6 && Shr(1024, 8) == 4;
  }

  lemma BitsBelowWord(bitmap: nat, i: nat)
    requires bitmap < WORD && Bit(bitmap, i)
    ensures i < 64
  {
    if bitmap == 0 { ShrZero(i); }
    HighBitOfWord(bitmap);
    HighBitIsHighest(bitmap, i);
  }

  /** A fit has its root, and so its bitmap bit, at or above the bucket of the request. */
  lemma FitHasRoot(t: Tree, bitmap: nat, s: nat, a: nat)
    requires t.Valid() && MapsRoots(t, bitmap) && BlockSize(s) && Fits(t, a, s)
    ensures var i := HighBitOf(t.tag[a].size);
            HighBitOf(s) <= i < NUM_BUCKETS && Bit(bitmap, i) && InBucket(t, a, i)
  {
    var size := t.tag[a].size;
    assert t.NodeAt(t.pos[a]);
    HighBitMonotone(s, size);
    HighBitOfWord(size);
    HighBitShr(size);
    var i := HighBitOf(size);
    if t.pos[a].k > i { ShrBeyond(size, i, t.pos[a].k); }
    PathClosed(t, size, t.pos[a].k, i);
    assert On(size, i) == Pos(i, 1);
  }

  /** All fits have their high bit at `base` or above. */
  ghost predicate FitsFrom(t: Tree, s: nat, base: nat) {
    forall a :: Fits(t, a, s) ==> HighBitOf(t.tag[a].size) >= base
  }

  lemma NoneLeft(t: Tree, bitmap: nat, s: nat, base: nat)
    requires t.Valid() && MapsRoots(t, bitmap) && BlockSize(s)
    requires FitsFrom(t, s, base) && Shr(bitmap, base) == 0
    ensures forall a :: !Fits(t, a, s)
  {
    forall a ensures !Fits(t, a, s) {
      if Fits(t, a, s) {
        FitHasRoot(t, bitmap, s, a);
        var i := HighBitOf(t.tag[a].size);
        BitOfShr(bitmap, base, i - base);
        ShrZero(i - base);
      }
    }
  }

  lemma InBucketIsGood(t: Tree, s: nat, best: nat)
    requires t.Valid() && BlockSize(s) && FitsFrom(t, s, HighBitOf(s))
    requires InBucket(t, best, HighBitOf(s)) && t.tag[best].size >= s
    requires t.tag[best].size != s ==> forall a :: a in t.pos && a in t.tag ==> t.tag[a].size != s
    ensures GoodFit(t, s, Blk(best))
  {
    HighBitIsHighest(t.tag[best].size, HighBitOf(s));
    assert Fits(t, best, s);
  }

  lemma NextBucket(t: Tree, s: nat, base: nat)
    requires t.Valid() && FitsFrom(t, s, base) && s > 0
    requires forall a :: InBucket(t, a, base) ==> t.tag[a].size < s
    ensures FitsFrom(t, s, base + 1)
  {
    forall a | Fits(t, a, s) ensures HighBitOf(t.tag[a].size) >= base + 1 {
      if HighBitOf(t.tag[a].size) == base {
        HighBitShr(t.tag[a].size);
      }
    }
  }

  lemma LowestRoot(t: Tree, bitmap: nat, s: nat, base: nat, low: nat)
    requires t.Valid() && MapsRoots(t, bitmap) && BlockSize(s) && FitsFrom(t, s, base)
    requires Shr(bitmap, base) > 0 && low == LowBitOf(Shr(bitmap, base))
    ensures base + low < NUM_BUCKETS && Pos(base + low, 1) in t.tree
    ensures FitsFrom(t, s, base + low)
  {
    var rest := Shr(bitmap, base);
    LowBitIsLowest(rest, 0);
    BitOfShr(bitmap, base, low);
    BitsBelowWord(bitmap, base + low);
    forall a | Fits(t, a, s) ensures HighBitOf(t.tag[a].size) >= base + low {
      FitHasRoot(t, bitmap, s, a);
      var i := HighBitOf(t.tag[a].size);
      BitOfShr(bitmap, base, i - base);
      LowBitIsLowest(rest, i - base);
    }
  }

  lemma RootIsGood(t: Tree, s: nat, j: nat, best: nat)
    requires t.Valid() && BlockSize(s) && j > HighBitOf(s) && FitsFrom(t, s, j)
    requires InBucket(t, best, j)
    ensures GoodFit(t, s, Blk(best))
  {
    var size := t.tag[best].size;
    if size == 0 { ShrZero(j); }
    HighBitIsHighest(size, j);
    if size <= s { HighBitMonotone(size, s); }
    assert Fits(t, best, s);
  }

  /** `zend_mm_search_large_block`, up to the ring member it finally takes. */
  method Search(slots: map<Slot, Ptr>, tag: map<nat, Tag>, bitmap: nat, s: nat, ghost t: Tree) returns (best: Ptr)
    requires t.Valid() && slots == t.slots && tag == t.tag
    requires MapsRoots(t, bitmap) && BlockSize(s)
    ensures GoodFit(t, s, best)
  {
    var index := HighBit(s);
    forall a | Fits(t, a, s) ensures HighBitOf(tag[a].size) >= index { FitHasRoot(t, bitmap, s, a); }
    var rest := Shr(bitmap, index);
    if rest == 0 {
      NoneLeft(t, bitmap, s, index);
      return Null;
    }
    BitOfShr(bitmap, index, 0);
    if rest % 2 != 0 {
      best := SearchBucket(slots, tag, s, index, t);
      if best != Null {
        InBucketIsGood(t, s, best.addr);
        return;
      }
      NextBucket(t, s, index);
      rest := rest / 2;
      index := index + 1;
      if rest == 0 {
        NoneLeft(t, bitmap, s, index);
        return Null;
      }
    }
    best := FirstAbove(slots, tag, bitmap, s, index, t);
  }

  /** A block of the lowest bucket from `index` on that is not empty. */
  method FirstAbove(slots: map<Slot, Ptr>, tag: map<nat, Tag>, bitmap: nat, s: nat, index: nat, ghost t: Tree)
    returns (best: Ptr)
    requires t.Valid() && slots == t.slots && tag == t.tag && MapsRoots(t, bitmap) && BlockSize(s)
    requires FitsFrom(t, s, index) && Shr(bitmap, index) > 0 && HighBitOf(s) <= index
    requires index == HighBitOf(s) ==> !Bit(bitmap, index)
    ensures GoodFit(t, s, best)
  {
    ShrMonotoneInShift(bitmap, 0, index);
    var low := LowBit(Shr(bitmap, index));
    LowestRoot(t, bitmap, s, index, low);
    assert index + low > HighBitOf(s);
    best := SearchRoot(slots, tag, index + low, t);
    RootIsGood(t, s, index + low, best.addr);
  }
}
