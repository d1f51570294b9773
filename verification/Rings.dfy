/** The circular doubly linked lists of free blocks. A list is threaded through
    `prev_free_block` and `next_free_block` from a head: a sentinel inside the heap
    (a small bucket, the rest list) or a tree node of a large bucket. */
module Rings {

  /** What a `zend_mm_free_block *` can be: a block header at an address, or one of the
      sentinels that the heap overlays on `free_buckets` and `rest_buckets`. */
  datatype Ptr = Null | Blk(addr: nat) | Small(i: nat) | Rest

  type Links = map<Ptr, Ptr>

  /** The two link fields, with the head of the list each node is in (a head is its own home)
      and a rank that falls from node to node until the head is reached. */
  datatype Lists = Lists(prev: Links, next: Links, home: Links, rank: map<Ptr, nat>) {

    ghost predicate Linked(p: Ptr) {
      && p in home && p in prev && p in next
      && prev[p] in home && prev[p] in next && next[prev[p]] == p && home[prev[p]] == home[p]
      && next[p] in home && next[p] in prev && prev[next[p]] == p && home[next[p]] == home[p]
      && home[p] in home && home[home[p]] == home[p]
      && (p != home[p] ==> p.Blk? && p in rank && Falls(p, Onward(p)))
    }

    /** The link along which ranks fall: the rest list grows at its other end. */
    ghost function Onward(p: Ptr): Ptr
      requires p in home && p in prev && p in next
    {
      if home[p] == Rest then prev[p] else next[p]
    }

    ghost predicate Falls(p: Ptr, q: Ptr)
      requires p in home && p in rank
    {
      q == home[p] || (q in rank && rank[q] < rank[p])
    }

    /** Every list is closed under both links, which undo each other, and leads to its head. */
    ghost predicate Valid() {
      forall p {:trigger Linked(p)} :: p in home ==> Linked(p)
    }

    /** Following the links from `p` leads to `h` in `steps` steps. */
    ghost predicate Leads(p: Ptr, h: Ptr, steps: nat)
      decreases steps
    {
      if steps == 0 then p == h
      else p in home && p in prev && p in next && Leads(Onward(p), h, steps - 1)
    }
  }

  lemma {:induction false} EveryNodeLeadsHome(r: Lists, p: Ptr) returns (steps: nat)
    requires r.Valid() && p in r.home
    ensures r.Leads(p, r.home[p], steps)
    decreases if p == r.home[p] || p !in r.rank then 0 else r.rank[p] + 1
  {
    assert r.Linked(p);
    if p == r.home[p] {
      steps := 0;
    } else {
      assert r.Linked(r.Onward(p));
      var n := EveryNodeLeadsHome(r, r.Onward(p));
      steps := n + 1;
    }
  }

  /** A head whose links point at itself has no other member. */
  lemma {:induction false} LonelyHead(r: Lists, h: Ptr, p: Ptr)
    requires r.Valid() && p in r.home && r.home[p] == h
    requires h in r.prev && h in r.next && (r.prev[h] == h || r.next[h] == h)
    ensures p == h
    decreases if p == h || p !in r.rank then 0 else r.rank[p] + 1
  {
    assert r.Linked(p);
    if p != h {
      assert r.Linked(h);
      assert r.Linked(r.Onward(p));
      LonelyHead(r, h, r.Onward(p));
    }
  }

  // ---------------------------------------------------------------- updates

  /** `b` linked in right behind the head of its list. */
  function InsertedFront(r: Lists, h: Ptr, b: Ptr): Lists
    requires h in r.next && (r.next[h] == h || r.next[h] in r.rank)
  {
    var n := r.next[h];
    Lists(r.prev[b := h][n := b], r.next[b := n][h := b], r.home[b := h],
          r.rank[b := if n == h then 0 else r.rank[n] + 1])
  }

  lemma InsertFront(r: Lists, h: Ptr, b: Ptr)
    requires r.Valid()
    requires h in r.home && r.home[h] == h && h != Rest && b.Blk? && b !in r.home
    ensures h in r.next && (r.next[h] == h || r.next[h] in r.rank)
    ensures InsertedFront(r, h, b).Valid()
  {
    assert r.Linked(h) && r.Linked(r.next[h]);
    var r' := InsertedFront(r, h, b);
    forall p | p in r'.home ensures r'.Linked(p) {
      if p != b {
        assert r.Linked(p);
      }
    }
  }

  /** `b` linked in before the head of the rest list, behind its last block. */
  function InsertedBack(r: Lists, b: Ptr): Lists
    requires Rest in r.prev && (r.prev[Rest] == Rest || r.prev[Rest] in r.rank)
  {
    var p := r.prev[Rest];
    Lists(r.prev[b := p][Rest := b], r.next[b := Rest][p := b], r.home[b := Rest],
          r.rank[b := if p == Rest then 0 else r.rank[p] + 1])
  }

  lemma InsertBack(r: Lists, b: Ptr)
    requires r.Valid()
    requires Rest in r.home && r.home[Rest] == Rest && b.Blk? && b !in r.home
    ensures Rest in r.prev && (r.prev[Rest] == Rest || r.prev[Rest] in r.rank)
    ensures InsertedBack(r, b).Valid()
  {
    assert r.Linked(Rest) && r.Linked(r.prev[Rest]);
    var r' := InsertedBack(r, b);
    forall p | p in r'.home ensures r'.Linked(p) {
      if p != b {
        assert r.Linked(p);
      }
    }
  }

  /** The two assignments that take `b` out of its list. */
  function Unlinked(r: Lists, b: Ptr, home': Links): Lists
    requires b in r.prev && b in r.next
  {
    Lists(r.prev[r.next[b] := r.prev[b]], r.next[r.prev[b] := r.next[b]], home', r.rank)
  }

  /** A member other than the head unlinked. */
  lemma RemoveMember(r: Lists, b: Ptr)
    requires r.Valid() && b in r.home && r.home[b] != b
    ensures b in r.prev && b in r.next
    ensures Unlinked(r, b, r.home - {b}).Valid()
  {
    assert r.Linked(b) && r.Linked(r.prev[b]) && r.Linked(r.next[b]);
    var r' := Unlinked(r, b, r.home - {b});
    forall p | p in r'.home ensures r'.Linked(p) {
      assert r.Linked(p);
    }
  }

  /** A block made a list of its own. */
  lemma AddHead(r: Lists, b: Ptr)
    requires r.Valid() && b !in r.home
    ensures Lists(r.prev[b := b], r.next[b := b], r.home[b := b], r.rank).Valid()
  {
    var r' := Lists(r.prev[b := b], r.next[b := b], r.home[b := b], r.rank);
    forall p | p in r'.home ensures r'.Linked(p) {
      if p != b {
        assert r.Linked(p);
      }
    }
  }

  /** A list of one block taken away; its links are left as they are. */
  lemma DropHead(r: Lists, b: Ptr)
    requires r.Valid() && b in r.home && r.home[b] == b && b in r.prev && r.prev[b] == b
    ensures Lists(r.prev, r.next, r.home - {b}, r.rank).Valid()
  {
    assert r.Linked(b);
    var r' := Lists(r.prev, r.next, r.home - {b}, r.rank);
    forall p | p in r'.home ensures r'.Linked(p) {
      assert r.Linked(p);
      if r.home[p] == b { LonelyHead(r, b, p); }
    }
  }

  ghost function Rehomed(home: Links, b: Ptr, x: Ptr): Links {
    map p | p in home && p != b :: if home[p] == b then x else home[p]
  }

  /** The head of a longer list unlinked; the node before it becomes the head. */
  lemma SwapHead(r: Lists, b: Ptr)
    requires r.Valid() && b in r.home && r.home[b] == b && b != Rest
    requires b in r.prev && r.prev[b] != b
    ensures b in r.next && r.prev[b] in r.home && r.home[r.prev[b]] == b
    ensures Unlinked(r, b, Rehomed(r.home, b, r.prev[b])).Valid()
  {
    assert r.Linked(b) && r.Linked(r.prev[b]) && r.Linked(r.next[b]);
    var r' := Unlinked(r, b, Rehomed(r.home, b, r.prev[b]));
    forall p | p in r'.home ensures r'.Linked(p) {
      assert r.Linked(p);
    }
  }

  /** A link word of a block in no list may hold anything. */
  lemma StrayLink(r: Lists, b: Ptr, p: Ptr)
    requires r.Valid() && b !in r.home
    ensures r.(prev := r.prev[b := p]).Valid()
  {
    var r' := r.(prev := r.prev[b := p]);
    forall q | q in r'.home ensures r'.Linked(q) { assert r.Linked(q); }
  }
}
