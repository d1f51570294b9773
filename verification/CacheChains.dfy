/** The cache: per small size a last-in first-out chain of blocks that were freed but are still
    marked used, linked through `prev_free_block`. */
module CacheChains {
  import opened Layout
  import opened Rings

  /** `chain`, bottom first, is threaded from `top` down through `prev`. */
  ghost predicate Threaded(prev: Links, top: Ptr, chain: seq<nat>) {
    && top == (if chain == [] then Null else Blk(chain[|chain| - 1]))
    && (forall j: nat {:trigger LinkAt(prev, chain, j)} :: j < |chain| ==> LinkAt(prev, chain, j))
    && (forall j, j' :: 0 <= j < j' < |chain| ==> chain[j] != chain[j'])
  }

  ghost predicate LinkAt(prev: Links, chain: seq<nat>, j: nat) {
    && j < |chain| && Blk(chain[j]) in prev
    && prev[Blk(chain[j])] == if j == 0 then Null else Blk(chain[j - 1])
  }

  lemma ThreadedPush(prev: Links, top: Ptr, chain: seq<nat>, a: nat)
    requires Threaded(prev, top, chain) && a !in chain
    ensures Threaded(prev[Blk(a) := top], Blk(a), chain + [a])
  {
    var prev', chain' := prev[Blk(a) := top], chain + [a];
    forall j: nat | j < |chain'| ensures LinkAt(prev', chain', j) {
      if j < |chain| { assert LinkAt(prev, chain, j); }
    }
  }

  lemma ThreadedPop(prev: Links, top: Ptr, chain: seq<nat>)
    requires Threaded(prev, top, chain) && chain != []
    ensures top in prev && Threaded(prev, prev[top], chain[..|chain| - 1])
    ensures forall x :: x in chain[..|chain| - 1] <==> x in chain && x != chain[|chain| - 1]
  {
    assert LinkAt(prev, chain, |chain| - 1);
    var c := chain[..|chain| - 1];
    assert chain == c + [chain[|chain| - 1]];
    forall j: nat | j < |c| ensures LinkAt(prev, c, j) { assert LinkAt(prev, chain, j); }
  }

  lemma ThreadedFrame(prev: Links, top: Ptr, chain: seq<nat>, prev': Links)
    requires Threaded(prev, top, chain)
    requires forall a :: a in chain && Blk(a) in prev ==> Blk(a) in prev' && prev'[Blk(a)] == prev[Blk(a)]
    ensures Threaded(prev', top, chain)
  {
    forall j: nat | j < |chain| ensures LinkAt(prev', chain, j) {
      assert LinkAt(prev, chain, j) && chain[j] in chain;
    }
  }

  /** Chain `i` holds exactly the cached blocks of the one size of index `i`. */
  ghost predicate ChainOk(prev: Links, cache: seq<Ptr>, chains: seq<seq<nat>>, cach: map<nat, nat>, i: nat) {
    && i < |cache| == |chains|
    && Threaded(prev, cache[i], chains[i])
    && (forall a {:trigger a in chains[i]} :: a in chains[i] <==> a in cach && cach[a] == BucketSize(i))
  }

  ghost predicate CacheOk(prev: Links, cache: seq<Ptr>, chains: seq<seq<nat>>, cach: map<nat, nat>) {
    && |cache| == |chains| == NUM_BUCKETS
    && (forall i: nat {:trigger ChainOk(prev, cache, chains, cach, i)} :: i < NUM_BUCKETS ==>
       ChainOk(prev, cache, chains, cach, i))
    && (forall a :: a in cach ==> BlockSize(cach[a]) && IsSmall(cach[a]))
  }

  lemma EmptyCache(prev: Links, cache: seq<Ptr>, chains: seq<seq<nat>>)
    requires |cache| == |chains| == NUM_BUCKETS
    requires forall i :: 0 <= i < NUM_BUCKETS ==> cache[i] == Null && chains[i] == []
    ensures CacheOk(prev, cache, chains, map[])
  {
    forall i: nat | i < NUM_BUCKETS ensures ChainOk(prev, cache, chains, map[], i) { }
  }

  lemma Push(prev: Links, cache: seq<Ptr>, chains: seq<seq<nat>>, cach: map<nat, nat>, a: nat, size: nat)
    requires CacheOk(prev, cache, chains, cach) && a !in cach && BlockSize(size) && IsSmall(size)
    ensures var i := BucketIndex(size);
            CacheOk(prev[Blk(a) := cache[i]], cache[i := Blk(a)], chains[i := chains[i] + [a]], cach[a := size])
  {
    var i := BucketIndex(size);
    var prev', cache', chains', cach' := prev[Blk(a) := cache[i]], cache[i := Blk(a)], chains[i := chains[i] + [a]],
      cach[a := size];
    forall k: nat | k < NUM_BUCKETS ensures ChainOk(prev', cache', chains', cach', k) {
      assert ChainOk(prev, cache, chains, cach, k);
      assert a !in chains[k];
      if k == i {
        ThreadedPush(prev, cache[i], chains[i], a);
      } else {
        ThreadedFrame(prev, cache[k], chains[k], prev');
      }
    }
  }

  /** The top of a non-empty chain, and the block below it. */
  lemma Top(prev: Links, cache: seq<Ptr>, chains: seq<seq<nat>>, cach: map<nat, nat>, i: nat)
    requires CacheOk(prev, cache, chains, cach) && i < NUM_BUCKETS && cache[i] != Null
    ensures cache[i].Blk? && cache[i] in prev && cache[i].addr in cach && cach[cache[i].addr] == BucketSize(i)
    ensures chains[i] != [] && chains[i][|chains[i]| - 1] == cache[i].addr
  {
    assert ChainOk(prev, cache, chains, cach, i);
    var c := chains[i];
    assert c[|c| - 1] in c && LinkAt(prev, c, |c| - 1);
  }

  lemma Pop(prev: Links, cache: seq<Ptr>, chains: seq<seq<nat>>, cach: map<nat, nat>, i: nat)
    requires CacheOk(prev, cache, chains, cach) && i < NUM_BUCKETS && cache[i] != Null
    requires cache[i].Blk? && cache[i] in prev && chains[i] != []
    ensures CacheOk(prev, cache[i := prev[cache[i]]], chains[i := chains[i][..|chains[i]| - 1]], cach - {cache[i].addr})
  {
    Top(prev, cache, chains, cach, i);
    var a := cache[i].addr;
    var c := chains[i];
    var cache', chains', cach' := cache[i := prev[cache[i]]], chains[i := c[..|c| - 1]], cach - {a};
    forall k: nat | k < NUM_BUCKETS ensures ChainOk(prev, cache', chains', cach', k) {
      assert ChainOk(prev, cache, chains, cach, k);
      if k == i {
        ThreadedPop(prev, cache[i], c);
        forall x ensures x in chains'[i] <==> x in cach' && cach'[x] == BucketSize(i) {
          assert x in c[..|c| - 1] <==> x in c && x != a;
        }
      } else {
        forall x ensures x in chains'[k] <==> x in cach' && cach'[x] == BucketSize(k) {
          assert x in chains[k] <==> x in cach && cach[x] == BucketSize(k);
        }
      }
    }
  }

  /** The chains only depend on the links of cached blocks. */
  lemma CacheFrame(prev: Links, cache: seq<Ptr>, chains: seq<seq<nat>>, cach: map<nat, nat>, prev': Links)
    requires CacheOk(prev, cache, chains, cach)
    requires forall a :: a in cach && Blk(a) in prev ==> Blk(a) in prev' && prev'[Blk(a)] == prev[Blk(a)]
    ensures CacheOk(prev', cache, chains, cach)
  {
    forall i: nat | i < NUM_BUCKETS ensures ChainOk(prev', cache, chains, cach, i) {
      assert ChainOk(prev, cache, chains, cach, i);
      ThreadedFrame(prev, cache[i], chains[i], prev');
    }
  }
}
