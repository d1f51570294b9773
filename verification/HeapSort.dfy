/** The in-place heap sort of the benchmark script: elements 1 to n of an array, with one loop that
    first builds the heap and then takes its maximum away, sifting through a hole. */
module HeapSort {

  /** The element at `k` is at most its parent. */
  ghost predicate Below(s: seq<real>, k: nat) {
    2 <= k < |s| ==> s[k / 2] >= s[k]
  }

  /** Above position `l`, every element up to `ir` is at most its parent. */
  ghost predicate IsHeap(s: seq<real>, l: nat, ir: nat)
    requires ir < |s|
  {
    forall k: nat {:trigger Below(s, k)} :: 2 * l <= k <= ir ==> Below(s, k)
  }

  /** The same but for the children of the hole `i`, as long as the hole is still at `l`; further
      down the hole repeats its parent, which is larger than the element `x` to be placed. */
  ghost predicate IsHeapBut(s: seq<real>, l: nat, ir: nat, i: nat, x: real)
    requires 1 <= l <= i && ir < |s|
  {
    && (forall k: nat {:trigger Below(s, k)} :: 2 * l <= k <= ir && (k / 2 != i || i != l) ==> Below(s, k))
    && (i != l ==> i <= ir && 2 * l <= i && x < s[i / 2])
  }

  /** Positions `ir + 1` to `n` are sorted, and nothing before them is larger. */
  ghost predicate Done(s: seq<real>, ir: nat, n: nat)
    requires ir <= n < |s|
  {
    && (forall p, q :: ir < p <= q <= n ==> s[p] <= s[q])
    && (forall p, q :: 1 <= p <= ir < q <= n ==> s[p] <= s[q])
  }

  lemma {:induction false} RootIsMaximum(s: seq<real>, ir: nat, k: nat)
    requires ir < |s| && IsHeap(s, 1, ir) && 1 <= k <= ir
    ensures s[1] >= s[k]
  {
    if k > 1 {
      RootIsMaximum(s, ir, k / 2);
      assert Below(s, k);
    }
  }

  lemma HoleMoves(s: seq<real>, i: nat, j: nat, x: real)
    requires i < |s| && j < |s| && i != j
    ensures multiset(s[i := s[j]][j := x]) == multiset(s[i := x])
  {
    var s1 := s[i := s[j]];
    assert s1[j] == s[j];
    assert multiset(s1[j := x]) == multiset(s1) - multiset{s1[j]} + multiset{x};
  }

  lemma SiftStep(s: seq<real>, l: nat, ir: nat, i: nat, j: nat, x: real)
    requires 1 <= l <= i <= ir < |s| && IsHeapBut(s, l, ir, i, x)
    requires 2 * i <= j <= 2 * i + 1 && j <= ir && x < s[j]
    requires forall k :: 2 * i <= k <= 2 * i + 1 && k <= ir ==> s[k] <= s[j]
    ensures IsHeapBut(s[i := s[j]], l, ir, j, x)
  {
    var s' := s[i := s[j]];
    forall k: nat | 2 * l <= k <= ir && (k / 2 != j || j != l) ensures Below(s', k) {
      if k / 2 == i {
        assert 2 * i <= k <= 2 * i + 1;
      } else if k == i {
        assert Below(s, i) && Below(s, j);
      } else {
        assert Below(s, k);
      }
    }
  }

  lemma SiftEnd(s: seq<real>, l: nat, ir: nat, i: nat, x: real)
    requires 1 <= l <= i <= ir < |s| && IsHeapBut(s, l, ir, i, x)
    requires forall k :: 2 * i <= k <= 2 * i + 1 && k <= ir ==> s[k] <= x
    ensures IsHeap(s[i := x], l, ir)
  {
    var s' := s[i := x];
    forall k: nat | 2 * l <= k <= ir ensures Below(s', k) {
      if k / 2 == i {
        assert 2 * i <= k <= 2 * i + 1;
      } else if k != i {
        assert Below(s, k);
      }
    }
  }

  /** `s` differs from `s0` between `l` and `ir` only. */
  ghost predicate Same(s0: seq<real>, s: seq<real>, l: nat, ir: nat) {
    |s| == |s0| && forall k :: 0 <= k < |s| && !(l <= k <= ir) ==> s[k] == s0[k]
  }

  /** No child of `i` is larger than `x`. */
  ghost predicate Tops(s: seq<real>, i: nat, ir: nat, x: real)
    requires ir < |s|
  {
    forall k :: 2 * i <= k <= 2 * i + 1 && k <= ir ==> s[k] <= x
  }

  /** The hole started at `l` of `s0` and is at `i` of `s`; `j` is its first child, or past the end. */
  ghost predicate Sifting(s0: seq<real>, s: seq<real>, l: nat, ir: nat, n: nat, i: nat, j: nat, x: real) {
    && 1 <= l <= i <= ir <= n < |s| && Same(s0, s, l, ir) && (j == 2 * i || (j == ir + 1 && Tops(s, i, ir, x)))
    && IsHeapBut(s, l, ir, i, x) && Done(s, ir, n) && (forall q :: ir < q <= n ==> x <= s[q])
    && multiset(s[i := x]) == multiset(s0[l := x])
  }

  lemma SiftMoves(s0: seq<real>, s: seq<real>, l: nat, ir: nat, n: nat, i: nat, j: nat, x: real)
    requires Sifting(s0, s, l, ir, n, i, 2 * i, x) && 2 * i <= j <= 2 * i + 1 && j <= ir && x < s[j] &&
             Tops(s, i, ir, s[j])
    ensures Sifting(s0, s[i := s[j]], l, ir, n, j, 2 * j, x)
  {
    SiftStep(s, l, ir, i, j, x);
    HoleMoves(s, i, j, x);
  }

  /** `x` placed: what the inner loop makes of `s0`. */
  ghost predicate Sifted(s0: seq<real>, s: seq<real>, l: nat, ir: nat, n: nat, x: real) {
    && 1 <= l <= ir <= n < |s| && Same(s0, s, l, ir) && IsHeap(s, l, ir) && Done(s, ir, n)
    && multiset(s) == multiset(s0[l := x])
  }

  lemma SiftEnds(s0: seq<real>, s: seq<real>, l: nat, ir: nat, n: nat, i: nat, x: real)
    requires Sifting(s0, s, l, ir, n, i, ir + 1, x) || (Sifting(s0, s, l, ir, n, i, 2 * i, x) && ir < 2 * i)
    ensures Sifted(s0, s[i := x], l, ir, n, x)
  {
    SiftEnd(s, l, ir, i, x);
  }

  /** The inner loop: `x` placed at `l` or below, into the hole at `l`. */
  method Sift(a: array<real>, l: nat, ir: nat, n: nat, x: real)
    requires 1 <= l <= ir <= n < a.Length && IsHeap(a[..], l + 1, ir) && Done(a[..], ir, n)
    requires forall q :: ir < q <= n ==> x <= a[q]
    modifies a
    ensures Sifted(old(a[..]), a[..], l, ir, n, x)
  {
    var i, j := l, 2 * l;
    while j <= ir
      invariant Sifting(old(a[..]), a[..], l, ir, n, i, j, x)
      decreases ir + 1 - j
    {
      if j < ir && a[j] < a[j + 1] {
        j := j + 1;
      }
      assert Tops(a[..], i, ir, a[j]);
      if x < a[j] {
        SiftMoves(old(a[..]), a[..], l, ir, n, i, j, x);
        a[i] := a[j];
        i := j;
        j := j + i;
      } else {
        j := ir + 1;
      }
    }
    SiftEnds(old(a[..]), a[..], l, ir, n, i, x);
    a[i] := x;
  }

  lemma Cancel(a: multiset<real>, b: multiset<real>, t: multiset<real>)
    requires a + t == b + t
    ensures a == b
  {
    forall x ensures a[x] == b[x] { assert (a + t)[x] == (b + t)[x]; }
  }

  lemma Parts(s: seq<real>, n: nat)
    requires n < |s|
    ensures multiset(s) == multiset(s[1..n + 1]) + (multiset{s[0]} + multiset(s[n + 1..]))
  {
    var m, t := s[1..n + 1], s[n + 1..];
    assert s == [s[0]] + (m + t);
    assert multiset(m + t) == multiset(m) + multiset(t);
  }

  lemma TailPermutes(s: seq<real>, s': seq<real>, n: nat)
    requires n < |s| == |s'| && multiset(s) == multiset(s') && s[0] == s'[0]
    requires forall k :: n < k < |s| ==> s[k] == s'[k]
    ensures multiset(s[1..n + 1]) == multiset(s'[1..n + 1])
  {
    Parts(s, n);
    Parts(s', n);
    assert s[n + 1..] == s'[n + 1..];
    Cancel(multiset(s[1..n + 1]), multiset(s'[1..n + 1]), multiset{s[0]} + multiset(s[n + 1..]));
  }

  /** Between rounds: positions up to `ir` a heap above `l`, the rest in its final place. */
  ghost predicate Sorting(s0: seq<real>, s: seq<real>, l: nat, ir: nat, n: nat) {
    && 2 <= n < |s| && Same(s0, s, 1, n) && multiset(s) == multiset(s0)
    && 1 <= l <= n / 2 + 1 && 1 <= ir <= n && (l > 1 ==> ir == n) && IsHeap(s, l, ir) && Done(s, ir, n)
  }

  lemma Shifted(s0: seq<real>, s: seq<real>, l: nat, ir: nat, n: nat, s': seq<real>)
    requires Sorting(s0, s, l, ir, n) && Sifted(s, s', l - 1, ir, n, s[l - 1])
    ensures Sorting(s0, s', l - 1, ir, n)
  {
    assert s[l - 1 := s[l - 1]] == s;
  }

  /** `t` is `s` with the maximum moved behind the heap; `s[ir]` is to be sifted in at the root. */
  ghost predicate ReadyToSift(s0: seq<real>, t: seq<real>, ir: nat, n: nat, x: real) {
    && 1 <= ir <= n && 2 <= n < |t| && IsHeap(t, 2, ir) && Done(t, ir, n) && (forall q :: ir < q <= n ==> x <= t[q])
    && multiset(t[1 := x]) == multiset(s0) && Same(s0, t, 1, n)
  }

  lemma MaximumBehind(s: seq<real>, ir: nat, n: nat)
    requires 2 <= ir <= n < |s| && IsHeap(s, 1, ir) && Done(s, ir, n)
    ensures var t := s[ir := s[1]]; Done(t, ir - 1, n) && forall q :: ir - 1 < q <= n ==> s[ir] <= t[q]
  {
    forall k | 1 <= k <= ir ensures s[1] >= s[k] { RootIsMaximum(s, ir, k); }
  }

  lemma StillHeap(s: seq<real>, ir: nat)
    requires 2 <= ir < |s| && IsHeap(s, 1, ir)
    ensures IsHeap(s[ir := s[1]], 2, ir - 1)
  {
    var t := s[ir := s[1]];
    forall k: nat | 4 <= k <= ir - 1 ensures Below(t, k) { assert Below(s, k); }
  }

  lemma MaximumMoved(s0: seq<real>, s: seq<real>, ir: nat, n: nat)
    requires Sorting(s0, s, 1, ir, n) && 2 <= ir
    ensures ReadyToSift(s0, s[ir := s[1]], ir - 1, n, s[ir])
  {
    MaximumBehind(s, ir, n);
    StillHeap(s, ir);
    HoleMoves(s, ir, 1, s[ir]);
    assert s[ir := s[ir]] == s;
  }

  lemma Started(s: seq<real>, n: nat)
    requires 2 <= n < |s|
    ensures Sorting(s, s, n / 2 + 1, n, n)
  {
  }

  lemma Extracted(s0: seq<real>, t: seq<real>, ir: nat, n: nat, x: real, s: seq<real>)
    requires ReadyToSift(s0, t, ir, n, x) && Sifted(t, s, 1, ir, n, x)
    ensures Sorting(s0, s, 1, ir, n)
  {
  }

  /** Elements 1 to `n` of `s` are a sorted permutation of those of `s0`, and the others are untouched. */
  ghost predicate Sorted(s0: seq<real>, s: seq<real>, n: nat) {
    && n < |s| == |s0| && (forall p, q :: 1 <= p <= q <= n ==> s[p] <= s[q])
    && multiset(s[1..n + 1]) == multiset(s0[1..n + 1]) && Same(s0, s, 1, n)
  }

  /** With one element left of the heap all is sorted. */
  lemma AllSorted(s0: seq<real>, t: seq<real>, n: nat, x: real)
    requires ReadyToSift(s0, t, 1, n, x)
    ensures Sorted(s0, t[1 := x], n)
  {
    TailPermutes(t[1 := x], s0, n);
  }

  /** One round of heap building. */
  method Build(a: array<real>, l: nat, n: nat, ghost s0: seq<real>)
    requires l > 1 && Sorting(s0, a[..], l, n, n)
    modifies a
    ensures Sorting(s0, a[..], l - 1, n, n)
  {
    ghost var s := a[..];
    Sift(a, l - 1, n, n, a[l - 1]);
    Shifted(s0, s, l, n, n, a[..]);
  }

  /** The maximum moved behind the heap, which it leaves with a hole at the root for the element `x`. */
  method TakeMaximum(a: array<real>, ir: nat, n: nat, ghost s0: seq<real>) returns (x: real)
    requires 2 <= ir && Sorting(s0, a[..], 1, ir, n)
    modifies a
    ensures ReadyToSift(s0, a[..], ir - 1, n, x)
  {
    ghost var s := a[..];
    MaximumMoved(s0, s, ir, n);
    x := a[ir];
    a[ir] := a[1];
    assert a[..] == s[ir := s[1]];
  }

  /** The element `x` sifted down from the root. */
  method Refill(a: array<real>, ir: nat, n: nat, x: real, ghost s0: seq<real>)
    requires 1 <= ir && ReadyToSift(s0, a[..], ir, n, x)
    modifies a
    ensures Sorting(s0, a[..], 1, ir, n)
  {
    ghost var t := a[..];
    Sift(a, 1, ir, n, x);
    Extracted(s0, t, ir, n, x, a[..]);
  }

  /** One round of extraction; the last one leaves the array sorted. */
  method Extract(a: array<real>, ir: nat, n: nat, ghost s0: seq<real>)
    requires 2 <= ir && Sorting(s0, a[..], 1, ir, n)
    modifies a
    ensures if ir == 2 then Sorted(s0, a[..], n) else Sorting(s0, a[..], 1, ir - 1, n)
  {
    var x := TakeMaximum(a, ir, n, s0);
    if ir == 2 {
      AllSorted(s0, a[..], n, x);
      ghost var t := a[..];
      a[1] := x;
      assert a[..] == t[1 := x];
    } else {
      Refill(a, ir - 1, n, x, s0);
    }
  }

  /** `heapsort_r` */
  method Sort(n: nat, a: array<real>)
    requires 2 <= n < a.Length
    modifies a
    ensures Sorted(old(a[..]), a[..], n)
  {
    ghost var s0 := a[..];
    var l: nat, ir: nat := n / 2 + 1, n;
    Started(s0, n);
    while true
      invariant Sorting(s0, a[..], l, ir, n) && 2 <= ir
      decreases l + ir
    {
      if l > 1 {
        Build(a, l, n, s0);
        l := l - 1;
      } else {
        Extract(a, ir, n, s0);
        ir := ir - 1;
        if ir == 1 {
          return;
        }
      }
    }
  }

  // ---------------------------------------------------------------- when the loop ends

  /** The two counters of the outer loop, which alone decide when it ends. */
  datatype Counters = Counters(l: int, ir: int)

  /** The counters before round `k`. */
  ghost function At(n: nat, k: nat): Counters {
    if k == 0 then Counters(n / 2 + 1, n)
    else
      var c := At(n, k - 1);
      if c.l > 1 then c.(l := c.l - 1) else c.(ir := c.ir - 1)
  }

  /** The round returns: the last element but one was taken away. */
  ghost predicate Returns(c: Counters) {
    c.l <= 1 && c.ir - 1 == 1
  }

  lemma {:induction false} CountersAt(n: nat, k: nat)
    ensures At(n, k) == if k <= n / 2 then Counters(n / 2 + 1 - k, n) else Counters(1, n - (k - n / 2))
  {
    if k > 0 { CountersAt(n, k - 1); }
  }

  /** The sort ends exactly if it has at least two elements; for none or one the source loops for ever. */
  lemma EndsExactly(n: nat)
    ensures (exists k :: Returns(At(n, k))) <==> n >= 2
  {
    if n >= 2 {
      CountersAt(n, n / 2 + n - 2);
      assert Returns(At(n, n / 2 + n - 2));
    } else {
      forall k ensures !Returns(At(n, k)) { CountersAt(n, k); }
    }
  }
}
