/** Bit arithmetic on machine words kept as naturals: shifts, single-bit updates
    of the heap's bitmaps, and the portable bit scans of the memory manager. */
module Bits {

  /** 2^64: one past the largest `size_t`. */
  const WORD: nat := 0x1_0000_0000_0000_0000

  function Pow2(n: nat): (r: nat)
    ensures r >= 1
  {
    if n == 0 then 1 else 2 * Pow2(n - 1)
  }

  /** `s >> k`. */
  function Shr(s: nat, k: nat): nat {
    if k == 0 then s else Shr(s, k - 1) / 2
  }

  /** Bit `i` of the word `b`. */
  predicate Bit(b: nat, i: nat) {
    Shr(b, i) % 2 == 1
  }

  /** `b | (1 << i)`. */
  function SetBit(b: nat, i: nat): nat {
    if i == 0 then b - b % 2 + 1 else 2 * SetBit(b / 2, i - 1) + b % 2
  }

  /** `b & ~(1 << i)`. */
  function ClearBit(b: nat, i: nat): nat {
    if i == 0 then b - b % 2 else 2 * ClearBit(b / 2, i - 1) + b % 2
  }

  // ---------------------------------------------------------------- shifts

  lemma {:induction false} ShrInner(s: nat, k: nat)
    requires k > 0
    ensures Shr(s, k) == Shr(s / 2, k - 1)
  {
    if k > 1 {
      ShrInner(s, k - 1);
    }
  }

  lemma {:induction false} ShrSum(s: nat, j: nat, k: nat)
    ensures Shr(Shr(s, j), k) == Shr(s, j + k)
  {
    if k > 0 {
      ShrSum(s, j, k - 1);
    }
  }

  lemma {:induction false} ShrMonotone(s: nat, t: nat, k: nat)
    requires s <= t
    ensures Shr(s, k) <= Shr(t, k)
  {
    if k > 0 {
      ShrMonotone(s, t, k - 1);
    }
  }

  lemma {:induction false} ShrZero(k: nat)
    ensures Shr(0, k) == 0
  {
    if k > 0 {
      ShrZero(k - 1);
    }
  }

  /** Once a word has been shifted down to one, any further shift gives zero. */
  lemma {:induction false} ShrBeyond(s: nat, i: nat, j: nat)
    requires Shr(s, i) <= 1 && i < j
    ensures Shr(s, j) == 0
  {
    if i + 1 < j {
      ShrBeyond(s, i, j - 1);
    }
  }

  lemma ShrUnique(s: nat, i: nat, j: nat)
    requires Shr(s, i) == 1 && Shr(s, j) == 1
    ensures i == j
  {
    if i < j { ShrBeyond(s, i, j); }
    if j < i { ShrBeyond(s, j, i); }
  }

  lemma {:induction false} ShrPow2(s: nat, k: nat)
    ensures Shr(s, k) * Pow2(k) <= s < (Shr(s, k) + 1) * Pow2(k)
  {
    if k > 0 {
      ShrPow2(s, k - 1);
      var q := Shr(s, k - 1);
      var p := Pow2(k - 1);
      assert Shr(s, k) == q / 2;
      assert 2 * (q / 2) <= q <= 2 * (q / 2) + 1;
      ScaleLe(2 * (q / 2), q, p);
      ScaleLe(q + 1, 2 * (q / 2) + 2, p);
      Regroup(q / 2, p);
      Regroup(q / 2 + 1, p);
    }
  }

  lemma ScaleLe(a: nat, b: nat, p: nat)
    requires a <= b
    ensures a * p <= b * p
  {
  }

  lemma Regroup(a: nat, p: nat)
    ensures (2 * a) * p == a * (2 * p)
  {
  }

  // ---------------------------------------------------------------- bitmaps

  lemma {:induction false} SetBitSpec(b: nat, i: nat, j: nat)
    ensures Bit(SetBit(b, i), j) <==> i == j || Bit(b, j)
  {
    if j > 0 { ShrInner(SetBit(b, i), j); ShrInner(b, j); }
    if i > 0 && j > 0 {
      SetBitSpec(b / 2, i - 1, j - 1);
      assert SetBit(b, i) / 2 == SetBit(b / 2, i - 1);
    } else if i == 0 && j > 0 {
      assert SetBit(b, i) / 2 == b / 2;
    }
  }

  lemma {:induction false} ClearBitSpec(b: nat, i: nat, j: nat)
    ensures Bit(ClearBit(b, i), j) <==> i != j && Bit(b, j)
  {
    if j > 0 { ShrInner(ClearBit(b, i), j); ShrInner(b, j); }
    if i > 0 && j > 0 {
      ClearBitSpec(b / 2, i - 1, j - 1);
      assert ClearBit(b, i) / 2 == ClearBit(b / 2, i - 1);
    } else if i == 0 && j > 0 {
      assert ClearBit(b, i) / 2 == b / 2;
    }
  }

  lemma BitOfShr(b: nat, i: nat, j: nat)
    ensures Bit(Shr(b, i), j) == Bit(b, i + j)
  {
    ShrSum(b, i, j);
  }

  // ---------------------------------------------------------------- highest set bit

  function HighBitOf(s: nat): nat {
    if s <= 1 then 0 else 1 + HighBitOf(s / 2)
  }

  lemma {:induction false} HighBitShr(s: nat)
    requires s > 0
    ensures Shr(s, HighBitOf(s)) == 1
  {
    if s > 1 {
      HighBitShr(s / 2);
      ShrInner(s, HighBitOf(s));
    }
  }

  /** `HighBitOf` is the position of the highest set bit, and of nothing else. */
  lemma HighBitIsHighest(s: nat, i: nat)
    requires s > 0
    ensures Shr(s, i) == 1 <==> i == HighBitOf(s)
    ensures Bit(s, HighBitOf(s))
    ensures i > HighBitOf(s) ==> !Bit(s, i)
  {
    HighBitShr(s);
    if Shr(s, i) == 1 { ShrUnique(s, i, HighBitOf(s)); }
    if i > HighBitOf(s) { ShrBeyond(s, HighBitOf(s), i); }
  }

  lemma {:induction false} HighBitBound(s: nat, n: nat)
    requires 0 < s < Pow2(n)
    ensures HighBitOf(s) < n
  {
    if s > 1 {
      HighBitBound(s / 2, n - 1);
    }
  }

  lemma Pow2Word()
    ensures Pow2(64) == WORD
    ensures Pow2(63) == 0x8000_0000_0000_0000
  {
    assert Pow2(8) == 256;
    Pow2Sum(8, 8); Pow2Sum(16, 16); Pow2Sum(32, 32);
    assert Pow2(64) == 2 * Pow2(63);
  }

  lemma Twice(p: nat, q: nat)
    ensures p * (2 * q) == 2 * (p * q)
  {
  }

  lemma {:induction false} Pow2Sum(m: nat, n: nat)
    ensures Pow2(m + n) == Pow2(m) * Pow2(n)
  {
    if n > 0 {
      Pow2Sum(m, n - 1);
      Twice(Pow2(m), Pow2(n - 1));
    }
  }

  lemma HighBitOfWord(s: nat)
    requires 0 < s < WORD
    ensures HighBitOf(s) < 64
  {
    Pow2Word();
    HighBitBound(s, 64);
  }

  lemma {:induction false} HighBitMonotone(s: nat, t: nat)
    requires s <= t
    ensures HighBitOf(s) <= HighBitOf(t)
  {
    if s > 1 {
      HighBitMonotone(s / 2, t / 2);
    }
  }

  /** Two words with the same highest bit differ by less than a factor of two. */
  lemma {:induction false} SameHighBitWithinTwo(s: nat, t: nat)
    requires s > 0 && t > 0 && HighBitOf(s) == HighBitOf(t)
    ensures t < 2 * s
  {
    HighBitShr(s); HighBitShr(t);
    var k := HighBitOf(s);
    ShrPow2(s, k); ShrPow2(t, k);
  }

  /** The portable loop of `zend_mm_high_bit`; for zero the unsigned `n - 1` wraps. */
  method HighBit(size: nat) returns (r: nat)
    requires size < WORD
    ensures size > 0 ==> r == HighBitOf(size) && r < 64
    ensures size == 0 ==> r == 0xFFFF_FFFF
  {
    var n := 0;
    var s := size;
    while s != 0
      invariant s == Shr(size, n)
      invariant size > 0 ==> n <= HighBitOf(size) + 1
      invariant size == 0 ==> n == 0
      decreases s
    {
      ghost var h := HighBitOf(size);
      HighBitShr(size);
      if n > h { ShrBeyond(size, h, n); }
      s := s / 2;
      n := n + 1;
    }
    if size > 0 {
      HighBitShr(size);
      HighBitOfWord(size);
      if n <= HighBitOf(size) {
        ShrMonotoneInShift(size, n, HighBitOf(size));
      }
    }
    r := if n == 0 then 0xFFFF_FFFF else n - 1;
  }

  lemma {:induction false} ShrMonotoneInShift(s: nat, i: nat, j: nat)
    requires i <= j
    ensures Shr(s, j) <= Shr(s, i)
  {
    if i < j { ShrMonotoneInShift(s, i, j - 1); }
  }

  // ---------------------------------------------------------------- lowest set bit

  function LowBitOf(s: nat): nat
    requires s > 0
  {
    if s % 2 == 1 then 0 else 1 + LowBitOf(s / 2)
  }

  lemma {:induction false} LowBitIsLowest(s: nat, i: nat)
    requires s > 0
    ensures Bit(s, LowBitOf(s))
    ensures i < LowBitOf(s) ==> !Bit(s, i)
  {
    if s % 2 == 0 {
      LowBitIsLowest(s / 2, if i == 0 then 0 else i - 1);
      ShrInner(s, LowBitOf(s));
      if i > 0 { ShrInner(s, i); }
    }
  }

  lemma {:induction false} LowAtMostHigh(s: nat)
    requires s > 0
    ensures LowBitOf(s) <= HighBitOf(s)
  {
    if s % 2 == 0 { LowAtMostHigh(s / 2); }
  }

  /** The nibble table of `zend_mm_low_bit`: the lowest set bit, 4 for zero. */
  const OFFSET: seq<nat> := [4, 0, 1, 0, 2, 0, 1, 0, 3, 0, 1, 0, 2, 0, 1, 0]

  lemma NibbleOffset(s: nat)
    requires s > 0
    ensures s % 16 != 0 ==> OFFSET[s % 16] == LowBitOf(s) && OFFSET[s % 16] < 4
    ensures s % 16 == 0 ==> s / 16 > 0 && LowBitOf(s) == 4 + LowBitOf(s / 16)
  {
    if s % 16 == 0 {
      assert s / 2 / 2 / 2 / 2 == s / 16;
      assert LowBitOf(s) == 1 + LowBitOf(s / 2);
      assert LowBitOf(s / 2) == 1 + LowBitOf(s / 2 / 2);
      assert LowBitOf(s / 2 / 2) == 1 + LowBitOf(s / 2 / 2 / 2);
      assert LowBitOf(s / 2 / 2 / 2) == 1 + LowBitOf(s / 2 / 2 / 2 / 2);
    } else if s % 2 == 0 {
      assert LowBitOf(s) == 1 + LowBitOf(s / 2);
      if s % 4 == 0 {
        assert LowBitOf(s / 2) == 1 + LowBitOf(s / 2 / 2);
        if s % 8 == 0 {
          assert LowBitOf(s / 2 / 2) == 1 + LowBitOf(s / 2 / 2 / 2);
        }
      }
    }
  }

  /** The portable loop of `zend_mm_low_bit`, which never ends on zero. */
  method LowBit(size: nat) returns (r: nat)
    requires 0 < size < WORD
    ensures r == LowBitOf(size) && r < 64
  {
    var s := size;
    var index := 0;
    var n := OFFSET[s % 16];
    NibbleOffset(s);
    while n == 4
      invariant s > 0
      invariant n == OFFSET[s % 16]
      invariant s % 16 != 0 ==> n == LowBitOf(s) && n < 4
      invariant n == 4 <==> s % 16 == 0
      invariant LowBitOf(size) == index + LowBitOf(s)
      decreases s
    {
      NibbleOffset(s);
      s := s / 16;
      index := index + n;
      n := OFFSET[s % 16];
      NibbleOffset(s);
    }
    r := index + n;
    LowAtMostHigh(size);
    HighBitOfWord(size);
  }

  /** The start-up test `low_bit(x) != high_bit(x)` rejects exactly what is not a power of two. */
  lemma {:induction false} PowerOfTwoTest(s: nat)
    requires s > 0
    ensures LowBitOf(s) == HighBitOf(s) <==> exists n: nat :: s == Pow2(n)
  {
    if s % 2 == 1 {
      if s == 1 { assert s == Pow2(0); }
      forall n: nat ensures s == Pow2(n) ==> n == 0 { }
    } else {
      PowerOfTwoTest(s / 2);
      if n: nat :| s / 2 == Pow2(n) { assert s == Pow2(n + 1); }
      if n: nat :| s == Pow2(n) { assert n > 0 && s / 2 == Pow2(n - 1); }
    }
  }

  // ---------------------------------------------------------------- the trie cursor

  /** `x << n`, truncated to a word. */
  function Shl(x: nat, n: nat): nat {
    if n == 0 then x % WORD else (2 * Shl(x, n - 1)) % WORD
  }

  lemma {:induction false} ShlIsProduct(x: nat, n: nat)
    ensures Shl(x, n) == (x * Pow2(n)) % WORD
  {
    if n > 0 {
      ShlIsProduct(x, n - 1);
      var p := Pow2(n - 1);
      assert x * (2 * p) == 2 * (x * p);
      DoubleMod(x * p);
    }
  }

  lemma DoubleMod(x: nat)
    ensures (2 * (x % WORD)) % WORD == (2 * x) % WORD
  {
  }

  /** The top bit of a word. */
  const TOP: nat := 0x8000_0000_0000_0000

  /** While `k` bits of a size remain, the top bit of `size << (64 - k)` is bit `k - 1`. */
  lemma CursorTop(size: nat, k: nat)
    requires 0 < k <= 64
    ensures Shl(size, 64 - k) / TOP == Shr(size, k - 1) % 2
  {
    var q := Shr(size, k - 1);
    var p := Pow2(k - 1);
    var w := Pow2(64 - k);
    ShlIsProduct(size, 64 - k);
    ShrPow2(size, k - 1);
    Pow2Sum(k - 1, 64 - k);
    Pow2Word();
    assert p * w == TOP;
    var r := Scaled(size, q, p, w);
    TopOfSum(q, r);
  }

  lemma Scaled(size: nat, q: nat, p: nat, w: nat) returns (r: nat)
    requires q * p <= size < (q + 1) * p && w > 0
    ensures size * w == q * (p * w) + r && r < p * w
  {
    var d := size - q * p;
    assert (q + 1) * p == q * p + p;
    assert size * w == (q * p) * w + d * w by { Distribute(q * p, d, w); }
    assert (q * p) * w == q * (p * w);
    ScaleLt(d, p, w);
    r := d * w;
  }

  lemma Distribute(a: nat, b: nat, w: nat)
    ensures (a + b) * w == a * w + b * w
  {
  }

  lemma ScaleLt(a: nat, b: nat, p: nat)
    requires a < b && p > 0
    ensures a * p < b * p
  {
  }

  lemma TopOfSum(q: nat, r: nat)
    requires r < TOP
    ensures ((q * TOP + r) % WORD) / TOP == q % 2
  {
    assert q * TOP + r == (q / 2) * WORD + ((q % 2) * TOP + r);
  }
}
