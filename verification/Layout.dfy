/** The size macros of the memory manager for the non-debug 64-bit layout. */
module Layout {
  import opened Bits

  /** Aligned block header (`_size` and `_prev`), also the size of a guard block. */
  const HEADER: nat := 16
  /** Aligned `zend_mm_segment` header. */
  const SEGMENT_HEADER: nat := 16
  /** The smallest block: a header and two list links. */
  const MIN_BLOCK: nat := 32
  const ALIGNMENT: nat := 8
  const NUM_BUCKETS: nat := 64
  /** Blocks of this size and above are "large". */
  const MAX_SMALL: nat := 544
  const CACHE_SIZE: nat := 262144
  const MAX_REST_BLOCKS: nat := 16

  /** The type bits of a boundary tag. */
  datatype Mark = Free | Used | Guard

  /** A boundary tag: the `_size` word of a block header, repeated as `_prev` of the next one. */
  datatype Tag = Tag(size: nat, mark: Mark)

  function AlignedSize(size: nat): nat {
    var s := (size + ALIGNMENT - 1) % WORD;
    s - s % ALIGNMENT
  }

  /** `ZEND_MM_TRUE_SIZE`: the block size for a request of `size` bytes, in wrapping arithmetic. */
  function TrueSize(size: nat): nat {
    if size < MIN_BLOCK - HEADER then MIN_BLOCK else AlignedSize((size + HEADER) % WORD)
  }

  predicate IsSmall(trueSize: nat) {
    trueSize < MAX_SMALL
  }

  /** A size that a block can have. */
  predicate BlockSize(size: nat) {
    size % ALIGNMENT == 0 && MIN_BLOCK <= size < WORD
  }

  function BucketIndex(trueSize: nat): (i: nat)
    requires BlockSize(trueSize)
    ensures IsSmall(trueSize) <==> i < NUM_BUCKETS
    ensures trueSize == BucketSize(i)
  {
    trueSize / ALIGNMENT - MIN_BLOCK / ALIGNMENT
  }

  /** The one block size of small bucket and cache chain `i`. */
  function BucketSize(i: nat): nat {
    MIN_BLOCK + ALIGNMENT * i
  }

  /** Either the true size is the least aligned size that covers header and request, or the sum
      wrapped around; a wrapped true size is always small, so the test `true_size < size`,
      which allocation makes on its small path only, catches exactly the wrapped requests. */
  lemma TrueSizeCoversOrIsCaught(size: nat)
    requires size < WORD
    ensures TrueSize(size) < size <==> size + HEADER + ALIGNMENT - 1 >= WORD
    ensures TrueSize(size) < size ==> IsSmall(TrueSize(size))
    ensures TrueSize(size) >= size ==>
              && BlockSize(TrueSize(size))
              && size + HEADER <= TrueSize(size)
              && forall t: nat :: BlockSize(t) && size + HEADER <= t ==> TrueSize(size) <= t
  {
  }

  /** The size of a new segment able to hold one block of `trueSize`: `block_size`, or the
      next multiple of it, in wrapping arithmetic (`x & ~(block_size - 1)` for a power of two). */
  function SegmentSize(trueSize: nat, blockSize: nat): nat
    requires blockSize > 0
  {
    if trueSize > (WORD + blockSize - (SEGMENT_HEADER + HEADER)) % WORD then
      RoundedUp((trueSize + SEGMENT_HEADER + HEADER) % WORD, blockSize)
    else
      blockSize
  }

  function RoundedUp(x: nat, b: nat): nat
    requires b > 0
  {
    var s := (x + (b - 1)) % WORD;
    s - s % b
  }

  /** What `zend_mm_startup` accepts as a segment granularity. */
  ghost predicate Granularity(blockSize: nat) {
    && SEGMENT_HEADER + HEADER <= blockSize < WORD
    && exists n: nat :: blockSize == Pow2(n)
  }

  ghost predicate Multiple(s: nat, b: nat) {
    exists q: nat :: s == q * b
  }

  /** Segment rounding gives the least sufficient multiple of the granularity, or wraps to
      something below the true size, which the test `segment_size < true_size` catches. */
  lemma SegmentSizeSufficesOrIsCaught(trueSize: nat, blockSize: nat)
    requires BlockSize(trueSize) && Granularity(blockSize)
    ensures SegmentSize(trueSize, blockSize) >= trueSize ==>
              LeastSufficient(SegmentSize(trueSize, blockSize), trueSize, blockSize)
    ensures SegmentSize(trueSize, blockSize) < trueSize <==>
              trueSize > blockSize - 32 && trueSize + 32 + blockSize - 1 >= WORD
  {
    GranularityBounds(blockSize);
    SegmentSizeIs(trueSize, blockSize);
    if trueSize <= blockSize - 32 {
      OneGranule(trueSize, blockSize);
    } else {
      LargeSegment(trueSize, blockSize);
    }
  }

  lemma SegmentSizeIs(trueSize: nat, blockSize: nat)
    requires 32 <= blockSize < WORD
    ensures trueSize <= blockSize - 32 ==> SegmentSize(trueSize, blockSize) == blockSize
    ensures trueSize > blockSize - 32 ==>
              SegmentSize(trueSize, blockSize) == RoundedUp((trueSize + 32) % WORD, blockSize)
  {
    assert (WORD + blockSize - 32) % WORD == blockSize - 32;
  }

  lemma LargeSegment(trueSize: nat, blockSize: nat)
    requires BlockSize(trueSize) && 32 <= blockSize && 2 * blockSize <= WORD && blockSize % 32 == 0
    requires trueSize > blockSize - 32
    ensures var s := RoundedUp((trueSize + 32) % WORD, blockSize);
            && (trueSize + 32 + blockSize - 1 < WORD ==> LeastSufficient(s, trueSize, blockSize))
            && (trueSize + 32 + blockSize - 1 >= WORD ==> s < trueSize)
  {
    var x := (trueSize + 32) % WORD;
    RoundUpOrWrap(x, blockSize);
    WrapOnce(trueSize + 32);
    RoundedSegment(trueSize, blockSize, x, RoundedUp(x, blockSize));
  }

  lemma OneGranule(trueSize: nat, blockSize: nat)
    requires BlockSize(trueSize) && trueSize <= blockSize - 32 && blockSize % 32 == 0 && blockSize < WORD
    ensures LeastSufficient(blockSize, trueSize, blockSize)
  {
    assert blockSize == 1 * blockSize;
  }

  lemma AtLeastOneGranule(s: nat, trueSize: nat, blockSize: nat)
    requires LeastSufficient(s, trueSize, blockSize)
    ensures blockSize <= s
  {
    var q: nat :| s == q * blockSize;
    assert q != 0;
    assert (q - 1) * blockSize >= 0;
  }

  lemma GranularityBounds(blockSize: nat)
    requires Granularity(blockSize)
    ensures blockSize % 32 == 0 && 2 * blockSize <= WORD
  {
    var n: nat :| blockSize == Pow2(n);
    GranuleAligned(n);
    HalfWord(n);
  }

  /** A segment of `s` bytes holds its header, a block of `trueSize` and the guard, and no
      smaller multiple of the granularity does. */
  ghost predicate LeastSufficient(s: nat, trueSize: nat, blockSize: nat) {
    && Multiple(s, blockSize)
    && s % ALIGNMENT == 0
    && trueSize + SEGMENT_HEADER + HEADER <= s < WORD
    && s - blockSize < trueSize + SEGMENT_HEADER + HEADER
  }

  /** `x` is `trueSize + 32`, wrapped around if need be, and `s` is `x` rounded up. */
  lemma RoundedSegment(trueSize: nat, blockSize: nat, x: nat, s: nat)
    requires BlockSize(trueSize) && 32 <= blockSize && 2 * blockSize <= WORD && blockSize % 32 == 0
    requires trueSize > blockSize - 32 && x == if trueSize + 32 < WORD then trueSize + 32 else trueSize + 32 - WORD
    requires x + blockSize - 1 < WORD ==> Multiple(s, blockSize) && x <= s < x + blockSize
    requires x + blockSize - 1 >= WORD ==> s == 0
    requires x <= blockSize ==> s <= blockSize
    ensures trueSize + 32 + blockSize - 1 < WORD ==> LeastSufficient(s, trueSize, blockSize)
    ensures trueSize + 32 + blockSize - 1 >= WORD ==> s < trueSize
  {
    if trueSize + 32 + blockSize - 1 < WORD {
      MultipleOfGranule(s, blockSize);
    }
  }

  lemma WrapOnce(x: nat)
    requires x < 2 * WORD
    ensures x % WORD == if x < WORD then x else x - WORD
  {
  }

  lemma RoundUpOrWrap(x: nat, b: nat)
    requires 0 < b && x < WORD && 2 * b <= WORD
    ensures x + b - 1 < WORD ==> Multiple(RoundedUp(x, b), b) && x <= RoundedUp(x, b) < x + b
    ensures x + b - 1 >= WORD ==> RoundedUp(x, b) == 0
    ensures x <= b ==> RoundedUp(x, b) <= b
  {
    if x + b - 1 < WORD {
      RoundDown(x + b - 1, b);
    } else {
      RoundDown(x + b - 1 - WORD, b);
    }
  }

  lemma GranuleAligned(n: nat)
    requires Pow2(n) >= 32
    ensures Pow2(n) % 32 == 0
  {
    if n >= 5 {
      Pow2Sum(5, n - 5);
      assert Pow2(5) == 32;
    } else {
      SmallPow2(n);
    }
  }

  lemma SmallPow2(n: nat)
    requires n < 5
    ensures Pow2(n) <= 16
  {
    assert n == 0 || n == 1 || n == 2 || n == 3 || n == 4;
  }

  lemma HalfWord(n: nat)
    requires Pow2(n) < WORD
    ensures 2 * Pow2(n) <= WORD
  {
    Pow2Word();
    if n < 64 {
      Pow2Sum(n + 1, 63 - n);
      var p := Pow2(63 - n);
      assert Pow2(n + 1) * p >= Pow2(n + 1);
    } else {
      Pow2Sum(64, n - 64);
    }
  }

  lemma RoundDown(x: nat, b: nat)
    requires b > 0
    ensures Multiple(x - x % b, b)
    ensures x - b < x - x % b <= x
    ensures x < b ==> x - x % b == 0
    ensures x < 2 * b ==> x - x % b <= b
  {
    var q := x / b;
    assert x - x % b == q * b;
    if x < 2 * b { SmallQuotient(x, b); }
  }

  lemma SmallQuotient(x: nat, b: nat)
    requires b > 0 && x < 2 * b
    ensures x % b == if x < b then x else x - b
  {
    if x >= b {
      var q := x / b;
      assert x == q * b + x % b;
      assert q >= 2 ==> q * b >= 2 * b;
    }
  }

  lemma MultipleOfGranule(s: nat, b: nat)
    requires b % 32 == 0 && Multiple(s, b)
    ensures s % ALIGNMENT == 0
  {
    var q: nat :| s == q * b;
    var c := b / 32;
    assert q * (32 * c) == 8 * (4 * (q * c));
  }
}
