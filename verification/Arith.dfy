/**
 Fixed-width arithmetic of the driver: wrapping `i32`/`i64` operations, casts to `u32`,
 alignment to the 32-byte frame granule, and the translation between absolute stream
 positions and (term id, term offset, partition).
 */
module Arith {

  const TWO31: int := 0x8000_0000
  const TWO32: int := 0x1_0000_0000
  const TWO63: int := 0x8000_0000_0000_0000
  const TWO64: int := 0x1_0000_0000_0000_0000

  const PARTITION_COUNT: nat := 4
  const FRAME_ALIGNMENT: nat := 32
  const HALF_I32: int := 0x3FFF_FFFF           // i32::MAX / 2
  const HALF_I64: int := 0x3FFF_FFFF_FFFF_FFFF // i64::MAX / 2 and i64::MAX >> 1

  ghost predicate IsI32(x: int) { -TWO31 <= x < TWO31 }

  ghost predicate IsI64(x: int) { -TWO63 <= x < TWO63 }

  /** The value of `x` after truncation to a signed 32-bit word. */
  function Wrap32(x: int): (r: int)
    ensures IsI32(r)
    ensures IsI32(x) ==> r == x
  {
    (x + TWO31) % TWO32 - TWO31
  }

  /** The value of `x` after truncation to a signed 64-bit word. */
  function Wrap64(x: int): (r: int)
    ensures IsI64(r)
    ensures IsI64(x) ==> r == x
  {
    (x + TWO63) % TWO64 - TWO63
  }

  /** `x as u32` for a signed 32-bit `x`. */
  function AsU32(x: int): (r: nat)
    ensures r < TWO32
  {
    x % TWO32
  }

  predicate IsPowerOfTwo(x: nat) {
    x == 1 || (x > 0 && x % 2 == 0 && IsPowerOfTwo(x / 2))
  }

  function Pow2(k: nat): (r: nat)
    ensures r > 0
  {
    if k == 0 then 1 else 2 * Pow2(k - 1)
  }

  lemma {:induction false} PowerOfTwoExactly(x: nat)
    ensures IsPowerOfTwo(x) <==> exists k: nat :: x == Pow2(k)
  {
    if x == 1 {
      assert Pow2(0) == 1;
    } else if x % 2 == 0 && x > 0 {
      PowerOfTwoExactly(x / 2);
      if IsPowerOfTwo(x / 2) {
        var k: nat :| x / 2 == Pow2(k);
        assert x == Pow2(k + 1);
      }
      forall k: nat | x == Pow2(k) ensures IsPowerOfTwo(x) {
        assert x / 2 == Pow2(k - 1);
      }
    }
  }

  /** A multiple of the frame granule. */
  ghost predicate Aligned(x: int) { x % 32 == 0 }

  lemma AlignedZero()
    ensures Aligned(0)
  {
  }

  lemma AlignedSum(x: int, y: int)
    requires Aligned(x) && Aligned(y)
    ensures Aligned(x + y) && Aligned(x - y)
    ensures x < y ==> x + 32 <= y
  {
  }

  lemma AlignedMultiple(k: int, x: int)
    requires Aligned(x)
    ensures Aligned(k * x)
  {
    var q := x / 32;
    assert k * x == k * q * 32;
    ModShift(0, k * q, 32);
  }

  /** A power of two of at least one granule is a multiple of it. */
  lemma {:induction false} PowerOfTwoAligned(x: nat)
    requires IsPowerOfTwo(x) && x >= 32
    ensures Aligned(x)
  {
    if x >= 64 {
      PowerOfTwoAligned(x / 2);
    } else {
      PowerBelow64(x);
    }
  }

  lemma PowerBelow64(x: nat)
    requires IsPowerOfTwo(x) && 32 <= x < 64
    ensures x == 32
  {
    assert IsPowerOfTwo(x / 2) && IsPowerOfTwo(x / 2 / 2) && IsPowerOfTwo(x / 2 / 2 / 2);
    assert IsPowerOfTwo(x / 2 / 2 / 2 / 2) && IsPowerOfTwo(x / 2 / 2 / 2 / 2 / 2);
  }

  /** Rounds a length up to the frame granule: `(len + 31) & !31`. */
  function Align32(len: nat): (r: nat)
    ensures Aligned(r)
    ensures len <= r < len + 32
    ensures Aligned(len) ==> r == len
  {
    (len + 31) / 32 * 32
  }

  /** `(term_id.wrapping_sub(initial_term_id) as u32 & 3) as usize`. */
  function PartitionIndex(termId: int, initialTermId: int): (r: nat)
    ensures r < PARTITION_COUNT
  {
    AsU32(Wrap32(termId - initialTermId)) % 4
  }

  /** `term_id.wrapping_sub(initial_term_id) as i64 * term_length + term_offset`. */
  function ComputePosition(termId: int, termOffset: int, initialTermId: int, termLength: nat): int {
    Wrap32(termId - initialTermId) * termLength + termOffset
  }

  /** The term id the driver derives from a position: `initial.wrapping_add((pos >> shift) as i32)`. */
  function TermIdOf(position: int, initialTermId: int, termLength: nat): (r: int)
    requires termLength > 0
    ensures IsI32(r)
  {
    Wrap32(initialTermId + Wrap32(position / termLength))
  }

  /** `pos & (term_length - 1)`. */
  function TermOffsetOf(position: int, termLength: nat): (r: nat)
    requires termLength > 0
    ensures r < termLength
  {
    position % termLength
  }

  lemma Wrap32Shift(x: int, m: int)
    ensures Wrap32(x + m * TWO32) == Wrap32(x)
  {
    assert (x + m * TWO32 + TWO31) % TWO32 == (x + TWO31) % TWO32 by {
      ModShift(x + TWO31, m, TWO32);
    }
  }

  /** Every integer differs from its 32-bit truncation by a multiple of 2^32. */
  lemma Wrap32Congruent(x: int) returns (m: int)
    ensures Wrap32(x) == x + m * TWO32
  {
    m := -((x + TWO31) / TWO32);
  }

  lemma Wrap64Shift(x: int, m: int)
    ensures Wrap64(x + m * TWO64) == Wrap64(x)
  {
    ModShift(x + TWO63, m, TWO64);
  }

  lemma Wrap64Congruent(x: int) returns (m: int)
    ensures Wrap64(x) == x + m * TWO64
  {
    m := -((x + TWO63) / TWO64);
  }

  /** The wrapping difference of two truncated counters is their difference, if that fits. */
  lemma WrapDifference64(a: int, b: int)
    requires IsI64(a - b)
    ensures Wrap64(Wrap64(a) - Wrap64(b)) == a - b
  {
    hide Wrap64;
    var m := Wrap64Congruent(a);
    var n := Wrap64Congruent(b);
    Wrap64Shift(a - b, m - n);
  }

  lemma ModShift(x: int, m: int, n: int)
    requires n > 0
    ensures (x + m * n) % n == x % n
  {
    var q, r := x / n, x % n;
    assert x == q * n + r;
    assert x + m * n == (q + m) * n + r by { assert (q + m) * n == q * n + m * n; }
    DivModUnique(x + m * n, q + m, r, n);
  }

  /** Euclidean division is the only way to write `x` as `q * n + r` with `0 <= r < n`. */
  lemma DivModUnique(x: int, q: int, r: int, n: int)
    requires n > 0 && 0 <= r < n && x == q * n + r
    ensures x / n == q && x % n == r
  {
    var q' := x / n;
    MulStep(q, q', n);
    MulStep(q', q, n);
  }

  /** A larger factor gives a product larger by at least one `n`. */
  lemma MulStep(a: int, b: int, n: int)
    requires n > 0
    ensures a < b ==> a * n + n <= b * n
    ensures a <= b ==> a * n <= b * n
  {
    var d := b - a;
    assert b * n == a * n + d * n;
    if d > 0 {
      assert d * n == (d - 1) * n + n;
      assert (d - 1) * n >= 0;
    }
  }

  /** Positions of neighbouring terms. */
  lemma TermBases(k: int, tl: int)
    ensures (k + 1) * tl == k * tl + tl
    ensures (k + 2) * tl == k * tl + 2 * tl
    ensures (k - 1) * tl == k * tl - tl
    ensures (k - 2) * tl == k * tl - 2 * tl
    ensures (k - 3) * tl == k * tl - 3 * tl
  {
  }

  /** Distinct multiples of `a` are at least `a` apart. */
  lemma MultipleGap(x: nat, y: nat, a: nat)
    requires a > 0 && x % a == 0 && y % a == 0 && x < y
    ensures x + a <= y
  {
    assert x == x / a * a && y == y / a * a;
    MulStep(y / a, x / a, a);
    MulStep(x / a, y / a, a);
  }

  lemma MultipleSum(x: nat, a: nat)
    requires a > 0 && x % a == 0
    ensures (x + a) % a == 0
  {
    ModShift(x, 1, a);
  }

  /** A stream position as term number and offset. */
  lemma SplitPosition(s: nat, tl: nat) returns (t: nat, off: nat, origin: nat)
    requires tl > 0
    ensures t == s / tl && off == s % tl && off < tl && origin == t * tl && s == origin + off
  {
    t, off := s / tl, s % tl;
    origin := s - off;
  }

  /** Wrapping subtraction undoes wrapping addition for every term count an `i32` can hold. */
  lemma TermCountRoundTrip(initialTermId: int, count: int)
    requires 0 <= count < TWO31
    ensures Wrap32(Wrap32(initialTermId + count) - initialTermId) == count
    ensures PartitionIndex(Wrap32(initialTermId + count), initialTermId) == count % 4
  {
    var m := Wrap32Congruent(initialTermId + count);
    assert Wrap32(initialTermId + count) - initialTermId == count + m * TWO32;
    Wrap32Shift(count, m);
  }

  /**
   A position under 2^31 terms and its (term id, offset) pair determine each other, the id
   may wrap past `i32::MAX` on the way, and the partition is the term count modulo four.
   */
  lemma PositionRoundTrip(position: int, initialTermId: int, termLength: nat)
    requires termLength > 0
    requires 0 <= position < TWO31 * termLength
    ensures ComputePosition(TermIdOf(position, initialTermId, termLength),
                            TermOffsetOf(position, termLength), initialTermId, termLength) == position
    ensures PartitionIndex(TermIdOf(position, initialTermId, termLength), initialTermId)
         == position / termLength % 4
  {
    var count := position / termLength;
    assert position == count * termLength + position % termLength;
    MulStep(TWO31, count, termLength);
    TermCountRoundTrip(initialTermId, count);
  }

  /**
   The bound is sharp: for a non-negative position the pair recomputes the position exactly
   when the position lies below 2^31 terms.
   */
  lemma PositionRoundTripExactly(position: int, initialTermId: int, termLength: nat)
    requires termLength > 0 && 0 <= position
    ensures ComputePosition(TermIdOf(position, initialTermId, termLength),
                            TermOffsetOf(position, termLength), initialTermId, termLength) == position
       <==> position < TWO31 * termLength
  {
    if position < TWO31 * termLength {
      PositionRoundTrip(position, initialTermId, termLength);
    } else {
      var termId := TermIdOf(position, initialTermId, termLength);
      var count := Wrap32(termId - initialTermId);
      MulStep(count, TWO31, termLength);
    }
  }
}
