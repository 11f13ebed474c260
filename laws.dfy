/**
 * Laws of the quantiser of src/main.rs: identity at eight bits, the
 * per-byte formula in bit form and in bucket form, absence of overflow,
 * idempotence, coarsening, the error bound, and the fact that no byte of the
 * buffer, alpha or not, is exempt.
 */
module QuantiserLaws {
  import opened Wrappers
  import opened Quantiser

  lemma Pow2Table()
    ensures Pow2(0) == 1 && Pow2(1) == 2 && Pow2(2) == 4 && Pow2(3) == 8
    ensures Pow2(4) == 16 && Pow2(5) == 32 && Pow2(6) == 64 && Pow2(7) == 128
  {
    assert Pow2(7) == 2 * Pow2(6);
  }

  /** Each mask is 0xFF shifted left by the number of discarded bits. */
  lemma MaskIsShift(b: SignificantBits)
    requires b != Bits8
    ensures MaskOf(b).value == 0xFF << (8 - Count(b))
  {
  }

  /** The bias `(!MASK + 1) / 2` is the highest discarded bit, 2^(7-n). */
  lemma BiasIsHalfBucket(b: SignificantBits)
    requires b != Bits8
    ensures Bias(MaskOf(b).value) == 1 << (7 - Count(b))
    ensures Bias(MaskOf(b).value) as int == Pow2(7 - Count(b))
  {
  }

  /**
   * No overflow anywhere: `!MASK + 1` is at most 128 for the seven masks,
   * and the OR in `mask_bits` never carries, since the kept bits and the
   * bias are disjoint, so the rewritten byte is their sum.
   */
  lemma MaskByteNoCarry(b: SignificantBits, x: Byte)
    requires b != Bits8
    ensures (!MaskOf(b).value) as int + 1 <= 128
    ensures (x & MaskOf(b).value) & Bias(MaskOf(b).value) == 0
    ensures QuantiseByte(b, x) as int == (x & MaskOf(b).value) as int + Bias(MaskOf(b).value) as int
  {
  }

  /**
   * For n < 8 kept bits, the top n bits of the output are those of the
   * input and the low 8 - n bits are exactly 2^(7-n).
   */
  lemma QuantiseByteBits(b: SignificantBits, x: Byte)
    requires b != Bits8
    ensures QuantiseByte(b, x) >> (8 - Count(b)) == x >> (8 - Count(b))
    ensures QuantiseByte(b, x) & !MaskOf(b).value == 1 << (7 - Count(b))
  {
    MaskIsShift(b);
    BiasIsHalfBucket(b);
  }

  lemma BucketOfBits1(x: Byte, y: Byte)
    requires y == (x & 0x80) | 0x40
    ensures y as int / 128 == x as int / 128 && y as int % 128 == 64
  {
  }

  lemma BucketOfBits2(x: Byte, y: Byte)
    requires y == (x & 0xC0) | 0x20
    ensures y as int / 64 == x as int / 64 && y as int % 64 == 32
  {
  }

  lemma BucketOfBits3(x: Byte, y: Byte)
    requires y == (x & 0xE0) | 0x10
    ensures y as int / 32 == x as int / 32 && y as int % 32 == 16
  {
  }

  lemma BucketOfBits4(x: Byte, y: Byte)
    requires y == (x & 0xF0) | 0x08
    ensures y as int / 16 == x as int / 16 && y as int % 16 == 8
  {
  }

  lemma BucketOfBits5(x: Byte, y: Byte)
    requires y == (x & 0xF8) | 0x04
    ensures y as int / 8 == x as int / 8 && y as int % 8 == 4
  {
  }

  lemma BucketOfBits6(x: Byte, y: Byte)
    requires y == (x & 0xFC) | 0x02
    ensures y as int / 4 == x as int / 4 && y as int % 4 == 2
  {
  }

  lemma BucketOfBits7(x: Byte, y: Byte)
    requires y == (x & 0xFE) | 0x01
    ensures y as int / 2 == x as int / 2 && y as int % 2 == 1
  {
  }

  /**
   * The per-byte formula in arithmetic: for n < 8 kept bits the output lies
   * in the input's bucket of width 2^(8-n), at offset 2^(7-n) from the
   * bucket's start. (One concrete lemma per row of the mask table keeps each
   * case a small problem for the solver.)
   */
  lemma QuantiseByteBucket(b: SignificantBits, x: Byte)
    requires b != Bits8
    ensures QuantiseByte(b, x) as int / Pow2(8 - Count(b)) == x as int / Pow2(8 - Count(b))
    ensures QuantiseByte(b, x) as int % Pow2(8 - Count(b)) == Pow2(7 - Count(b))
  {
    Pow2Table();
    var y := QuantiseByte(b, x);
    match b
    case Bits1 => BucketOfBits1(x, y);
    case Bits2 => BucketOfBits2(x, y);
    case Bits3 => BucketOfBits3(x, y);
    case Bits4 => BucketOfBits4(x, y);
    case Bits5 => BucketOfBits5(x, y);
    case Bits6 => BucketOfBits6(x, y);
    case Bits7 => BucketOfBits7(x, y);
  }

  /** Two numbers in the same bucket of width 2h, one of them at offset h, are less than h apart from below and at most h from above. */
  lemma MidpointDistance(x: int, y: int, w: int, h: int)
    requires h > 0 && w == 2 * h
    requires y / w == x / w && y % w == h
    ensures -h < y - x <= h
  {
    var q := x / w;
    assert x == q * w + x % w;
    assert y == q * w + h;
  }

  /**
   * Bounded error: for n < 8 the output differs from the input by more than
   * -2^(7-n) and at most 2^(7-n).
   */
  lemma QuantiseByteError(b: SignificantBits, x: Byte)
    requires b != Bits8
    ensures -(Pow2(7 - Count(b)) as int) < QuantiseByte(b, x) as int - x as int <= Pow2(7 - Count(b))
  {
    QuantiseByteBucket(b, x);
    MidpointDistance(x as int, QuantiseByte(b, x) as int, Pow2(8 - Count(b)), Pow2(7 - Count(b)));
  }

  /** `run(Bits8, ..)` leaves the buffer byte-for-byte unchanged. */
  lemma IdentityAtEight(s: seq<Byte>)
    ensures Quantise(Bits8, s) == s
  {
  }

  /**
   * Masks are nested: for j <= k kept bits the coarser mask lies inside the
   * finer one, and the finer bias lies outside the coarser mask.
   */
  lemma MasksNested(j: SignificantBits, k: SignificantBits)
    requires j != Bits8 && k != Bits8 && Count(j) <= Count(k)
    ensures MaskOf(j).value & MaskOf(k).value == MaskOf(j).value
    ensures Bias(MaskOf(k).value) & MaskOf(j).value == 0
  {
    MaskIsShift(j);
    MaskIsShift(k);
    BiasIsHalfBucket(k);
  }

  /** Coarsening on one byte: masking to j bits after k >= j bits is masking to j bits. */
  lemma CoarseningByte(j: SignificantBits, k: SignificantBits, x: Byte)
    requires Count(j) <= Count(k)
    ensures QuantiseByte(j, QuantiseByte(k, x)) == QuantiseByte(j, x)
  {
    if j != Bits8 && k != Bits8 {
      MasksNested(j, k);
    }
  }

  /** Coarsening: `run(j)` after `run(k)` equals `run(j)` alone whenever j <= k. */
  lemma Coarsening(j: SignificantBits, k: SignificantBits, s: seq<Byte>)
    requires Count(j) <= Count(k)
    ensures Quantise(j, Quantise(k, s)) == Quantise(j, s)
  {
    forall i | 0 <= i < |s|
      ensures Quantise(j, Quantise(k, s))[i] == Quantise(j, s)[i]
    {
      CoarseningByte(j, k, s[i]);
    }
  }

  /** Idempotence: running the same quantiser twice is running it once. */
  lemma Idempotent(b: SignificantBits, s: seq<Byte>)
    ensures Quantise(b, Quantise(b, s)) == Quantise(b, s)
  {
    Coarsening(b, b, s);
  }

  /** An all-zero buffer becomes a buffer all of whose bytes are 2^(7-n). */
  lemma ZeroBuffer(b: SignificantBits, s: seq<Byte>)
    requires b != Bits8
    requires forall i :: 0 <= i < |s| ==> s[i] == 0
    ensures forall i :: 0 <= i < |s| ==> Quantise(b, s)[i] as int == Pow2(7 - Count(b))
  {
    forall i | 0 <= i < |s|
      ensures Quantise(b, s)[i] as int == Pow2(7 - Count(b))
    {
      QuantiseByteBucket(b, s[i]);
    }
  }

  /**
   * No byte is exempt: a byte 0xFF anywhere in the buffer, such as the alpha
   * byte of an opaque RGBA pixel, becomes 256 - 2^(7-n); for fewer than
   * seven kept bits that is no longer 0xFF.
   */
  lemma OpaqueByteRewritten(b: SignificantBits, s: seq<Byte>, i: nat)
    requires b != Bits8
    requires i < |s| && s[i] == 0xFF
    ensures Quantise(b, s)[i] as int == 256 - Pow2(7 - Count(b))
    ensures Count(b) < 7 ==> Quantise(b, s)[i] != 0xFF
  {
    MaskByteNoCarry(b, s[i]);
    BiasIsHalfBucket(b);
    assert s[i] & MaskOf(b).value == MaskOf(b).value;
    assert Pow2(8 - Count(b)) == 2 * Pow2(7 - Count(b));
  }
}
