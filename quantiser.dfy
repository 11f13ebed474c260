/**
 * The significant-bit quantiser of src/main.rs: the `SignificantBits`
 * enum, the mask table of `SignificantBits::run` and the per-byte rewrite
 * `(byte & MASK) | (!MASK + 1) / 2` of `mask_bits`, as functions on values.
 * The in-place methods that the source runs over the pixel buffer are in
 * module Masking; the laws about these functions are in module QuantiserLaws.
 */
module Quantiser {
  import opened Wrappers

  /** One byte of the pixel buffer, a Rust `u8`. */
  type Byte = bv8

  /** How many most-significant bits of each byte to keep. */
  datatype SignificantBits = Bits1 | Bits2 | Bits3 | Bits4 | Bits5 | Bits6 | Bits7 | Bits8

  /** The number of bits a variant keeps. */
  function Count(b: SignificantBits): (n: nat)
    ensures 1 <= n <= 8
    ensures n == 8 <==> b == Bits8
  {
    match b
    case Bits1 => 1
    case Bits2 => 2
    case Bits3 => 3
    case Bits4 => 4
    case Bits5 => 5
    case Bits6 => 6
    case Bits7 => 7
    case Bits8 => 8
  }

  function Pow2(k: nat): (r: nat)
    ensures r >= 1
  {
    if k == 0 then 1 else 2 * Pow2(k - 1)
  }

  /**
   * The const generic `MASK` that `run` instantiates `mask_bits` with, or
   * `None` for `Bits8`, whose arm returns before anything is masked.
   * Each mask has exactly the top `Count(b)` bits set.
   */
  function MaskOf(b: SignificantBits): (m: Option<Byte>)
    ensures m.None? <==> b == Bits8
    ensures m.Some? ==> m.value as int == 256 - Pow2(8 - Count(b))
    ensures m.Some? ==> m.value & 0x80 == 0x80
  {
    match b
    case Bits1 => assert Pow2(7) == 2 * Pow2(6); Some(0x80)
    case Bits2 => Some(0xC0)
    case Bits3 => Some(0xE0)
    case Bits4 => Some(0xF0)
    case Bits5 => Some(0xF8)
    case Bits6 => Some(0xFC)
    case Bits7 => Some(0xFE)
    case Bits8 => None
  }

  /**
   * The constant `(!MASK + 1) / 2`, computed in `u8` arithmetic. The source
   * evaluates it at compile time, where overflow is an error; the only mask
   * whose complement plus one overflows is zero, which is excluded. The
   * result is the unbounded value, so the addition never wraps.
   */
  function Bias(mask: Byte): (r: Byte)
    requires mask != 0
    ensures r as int == ((!mask) as int + 1) / 2
  {
    (!mask + 1) / 2
  }

  /**
   * The statement in the loop body of `mask_bits`: the bits outside the
   * mask are those of the bias whatever the input was, and the kept bits
   * that the bias does not set come from the input.
   */
  function MaskByte(mask: Byte, x: Byte): (y: Byte)
    requires mask != 0
    ensures y & !mask == Bias(mask) & !mask
    ensures y & mask & !Bias(mask) == x & mask & !Bias(mask)
  {
    (x & mask) | Bias(mask)
  }

  /**
   * What `mask_bits::<mask>` leaves in a buffer: the length is kept and
   * byte i of the result depends on byte i of the input alone.
   */
  function MaskAll(mask: Byte, s: seq<Byte>): (r: seq<Byte>)
    requires mask != 0
    ensures |r| == |s|
    ensures forall i :: 0 <= i < |s| ==> r[i] == MaskByte(mask, s[i])
  {
    if s == [] then [] else [MaskByte(mask, s[0])] + MaskAll(mask, s[1..])
  }

  /**
   * What `run` does to one byte: nothing for `Bits8`, and otherwise the
   * bits under the variant's mask are kept.
   */
  function QuantiseByte(b: SignificantBits, x: Byte): (y: Byte)
    ensures b == Bits8 ==> y == x
    ensures b != Bits8 ==> y & MaskOf(b).value == x & MaskOf(b).value
  {
    match MaskOf(b)
    case None => x
    case Some(m) => MaskByte(m, x)
  }

  /**
   * What `run` leaves in a buffer: the same per-byte function at every
   * index, with no notion of pixels or channels, so alpha bytes are
   * rewritten like colour bytes.
   */
  function Quantise(b: SignificantBits, s: seq<Byte>): (r: seq<Byte>)
    ensures |r| == |s|
    ensures forall i :: 0 <= i < |s| ==> r[i] == QuantiseByte(b, s[i])
  {
    match MaskOf(b)
    case None => s
    case Some(m) => MaskAll(m, s)
  }
}
