/**
 * The in-place operations of src/main.rs: `mask_bits`, a loop over a
 * mutable byte slice, and `SignificantBits::run`, which picks the mask and
 * calls it. The slice is an array; each method is specified by the
 * function on values in module Quantiser that it computes.
 */
module Masking {
  import opened Wrappers
  import opened Quantiser

  /** `mask_bits::<mask>`: rewrites every byte of the buffer in place. */
  method MaskBits(mask: Byte, bytes: array<Byte>)
    requires mask != 0
    modifies bytes
    ensures bytes[..] == MaskAll(mask, old(bytes[..]))
  {
    var i := 0;
    while i < bytes.Length
      invariant 0 <= i <= bytes.Length
      invariant forall k :: 0 <= k < i ==> bytes[k] == MaskByte(mask, old(bytes[k]))
      invariant forall k :: i <= k < bytes.Length ==> bytes[k] == old(bytes[k])
    {
      bytes[i] := MaskByte(mask, bytes[i]);
      i := i + 1;
    }
  }

  /**
   * `SignificantBits::run`: for `Bits8` the buffer is left as it is,
   * otherwise every byte is masked with the variant's mask.
   */
  method Run(b: SignificantBits, bytes: array<Byte>)
    modifies bytes
    ensures bytes[..] == Quantise(b, old(bytes[..]))
  {
    match MaskOf(b)
    case None =>
      return;
    case Some(mask) =>
      MaskBits(mask, bytes);
  }
}
