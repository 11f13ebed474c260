# fewerpngbits: a verified model of the significant-bit quantiser

`fewerpngbits` reads a PNG and keeps only the top *n* bits (1 to 8) of every
byte of the decoded pixel buffer. Each byte is moved to the midpoint of its
bucket. The tool then re-encodes the image and runs a lossless optimiser over
it. This project models the logic of `src/main.rs` that follows. It does not
model the image or optimiser libraries.

- `SignificantBits` and its mask table. Module `Quantiser` in
  `quantiser.dfy` gives the per-byte rewrite `(byte & MASK) | (!MASK + 1) / 2`
  and what `run` makes of a whole buffer. Both are functions on values.
- `mask_bits` and `SignificantBits::run`. Module `Masking` in `masking.dfy`
  has both as methods over an `array<bv8>` that change it in place. Each
  one's postcondition ties the new array to the value function applied to
  the old contents.
- The laws. Module `QuantiserLaws` in `laws.dfy` proves:
  - identity at eight bits;
  - the per-byte formula, in bit form and in bucket form;
  - absence of overflow;
  - idempotence and coarsening;
  - the error bound;
  - that no byte, the alpha bytes included, is exempt.
- `FromStr for SignificantBits`. Module `Parse` in `parse.dfy` models it
  together with `str::trim_ascii`.
- The colour-type admission in `main`. Module `ColorAdmission` in `color.dfy`
  models it over the `image` crate's `ColorType` and `ExtendedColorType`.

Bytes are `bv8`, so `&`, `|` and `!` behave as on Rust's `u8`. Addition on
`bv8` wraps, but the source's only addition, `!MASK + 1`, is in a `const`
block (src/main.rs:113), where overflow is a compile-time error. The
precondition `mask != 0` excludes the only mask whose `!MASK + 1` overflows;
in the source that instantiation would not compile. The bucket and
error-bound lemmas take bytes `as int`, so they are stated in unbounded
arithmetic.

Facts about the code that shape the model:

- The bias is `(!MASK + 1) / 2`, which is 2^(7-n), so 2 for six bits.
- `run` gets the raw buffer with no layout information (src/main.rs:46), so
  it rewrites every byte, alpha included. `OpaqueByteRewritten` shows the
  effect: an opaque alpha byte 0xFF becomes 256 - 2^(7-n), which is 0xFE for
  the default of six bits.
- The output path is a required argument, and there is no in-place mode
  (src/main.rs:144).

## Model

| member | source | states |
|---|---|---|
| Quantiser.Count | src/main.rs:83-92 | each variant keeps between 1 and 8 bits, and only `Bits8` keeps all eight |
| Quantiser.MaskOf | src/main.rs:96-105 | `Bits8` has no mask, because `run` returns at once; every other variant's mask has exactly its top n bits set (value 256 - 2^(8-n)) and always keeps the most significant bit |
| Quantiser.Bias | src/main.rs:113 | `(!MASK + 1) / 2` computed in `u8` equals the same expression in unbounded integers, so for every non-zero mask the addition does not wrap |
| Quantiser.MaskByte | src/main.rs:113 | the bits outside the mask are the bias's whatever the input, and the kept bits the bias does not set come from the input; QuantiseByteBits and MaskByteNoCarry give the full per-byte formula |
| Quantiser.QuantiseByte | src/main.rs:95-113 | `run`'s effect on one byte: none for `Bits8`, and otherwise the bits under the variant's mask are kept; QuantiseByteBits and QuantiseByteBucket give the rest |
| Quantiser.MaskAll | src/main.rs:111-115 | `mask_bits` keeps the buffer's length, and output byte i is the masked input byte i |
| Quantiser.Quantise | src/main.rs:95-107 | `run` keeps the buffer's length and applies one per-byte function at every index, with no notion of pixel or channel |
| Masking.MaskBits | src/main.rs:111-115 | the in-place loop leaves in the array exactly `MaskAll` of its old contents |
| Masking.Run | src/main.rs:95-107 | the in-place dispatch leaves in the array exactly `Quantise` of its old contents, which is the old contents unchanged for `Bits8` |
| QuantiserLaws.MaskIsShift | src/main.rs:97-103 | each mask in the table is 0xFF shifted left by 8 - n |
| QuantiserLaws.BiasIsHalfBucket | src/main.rs:113 | the bias is the highest discarded bit, 1 << (7 - n) = 2^(7-n) |
| QuantiserLaws.MaskByteNoCarry | src/main.rs:113 | `!MASK + 1` is at most 128 for the seven masks; the kept bits and the bias are disjoint, so the rewritten byte is their sum and fits a byte |
| QuantiserLaws.QuantiseByteBits | src/main.rs:113 | for n < 8 the output's top n bits are the input's, and its low 8 - n bits equal exactly 2^(7-n) |
| QuantiserLaws.QuantiseByteBucket | src/main.rs:113 | for n < 8 the output lies in the input's bucket of width 2^(8-n), at offset 2^(7-n) from the bucket's start |
| QuantiserLaws.QuantiseByteError | src/main.rs:113 | for n < 8 the output minus the input is greater than -2^(7-n) and at most 2^(7-n) |
| QuantiserLaws.IdentityAtEight | src/main.rs:104 | `run(Bits8)` leaves the buffer byte-for-byte unchanged |
| QuantiserLaws.MasksNested | src/main.rs:97-103 | for j <= k the j-bit mask lies inside the k-bit mask, and the k-bit bias lies outside the j-bit mask |
| QuantiserLaws.CoarseningByte | src/main.rs:113 | on one byte, masking to j bits after masking to k >= j bits is masking to j bits |
| QuantiserLaws.Coarsening | src/main.rs:95-115 | `run(j)` after `run(k)` equals `run(j)` on the original buffer whenever j <= k |
| QuantiserLaws.Idempotent | src/main.rs:95-115 | running `run(b)` twice gives the same buffer as running it once, for every b |
| QuantiserLaws.ZeroBuffer | src/main.rs:113 | an all-zero buffer becomes one whose every byte is 2^(7-n) |
| QuantiserLaws.OpaqueByteRewritten | src/main.rs:46 | no index is exempt: a 0xFF byte anywhere, an opaque alpha byte for instance, becomes 256 - 2^(7-n), so it changes whenever fewer than seven bits are kept |
| Parse.WhitespaceCharacters | src/main.rs:121 | the whitespace `trim_ascii` removes (`u8::is_ascii_whitespace`, modelled by the predicate `Parse.IsAsciiWhitespace`) is exactly the characters 9, 10, 12, 13 and 32; vertical tab (11) is not among them |
| Parse.TrimStart | src/main.rs:121 | drops a whitespace-only prefix, and what is left does not start with ASCII whitespace |
| Parse.TrimEnd | src/main.rs:121 | drops a whitespace-only suffix, and what is left does not end with ASCII whitespace |
| Parse.TrimAscii | src/main.rs:121 | the result is a slice of the input with only ASCII whitespace before and after it, and it neither starts nor ends with whitespace |
| Parse.TrimAsciiWrapped | src/main.rs:121 | conversely, ASCII whitespace around a string that neither starts nor ends with whitespace is exactly what trimming removes |
| Parse.Show | src/main.rs:122-129 | the string that names a variant is the single character '0' + n |
| Parse.FromStr | src/main.rs:120-132 | a success names the variant whose digit is the trimmed input, and a failure always carries "expected value between 1 and 8"; FromStrDigits and FromStrIsShow give the exact set of accepted strings |
| Parse.FromStrDigits | src/main.rs:120-132 | `from_str` succeeds exactly when the trimmed input is one digit from 1 to 8, returns the variant that keeps that many bits, and otherwise returns "expected value between 1 and 8" |
| Parse.FromStrIsShow | src/main.rs:121-129 | `from_str(s)` is `Ok(b)` exactly when `s` trims to the digit of b |
| Parse.FromStrShow | src/main.rs:121-129 | round trip: parsing the digit of b gives b, with or without ASCII whitespace around it |
| Parse.VerticalTabRefused | src/main.rs:121 | a leading vertical tab is not trimmed, so a value preceded by one is refused |
| Parse.DefaultBits | src/main.rs:146 | the option's default string "6" parses to `Bits6` |
| ColorAdmission.Admit | src/main.rs:33-39 | an admitted colour type becomes the extended type of the same name, and a refused one gives `Error::ColorType` carrying that type and the input path; AdmitSpec says exactly which types are admitted |
| ColorAdmission.AdmitSpec | src/main.rs:33-39 | admission succeeds exactly for L8, La8, Rgb8 and Rgba8, which are exactly the colour types with one byte per channel; an admitted type becomes the extended type of the same name, and any other is an error carrying that type and the input path |

## Left out

- Opening and memory-mapping the input (src/main.rs:20-27): operating-system I/O.
- PNG header decoding, pixel decoding and the buffer size from `total_bytes`
  (src/main.rs:28-31, 41-45): these belong to the `image` crate. The model
  takes the decoded buffer as given, of any length.
- Opening the output with `create_new(!force)` and `truncate`, and writing it
  (src/main.rs:50-59, 77-79): operating-system file semantics.
- PNG re-encoding and the oxipng/zopfli optimisation, with its preset,
  iteration count and 30-second timeout (src/main.rs:61-75): foreign
  libraries and wall-clock time.
- Command-line parsing by `clap`, `git_testament`, and the `Display`/`Debug`
  derivations of `Error` (src/main.rs:135-173): macro-generated code. Of
  these only the body of `from_str` and the default value "6" are modelled.
- `ColorAdmission` carries the `image` crate's variant lists. Its
  `ChannelCount`, `BytesPerPixel` and `SameNamed` follow that crate's
  definitions, and the crate is not part of this model. Only the four
  admitted types matter to `main`.
- Rust strings are UTF-8 and `trim_ascii` works on bytes. ASCII whitespace
  bytes never occur inside a multi-byte character, so `Parse` works on
  `seq<char>`.
- `Quantiser.Bias`: its precondition `mask != 0` stands for the
  compile-time overflow check of the `const` block. No mask in the table is
  zero.
