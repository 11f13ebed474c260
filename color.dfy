/**
 * The colour-type `match` in `main` of src/main.rs: the decoder's colour
 * type is admitted only when it is one of L8, La8, Rgb8 and Rgba8, and is
 * then handed to the encoder as the extended colour type of the same name.
 * The two enums are those of the `image` crate.
 */
module ColorAdmission {
  import opened Wrappers

  /** The decoder's colour types (`image::ColorType`). */
  datatype ColorType = L8 | La8 | Rgb8 | Rgba8 | L16 | La16 | Rgb16 | Rgba16 | Rgb32F | Rgba32F

  /** The encoder's colour types (`image::ExtendedColorType`). */
  datatype ExtendedColorType =
    | A8
    | L1 | La1 | Rgb1 | Rgba1
    | L2 | La2 | Rgb2 | Rgba2
    | L4 | La4 | Rgb4 | Rgba4
    | L8 | La8 | Rgb8 | Rgba8
    | L16 | La16 | Rgb16 | Rgba16
    | Bgr8 | Bgra8
    | Rgb32F | Rgba32F
    | Cmyk8
    | Unknown(bitsPerPixel: bv8)

  /** A file path, carried by the error for diagnostics. */
  type Path = string

  /** `Error::ColorType`, the only error this step can produce. */
  datatype Error = ColorTypeError(colorType: ColorType, path: Path)

  function ChannelCount(c: ColorType): nat
  {
    match c
    case L8 | L16 => 1
    case La8 | La16 => 2
    case Rgb8 | Rgb16 | Rgb32F => 3
    case Rgba8 | Rgba16 | Rgba32F => 4
  }

  function BytesPerPixel(c: ColorType): nat
  {
    match c
    case L8 => 1
    case La8 | L16 => 2
    case Rgb8 => 3
    case Rgba8 | La16 => 4
    case Rgb16 => 6
    case Rgba16 => 8
    case Rgb32F => 12
    case Rgba32F => 16
  }

  /** The extended colour type of the same name (the crate's conversion between the two enums). */
  function SameNamed(c: ColorType): ExtendedColorType
  {
    match c
    case L8 => ExtendedColorType.L8
    case La8 => ExtendedColorType.La8
    case Rgb8 => ExtendedColorType.Rgb8
    case Rgba8 => ExtendedColorType.Rgba8
    case L16 => ExtendedColorType.L16
    case La16 => ExtendedColorType.La16
    case Rgb16 => ExtendedColorType.Rgb16
    case Rgba16 => ExtendedColorType.Rgba16
    case Rgb32F => ExtendedColorType.Rgb32F
    case Rgba32F => ExtendedColorType.Rgba32F
  }

  /** The `match input.color_type()` in `main`, with the input path for the error. */
  function Admit(c: ColorType, input: Path): (r: Result<ExtendedColorType, Error>)
    ensures r.Ok? ==> r.value == SameNamed(c)
    ensures r.Err? ==> r.error == ColorTypeError(c, input)
  {
    match c
    case L8 => Ok(ExtendedColorType.L8)
    case La8 => Ok(ExtendedColorType.La8)
    case Rgb8 => Ok(ExtendedColorType.Rgb8)
    case Rgba8 => Ok(ExtendedColorType.Rgba8)
    case _ => Err(ColorTypeError(c, input))
  }

  /**
   * Admission succeeds exactly for the four listed types, which are exactly
   * the types with one byte per channel (so masking bytes masks channels);
   * an admitted type becomes the extended type of the same name, and any
   * other is refused with an error naming it and the input path.
   */
  lemma AdmitSpec(c: ColorType, input: Path)
    ensures Admit(c, input).Ok? <==> (c.L8? || c.La8? || c.Rgb8? || c.Rgba8?)
    ensures Admit(c, input).Ok? <==> BytesPerPixel(c) == ChannelCount(c)
    ensures Admit(c, input).Ok? ==> Admit(c, input).value == SameNamed(c)
    ensures Admit(c, input).Err? ==> Admit(c, input).error == ColorTypeError(c, input)
  {
  }
}
