/** The decoded image as the normalisation pipeline sees it, the conversions
    of the imaging library that the pipeline relies on, and the ones the
    model leaves uninterpreted. */
module Raster {
  import opened Options
  import opened TiffTags

  /** A decoded image: the imaging library's mode string, its size, one
      row-major sample sequence per band, and the two tag tables (absent on
      images the library derives by conversion). */
  datatype Image = Image(mode: string, width: nat, height: nat, bands: seq<seq<real>>,
                         tagV2: Option<TagStore>, tag: Option<TagStore>)

  /** Number of bands of each mode the pipeline names; None for any other. */
  function BandCount(mode: string): Option<nat>
  {
    if mode in {"1", "L", "P", "I", "F", "I;16", "I;16B", "I;16L"} then Some(1)
    else if mode == "LA" then Some(2)
    else if mode in {"RGB", "YCbCr"} then Some(3)
    else if mode in {"RGBA", "CMYK"} then Some(4)
    else None
  }

  /** Modes whose samples are 8-bit. */
  predicate EightBit(mode: string)
  {
    mode in {"1", "L", "P", "LA", "RGB", "RGBA", "CMYK", "YCbCr"}
  }

  predicate InByteRange(x: real)
  {
    0.0 <= x <= 255.0
  }

  /** Shape of an image the library hands out: every band holds one sample
      per pixel, known modes have their band count, and 8-bit modes hold
      samples in 0..255. */
  predicate WellFormed(im: Image)
  {
    && (BandCount(im.mode).Some? ==> |im.bands| == BandCount(im.mode).value)
    && (forall c :: 0 <= c < |im.bands| ==> |im.bands[c]| == im.width * im.height)
    && (EightBit(im.mode) ==>
          forall c, k :: 0 <= c < |im.bands| && 0 <= k < |im.bands[c]| ==> InByteRange(im.bands[c][k]))
  }

  /** A well-formed three-band 8-bit image of the given size. */
  predicate IsRgb(im: Image, width: nat, height: nat)
  {
    im.mode == "RGB" && im.width == width && im.height == height && WellFormed(im)
  }

  /** The parts of the imaging library the model does not interpret:
      `ImageOps.exif_transpose` and `convert('RGB')` on palette, CMYK,
      YCbCr and unnamed modes. None means the call raised. */
  datatype Pillow = Pillow(exifTranspose: Image -> Option<Image>, convertToRgb: Image -> Option<Image>)

  /** exif_transpose keeps the mode and the pixel count, swapping width and
      height for a quarter turn. */
  predicate TransposeOk(im: Image, r: Option<Image>)
  {
    r.Some? ==>
      && WellFormed(r.value)
      && r.value.mode == im.mode
      && ((r.value.width == im.width && r.value.height == im.height) ||
          (r.value.width == im.height && r.value.height == im.width))
  }

  /** convert('RGB'), when it succeeds, yields RGB of the same size. */
  predicate ConvertOk(im: Image, r: Option<Image>)
  {
    r.Some? ==> IsRgb(r.value, im.width, im.height)
  }

  ghost predicate Sound(p: Pillow)
  {
    && (forall im :: WellFormed(im) ==> TransposeOk(im, p.exifTranspose(im)))
    && (forall im :: WellFormed(im) ==> ConvertOk(im, p.convertToRgb(im)))
  }

  /** The EXIF orientation step: the transposed image, or the input itself
      when the transpose raises. */
  function Oriented(p: Pillow, im: Image): (r: Image)
    requires Sound(p) && WellFormed(im)
    ensures WellFormed(r) && r.mode == im.mode
    ensures (r.width == im.width && r.height == im.height) || (r.width == im.height && r.height == im.width)
    ensures p.exifTranspose(im).None? ==> r == im
  {
    match p.exifTranspose(im)
    case Some(t) => t
    case None => im
  }

  /** An image the library builds from pixels: it carries no tag tables. */
  function Derived(mode: string, width: nat, height: nat, bands: seq<seq<real>>): Image
  {
    Image(mode, width, height, bands, None, None)
  }

  /** convert('RGB') of a one-band 8-bit image: the band repeated three times. */
  function Broadcast(l: Image): (r: Image)
    requires WellFormed(l) && |l.bands| == 1 && EightBit(l.mode)
    ensures IsRgb(r, l.width, l.height)
    ensures forall c :: 0 <= c < 3 ==> r.bands[c] == l.bands[0]
  {
    Derived("RGB", l.width, l.height, [l.bands[0], l.bands[0], l.bands[0]])
  }

  /** convert('L') of a bilevel image: zero stays black, anything else is 255. */
  function BitToGray(im: Image): (r: Image)
    requires WellFormed(im) && im.mode == "1"
    ensures WellFormed(r) && r.mode == "L" && r.width == im.width && r.height == im.height
    ensures |r.bands[0]| == |im.bands[0]|
    ensures forall k :: 0 <= k < |im.bands[0]| ==>
              r.bands[0][k] == (if im.bands[0][k] == 0.0 then 0.0 else 255.0)
  {
    var b := im.bands[0];
    Derived("L", im.width, im.height, [seq(|b|, k requires 0 <= k < |b| => if b[k] == 0.0 then 0.0 else 255.0)])
  }

  /** `Image.new('RGB', size, (255, 255, 255))`. */
  function WhiteCanvas(width: nat, height: nat): (r: Image)
    ensures IsRgb(r, width, height)
    ensures forall c, k :: 0 <= c < 3 && 0 <= k < width * height ==> r.bands[c][k] == 255.0
  {
    var white := seq(width * height, _ => 255.0);
    Derived("RGB", width, height, [white, white, white])
  }

  /** `convert('RGB')`: a copy for RGB, the broadcast for 8-bit gray and
      bilevel, and the library's own conversion for every other mode. */
  function ConvertRgb(p: Pillow, im: Image): (r: Option<Image>)
    requires Sound(p) && WellFormed(im)
    ensures r.Some? ==> IsRgb(r.value, im.width, im.height)
    ensures im.mode in {"RGB", "L", "1"} ==> r.Some?
  {
    if im.mode == "RGB" then Some(Derived("RGB", im.width, im.height, im.bands))
    else if im.mode == "L" then Some(Broadcast(im))
    else if im.mode == "1" then Some(Broadcast(BitToGray(im)))
    else p.convertToRgb(im)
  }
}
