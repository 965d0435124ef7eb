/** `_to_displayable_rgb` (image_date_editor.py, lines 156-222) and the
    RGB safety net of `show_image` (lines 240-245): any decoded image becomes
    an RGB image of its upright size. */
module Display {
  import opened Options
  import opened TiffTags
  import opened Raster
  import opened TiffMeta
  import opened Polarity
  import opened Rescale
  import opened Alpha

  /** The branches of the pipeline, in the order the code tests the mode. */
  datatype Route = Palette | AlphaModes | ColorSpace | Wide16 | Wide | Bilevel | Gray | Fallback

  function RouteOf(mode: string): Route
  {
    if mode == "P" then Palette
    else if mode in {"RGBA", "LA"} then AlphaModes
    else if mode in {"CMYK", "YCbCr"} then ColorSpace
    else if mode in {"I;16", "I;16B", "I;16L"} then Wide16
    else if mode in {"I", "F"} then Wide
    else if mode == "1" then Bilevel
    else if mode == "L" then Gray
    else Fallback
  }

  /** `convert('I')` of a 16-bit gray image keeps every value. */
  function ToInt32(im: Image): (r: Image)
    requires WellFormed(im) && im.mode in {"I;16", "I;16B", "I;16L"}
    ensures WellFormed(r) && r.mode == "I" && r.width == im.width && r.height == im.height
    ensures r.bands == im.bands
  {
    Derived("I", im.width, im.height, im.bands)
  }

  /** The common tail of the gray branches: resolve polarity on the 8-bit
      gray image, then `convert('RGB')`. */
  function GrayToRgb(l: Image, photometric: Option<Scalar>): (r: Image)
    requires WellFormed(l) && l.mode == "L"
    ensures IsRgb(r, l.width, l.height)
    ensures forall c, k :: 0 <= c < 3 && 0 <= k < |l.bands[0]| ==>
              r.bands[c][k] == (if WhiteIsZero(photometric) then 255.0 - l.bands[0][k] else l.bands[0][k])
  {
    Broadcast(InvertIfWhiteIsZero(l, photometric))
  }

  /** The normalisation pipeline. The hints are read from the upright image
      before any conversion. None means a `convert('RGB')` the code does not
      guard raised (palette, CMYK and YCbCr branches). */
  function ToDisplayableRgb(p: Pillow, im: Image): (r: Option<Image>)
    requires Sound(p) && WellFormed(im)
    ensures var o := Oriented(p, im);
      && (r.Some? ==> IsRgb(r.value, o.width, o.height))
      && (r.None? <==> RouteOf(o.mode) in {Palette, ColorSpace} && p.convertToRgb(o).None?)
  {
    var o := Oriented(p, im);
    var photometric := Photometric(o);
    var (smin, smax) := SampleBounds(o);
    match RouteOf(o.mode)
    case Palette =>
      (match ConvertRgb(p, o)
       case Some(rgb) => Some(InvertIfWhiteIsZero(rgb, photometric))
       case None => None)
    case AlphaModes =>
      Some(InvertIfWhiteIsZero(FlattenAlpha(p, o).value, photometric))
    case ColorSpace =>
      (match ConvertRgb(p, o)
       case Some(rgb) => Some(InvertIfWhiteIsZero(rgb, photometric))
       case None => None)
    case Wide16 =>
      Some(GrayToRgb(RescaleToGray(ToInt32(o), smin, smax), photometric))
    case Wide =>
      Some(GrayToRgb(RescaleToGray(o, smin, smax), photometric))
    case Bilevel =>
      Some(GrayToRgb(BitToGray(o), photometric))
    case Gray =>
      Some(GrayToRgb(o, photometric))
    case Fallback =>
      var rgb := match ConvertRgb(p, o)
                 case Some(c) => c
                 case None => WhiteCanvas(o.width, o.height);
      Some(InvertIfWhiteIsZero(rgb, photometric))
  }

  /** The check in `show_image`: a non-RGB result is converted, or replaced
      by a white canvas of the same size. */
  function SafetyNet(p: Pillow, im: Image): (r: Image)
    requires Sound(p) && WellFormed(im)
    ensures IsRgb(r, im.width, im.height)
    ensures im.mode == "RGB" ==> r == im
  {
    if im.mode != "RGB" then
      match ConvertRgb(p, im)
      case Some(c) => c
      case None => WhiteCanvas(im.width, im.height)
    else im
  }

  /** The safety net never fires: every branch of the pipeline already ends
      in RGB. */
  lemma SafetyNetIdle(p: Pillow, im: Image)
    requires Sound(p) && WellFormed(im) && ToDisplayableRgb(p, im).Some?
    ensures SafetyNet(p, ToDisplayableRgb(p, im).value) == ToDisplayableRgb(p, im).value
  {
  }

  /** 8-bit gray: each output channel is the sample, or 255 minus it for a
      WhiteIsZero image. */
  lemma GrayPolarity(p: Pillow, im: Image, k: nat)
    requires Sound(p) && WellFormed(im)
    requires Oriented(p, im).mode == "L" && k < |Oriented(p, im).bands[0]|
    ensures var o, out := Oriented(p, im), ToDisplayableRgb(p, im).value;
            var v := o.bands[0][k];
      forall c :: 0 <= c < 3 ==> out.bands[c][k] == (if WhiteIsZero(Photometric(o)) then 255.0 - v else v)
  {
    var o := Oriented(p, im);
    assert ToDisplayableRgb(p, im) == Some(GrayToRgb(o, Photometric(o)));
  }

  /** Wide samples are rescaled first and the polarity is resolved on the
      8-bit result. */
  lemma WidePolarityAfterRescale(p: Pillow, im: Image, k: nat)
    requires Sound(p) && WellFormed(im)
    requires RouteOf(Oriented(p, im).mode) in {Wide16, Wide} && k < |Oriented(p, im).bands[0]|
    ensures var o, out := Oriented(p, im), ToDisplayableRgb(p, im).value;
            var (smin, smax) := SampleBounds(o);
            var g := ScaleSample(o.bands[0][k], Bounds(o.bands[0], smin, smax));
      forall c :: 0 <= c < 3 ==> out.bands[c][k] == (if WhiteIsZero(Photometric(o)) then 255.0 - g else g)
  {
  }

  /** A fully transparent pixel comes out white; because polarity is resolved
      after flattening, a WhiteIsZero image shows it black. */
  lemma TransparentPixel(p: Pillow, im: Image, k: nat)
    requires Sound(p) && WellFormed(im)
    requires var o := Oriented(p, im);
      o.mode in {"RGBA", "LA"} && k < o.width * o.height &&
      (if o.mode == "RGBA" then o.bands[3][k] else o.bands[1][k]) == 0.0
    ensures var o, out := Oriented(p, im), ToDisplayableRgb(p, im).value;
      forall c :: 0 <= c < 3 ==> out.bands[c][k] == (if WhiteIsZero(Photometric(o)) then 0.0 else 255.0)
  {
  }

  /** Palette, CMYK and YCbCr images are converted first, and polarity is
      resolved on the RGB result. */
  lemma ConvertedPolarity(p: Pillow, im: Image, c: nat, k: nat)
    requires Sound(p) && WellFormed(im)
    requires var o := Oriented(p, im);
      RouteOf(o.mode) in {Palette, ColorSpace} && p.convertToRgb(o).Some? &&
      c < 3 && k < o.width * o.height
    ensures var o, out := Oriented(p, im), ToDisplayableRgb(p, im).value;
            var v := p.convertToRgb(o).value.bands[c][k];
      out.bands[c][k] == (if WhiteIsZero(Photometric(o)) then 255.0 - v else v)
  {
    var o := Oriented(p, im);
    assert ToDisplayableRgb(p, im) == Some(InvertIfWhiteIsZero(p.convertToRgb(o).value, Photometric(o)));
  }

  /** Bilevel pixels become black (0) or white (255), swapped for a
      WhiteIsZero image. */
  lemma BilevelPixel(p: Pillow, im: Image, c: nat, k: nat)
    requires Sound(p) && WellFormed(im)
    requires Oriented(p, im).mode == "1" && c < 3 && k < |Oriented(p, im).bands[0]|
    ensures var o, out := Oriented(p, im), ToDisplayableRgb(p, im).value;
            var black := (o.bands[0][k] == 0.0) != WhiteIsZero(Photometric(o));
      out.bands[c][k] == (if black then 0.0 else 255.0)
  {
    var o := Oriented(p, im);
    assert ToDisplayableRgb(p, im) == Some(GrayToRgb(BitToGray(o), Photometric(o)));
  }

  /** A mode no branch names whose conversion raises is shown as a white
      canvas of the upright size (black for a WhiteIsZero image). */
  lemma FallbackCanvas(p: Pillow, im: Image, c: nat, k: nat)
    requires Sound(p) && WellFormed(im)
    requires var o := Oriented(p, im);
      RouteOf(o.mode) == Fallback && o.mode != "RGB" && p.convertToRgb(o).None? &&
      c < 3 && k < o.width * o.height
    ensures var o, out := Oriented(p, im), ToDisplayableRgb(p, im).value;
      out.bands[c][k] == (if WhiteIsZero(Photometric(o)) then 0.0 else 255.0)
  {
  }

  /** An upright BlackIsZero RGB image passes through with its samples
      unchanged, so running the pipeline on its own output changes nothing. */
  lemma RgbPassThrough(p: Pillow, im: Image)
    requires Sound(p) && WellFormed(im) && im.mode == "RGB"
    requires p.exifTranspose(im).None? || p.exifTranspose(im) == Some(im)
    requires !WhiteIsZero(Photometric(im))
    ensures ToDisplayableRgb(p, im).Some?
    ensures ToDisplayableRgb(p, im).value.bands == im.bands
  {
  }
}
