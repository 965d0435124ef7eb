/** The alpha step `_flatten_alpha_to_rgb` (image_date_editor.py, lines
    144-154): RGBA and LA images are composited onto opaque white. */
module Alpha {
  import opened Options
  import opened Raster

  /** One channel c with coverage a over a white background:
      c * a/255 + 255 * (1 - a/255), in exact arithmetic. Pasting through the
      alpha mask (RGBA) and `alpha_composite` onto an opaque canvas (LA) both
      compute this. */
  function Over(c: real, a: real): real
  {
    (c * a + 255.0 * (255.0 - a)) / 255.0
  }

  /** Full transparency gives white, full opacity keeps the colour, and the
      result of 8-bit inputs is 8-bit. */
  lemma OverProperties(c: real, a: real)
    ensures Over(c, 0.0) == 255.0
    ensures Over(c, 255.0) == c
    ensures InByteRange(c) && InByteRange(a) ==> InByteRange(Over(c, a))
  {
    if InByteRange(c) && InByteRange(a) {
      assert 0.0 <= c * a <= 255.0 * a by {
        assert c * a - 255.0 * a == (c - 255.0) * a;
      }
      assert 0.0 <= c * a + 255.0 * (255.0 - a) <= 255.0 * 255.0;
    }
  }

  /** One composited band: band `c` over white through alpha band `a`. */
  function OverBand(c: seq<real>, a: seq<real>): (r: seq<real>)
    requires |c| == |a|
  {
    seq(|c|, k requires 0 <= k < |c| => Over(c[k], a[k]))
  }

  function FlattenAlpha(p: Pillow, im: Image): (r: Option<Image>)
    requires Sound(p) && WellFormed(im)
    ensures r.Some? ==> IsRgb(r.value, im.width, im.height)
    ensures im.mode in {"RGBA", "LA"} ==> r.Some?
    ensures im.mode !in {"RGBA", "LA"} ==> r == ConvertRgb(p, im)
    ensures im.mode == "RGBA" ==>
              forall c, k :: 0 <= c < 3 && 0 <= k < im.width * im.height ==>
                r.value.bands[c][k] == Over(im.bands[c][k], im.bands[3][k])
    ensures im.mode == "LA" ==>
              forall c, k :: 0 <= c < 3 && 0 <= k < im.width * im.height ==>
                r.value.bands[c][k] == Over(im.bands[0][k], im.bands[1][k])
  {
    if im.mode == "RGBA" then
      var a := im.bands[3];
      var out := Derived("RGB", im.width, im.height,
                         [OverBand(im.bands[0], a), OverBand(im.bands[1], a), OverBand(im.bands[2], a)]);
      assert WellFormed(out) by {
        forall c, k | 0 <= c < 3 && 0 <= k < |out.bands[c]|
          ensures InByteRange(out.bands[c][k])
        {
          OverProperties(im.bands[c][k], a[k]);
        }
      }
      Some(out)
    else if im.mode == "LA" then
      var l := OverBand(im.bands[0], im.bands[1]);
      var out := Derived("RGB", im.width, im.height, [l, l, l]);
      assert WellFormed(out) by {
        forall k | 0 <= k < |l|
          ensures InByteRange(l[k])
        {
          OverProperties(im.bands[0][k], im.bands[1][k]);
        }
      }
      Some(out)
    else ConvertRgb(p, im)
  }

  /** A pixel with alpha 0 becomes white whatever its colour; a pixel with
      alpha 255 keeps its own colour (its gray level repeated, for LA). */
  lemma FlattenAlphaPixel(p: Pillow, im: Image, k: nat)
    requires Sound(p) && WellFormed(im) && im.mode in {"RGBA", "LA"}
    requires k < im.width * im.height
    ensures var out := FlattenAlpha(p, im).value;
            var a := if im.mode == "RGBA" then im.bands[3][k] else im.bands[1][k];
      && (a == 0.0 ==> forall c :: 0 <= c < 3 ==> out.bands[c][k] == 255.0)
      && (a == 255.0 && im.mode == "RGBA" ==> forall c :: 0 <= c < 3 ==> out.bands[c][k] == im.bands[c][k])
      && (a == 255.0 && im.mode == "LA" ==> forall c :: 0 <= c < 3 ==> out.bands[c][k] == im.bands[0][k])
  {
  }
}
