/** The polarity step `_invert_if_white_is_zero` (image_date_editor.py,
    lines 114-121): WhiteIsZero images are inverted, 8-bit gray and RGB only. */
module Polarity {
  import opened Options
  import opened TiffTags
  import opened Raster

  /** The photometric value compares equal to 0 (WhiteIsZero). */
  predicate WhiteIsZero(photometric: Option<Scalar>)
  {
    photometric == Some(Num(0.0))
  }

  /** Modes the step is willing to invert. */
  predicate Invertible(mode: string)
  {
    mode == "L" || mode == "RGB"
  }

  /** `ImageOps.invert` on one band: each sample v becomes 255 - v. */
  function InvertBand(b: seq<real>): (r: seq<real>)
  {
    seq(|b|, k requires 0 <= k < |b| => 255.0 - b[k])
  }

  function InvertIfWhiteIsZero(im: Image, photometric: Option<Scalar>): (r: Image)
    requires WellFormed(im)
    ensures WellFormed(r)
    ensures r.mode == im.mode && r.width == im.width && r.height == im.height
    ensures |r.bands| == |im.bands|
    ensures !(WhiteIsZero(photometric) && Invertible(im.mode)) ==> r == im
    ensures WhiteIsZero(photometric) && Invertible(im.mode) ==>
              forall c, k :: 0 <= c < |im.bands| && 0 <= k < |im.bands[c]| ==>
                |r.bands[c]| == |im.bands[c]| && r.bands[c][k] == 255.0 - im.bands[c][k]
  {
    if WhiteIsZero(photometric) && Invertible(im.mode) then
      Derived(im.mode, im.width, im.height, seq(|im.bands|, c requires 0 <= c < |im.bands| => InvertBand(im.bands[c])))
    else im
  }

  /** Inverting twice gives back the original samples: the step loses no
      information. */
  lemma {:induction false} InvertTwice(im: Image, photometric: Option<Scalar>)
    requires WellFormed(im)
    ensures InvertIfWhiteIsZero(InvertIfWhiteIsZero(im, photometric), photometric).bands == im.bands
  {
    var once := InvertIfWhiteIsZero(im, photometric);
    var twice := InvertIfWhiteIsZero(once, photometric);
    if WhiteIsZero(photometric) && Invertible(im.mode) {
      forall c | 0 <= c < |im.bands|
        ensures twice.bands[c] == im.bands[c]
      {
        assert |twice.bands[c]| == |im.bands[c]|;
        forall k | 0 <= k < |im.bands[c]|
          ensures twice.bands[c][k] == im.bands[c][k]
        {
          assert once.bands[c][k] == 255.0 - im.bands[c][k];
        }
      }
    }
  }
}
