/** The TIFF hints the pipeline reads from an image before any mode change:
    PhotometricInterpretation (tag 262, section 3 of TIFF 6.0) and
    MinSampleValue / MaxSampleValue (tags 280 and 281, section 8 of TIFF
    6.0, which describes them as statistics of the data rather than display
    bounds). */
module TiffMeta {
  import opened Options
  import opened TiffTags
  import opened Raster

  const PhotometricInterpretation: int := 262
  const MinSampleValue: int := 280
  const MaxSampleValue: int := 281

  /** `_tiff_get`: `tag_v2` is tried before `tag`. */
  function TiffGet(im: Image, code: int): Option<Scalar>
  {
    TagGet([im.tagV2, im.tag], code)
  }

  /** An accepted `tag_v2` decides alone, even when the code is absent from it. */
  lemma TiffGetPrefersV2(im: Image, code: int)
    requires Usable(im.tagV2, code)
    ensures TiffGet(im, code) == Answer(im.tagV2.value, code)
    ensures code !in im.tagV2.value ==> TiffGet(im, code) == None
  {
    TagGetFirstUsable([im.tagV2, im.tag], code, 0);
  }

  /** When `tag_v2` is missing, empty or raises, `tag` answers, and with
      neither usable the result is None. */
  lemma TiffGetFallsBack(im: Image, code: int)
    requires !Usable(im.tagV2, code)
    ensures Usable(im.tag, code) ==> TiffGet(im, code) == Answer(im.tag.value, code)
    ensures !Usable(im.tag, code) ==> TiffGet(im, code) == None
  {
    var stores := [im.tagV2, im.tag];
    if Usable(im.tag, code) {
      TagGetFirstUsable(stores, code, 1);
    } else {
      TagGetNoneUsable(stores, code);
    }
  }

  /** `_get_tiff_photometric`. */
  function Photometric(im: Image): Option<Scalar>
  {
    TiffGet(im, PhotometricInterpretation)
  }

  /** `float(v)` raises for a value that is not a number. */
  predicate ParseFails(v: Option<Scalar>)
  {
    v == Some(NonNumeric)
  }

  /** `_get_tiff_smin_smax`: an absent tag stays None, and when either
      present value fails to parse both results are None, so a half-parsed
      pair is never returned. */
  function SampleBounds(im: Image): (r: (Option<real>, Option<real>))
    ensures var lo, hi := TiffGet(im, MinSampleValue), TiffGet(im, MaxSampleValue);
      && (ParseFails(lo) || ParseFails(hi) ==> r == (None, None))
      && (r.0.Some? ==> lo == Some(Num(r.0.value)) && !ParseFails(hi))
      && (r.1.Some? ==> hi == Some(Num(r.1.value)) && !ParseFails(lo))
      && (r.0.None? ==> lo == None || ParseFails(lo) || ParseFails(hi))
      && (r.1.None? ==> hi == None || ParseFails(lo) || ParseFails(hi))
  {
    var lo, hi := TiffGet(im, MinSampleValue), TiffGet(im, MaxSampleValue);
    if ParseFails(lo) || ParseFails(hi) then (None, None)
    else ((if lo.Some? then Some(lo.value.x) else None),
          (if hi.Some? then Some(hi.value.x) else None))
  }
}
