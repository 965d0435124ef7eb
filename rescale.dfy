/** The range step `_rescale_I_or_F_to_L` (image_date_editor.py, lines
    123-142): a linear map of wide samples onto 0..255, in exact arithmetic. */
module Rescale {
  import opened Options
  import opened Raster

  /** (s - lo) * 255 / (hi - lo), exactly. */
  function Linear(s: real, lo: real, hi: real): real
    requires lo < hi
  {
    (s - lo) * 255.0 / (hi - lo)
  }

  lemma LinearEndpoints(lo: real, hi: real)
    requires lo < hi
    ensures Linear(lo, lo, hi) == 0.0 && Linear(hi, lo, hi) == 255.0
  {
    var d := hi - lo;
    assert (hi - lo) * 255.0 == 255.0 * d;
    assert 255.0 * d / d == 255.0;
  }

  lemma LinearMonotone(s: real, t: real, lo: real, hi: real)
    requires lo < hi && s <= t
    ensures Linear(s, lo, hi) <= Linear(t, lo, hi)
    ensures s < t ==> Linear(s, lo, hi) < Linear(t, lo, hi)
  {
  }

  /** Samples inside [lo, hi] land inside 0..255. */
  lemma LinearRange(s: real, lo: real, hi: real)
    requires lo < hi && lo <= s <= hi
    ensures InByteRange(Linear(s, lo, hi))
  {
    LinearEndpoints(lo, hi);
    LinearMonotone(lo, s, lo, hi);
    LinearMonotone(s, hi, lo, hi);
  }

  /** The cast `convert('L')` applies to float samples: values below 0 or
      above 255 are clipped (the float rounding is not modelled). */
  function Clip8(x: real): (r: real)
    ensures InByteRange(r)
    ensures InByteRange(x) ==> r == x
    ensures x < 0.0 ==> r == 0.0
    ensures x > 255.0 ==> r == 255.0
  {
    if x < 0.0 then 0.0 else if x > 255.0 then 255.0 else x
  }

  function SeqMin(s: seq<real>): (m: real)
    requires |s| > 0
    ensures m in s && forall x :: x in s ==> m <= x
  {
    if |s| == 1 then s[0]
    else
      var rest := SeqMin(s[1..]);
      assert forall x :: x in s ==> x == s[0] || x in s[1..];
      if s[0] <= rest then s[0] else rest
  }

  function SeqMax(s: seq<real>): (m: real)
    requires |s| > 0
    ensures m in s && forall x :: x in s ==> x <= m
  {
    if |s| == 1 then s[0]
    else
      var rest := SeqMax(s[1..]);
      assert forall x :: x in s ==> x == s[0] || x in s[1..];
      if s[0] >= rest then s[0] else rest
  }

  /** The declared bounds are trusted only when both are present and
      smax > smin. */
  predicate DeclaredUsable(smin: Option<real>, smax: Option<real>)
  {
    smin.Some? && smax.Some? && smax.value > smin.value
  }

  /** The (mn, mx) pair of the code: the declared bounds when usable,
      otherwise the extrema of the data (None for an image with no pixels). */
  function Bounds(samples: seq<real>, smin: Option<real>, smax: Option<real>): (r: Option<(real, real)>)
    ensures r.Some? ==> r.value.0 <= r.value.1
    ensures DeclaredUsable(smin, smax) ==> r == Some((smin.value, smax.value))
    ensures !DeclaredUsable(smin, smax) ==> (r.None? <==> |samples| == 0)
    ensures !DeclaredUsable(smin, smax) && r.Some? ==>
              && r.value.0 in samples && r.value.1 in samples
              && forall x :: x in samples ==> r.value.0 <= x <= r.value.1
  {
    if DeclaredUsable(smin, smax) then Some((smin.value, smax.value))
    else if |samples| == 0 then None
    else Some((SeqMin(samples), SeqMax(samples)))
  }

  /** One output sample. Without bounds or with a flat range the sample is
      cast directly, so nothing is divided by zero; otherwise it is mapped
      linearly and then cast. */
  function ScaleSample(s: real, b: Option<(real, real)>): (r: real)
    requires b.Some? ==> b.value.0 <= b.value.1
    ensures InByteRange(r)
  {
    match b
    case None => Clip8(s)
    case Some((lo, hi)) => if lo == hi then Clip8(s) else Clip8(Linear(s, lo, hi))
  }

  /** `_rescale_I_or_F_to_L` on a one-band 32-bit integer or float image:
      an 8-bit gray image of the same size, sample by sample. */
  function RescaleToGray(im: Image, smin: Option<real>, smax: Option<real>): (r: Image)
    requires WellFormed(im) && |im.bands| == 1
    ensures WellFormed(r) && r.mode == "L" && r.width == im.width && r.height == im.height
    ensures |r.bands| == 1 && |r.bands[0]| == |im.bands[0]|
    ensures forall k :: 0 <= k < |im.bands[0]| ==>
              r.bands[0][k] == ScaleSample(im.bands[0][k], Bounds(im.bands[0], smin, smax))
  {
    var s := im.bands[0];
    var b := Bounds(s, smin, smax);
    Derived("L", im.width, im.height, [seq(|s|, k requires 0 <= k < |s| => ScaleSample(s[k], b))])
  }

  /** With bounds taken from the data and a non-flat image, every output is
      the exact linear image of its sample, already inside 0..255 (the cast
      clips nothing), the minimum maps to 0 and the maximum to 255. */
  lemma RescaleFromExtrema(im: Image, smin: Option<real>, smax: Option<real>, k: nat)
    requires WellFormed(im) && |im.bands| == 1 && k < |im.bands[0]|
    requires !DeclaredUsable(smin, smax)
    ensures var s, out := im.bands[0], RescaleToGray(im, smin, smax).bands[0];
            var mn, mx := SeqMin(s), SeqMax(s);
      && (mn < mx ==> out[k] == Linear(s[k], mn, mx))
      && (s[k] == mn ==> out[k] == 0.0 || mn == mx)
      && (s[k] == mx ==> out[k] == 255.0 || mn == mx)
  {
    var s := im.bands[0];
    var mn, mx := SeqMin(s), SeqMax(s);
    assert s[k] in s;
    if mn < mx {
      LinearRange(s[k], mn, mx);
      LinearEndpoints(mn, mx);
    }
  }

  /** Trusted declared bounds map smin to 0 and smax to 255; samples outside
      them are clipped. */
  lemma RescaleFromDeclared(im: Image, smin: Option<real>, smax: Option<real>, k: nat)
    requires WellFormed(im) && |im.bands| == 1 && k < |im.bands[0]|
    requires DeclaredUsable(smin, smax)
    ensures var s, out := im.bands[0], RescaleToGray(im, smin, smax).bands[0];
      && (s[k] <= smin.value ==> out[k] == 0.0)
      && (s[k] >= smax.value ==> out[k] == 255.0)
      && (smin.value <= s[k] <= smax.value ==> out[k] == Linear(s[k], smin.value, smax.value))
  {
    var s := im.bands[0];
    var lo, hi := smin.value, smax.value;
    LinearEndpoints(lo, hi);
    if s[k] <= lo {
      LinearMonotone(s[k], lo, lo, hi);
    } else if s[k] >= hi {
      LinearMonotone(hi, s[k], lo, hi);
    } else {
      LinearRange(s[k], lo, hi);
    }
  }

  /** A flat image (every sample v) takes the guard: every output is the
      direct cast of v, not a division by a zero range. */
  lemma RescaleFlat(im: Image, smin: Option<real>, smax: Option<real>, v: real)
    requires WellFormed(im) && |im.bands| == 1
    requires !DeclaredUsable(smin, smax)
    requires forall k :: 0 <= k < |im.bands[0]| ==> im.bands[0][k] == v
    ensures forall k :: 0 <= k < |im.bands[0]| ==> RescaleToGray(im, smin, smax).bands[0][k] == Clip8(v)
  {
  }

  /** The map keeps the order of samples, whichever bounds are used. */
  lemma RescaleMonotone(im: Image, smin: Option<real>, smax: Option<real>, i: nat, j: nat)
    requires WellFormed(im) && |im.bands| == 1
    requires i < |im.bands[0]| && j < |im.bands[0]| && im.bands[0][i] <= im.bands[0][j]
    ensures RescaleToGray(im, smin, smax).bands[0][i] <= RescaleToGray(im, smin, smax).bands[0][j]
  {
    var s := im.bands[0];
    var b := Bounds(s, smin, smax);
    if b.Some? && b.value.0 != b.value.1 {
      LinearMonotone(s[i], s[j], b.value.0, b.value.1);
    }
  }
}
