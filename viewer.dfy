/** The viewer's own state (image_date_editor.py, lines 13-25 and 226-280):
    the list of image files, the index of the one shown, the preview and the
    enabled state of the Previous and Next buttons. */
module Viewer {
  import opened Options
  import opened Raster
  import opened Display

  /** The suffixes the file list accepts, compared after lower-casing. */
  const Extensions: seq<string> := [".jpg", ".jpeg", ".png", ".tif", ".tiff", ".bmp", ".gif"]

  function LowerChar(ch: char): char
  {
    if 'A' <= ch <= 'Z' then (ch as int + 32) as char else ch
  }

  /** `str.lower` on the letters A-Z. */
  function Lower(s: string): (r: string)
    ensures |r| == |s| && forall i :: 0 <= i < |s| ==> r[i] == LowerChar(s[i])
  {
    seq(|s|, i requires 0 <= i < |s| => LowerChar(s[i]))
  }

  predicate EndsWith(s: string, suffix: string)
  {
    |suffix| <= |s| && s[|s| - |suffix|..] == suffix
  }

  /** The test of the list comprehension in `__init__`. */
  predicate IsImageName(name: string)
  {
    exists e :: e in Extensions && EndsWith(Lower(name), e)
  }

  /** Any capitalisation of a recognised extension is accepted, whatever
      comes before it. */
  lemma ExtensionIgnoresCase(stem: string, ext: string)
    requires Lower(ext) in Extensions
    ensures IsImageName(stem + ext)
  {
  }

  /** The files of a directory listing that the viewer walks, in listing order. */
  function ImageFiles(listing: seq<string>): (r: seq<string>)
    ensures forall f :: f in r <==> f in listing && IsImageName(f)
    ensures |r| <= |listing|
  {
    if |listing| == 0 then []
    else (if IsImageName(listing[0]) then [listing[0]] else []) + ImageFiles(listing[1..])
  }

  /** Filtering keeps the order of the listing: it distributes over
      concatenation. */
  lemma {:induction false} ImageFilesAppend(a: seq<string>, b: seq<string>)
    ensures ImageFiles(a + b) == ImageFiles(a) + ImageFiles(b)
  {
    if |a| == 0 {
      assert a + b == b;
    } else {
      assert (a + b)[1..] == a[1..] + b;
      ImageFilesAppend(a[1..], b);
    }
  }

  /** The move of `prev_image`: one step back unless at the first file. */
  function PrevIndex(idx: nat): nat
  {
    if idx > 0 then idx - 1 else idx
  }

  /** The move of `next_image`: one step on unless at the last file. */
  function NextIndex(idx: nat, count: nat): nat
  {
    if idx < count - 1 then idx + 1 else idx
  }

  /** The states `show_image` gives the two buttons. */
  predicate PrevEnabled(idx: nat)
  {
    idx > 0
  }

  predicate NextEnabled(idx: nat, count: nat)
  {
    idx < count - 1
  }

  /** An index is valid when it points into the list, or is 0 for an empty list. */
  predicate ValidIndex(idx: nat, count: nat)
  {
    idx == 0 || idx < count
  }

  /** Both moves keep the index valid, a button is enabled exactly when its
      move would change the index, and each move undoes the other. */
  lemma NavigationProperties(idx: nat, count: nat)
    requires ValidIndex(idx, count)
    ensures ValidIndex(PrevIndex(idx), count) && ValidIndex(NextIndex(idx, count), count)
    ensures PrevEnabled(idx) <==> PrevIndex(idx) != idx
    ensures NextEnabled(idx, count) <==> NextIndex(idx, count) != idx
    ensures NextEnabled(idx, count) ==> PrevIndex(NextIndex(idx, count)) == idx
    ensures PrevEnabled(idx) ==> NextIndex(PrevIndex(idx), count) == idx
  {
  }

  /** The index after pressing Next `presses` times. */
  function NextPresses(idx: nat, count: nat, presses: nat): nat
    decreases presses
  {
    if presses == 0 then idx else NextPresses(NextIndex(idx, count), count, presses - 1)
  }

  /** From the first file, k presses of Next reach file k, stopping at the
      last one: every file can be shown. */
  lemma {:induction false} NextReachesEveryFile(count: nat, presses: nat)
    requires count > 0
    ensures NextPresses(0, count, presses) == if presses < count then presses else count - 1
  {
    NextPressesFrom(0, count, presses);
  }

  lemma {:induction false} NextPressesFrom(idx: nat, count: nat, presses: nat)
    requires idx < count
    ensures NextPresses(idx, count, presses) == if idx + presses < count then idx + presses else count - 1
    decreases presses
  {
    if presses > 0 {
      NextPressesFrom(NextIndex(idx, count), count, presses - 1);
    }
  }

  /** Every decoded image is one the imaging library could hand out. */
  ghost predicate DecoderSound(decode: string -> Option<Image>)
  {
    forall name :: decode(name).Some? ==> WellFormed(decode(name).value)
  }

  class ImageDateEditor {
    /** The image files of the folder, fixed when the viewer is built. */
    const files: seq<string>
    /** `Image.open` on a file of the folder; None when it cannot be decoded. */
    const decode: string -> Option<Image>
    const pillow: Pillow
    var idx: nat
    /** The image on screen (before the preview is scaled down), or None
        after a load failed. */
    var current: Option<Image>
    var prevEnabled: bool
    var nextEnabled: bool

    /** The index points into the list and nothing is shown without files. */
    ghost predicate Ready()
      reads this
    {
      && Sound(pillow) && DecoderSound(decode)
      && ValidIndex(idx, |files|)
      && (|files| == 0 ==> current == None)
    }

    /** Ready, and a shown image is RGB with the buttons matching its index. */
    ghost predicate Valid()
      reads this
    {
      && Ready()
      && (current.Some? ==>
            && current.value.mode == "RGB"
            && prevEnabled == PrevEnabled(idx)
            && nextEnabled == NextEnabled(idx, |files|))
    }

    /** What `show_image` puts on screen for a file: the normalised image,
        or None when decoding or an unguarded conversion raised. */
    function Preview(name: string): (r: Option<Image>)
      requires Sound(pillow) && DecoderSound(decode)
      ensures r.None? <==> decode(name).None? || ToDisplayableRgb(pillow, decode(name).value).None?
      ensures r.Some? ==> var o := Oriented(pillow, decode(name).value);
                          IsRgb(r.value, o.width, o.height)
    {
      match decode(name)
      case None => None
      case Some(im) =>
        match ToDisplayableRgb(pillow, im)
        case None => None
        case Some(rgb) => Some(SafetyNet(pillow, rgb))
    }

    /** `__init__`: keep the image files of the listing, start at the first
        one and show it (the buttons start enabled, as the toolkit makes them). */
    constructor (listing: seq<string>, decode: string -> Option<Image>, pillow: Pillow)
      requires Sound(pillow) && DecoderSound(decode)
      ensures Valid()
      ensures files == ImageFiles(listing) && idx == 0
      ensures |files| == 0 ==> current == None
      ensures |files| > 0 ==> current == Preview(files[0])
      ensures current.None? ==> prevEnabled && nextEnabled
    {
      this.files := ImageFiles(listing);
      this.decode := decode;
      this.pillow := pillow;
      idx := 0;
      current := None;
      prevEnabled, nextEnabled := true, true;
      new;
      if |files| > 0 {
        ShowImage();
      }
    }

    /** `show_image`: load the current file; the buttons are refreshed only
        when the load succeeds. */
    method ShowImage()
      requires Ready()
      modifies this
      ensures Valid() && idx == old(idx)
      ensures |files| == 0 ==> current == old(current) &&
                               prevEnabled == old(prevEnabled) && nextEnabled == old(nextEnabled)
      ensures |files| > 0 ==> current == Preview(files[idx])
      ensures current.None? ==> prevEnabled == old(prevEnabled) && nextEnabled == old(nextEnabled)
    {
      if |files| == 0 {
        return;
      }
      var decoded := decode(files[idx]);
      if decoded.None? {
        current := None;
        return;
      }
      var rgb := ToDisplayableRgb(pillow, decoded.value);
      if rgb.None? {
        current := None;
        return;
      }
      current := Some(SafetyNet(pillow, rgb.value));
      prevEnabled := idx > 0;
      nextEnabled := idx < |files| - 1;
    }

    /** `prev_image`. */
    method PrevImage()
      requires Valid()
      modifies this
      ensures Valid() && idx == PrevIndex(old(idx))
      ensures current.None? ==> prevEnabled == old(prevEnabled) && nextEnabled == old(nextEnabled)
      ensures old(idx) == 0 ==> unchanged(this)
      ensures old(idx) > 0 ==> current == Preview(files[idx])
    {
      if idx > 0 {
        idx := idx - 1;
        ShowImage();
      }
    }

    /** `next_image`. */
    method NextImage()
      requires Valid()
      modifies this
      ensures Valid() && idx == NextIndex(old(idx), |files|)
      ensures current.None? ==> prevEnabled == old(prevEnabled) && nextEnabled == old(nextEnabled)
      ensures old(idx) >= |files| - 1 ==> unchanged(this)
      ensures old(idx) < |files| - 1 ==> current == Preview(files[idx])
    {
      if idx < |files| - 1 {
        idx := idx + 1;
        ShowImage();
      }
    }
  }
}
