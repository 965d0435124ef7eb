/** Tag stores of a decoded TIFF image and the lookup `_tiff_get` performs
    over them (image_date_editor.py, lines 85-97). */
module TiffTags {
  import opened Options

  /** A raw tag value once any tuple around it is gone: a number (an int, a
      float or a rational in the imaging library) or something `float()`
      rejects. */
  datatype Scalar = Num(x: real) | NonNumeric

  /** What the store holds for a code that is present. `Unreadable` stands
      for a value whose retrieval itself raises. */
  datatype TagValue = Single(s: Scalar) | Many(items: seq<Scalar>) | Unreadable

  /** One tag table (`tag_v2` or the legacy `tag`), keyed by numeric code. */
  type TagStore = map<int, TagValue>

  /** The `try` body raises on this store: the value cannot be read, or it is
      an empty sequence, so taking its first element fails. */
  predicate Raises(store: TagStore, code: int)
  {
    code in store && (store[code].Unreadable? || (store[code].Many? && |store[code].items| == 0))
  }

  /** The loop accepts a store when the attribute exists, the store is
      non-empty (truthy) and the lookup does not raise. */
  predicate Usable(store: Option<TagStore>, code: int)
  {
    store.Some? && |store.value| > 0 && !Raises(store.value, code)
  }

  /** What an accepted store answers: nothing for an absent code, the value
      itself for a scalar, the first element for a sequence. */
  function Answer(store: TagStore, code: int): Option<Scalar>
    requires !Raises(store, code)
  {
    if code !in store then None
    else match store[code]
      case Single(s) => Some(s)
      case Many(items) => Some(items[0])
  }

  /** The loop of `_tiff_get` over the stores in the order it tries them. */
  function TagGet(stores: seq<Option<TagStore>>, code: int): Option<Scalar>
  {
    if |stores| == 0 then None
    else if Usable(stores[0], code) then Answer(stores[0].value, code)
    else TagGet(stores[1..], code)
  }

  /** The first accepted store decides the lookup. */
  lemma {:induction false} TagGetFirstUsable(stores: seq<Option<TagStore>>, code: int, i: nat)
    requires i < |stores| && Usable(stores[i], code)
    requires forall j :: 0 <= j < i ==> !Usable(stores[j], code)
    ensures TagGet(stores, code) == Answer(stores[i].value, code)
  {
    if i > 0 {
      assert !Usable(stores[0], code);
      TagGetFirstUsable(stores[1..], code, i - 1);
    }
  }

  /** With no accepted store the lookup gives None. */
  lemma {:induction false} TagGetNoneUsable(stores: seq<Option<TagStore>>, code: int)
    requires forall i :: 0 <= i < |stores| ==> !Usable(stores[i], code)
    ensures TagGet(stores, code) == None
  {
    if |stores| > 0 {
      TagGetNoneUsable(stores[1..], code);
    }
  }
}
