/** The gallery index built once by `initGallery`: one image record per
    `.gallery-item`, in document order. */
module Gallery {
  import opened Wrappers

  /** The `{src, alt}` record copied from a gallery item's image. */
  datatype ImageRef = ImageRef(src: string, alt: string)

  /** A `.gallery-item` element; `img` is what `item.querySelector("img")`
      finds inside it, `None` when the item holds no image. */
  datatype GalleryItem = GalleryItem(img: Option<ImageRef>)

  /** The `galleryImages` array. Reading `.src` of a missing image throws,
      which abandons `initGallery` before any click handler is bound: that
      outcome is `None`. */
  function BuildIndex(items: seq<GalleryItem>): (r: Option<seq<ImageRef>>)
    ensures r.Some? ==> |r.value| == |items|
    ensures r.Some? ==> forall i :: 0 <= i < |items| ==> items[i].img == Some(r.value[i])
    ensures r.None? <==> exists i :: 0 <= i < |items| && items[i].img.None?
  {
    if items == [] then Some([])
    else
      match items[0].img
      case None => None
      case Some(first) =>
        match BuildIndex(items[1..])
        case None =>
          assert forall i :: 0 <= i < |items| - 1 ==> items[1..][i] == items[i + 1];
          None
        case Some(rest) => Some([first] + rest)
  }

  /** Clicking item `i` calls `openLightbox(i, galleryImages)`: a click
      handler exists only when the index was built, and then `i` is a valid
      start position that designates the clicked item's own image. */
  lemma ClickedItemIsValidStart(items: seq<GalleryItem>, i: nat)
    requires i < |items|
    requires BuildIndex(items).Some?
    ensures i < |BuildIndex(items).value|
    ensures items[i].img == Some(BuildIndex(items).value[i])
  {
  }
}
