/**
 * Orientation buckets: `get_orientation_folder(width, height)` of `sort_by_orientation`, which the
 * top-level `CustomSorter.get_orientation_folder` repeats word for word.
 */
module Orientation {
  /** The orientation folder of an image of `width` by `height` pixels. */
  function OrientationFolder(width: int, height: int): (r: string)
    ensures r == "square" || r == "landscape" || r == "portrait"
    ensures r == "square" <==> width == height
    ensures r == "landscape" <==> width > height
    ensures r == "portrait" <==> width < height
  {
    if width == height then "square"
    else if width > height then "landscape"
    else "portrait"
  }

  /** Landscape and portrait trade places; square stays. */
  function Transposed(folder: string): string {
    if folder == "landscape" then "portrait"
    else if folder == "portrait" then "landscape"
    else folder
  }

  /** Swapping width and height swaps landscape and portrait and keeps square. */
  lemma OrientationSwap(width: int, height: int)
    ensures OrientationFolder(height, width) == Transposed(OrientationFolder(width, height))
  {
  }

  /** An unreadable image reports `(0, 0)` and lands in `square`. */
  lemma UnreadableIsSquare()
    ensures OrientationFolder(0, 0) == "square"
  {
  }
}
