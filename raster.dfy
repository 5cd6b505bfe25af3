/** Pixel buffers as the pipeline handles them: a raster is a sequence of rows
    of BGR pixels (OpenCV's channel order), and cropping follows either PIL
    (`Image.crop` of a box inside the image) or numpy basic slicing
    (`img[r0:r1, c0:c1]`, where bounds may be negative or out of range). */
module Raster {

  newtype Byte = x: int | 0 <= x < 256

  datatype Pixel = Pixel(blue: Byte, green: Byte, red: Byte)

  /** The value `np.zeros` gives every canvas cell. */
  const Black := Pixel(0, 0, 0)

  type Raster = seq<seq<Pixel>>

  /** A detection box in tile-local pixel coordinates, (x1, y1) top-left and
      (x2, y2) bottom-right, as the detector reports it after `int()`. */
  datatype Box = Box(x1: int, y1: int, x2: int, y2: int)

  function Height(img: Raster): nat { |img| }

  function Width(img: Raster): nat { if img == [] then 0 else |img[0]| }

  /** Every row has the same length: true of any decoded image array. */
  predicate Rectangular(img: Raster)
  {
    forall r :: 0 <= r < |img| ==> |img[r]| == Width(img)
  }

  predicate HasShape(img: Raster, h: nat, w: nat)
  {
    |img| == h && forall r :: 0 <= r < h ==> |img[r]| == w
  }

  /** PIL's `img.crop((left, top, left + w, top + h))` for a box that lies
      inside the image. */
  function Crop(img: Raster, top: nat, left: nat, h: nat, w: nat): (c: Raster)
    requires Rectangular(img) && top + h <= Height(img) && left + w <= Width(img)
    ensures HasShape(c, h, w)
    ensures forall r, q :: 0 <= r < h && 0 <= q < w ==> c[r][q] == img[top + r][left + q]
  {
    seq(h, r requires 0 <= r < h => img[top + r][left..left + w])
  }

  /** Where a slice bound `i` lands in a sequence of length `n`: negative
      bounds count from the end, and the result is clamped to [0, n]. */
  function SliceBound(n: nat, i: int): (k: nat)
    ensures k <= n
    ensures 0 <= i <= n ==> k == i
    ensures i > n ==> k == n
    ensures i < 0 ==> k == if n + i < 0 then 0 else n + i
  {
    if i < 0 then (if n + i < 0 then 0 else n + i) else if i > n then n else i
  }

  /** The length of `s[a:b]` for `|s| == n`. */
  function SliceLen(n: nat, a: int, b: int): (len: nat)
    ensures len <= n
    ensures len == if SliceBound(n, a) < SliceBound(n, b) then SliceBound(n, b) - SliceBound(n, a) else 0
  {
    var i, j := SliceBound(n, a), SliceBound(n, b);
    if i < j then j - i else 0
  }

  /** Python / numpy `s[a:b]` with step 1. */
  function PySlice<T>(s: seq<T>, a: int, b: int): (r: seq<T>)
    ensures |r| == SliceLen(|s|, a, b)
    ensures forall k :: 0 <= k < |r| ==> r[k] == s[SliceBound(|s|, a) + k]
  {
    var i, j := SliceBound(|s|, a), SliceBound(|s|, b);
    if i < j then s[i..j] else []
  }

  /** numpy `img[r0:r1, c0:c1]`. */
  function PyCrop(img: Raster, r0: int, r1: int, c0: int, c1: int): (c: Raster)
    requires Rectangular(img)
    ensures HasShape(c, SliceLen(Height(img), r0, r1), SliceLen(Width(img), c0, c1))
    ensures forall i, j :: 0 <= i < |c| && 0 <= j < |c[i]| ==>
      c[i][j] == img[SliceBound(Height(img), r0) + i][SliceBound(Width(img), c0) + j]
  {
    var rows := PySlice(img, r0, r1);
    seq(|rows|, k requires 0 <= k < |rows| => PySlice(rows[k], c0, c1))
  }

  /** Clamping a non-negative start to the image, as the detector loop does,
      gives the same slice as the raw bounds: the two crops of a box differ
      only when the box starts left of or above the tile. */
  lemma ClampedSliceLen(n: nat, a: int, b: int)
    requires a >= 0
    ensures SliceLen(n, if a < 0 then 0 else a, if b < n then b else n) == SliceLen(n, a, b)
  {
  }

  function Min(a: int, b: int): int { if a <= b then a else b }

  function Max(a: int, b: int): int { if a >= b then a else b }
}
