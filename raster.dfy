/**
 * Images as rectangular grids of pixels, row-major (`g[row][column]`), with
 * the two PIL operations the cache performs on them, stated as integer
 * geometry: `paste` of one image into another at an offset, and `crop` to a
 * box.  A canvas that is pasted into in place is an `array2`.
 */
module Raster {
  /** One 8-bit channel value. */
  type Byte = b: int | 0 <= b < 256

  /** An RGBA pixel, as in a PIL image of mode "RGBA". */
  datatype Rgba = Rgba(r: Byte, g: Byte, b: Byte, a: Byte)

  /** An RGB pixel, as in a PIL image of mode "RGB". */
  datatype Rgb = Rgb(r: Byte, g: Byte, b: Byte)

  /** `(0, 0, 0, 0)`: what `Image.new("RGBA", size)` fills a new image with. */
  const Transparent := Rgba(0, 0, 0, 0)

  type Grid<T> = seq<seq<T>>

  /** `g` has `height` rows of `width` pixels each. */
  predicate IsGrid<T>(g: Grid<T>, height: int, width: int) {
    |g| == height && forall i :: 0 <= i < |g| ==> |g[i]| == width
  }

  /** `Image.new(mode, (width, height), v)`. */
  function Filled<T>(height: nat, width: nat, v: T): (g: Grid<T>)
    ensures IsGrid(g, height, width)
    ensures forall i, j :: 0 <= i < height && 0 <= j < width ==> g[i][j] == v
  {
    seq(height, _ => seq(width, _ => v))
  }

  /** Two grids of the same shape that agree on every pixel are equal. */
  lemma GridsEqual<T>(a: Grid<T>, b: Grid<T>, height: nat, width: nat)
    requires IsGrid(a, height, width) && IsGrid(b, height, width)
    requires forall i, j :: 0 <= i < height && 0 <= j < width ==> a[i][j] == b[i][j]
    ensures a == b
  {
    forall i | 0 <= i < height
      ensures a[i] == b[i]
    {
      assert forall j :: 0 <= j < width ==> a[i][j] == b[i][j];
    }
  }

  /** Whether pixel `(i, j)` of the canvas lies under `img` pasted with its upper-left corner at `(left, top)`. */
  predicate Covers<T>(img: Grid<T>, left: int, top: int, i: int, j: int) {
    top <= i < top + |img| && left <= j < left + |img[i - top]|
  }

  /** The value pixel `(i, j)` holds after the paste, given the value `prev` it held before. */
  function PastedPixel<T>(prev: T, img: Grid<T>, left: int, top: int, i: int, j: int): T {
    if Covers(img, left, top, i, j) then img[i - top][j - left] else prev
  }

  /** `canvas.paste(img, (left, top))` on a copy of the canvas: the parts of `img` that fall outside are dropped. */
  function Paste<T>(canvas: Grid<T>, img: Grid<T>, left: int, top: int): (r: Grid<T>)
    ensures |r| == |canvas| && forall i :: 0 <= i < |r| ==> |r[i]| == |canvas[i]|
  {
    seq(|canvas|, i requires 0 <= i < |canvas| =>
      seq(|canvas[i]|, j requires 0 <= j < |canvas[i]| => PastedPixel(canvas[i][j], img, left, top, i, j)))
  }

  /** `canvas.paste(img, (left, top))`, in place: covered pixels take `img`'s value, the others keep theirs. */
  method PasteInto<T>(canvas: array2<T>, img: Grid<T>, left: int, top: int)
    modifies canvas
    ensures forall i, j :: 0 <= i < canvas.Length0 && 0 <= j < canvas.Length1 ==>
      canvas[i, j] == PastedPixel(old(canvas[i, j]), img, left, top, i, j)
  {
    for i := 0 to canvas.Length0
      invariant forall r, c :: 0 <= r < canvas.Length0 && 0 <= c < canvas.Length1 ==>
        canvas[r, c] == if r < i then PastedPixel(old(canvas[r, c]), img, left, top, r, c) else old(canvas[r, c])
    {
      for j := 0 to canvas.Length1
        invariant forall r, c :: 0 <= r < canvas.Length0 && 0 <= c < canvas.Length1 ==>
          canvas[r, c] == if r < i || (r == i && c < j) then PastedPixel(old(canvas[r, c]), img, left, top, r, c)
                          else old(canvas[r, c])
      {
        if Covers(img, left, top, i, j) {
          canvas[i, j] := img[i - top][j - left];
        }
      }
    }
  }

  /** The canvas holds the grid `g`, pixel for pixel. */
  ghost predicate Holds<T>(canvas: array2<T>, g: Grid<T>)
    reads canvas
  {
    IsGrid(g, canvas.Length0, canvas.Length1) &&
    forall i, j :: 0 <= i < canvas.Length0 && 0 <= j < canvas.Length1 ==> canvas[i, j] == g[i][j]
  }

  /** A paste in place onto a canvas that holds `g` leaves it holding the pasted copy of `g`. */
  method PasteOnto<T>(canvas: array2<T>, ghost g: Grid<T>, img: Grid<T>, left: int, top: int)
    requires Holds(canvas, g)
    modifies canvas
    ensures Holds(canvas, Paste(g, img, left, top))
  {
    PasteInto(canvas, img, left, top);
  }

  /** The pixels of a canvas, read out row by row into a grid of the same shape. */
  method Pixels<T>(canvas: array2<T>) returns (g: Grid<T>)
    ensures IsGrid(g, canvas.Length0, canvas.Length1)
    ensures forall i, j :: 0 <= i < canvas.Length0 && 0 <= j < canvas.Length1 ==> g[i][j] == canvas[i, j]
  {
    g := [];
    for i := 0 to canvas.Length0
      invariant IsGrid(g, i, canvas.Length1)
      invariant forall r, c :: 0 <= r < i && 0 <= c < canvas.Length1 ==> g[r][c] == canvas[r, c]
    {
      var row := seq(canvas.Length1, c requires 0 <= c < canvas.Length1 reads canvas => canvas[i, c]);
      g := g + [row];
    }
  }

  /** Pixel `(i, j)` of `g`, or `fill` where `g` has no such pixel. */
  function PixelOr<T>(g: Grid<T>, i: int, j: int, fill: T): T {
    if 0 <= i < |g| && 0 <= j < |g[i]| then g[i][j] else fill
  }

  /**
   * `g.crop((left, top, right, bottom))`: a `(bottom - top)` by `(right - left)` image whose
   * pixel `(i, j)` is pixel `(top + i, left + j)` of `g`, or `fill` where the box leaves `g`.
   */
  function Crop<T>(g: Grid<T>, left: int, top: int, right: int, bottom: int, fill: T): (r: Grid<T>)
    requires left <= right && top <= bottom
    ensures IsGrid(r, bottom - top, right - left)
  {
    seq(bottom - top, i => seq(right - left, j => PixelOr(g, top + i, left + j, fill)))
  }
}
