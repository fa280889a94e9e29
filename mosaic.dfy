/**
 * The mosaic compositor shared by both versions of `_build_image`: a
 * zero-initialised RGB buffer into which each GeoTIFF's crop is written with
 * a per-channel maximum, so that a black (no-data) pixel of one GeoTIFF
 * never hides valid data of an overlapping one.  Where each crop lands — the
 * window that rasterio's affine `rowcol` mapping computes from floating-point
 * bounds — is taken as given.
 */
module Mosaic {
  import opened Wrappers
  import opened Raster

  /** `(0, 0, 0)`: what `np.zeros` fills the buffer with. */
  const Black := Rgb(0, 0, 0)

  /** Channel `k` of a pixel: red, green, blue for `k` = 0, 1, 2. */
  function Channel(p: Rgb, k: nat): Byte
    requires k < 3
  {
    if k == 0 then p.r else if k == 1 then p.g else p.b
  }

  function Max(a: Byte, b: Byte): (m: Byte)
    ensures m >= a && m >= b && (m == a || m == b)
  {
    if a < b then b else a
  }

  /** `np.maximum` on one pixel. */
  function MaxPixel(p: Rgb, q: Rgb): (m: Rgb)
    ensures forall k :: 0 <= k < 3 ==> Channel(m, k) == Max(Channel(p, k), Channel(q, k))
  {
    Rgb(Max(p.r, q.r), Max(p.g, q.g), Max(p.b, q.b))
  }

  /** Two pixels that agree on all three channels are equal. */
  lemma PixelByChannels(p: Rgb, q: Rgb)
    requires forall k :: 0 <= k < 3 ==> Channel(p, k) == Channel(q, k)
    ensures p == q
  {
    assert Channel(p, 0) == Channel(q, 0) && Channel(p, 1) == Channel(q, 1) && Channel(p, 2) == Channel(q, 2);
  }

  /**
   * One GeoTIFF's crop: `data` is written to rows `top` to `bottom` and columns `left` to
   * `right` (exclusive ends) of the buffer.
   */
  datatype Crop = Crop(top: int, left: int, bottom: int, right: int, data: Grid<Rgb>)

  /** The crop's window lies inside a `rows` by `cols` buffer and its data has the window's shape. */
  predicate FitsIn(c: Crop, rows: nat, cols: nat) {
    0 <= c.top <= c.bottom <= rows && 0 <= c.left <= c.right <= cols && IsGrid(c.data, c.bottom - c.top, c.right - c.left)
  }

  /** Every crop of `crops` fits a `rows` by `cols` buffer. */
  predicate AllFit(crops: seq<Crop>, rows: nat, cols: nat) {
    forall n :: 0 <= n < |crops| ==> FitsIn(crops[n], rows, cols)
  }

  predicate InWindow(c: Crop, i: int, j: int) {
    c.top <= i < c.bottom && c.left <= j < c.right
  }

  /** The value the crop offers for buffer pixel `(i, j)`. */
  function Offered(c: Crop, i: int, j: int, rows: nat, cols: nat): Rgb
    requires FitsIn(c, rows, cols) && InWindow(c, i, j)
  {
    c.data[i - c.top][j - c.left]
  }

  /** Pixel `(i, j)` after the crop is written over a pixel that held `prev`. */
  function Blended(prev: Rgb, c: Crop, i: int, j: int, rows: nat, cols: nat): Rgb
    requires FitsIn(c, rows, cols)
  {
    if InWindow(c, i, j) then MaxPixel(prev, Offered(c, i, j, rows, cols)) else prev
  }

  /**
   * `composite[ul_y:lr_y, ul_x:lr_x, :] = np.maximum(crop_data, composite[ul_y:lr_y, ul_x:lr_x, :])`,
   * in place: every pixel of the window takes the channel-wise maximum of what it held and
   * what the crop offers; every other pixel is left as it was.
   */
  method BlendInto(buffer: array2<Rgb>, c: Crop)
    requires FitsIn(c, buffer.Length0, buffer.Length1)
    modifies buffer
    ensures forall i, j :: 0 <= i < buffer.Length0 && 0 <= j < buffer.Length1 ==>
      buffer[i, j] == Blended(old(buffer[i, j]), c, i, j, buffer.Length0, buffer.Length1)
  {
    for i := c.top to c.bottom
      invariant forall r, s :: 0 <= r < buffer.Length0 && 0 <= s < buffer.Length1 ==>
        buffer[r, s] == if r < i then Blended(old(buffer[r, s]), c, r, s, buffer.Length0, buffer.Length1) else old(buffer[r, s])
    {
      for j := c.left to c.right
        invariant forall r, s :: 0 <= r < buffer.Length0 && 0 <= s < buffer.Length1 ==>
          buffer[r, s] == if r < i || (r == i && s < j) then Blended(old(buffer[r, s]), c, r, s, buffer.Length0, buffer.Length1)
                          else old(buffer[r, s])
      {
        buffer[i, j] := MaxPixel(buffer[i, j], c.data[i - c.top][j - c.left]);
      }
    }
  }

  /** The buffer after writing one crop, on values. */
  function Blend(g: Grid<Rgb>, c: Crop, rows: nat, cols: nat): (r: Grid<Rgb>)
    requires IsGrid(g, rows, cols) && FitsIn(c, rows, cols)
    ensures IsGrid(r, rows, cols)
  {
    seq(rows, i requires 0 <= i < rows => seq(cols, j requires 0 <= j < cols => Blended(g[i][j], c, i, j, rows, cols)))
  }

  /** The buffer after writing `crops`, in order, over `g`. */
  function Composite(g: Grid<Rgb>, crops: seq<Crop>, rows: nat, cols: nat): (r: Grid<Rgb>)
    requires IsGrid(g, rows, cols) && AllFit(crops, rows, cols)
    ensures IsGrid(r, rows, cols)
  {
    if crops == [] then g
    else Blend(Composite(g, crops[..|crops| - 1], rows, cols), crops[|crops| - 1], rows, cols)
  }

  /** Writing crops never lowers a channel of any pixel. */
  lemma {:induction false} CompositeNeverDecreases(g: Grid<Rgb>, crops: seq<Crop>, rows: nat, cols: nat, i: int, j: int, k: nat)
    requires IsGrid(g, rows, cols) && AllFit(crops, rows, cols)
    requires 0 <= i < rows && 0 <= j < cols && k < 3
    ensures Channel(Composite(g, crops, rows, cols)[i][j], k) >= Channel(g[i][j], k)
  {
    CompositeIsMaximum(g, crops, rows, cols, i, j, k);
  }

  /**
   * Channel `k` of pixel `(i, j)` is `v` exactly when `v` is the largest of the value the
   * pixel started with and the values the crops whose window holds it offer.
   */
  ghost predicate IsMaximumAt(v: int, g: Grid<Rgb>, crops: seq<Crop>, rows: nat, cols: nat, i: int, j: int, k: nat)
    requires IsGrid(g, rows, cols) && AllFit(crops, rows, cols)
    requires 0 <= i < rows && 0 <= j < cols && k < 3
  {
    && v >= Channel(g[i][j], k)
    && (forall n :: 0 <= n < |crops| && InWindow(crops[n], i, j) ==> v >= Channel(Offered(crops[n], i, j, rows, cols), k))
    && (v == Channel(g[i][j], k) ||
        exists n :: 0 <= n < |crops| && InWindow(crops[n], i, j) && v == Channel(Offered(crops[n], i, j, rows, cols), k))
  }

  /** The composite is the channel-wise maximum of the zero start and every crop's offer, pixel by pixel. */
  lemma {:induction false} CompositeIsMaximum(g: Grid<Rgb>, crops: seq<Crop>, rows: nat, cols: nat, i: int, j: int, k: nat)
    requires IsGrid(g, rows, cols) && AllFit(crops, rows, cols)
    requires 0 <= i < rows && 0 <= j < cols && k < 3
    ensures IsMaximumAt(Channel(Composite(g, crops, rows, cols)[i][j], k), g, crops, rows, cols, i, j, k)
  {
    if crops != [] {
      var init := crops[..|crops| - 1];
      var last := crops[|crops| - 1];
      assert AllFit(init, rows, cols);
      CompositeIsMaximum(g, init, rows, cols, i, j, k);
      var before := Channel(Composite(g, init, rows, cols)[i][j], k);
      var v := Channel(Composite(g, crops, rows, cols)[i][j], k);
      if InWindow(last, i, j) {
        assert v == Max(before, Channel(Offered(last, i, j, rows, cols), k));
      } else {
        assert v == before;
      }
      forall n | 0 <= n < |crops| - 1
        ensures crops[n] == init[n]
      {
      }
      if v != Channel(g[i][j], k) && v == before {
        var n :| 0 <= n < |init| && InWindow(init[n], i, j) && before == Channel(Offered(init[n], i, j, rows, cols), k);
        assert crops[n] == init[n];
      }
    }
  }

  /** At most one value is the maximum. */
  lemma MaximumIsUnique(v: int, w: int, g: Grid<Rgb>, crops: seq<Crop>, rows: nat, cols: nat, i: int, j: int, k: nat)
    requires IsGrid(g, rows, cols) && AllFit(crops, rows, cols)
    requires 0 <= i < rows && 0 <= j < cols && k < 3
    requires IsMaximumAt(v, g, crops, rows, cols, i, j, k) && IsMaximumAt(w, g, crops, rows, cols, i, j, k)
    ensures v == w
  {
  }

  /**
   * The composite does not depend on the order the GeoTIFFs are processed in, nor on
   * repeats: two lists holding the same crops give the same buffer.
   */
  lemma CompositeOrderIndependent(g: Grid<Rgb>, crops: seq<Crop>, crops': seq<Crop>, rows: nat, cols: nat)
    requires IsGrid(g, rows, cols) && AllFit(crops, rows, cols) && AllFit(crops', rows, cols)
    requires forall c :: c in crops <==> c in crops'
    ensures Composite(g, crops, rows, cols) == Composite(g, crops', rows, cols)
  {
    var a := Composite(g, crops, rows, cols);
    var b := Composite(g, crops', rows, cols);
    forall i, j | 0 <= i < rows && 0 <= j < cols
      ensures a[i][j] == b[i][j]
    {
      forall k | 0 <= k < 3
        ensures Channel(a[i][j], k) == Channel(b[i][j], k)
      {
        CompositeIsMaximum(g, crops, rows, cols, i, j, k);
        CompositeIsMaximum(g, crops', rows, cols, i, j, k);
        SameCropsSameMaximum(Channel(a[i][j], k), g, crops, crops', rows, cols, i, j, k);
        MaximumIsUnique(Channel(a[i][j], k), Channel(b[i][j], k), g, crops', rows, cols, i, j, k);
      }
      PixelByChannels(a[i][j], b[i][j]);
    }
    GridsEqual(a, b, rows, cols);
  }

  /** Being the maximum depends only on which crops are present. */
  lemma SameCropsSameMaximum(v: int, g: Grid<Rgb>, crops: seq<Crop>, crops': seq<Crop>, rows: nat, cols: nat, i: int, j: int, k: nat)
    requires IsGrid(g, rows, cols) && AllFit(crops, rows, cols) && AllFit(crops', rows, cols)
    requires 0 <= i < rows && 0 <= j < cols && k < 3
    requires forall c :: c in crops <==> c in crops'
    requires IsMaximumAt(v, g, crops, rows, cols, i, j, k)
    ensures IsMaximumAt(v, g, crops', rows, cols, i, j, k)
  {
    forall n | 0 <= n < |crops'| && InWindow(crops'[n], i, j)
      ensures v >= Channel(Offered(crops'[n], i, j, rows, cols), k)
    {
      assert crops'[n] in crops;
      var m :| 0 <= m < |crops| && crops[m] == crops'[n];
    }
    if v != Channel(g[i][j], k) {
      var m :| 0 <= m < |crops| && InWindow(crops[m], i, j) && v == Channel(Offered(crops[m], i, j, rows, cols), k);
      assert crops[m] in crops';
      var n :| 0 <= n < |crops'| && crops'[n] == crops[m];
    }
  }

  /** Without any crop over it, a pixel keeps its starting value: black, on a zero buffer. */
  lemma {:induction false} UncoveredPixelUnchanged(g: Grid<Rgb>, crops: seq<Crop>, rows: nat, cols: nat, i: int, j: int)
    requires IsGrid(g, rows, cols) && AllFit(crops, rows, cols)
    requires 0 <= i < rows && 0 <= j < cols
    requires forall n :: 0 <= n < |crops| ==> !InWindow(crops[n], i, j)
    ensures Composite(g, crops, rows, cols)[i][j] == g[i][j]
  {
    var a := Composite(g, crops, rows, cols);
    forall k | 0 <= k < 3
      ensures Channel(a[i][j], k) == Channel(g[i][j], k)
    {
      CompositeIsMaximum(g, crops, rows, cols, i, j, k);
    }
    PixelByChannels(a[i][j], g[i][j]);
  }

  /**
   * The crops the GeoTIFFs `items` yield, in order: `read` opens one, warps it to the
   * buffer's projection and answers its crop, or `None` when its warped bounds miss the
   * tile and it is skipped.
   */
  function Crops<T(!new)>(items: seq<T>, read: T -> Option<Crop>): (r: seq<Crop>)
    ensures forall c :: c in r <==> exists x :: x in items && read(x) == Some(c)
  {
    if items == [] then []
    else
      var init := items[..|items| - 1];
      var last := items[|items| - 1];
      var before := Crops(init, read);
      assert forall x :: x in items <==> x in init || x == last;
      match read(last)
      case None => before
      case Some(c) => before + [c]
  }

  /** Every crop the items yield fits the buffer when each item's crop does. */
  lemma CropsFit<T(!new)>(items: seq<T>, read: T -> Option<Crop>, rows: nat, cols: nat)
    requires forall x :: x in items && read(x).Some? ==> FitsIn(read(x).value, rows, cols)
    ensures AllFit(Crops(items, read), rows, cols)
  {
    var crops := Crops(items, read);
    forall n | 0 <= n < |crops|
      ensures FitsIn(crops[n], rows, cols)
    {
      assert crops[n] in crops;
    }
  }

  /**
   * The loop over the GeoTIFFs, writing each crop into the buffer in turn: the buffer ends
   * holding the composite of its starting pixels and the crops.
   */
  method WriteCrops<T(!new)>(buffer: array2<Rgb>, items: seq<T>, read: T -> Option<Crop>, ghost start: Grid<Rgb>)
    requires forall x :: x in items && read(x).Some? ==> FitsIn(read(x).value, buffer.Length0, buffer.Length1)
    requires IsGrid(start, buffer.Length0, buffer.Length1)
    requires forall i, j :: 0 <= i < buffer.Length0 && 0 <= j < buffer.Length1 ==> buffer[i, j] == start[i][j]
    modifies buffer
    ensures AllFit(Crops(items, read), buffer.Length0, buffer.Length1)
    ensures forall i, j :: 0 <= i < buffer.Length0 && 0 <= j < buffer.Length1 ==>
      buffer[i, j] == Composite(start, Crops(items, read), buffer.Length0, buffer.Length1)[i][j]
  {
    var rows, cols := buffer.Length0, buffer.Length1;
    CropsFit(items, read, rows, cols);
    ghost var g := start;
    for n := 0 to |items|
      invariant AllFit(Crops(items[..n], read), rows, cols)
      invariant g == Composite(start, Crops(items[..n], read), rows, cols)
      invariant forall i, j :: 0 <= i < rows && 0 <= j < cols ==> buffer[i, j] == g[i][j]
    {
      assert items[..n + 1][..n] == items[..n];
      CropsFit(items[..n + 1], read, rows, cols);
      var crop := read(items[n]);
      if crop.Some? {
        BlendInto(buffer, crop.value);
        g := Blend(g, crop.value, rows, cols);
      }
    }
    assert items[..|items|] == items;
  }

  /** Two lists holding the same GeoTIFFs, in whatever order and with whatever repeats, give the same composite. */
  lemma CropsOrderIndependent<T(!new)>(g: Grid<Rgb>, items: seq<T>, items': seq<T>, read: T -> Option<Crop>, rows: nat, cols: nat)
    requires IsGrid(g, rows, cols)
    requires forall x :: x in items && read(x).Some? ==> FitsIn(read(x).value, rows, cols)
    requires forall x :: x in items <==> x in items'
    ensures AllFit(Crops(items, read), rows, cols) && AllFit(Crops(items', read), rows, cols)
    ensures Composite(g, Crops(items, read), rows, cols) == Composite(g, Crops(items', read), rows, cols)
  {
    CropsFit(items, read, rows, cols);
    CropsFit(items', read, rows, cols);
    CompositeOrderIndependent(g, Crops(items, read), Crops(items', read), rows, cols);
  }

  /**
   * The alpha step of the newer `_build_image`: each pixel keeps its colour and becomes
   * transparent when it is black, fully opaque otherwise.
   */
  function WithAlpha(g: Grid<Rgb>, rows: nat, cols: nat): (r: Grid<Rgba>)
    requires IsGrid(g, rows, cols)
    ensures IsGrid(r, rows, cols)
    ensures forall i, j :: 0 <= i < rows && 0 <= j < cols ==>
      Rgb(r[i][j].r, r[i][j].g, r[i][j].b) == g[i][j] && (r[i][j].a == 0 <==> g[i][j] == Black) && (r[i][j].a == 0 || r[i][j].a == 255)
  {
    seq(rows, i requires 0 <= i < rows => seq(cols, j requires 0 <= j < cols =>
      var p := g[i][j];
      Rgba(p.r, p.g, p.b, if p == Black then 0 else 255)))
  }
}
