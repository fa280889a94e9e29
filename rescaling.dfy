/**
 * What the rescaling tile cache computes, as functions of the bucket's
 * contents.  On a miss, a tile at or below the downscale threshold is built
 * from its four children one zoom level down the pyramid (z + 1), a tile at
 * or above the upscale threshold from its parent (z - 1), and each tile so
 * built is saved before it is returned; the children and the parent are
 * themselves fetched through the same procedure, so the three calls are
 * mutually recursive.
 *
 * The recursion terminates when the thresholds leave at least one zoom level
 * between them (`WellBanded`); with adjacent thresholds it does not.  The
 * functions below are the terminating definition the cache class is proved
 * against; module `RescalingAsWritten` has the recursion exactly as written,
 * with no assumption on the thresholds, cut off by a fuel bound, so that both
 * the agreement with the terminating definition and the divergence can be
 * stated.
 */
module Rescaling {
  import opened Wrappers
  import opened Tiles
  import opened Raster
  import opened CacheKeys

  type Image = Grid<Rgba>

  /** PIL's `image.resize((256, 256))`; the resampling itself is not modelled. */
  type Resampler = Image -> Image

  /** A bucket object: the decoded image and the object's user metadata. */
  datatype StoredObject = StoredObject(image: Image, metadata: map<string, string>)

  type Store = map<string, StoredObject>

  /** The bucket holds only keys the cache writes, `"{year}/{z}/{y}/{x}.png"`. */
  ghost predicate WellFormedStore(store: Store) {
    AllKeysWith(store.Keys, Png)
  }

  /** The metadata `save_tile_image` attaches: `is_rescaled` for rescaled tiles, nothing otherwise. */
  function Metadata(isRescaled: bool): map<string, string> {
    if isRescaled then map["is_rescaled" := "true"] else map[]
  }

  /** The bucket after `save_tile_image(tile, year, image, is_rescaled)`. */
  function Saved(store: Store, t: Tile, year: int, image: Image, isRescaled: bool): (store': Store)
    ensures WellFormedStore(store) ==> WellFormedStore(store')
    ensures Key(t, year) in store' && store'[Key(t, year)] == StoredObject(image, Metadata(isRescaled))
    ensures forall k :: k != Key(t, year) ==> (k in store' <==> k in store)
    ensures forall k :: k in store && k != Key(t, year) ==> store'[k] == store[k]
  {
    assert IsKeyWith(Key(t, year), Png) by {
      assert Key(t, year) == KeyOf(year, t.z, t.y, t.x, Png);
    }
    store[Key(t, year) := StoredObject(image, Metadata(isRescaled))]
  }

  /** The two zoom thresholds: downscale at or below the first, upscale at or above the second. */
  datatype Bands = Bands(downscaleMaxZoom: int, upscaleMinZoom: int)

  /** At least one zoom level lies strictly between the thresholds. */
  predicate WellBanded(b: Bands) {
    b.downscaleMaxZoom + 2 <= b.upscaleMinZoom
  }

  /** How many zoom levels separate `z` from the band between the thresholds. */
  function Rank(b: Bands, z: int): nat
    requires WellBanded(b)
  {
    if z <= b.downscaleMaxZoom then b.downscaleMaxZoom + 1 - z
    else if z >= b.upscaleMinZoom then z - b.upscaleMinZoom + 1
    else 0
  }

  /** The lowest zoom level a fetch at zoom `z` may write a tile at. */
  function Lowest(b: Bands, z: int): int {
    if z <= b.downscaleMaxZoom then z else if z >= b.upscaleMinZoom then b.upscaleMinZoom else z + 1
  }

  /** The highest zoom level a fetch at zoom `z` may write a tile at (below `Lowest` when it writes none). */
  function Highest(b: Bands, z: int): int {
    if z <= b.downscaleMaxZoom then b.downscaleMaxZoom else z
  }

  /** The outcome of one call: the image returned (`None` for Python's `None`) and the bucket after it. */
  datatype Step = Step(image: Option<Image>, store: Store)

  /** Every object of `store` is still in `store'`, unchanged. */
  predicate Extends(store: Store, store': Store) {
    forall k :: k in store ==> k in store' && store'[k] == store[k]
  }

  /** Every tile key new in `store'` is of year `year` at a zoom level between `lo` and `hi`. */
  ghost predicate WrittenWithin(store: Store, store': Store, year: int, lo: int, hi: int) {
    forall u: Tile, yr: int :: Key(u, yr) in store' && Key(u, yr) !in store ==> yr == year && lo <= u.z <= hi
  }

  /** The crop box `(left, top, right, bottom)`. */
  datatype CropBox = CropBox(left: int, top: int, right: int, bottom: int)

  /** The crop box the upscaling step picks for a quadrant index. */
  function CropRegion(quadrant: nat): CropBox {
    if quadrant == 0 then CropBox(0, 0, 128, 128)
    else if quadrant == 1 then CropBox(128, 0, 256, 128)
    else if quadrant == 3 then CropBox(0, 128, 128, 256)
    else CropBox(128, 128, 256, 256)
  }

  /**
   * The box cropped out of the parent is the 128 by 128 square at column offset
   * `128 * (x % 2)` and row offset `128 * (y % 2)`.
   */
  lemma CropRegionOfTile(t: Tile)
    ensures CropRegion(QuadrantIndex(t))
         == CropBox(128 * (t.x % 2), 128 * (t.y % 2), 128 * (t.x % 2) + 128, 128 * (t.y % 2) + 128)
  {
    IndexAmongSiblings(t);
  }

  /** The quarter of the parent's image that covers `t`. */
  function QuarterOf(parentImage: Image, t: Tile): Image {
    var left, top := 128 * (t.x % 2), 128 * (t.y % 2);
    Crop(parentImage, left, top, left + 128, top + 128, Transparent)
  }

  /**
   * The pastes of the downscaling step, in the order the cache makes them, as
   * `(child, left, top)`: child 0 at `(0, 0)`, 1 at `(256, 0)`, 3 at `(0, 256)`, 2 at `(256, 256)`.
   */
  const PasteOrder: seq<(nat, int, int)> := [(0, 0, 0), (1, 256, 0), (3, 0, 256), (2, 256, 256)]

  /** `canvas` after pasting, one after the other, the images `order` names at the offsets it gives. */
  function PasteAll(canvas: Image, images: seq<Image>, order: seq<(nat, int, int)>): (r: Image)
    requires forall k :: 0 <= k < |order| ==> order[k].0 < |images|
    ensures |r| == |canvas| && forall i :: 0 <= i < |r| ==> |r[i]| == |canvas[i]|
    decreases |order|
  {
    if order == [] then canvas
    else PasteAll(Paste(canvas, images[order[0].0], order[0].1, order[0].2), images, order[1..])
  }

  /** The 512 by 512 canvas, transparent to begin with, the four children are pasted into. */
  function DownscaleCanvas(images: seq<Image>): (canvas: Image)
    requires |images| == 4
    ensures IsGrid(canvas, 512, 512)
  {
    PasteAll(Filled(512, 512, Transparent), images, PasteOrder)
  }

  /** The canvas is the result of the four pastes the cache makes, one after the other. */
  lemma DownscaleCanvasPastes(images: seq<Image>)
    requires |images| == 4
    ensures DownscaleCanvas(images)
         == Paste(Paste(Paste(Paste(Filled(512, 512, Transparent), images[0], 0, 0), images[1], 256, 0), images[3], 0, 256), images[2], 256, 256)
  {
    var c0 := Paste(Filled(512, 512, Transparent), images[0], 0, 0);
    var c1 := Paste(c0, images[1], 256, 0);
    var c2 := Paste(c1, images[3], 0, 256);
    var c3 := Paste(c2, images[2], 256, 256);
    assert PasteOrder[1..] == [(1, 256, 0), (3, 0, 256), (2, 256, 256)];
    assert PasteOrder[1..][1..] == [(3, 0, 256), (2, 256, 256)];
    assert PasteOrder[1..][1..][1..] == [(2, 256, 256)];
    assert PasteAll(c3, images, PasteOrder[1..][1..][1..][1..]) == c3;
    assert PasteAll(c2, images, PasteOrder[1..][1..][1..]) == c3;
    assert PasteAll(c1, images, PasteOrder[1..][1..]) == c3;
    assert PasteAll(c0, images, PasteOrder[1..]) == c3;
  }

  /**
   * Pixel `(i, j)` of the 512 by 512 square the four children of a tile cover: pixel
   * `(i % 256, j % 256)` of the child whose column parity is `j / 256` and whose row
   * parity is `i / 256`.
   */
  function ChildPixel(images: seq<Image>, i: int, j: int): Rgba
    requires |images| == 4 && forall k :: 0 <= k < 4 ==> IsGrid(images[k], 256, 256)
    requires 0 <= i < 512 && 0 <= j < 512
  {
    var q := Quadrant(Tile(j / 256, i / 256, 0));
    assert IsGrid(images[q], 256, 256);
    images[q][i % 256][j % 256]
  }

  /**
   * The four 256 by 256 pastes tile the canvas without overlap: pixel `(i, j)` is pixel
   * `(i % 256, j % 256)` of the child whose column parity is `j / 256` and whose row parity
   * is `i / 256`.
   */
  lemma DownscaleCanvasQuadrants(images: seq<Image>)
    requires |images| == 4 && forall k :: 0 <= k < 4 ==> IsGrid(images[k], 256, 256)
    ensures forall i, j :: 0 <= i < 512 && 0 <= j < 512 ==> DownscaleCanvas(images)[i][j] == ChildPixel(images, i, j)
  {
    var c0 := Paste(Filled(512, 512, Transparent), images[0], 0, 0);
    var c1 := Paste(c0, images[1], 256, 0);
    var c2 := Paste(c1, images[3], 0, 256);
    var c3 := Paste(c2, images[2], 256, 256);
    DownscaleCanvasPastes(images);
    forall i, j | 0 <= i < 512 && 0 <= j < 512
      ensures c3[i][j] == ChildPixel(images, i, j)
    {
      assert c3[i][j] == PastedPixel(c2[i][j], images[2], 256, 256, i, j);
      assert c2[i][j] == PastedPixel(c1[i][j], images[3], 0, 256, i, j);
      assert c1[i][j] == PastedPixel(c0[i][j], images[1], 256, 0, i, j);
      assert c0[i][j] == PastedPixel(Transparent, images[0], 0, 0, i, j);
    }
  }

  /** The images cached for the four children of `t`, in mercantile order. */
  function CachedChildren(store: Store, t: Tile, year: int): (images: seq<Image>)
    requires forall k :: 0 <= k < 4 ==> Key(Children(t)[k], year) in store
    ensures |images| == 4
  {
    seq(4, k requires 0 <= k < 4 => store[Key(Children(t)[k], year)].image)
  }

  /** `images` are the cached images of the first `|images|` children of `t`. */
  predicate FirstChildrenCached(store: Store, t: Tile, year: int, images: seq<Image>) {
    |images| <= 4 &&
    forall k {:trigger images[k]} :: 0 <= k < |images| ==>
      Key(Children(t)[k], year) in store && store[Key(Children(t)[k], year)].image == images[k]
  }

  /** Once all four children are collected, they are exactly the cached images of the children. */
  lemma AllChildrenCached(store: Store, t: Tile, year: int, images: seq<Image>)
    requires FirstChildrenCached(store, t, year, images) && |images| == 4
    ensures forall k :: 0 <= k < 4 ==> Key(Children(t)[k], year) in store
    ensures images == CachedChildren(store, t, year)
  {
    forall k | 0 <= k < 4
      ensures Key(Children(t)[k], year) in store && store[Key(Children(t)[k], year)].image == images[k]
    {
      assert images[k] == images[k];
    }
  }

  /** Collecting the image of the next child keeps the collected images those the bucket holds. */
  lemma CollectChild(store: Store, store': Store, t: Tile, year: int, images: seq<Image>, image: Image)
    requires FirstChildrenCached(store, t, year, images) && |images| < 4 && Extends(store, store')
    requires Key(Children(t)[|images|], year) in store' && store'[Key(Children(t)[|images|], year)].image == image
    ensures FirstChildrenCached(store', t, year, images + [image])
  {
    var images' := images + [image];
    forall k | 0 <= k < |images'|
      ensures Key(Children(t)[k], year) in store' && store'[Key(Children(t)[k], year)].image == images'[k]
    {
      if k < |images| {
        assert images'[k] == images[k];
      }
    }
  }

  /**
   * `get_tile_image(tile, year)`: a cached tile is returned as it is with no write; on a miss
   * the tile is downscaled, upscaled or given up on according to its zoom level, and a tile
   * so built is saved, flagged as rescaled, before it is returned.
   */
  function GetTileImage(b: Bands, resize: Resampler, store: Store, t: Tile, year: int): (r: Step)
    requires WellBanded(b) && WellFormedStore(store)
    ensures WellFormedStore(r.store) && Extends(store, r.store)
    ensures WrittenWithin(store, r.store, year, Lowest(b, t.z), Highest(b, t.z))
    ensures r.image.Some? <==> Key(t, year) in r.store
    ensures r.image.Some? ==> r.store[Key(t, year)].image == r.image.value
    ensures Key(t, year) in store ==> r == Step(Some(store[Key(t, year)].image), store)
    ensures Key(t, year) !in store && r.image.Some? ==> r.store[Key(t, year)].metadata == Metadata(true)
    decreases Rank(b, t.z), 1, 0
  {
    PrefixListingIsLookup(store.Keys, year, t.z, t.y, t.x, Png);
    if AnyKeyWithPrefix(store.Keys, Key(t, year)) then
      Step(Some(store[Key(t, year)].image), store)
    else
      var rescaled := Rescale(b, resize, store, t, year);
      if rescaled.image.Some? then
        KeyIdentifiesTile(t, year);
        Step(rescaled.image, Saved(rescaled.store, t, year, rescaled.image.value, true))
      else rescaled
  }

  /**
   * The rescale a miss attempts: downscaling at or below the first threshold, upscaling at
   * or above the second, nothing in between.  Whatever it writes lies within the tile's
   * range of zoom levels, and never under the tile's own key.
   */
  function Rescale(b: Bands, resize: Resampler, store: Store, t: Tile, year: int): (r: Step)
    requires WellBanded(b) && WellFormedStore(store)
    ensures WellFormedStore(r.store) && Extends(store, r.store)
    ensures WrittenWithin(store, r.store, year, Lowest(b, t.z), Highest(b, t.z))
    ensures Key(t, year) in r.store ==> Key(t, year) in store
    decreases Rank(b, t.z), 0, 11
  {
    if t.z <= b.downscaleMaxZoom then
      var d := Downscale(b, resize, store, t, year);
      WrittenWithinWidens(store, d.store, year, Lowest(b, t.z + 1), Highest(b, t.z + 1), Lowest(b, t.z), Highest(b, t.z));
      d
    else if t.z >= b.upscaleMinZoom then
      var u := Upscale(b, resize, store, t, year);
      WrittenWithinWidens(store, u.store, year, Lowest(b, t.z - 1), Highest(b, t.z - 1), Lowest(b, t.z), Highest(b, t.z));
      u
    else
      Step(None, store)
  }

  /**
   * `get_tile_image_from_downscaling(tile, year)`: it succeeds exactly when all four children
   * end up cached, and then returns the resized composite of the four cached child images.
   */
  function Downscale(b: Bands, resize: Resampler, store: Store, t: Tile, year: int): (r: Step)
    requires WellBanded(b) && WellFormedStore(store)
    ensures WellFormedStore(r.store) && Extends(store, r.store)
    ensures WrittenWithin(store, r.store, year, Lowest(b, t.z + 1), Highest(b, t.z + 1))
    ensures r.image.Some? <==> forall k :: 0 <= k < 4 ==> Key(Children(t)[k], year) in r.store
    ensures r.image.Some? ==> r.image.value == resize(DownscaleCanvas(CachedChildren(r.store, t, year)))
    decreases Rank(b, t.z + 1) + 1, 0, 10
  {
    ChildrenOfTile(t);
    ResolveChildren(b, resize, store, t, year, [])
  }

  /**
   * The loop over the children, from child `|images|` on, the images of the earlier ones
   * collected in `images`: it stops at the first child that cannot be obtained.
   */
  function ResolveChildren(b: Bands, resize: Resampler, store: Store, t: Tile, year: int, images: seq<Image>): (r: Step)
    requires WellBanded(b) && WellFormedStore(store) && FirstChildrenCached(store, t, year, images)
    ensures WellFormedStore(r.store) && Extends(store, r.store)
    ensures WrittenWithin(store, r.store, year, Lowest(b, t.z + 1), Highest(b, t.z + 1))
    ensures r.image.Some? <==> forall k :: 0 <= k < 4 ==> Key(Children(t)[k], year) in r.store
    ensures r.image.Some? ==> r.image.value == resize(DownscaleCanvas(CachedChildren(r.store, t, year)))
    decreases Rank(b, t.z + 1) + 1, 0, 2 * (4 - |images|) + 1
  {
    if |images| == 4 then
      AllChildrenCached(store, t, year, images);
      Step(Some(resize(DownscaleCanvas(images))), store)
    else
      ChildrenOfTile(t);
      var c := GetTileImage(b, resize, store, Children(t)[|images|], year);
      NextChild(b, resize, store, t, year, images, c)
  }

  /** The rest of one turn of the loop, once the next child's step `c` is taken. */
  function NextChild(b: Bands, resize: Resampler, store: Store, t: Tile, year: int, images: seq<Image>, c: Step): (r: Step)
    requires WellBanded(b) && WellFormedStore(store) && FirstChildrenCached(store, t, year, images) && |images| < 4
    requires WellFormedStore(c.store) && Extends(store, c.store)
    requires WrittenWithin(store, c.store, year, Lowest(b, t.z + 1), Highest(b, t.z + 1))
    requires c.image.Some? <==> Key(Children(t)[|images|], year) in c.store
    requires c.image.Some? ==> c.store[Key(Children(t)[|images|], year)].image == c.image.value
    ensures WellFormedStore(r.store) && Extends(store, r.store)
    ensures WrittenWithin(store, r.store, year, Lowest(b, t.z + 1), Highest(b, t.z + 1))
    ensures r.image.Some? <==> forall k :: 0 <= k < 4 ==> Key(Children(t)[k], year) in r.store
    ensures r.image.Some? ==> r.image.value == resize(DownscaleCanvas(CachedChildren(r.store, t, year)))
    decreases Rank(b, t.z + 1) + 1, 0, 2 * (4 - |images|)
  {
    if c.image.None? then
      assert Key(Children(t)[|images|], year) !in c.store;
      Step(None, c.store)
    else
      CollectChild(store, c.store, t, year, images, c.image.value);
      var rest := ResolveChildren(b, resize, c.store, t, year, images + [c.image.value]);
      ChainedSteps(store, c.store, rest.store, year, Lowest(b, t.z + 1), Highest(b, t.z + 1));
      rest
  }

  /** One turn of the loop over the children: a child that cannot be had ends it, with no image. */
  lemma ResolveChildrenStops(b: Bands, resize: Resampler, store: Store, t: Tile, year: int, images: seq<Image>)
    requires WellBanded(b) && WellFormedStore(store) && FirstChildrenCached(store, t, year, images) && |images| < 4
    requires GetTileImage(b, resize, store, Children(t)[|images|], year).image.None?
    ensures ResolveChildren(b, resize, store, t, year, images)
         == Step(None, GetTileImage(b, resize, store, Children(t)[|images|], year).store)
  {
  }

  /** One turn of the loop over the children: a child that is had is collected, and the loop goes on. */
  lemma ResolveChildrenContinues(b: Bands, resize: Resampler, store: Store, t: Tile, year: int, images: seq<Image>)
    requires WellBanded(b) && WellFormedStore(store) && FirstChildrenCached(store, t, year, images) && |images| < 4
    requires GetTileImage(b, resize, store, Children(t)[|images|], year).image.Some?
    ensures var c := GetTileImage(b, resize, store, Children(t)[|images|], year);
      FirstChildrenCached(c.store, t, year, images + [c.image.value]) &&
      ResolveChildren(b, resize, store, t, year, images) == ResolveChildren(b, resize, c.store, t, year, images + [c.image.value])
  {
    var c := GetTileImage(b, resize, store, Children(t)[|images|], year);
    CollectChild(store, c.store, t, year, images, c.image.value);
  }

  /** The loop over the children, once all four are collected: their composite, resized. */
  lemma ResolveChildrenDone(b: Bands, resize: Resampler, store: Store, t: Tile, year: int, images: seq<Image>)
    requires WellBanded(b) && WellFormedStore(store) && FirstChildrenCached(store, t, year, images) && |images| == 4
    ensures ResolveChildren(b, resize, store, t, year, images) == Step(Some(resize(DownscaleCanvas(images))), store)
  {
  }

  /**
   * `get_tile_image_from_upscaling(tile, year)`: it succeeds exactly when the parent ends up
   * cached, and then returns the resized quarter of the parent's cached image that covers
   * the tile.
   */
  function Upscale(b: Bands, resize: Resampler, store: Store, t: Tile, year: int): (r: Step)
    requires WellBanded(b) && WellFormedStore(store)
    ensures WellFormedStore(r.store) && Extends(store, r.store)
    ensures WrittenWithin(store, r.store, year, Lowest(b, t.z - 1), Highest(b, t.z - 1))
    ensures r.image.Some? <==> Key(Parent(t), year) in r.store
    ensures r.image.Some? ==> r.image.value == resize(QuarterOf(r.store[Key(Parent(t), year)].image, t))
    decreases Rank(b, t.z - 1) + 1, 0, 0
  {
    var p := GetTileImage(b, resize, store, Parent(t), year);
    if p.image.None? then p
    else
      var box := CropRegion(QuadrantIndex(t));
      CropRegionOfTile(t);
      Step(Some(resize(Crop(p.image.value, box.left, box.top, box.right, box.bottom, Transparent))), p.store)
  }

  /** A failed fetch leaves the tile uncached: a failed rescale writes nothing under the tile's key. */
  lemma FailedFetchLeavesTileUncached(b: Bands, resize: Resampler, store: Store, t: Tile, year: int)
    requires WellBanded(b) && WellFormedStore(store)
    ensures GetTileImage(b, resize, store, t, year).image.None? ==> Key(t, year) !in GetTileImage(b, resize, store, t, year).store
  {
  }

  /** Between the thresholds, a miss is given up on and the bucket is left exactly as it was. */
  lemma MissBetweenThresholds(b: Bands, resize: Resampler, store: Store, t: Tile, year: int)
    requires WellBanded(b) && WellFormedStore(store)
    requires b.downscaleMaxZoom < t.z < b.upscaleMinZoom && Key(t, year) !in store
    ensures GetTileImage(b, resize, store, t, year) == Step(None, store)
  {
    PrefixListingIsLookup(store.Keys, year, t.z, t.y, t.x, Png);
  }

  /** A tile built by downscaling is the composite of its children: see `DownscaleCanvasQuadrants`. */
  lemma DownscaledTileIsComposite(b: Bands, resize: Resampler, store: Store, t: Tile, year: int)
    requires WellBanded(b) && WellFormedStore(store)
    requires t.z <= b.downscaleMaxZoom && Key(t, year) !in store
    ensures var r := GetTileImage(b, resize, store, t, year);
      r.image.Some? <==> forall k :: 0 <= k < 4 ==> Key(Children(t)[k], year) in r.store
    ensures var r := GetTileImage(b, resize, store, t, year);
      r.image.Some? ==> r.image.value == resize(DownscaleCanvas(CachedChildren(r.store, t, year)))
  {
    PrefixListingIsLookup(store.Keys, year, t.z, t.y, t.x, Png);
    var d := Downscale(b, resize, store, t, year);
    if d.image.Some? {
      SavingKeepsChildren(d.store, t, year, d.image.value);
    }
  }

  /** Saving a tile leaves what the bucket holds for the tile's children as it was. */
  lemma SavingKeepsChildren(store: Store, t: Tile, year: int, image: Image)
    ensures forall k :: 0 <= k < 4 ==>
      (Key(Children(t)[k], year) in Saved(store, t, year, image, true) <==> Key(Children(t)[k], year) in store)
    ensures (forall k :: 0 <= k < 4 ==> Key(Children(t)[k], year) in store) ==>
      CachedChildren(Saved(store, t, year, image, true), t, year) == CachedChildren(store, t, year)
  {
    ChildrenOfTile(t);
    KeyIdentifiesTile(t, year);
  }

  /** Writes within a range are within any wider range; an empty range admits no writes at all. */
  lemma WrittenWithinWidens(store: Store, store': Store, year: int, lo: int, hi: int, lo': int, hi': int)
    requires WrittenWithin(store, store', year, lo, hi)
    requires hi < lo || (lo' <= lo && hi <= hi')
    ensures WrittenWithin(store, store', year, lo', hi')
  {
  }

  /** Two steps in a row, each keeping what was there and writing within a range, do the same together. */
  lemma ChainedSteps(s1: Store, s2: Store, s3: Store, year: int, lo: int, hi: int)
    requires Extends(s1, s2) && WrittenWithin(s1, s2, year, lo, hi)
    requires Extends(s2, s3) && WrittenWithin(s2, s3, year, lo, hi)
    ensures Extends(s1, s3) && WrittenWithin(s1, s3, year, lo, hi)
  {
  }

  /** No other tile, and no other year, shares a tile's key. */
  lemma KeyIdentifiesTile(t: Tile, year: int)
    ensures forall u, yr :: Key(u, yr) == Key(t, year) ==> u == t && yr == year
  {
    forall u, yr | Key(u, yr) == Key(t, year)
      ensures u == t && yr == year
    {
      KeyOfInjective(yr, u.z, u.y, u.x, year, t.z, t.y, t.x, Png);
    }
  }
}
