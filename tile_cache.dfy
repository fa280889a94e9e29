/**
 * The rescaling tile cache backed by an S3 bucket, as a class whose state is
 * the bucket's contents.  Each operation is proved against the functions of
 * `Rescaling` and `CacheKeys`: the recursive fetch against `GetTileImage`,
 * the downscaling loop against `ResolveChildren`, the missing-tile query
 * against `MissingTiles`, both with the listing as written and with the one
 * the key layout calls for.
 *
 * The class is built only with thresholds that leave a zoom level between
 * them (`WellBanded`): with adjacent thresholds the fetch as written does not
 * terminate (see `RescalingAsWritten.AdjacentThresholdsDiverge`).
 */
module TileCache {
  import opened Wrappers
  import opened Text
  import opened Tiles
  import opened Raster
  import opened CacheKeys
  import opened Rescaling

  /** The constructor's defaults for the two thresholds. */
  const DefaultDownscaleMaxZoom := 11
  const DefaultUpscaleMinZoom := 18

  /** The fill of the tile `handle_null_tile_image` saves: red, fully transparent. */
  const BlankPixel := Rgba(255, 0, 0, 0)

  /**
   * The four pastes of the downscaling step into a fresh, transparent 512 by 512
   * canvas, made in place, and the canvas's pixels read out.
   */
  method PasteChildren(images: seq<Image>) returns (composite: Image)
    requires |images| == 4
    ensures composite == DownscaleCanvas(images)
  {
    var canvas := new Rgba[512, 512]((_, _) => Transparent);
    ghost var g := Filled(512, 512, Transparent);
    PasteOnto(canvas, g, images[0], 0, 0);
    g := Paste(g, images[0], 0, 0);
    PasteOnto(canvas, g, images[1], 256, 0);
    g := Paste(g, images[1], 256, 0);
    PasteOnto(canvas, g, images[3], 0, 256);
    g := Paste(g, images[3], 0, 256);
    PasteOnto(canvas, g, images[2], 256, 256);
    g := Paste(g, images[2], 256, 256);
    composite := Pixels(canvas);
    GridsEqual(composite, g, 512, 512);
    DownscaleCanvasPastes(images);
  }

  class S3TileCache {
    /** Stored, and never consulted by any operation. */
    const rescalingEnabled: bool
    const bands: Bands
    /** PIL's `resize((256, 256))`. */
    const resize: Resampler
    /** The bucket's contents. */
    var store: Store

    ghost predicate Valid()
      reads this
    {
      WellBanded(bands) && WellFormedStore(store)
    }

    /** The cache over a bucket holding `bucket`. */
    constructor (rescalingEnabled: bool, downscaleMaxZoom: int, upscaleMinZoom: int, resize: Resampler, bucket: Store)
      requires WellBanded(Bands(downscaleMaxZoom, upscaleMinZoom)) && WellFormedStore(bucket)
      ensures Valid()
      ensures this.rescalingEnabled == rescalingEnabled && bands == Bands(downscaleMaxZoom, upscaleMinZoom)
      ensures this.resize == resize && store == bucket
    {
      this.rescalingEnabled := rescalingEnabled;
      bands := Bands(downscaleMaxZoom, upscaleMinZoom);
      this.resize := resize;
      store := bucket;
    }

    /** `contains_tile_image`: a listing under the tile's key answers whether the tile is cached. */
    method ContainsTileImage(t: Tile, year: int) returns (found: bool)
      requires Valid()
      ensures found <==> Key(t, year) in store
    {
      var listed := set k | k in store.Keys && StartsWith(k, Key(t, year));
      found := |listed| > 0;
      if Key(t, year) in store {
        assert Key(t, year) in listed;
      }
      if found {
        var k :| k in listed;
        assert AnyKeyWithPrefix(store.Keys, Key(t, year));
      }
      PrefixListingIsLookup(store.Keys, year, t.z, t.y, t.x, Png);
    }

    /** `save_tile_image`: the tile's key now holds the image, flagged when rescaled; no other key changes. */
    method SaveTileImage(t: Tile, year: int, image: Image, isRescaled: bool)
      requires Valid()
      modifies this
      ensures Valid()
      ensures store == Saved(old(store), t, year, image, isRescaled)
    {
      store := Saved(store, t, year, image, isRescaled);
    }

    /** `handle_null_tile_image`: a fully transparent 256 by 256 tile is saved, with no rescaled flag. */
    method HandleNullTileImage(t: Tile, year: int)
      requires Valid()
      modifies this
      ensures Valid()
      ensures store == Saved(old(store), t, year, Filled(256, 256, BlankPixel), false)
      ensures Key(t, year) in store && store[Key(t, year)].metadata == map[]
      ensures var img := store[Key(t, year)].image;
        IsGrid(img, 256, 256) && forall i, j :: 0 <= i < 256 && 0 <= j < 256 ==> img[i][j].a == 0
    {
      SaveTileImage(t, year, Filled(256, 256, BlankPixel), false);
    }

    /**
     * `get_tile_image`: a cached tile is read back with no write; on a miss the tile is
     * rescaled, and a rescaled tile is saved, flagged, before it is returned.
     */
    method GetTileImage(t: Tile, year: int) returns (img: Option<Image>)
      requires Valid()
      modifies this
      ensures Valid()
      ensures Step(img, store) == Rescaling.GetTileImage(bands, resize, old(store), t, year)
      decreases Rank(bands, t.z), 1, 0
    {
      var cached := ContainsTileImage(t, year);
      PrefixListingIsLookup(store.Keys, year, t.z, t.y, t.x, Png);
      if cached {
        return Some(store[Key(t, year)].image);
      }
      ghost var before := store;
      var rescaled: Option<Image> := None;
      if t.z <= bands.downscaleMaxZoom {
        rescaled := GetTileImageFromDownscaling(t, year);
      } else if t.z >= bands.upscaleMinZoom {
        rescaled := GetTileImageFromUpscaling(t, year);
      }
      assert Step(rescaled, store) == Rescale(bands, resize, before, t, year);
      if rescaled.Some? {
        SaveTileImage(t, year, rescaled.value, true);
      }
      return rescaled;
    }

    /**
     * `get_tile_image_from_downscaling`: the children are fetched in mercantile order, the
     * first that cannot be had ends the attempt, and the four are composited and resized.
     */
    method GetTileImageFromDownscaling(t: Tile, year: int) returns (img: Option<Image>)
      requires Valid()
      modifies this
      ensures Valid()
      ensures Step(img, store) == Downscale(bands, resize, old(store), t, year)
      decreases Rank(bands, t.z + 1) + 1, 0, 0
    {
      var children := Children(t);
      ChildrenOfTile(t);
      var images: seq<Image> := [];
      for k := 0 to 4
        invariant Valid() && |images| == k
        invariant FirstChildrenCached(store, t, year, images)
        invariant ResolveChildren(bands, resize, store, t, year, images) == Downscale(bands, resize, old(store), t, year)
      {
        assert children[k].z == t.z + 1;
        ghost var before := store;
        var child := GetTileImage(children[k], year);
        if child.None? {
          ResolveChildrenStops(bands, resize, before, t, year, images);
          return None;
        }
        ResolveChildrenContinues(bands, resize, before, t, year, images);
        images := images + [child.value];
      }
      var composite := PasteChildren(images);
      ResolveChildrenDone(bands, resize, store, t, year, images);
      return Some(resize(composite));
    }

    /**
     * `get_tile_image_from_upscaling`: the parent is fetched, and the quarter of it that
     * covers the tile is cropped out and resized.
     */
    method GetTileImageFromUpscaling(t: Tile, year: int) returns (img: Option<Image>)
      requires Valid()
      modifies this
      ensures Valid()
      ensures Step(img, store) == Upscale(bands, resize, old(store), t, year)
      decreases Rank(bands, t.z - 1) + 1, 0, 0
    {
      var parentTile := Parent(t);
      var parentImage := GetTileImage(parentTile, year);
      if parentImage.None? {
        return None;
      }
      IndexAmongSiblings(t);
      var quadrant := IndexOf(Children(parentTile), t).value;
      var box := CropRegion(quadrant);
      return Some(resize(Crop(parentImage.value, box.left, box.top, box.right, box.bottom, Transparent)));
    }

    /**
     * The loop of `get_missing_tile_images` over the keys `listing` selects, then the filter:
     * the tiles absent from the inventory, in input order, or the error an unparsable key raises.
     */
    method MissingTileImagesFrom(tiles: seq<Tile>, listing: Listing) returns (r: Result<seq<Tile>>)
      ensures r == MissingTiles(store.Keys, tiles, listing)
    {
      var inventory: set<Tile> := {};
      var remaining := store.Keys;
      while remaining != {}
        invariant remaining <= store.Keys
        invariant forall k :: k in store.Keys - remaining && Listed(k, listing) ==> InventoryEntry(k).Ok?
        invariant forall t :: t in inventory <==>
          exists k :: k in store.Keys - remaining && Listed(k, listing) && InventoryEntry(k) == Ok(t)
        decreases remaining
      {
        var k :| k in remaining;
        if Listed(k, listing) {
          var entry := InventoryEntry(k);
          if entry.Err? {
            return Err(entry.error);
          }
          inventory := inventory + {entry.value};
        }
        remaining := remaining - {k};
      }
      assert store.Keys - remaining == store.Keys;
      var built := Inventory(store.Keys, listing);
      assert built.Ok?;
      assert forall t :: t in built.value <==> t in inventory;
      assert built.value == inventory;
      return Ok(Without(tiles, inventory));
    }

    /**
     * `get_missing_tile_images` as written: it lists the keys under the year's prefix that end
     * in ".jpg", but the cache writes ".png" objects, so nothing is found in the inventory and
     * every tile is reported missing, in input order.
     */
    method GetMissingTileImages(tiles: seq<Tile>, year: int) returns (missing: seq<Tile>)
      requires Valid()
      ensures missing == tiles
    {
      var r := MissingTileImagesFrom(tiles, AsWrittenListing(year));
      AsWrittenReportsEveryTileMissing(store.Keys, tiles, year);
      missing := r.value;
    }

    /**
     * `get_missing_tile_images` with the listing the key layout calls for (the year's own
     * prefix and ".png"): exactly the tiles not cached for `year`, in input order.
     */
    method GetMissingTileImagesCorrected(tiles: seq<Tile>, year: int) returns (missing: seq<Tile>)
      requires Valid()
      ensures missing == Uncached(tiles, store.Keys, year)
      ensures forall t :: t in missing <==> t in tiles && Key(t, year) !in store
    {
      var r := MissingTileImagesFrom(tiles, CorrectedListing(year));
      CorrectedMissingIsExact(store.Keys, tiles, year);
      missing := r.value;
    }
  }
}
