/**
 * The cache's get / downscale / upscale recursion exactly as it is written,
 * with no assumption on the two zoom thresholds.  Because it need not
 * terminate, every call carries a fuel bound: a miss that has to rescale
 * spends one unit, and a call that runs out answers `OutOfFuel` where Python
 * would go on recursing until its stack gives out.  The existence test, a
 * listing of the keys under the tile's key as prefix, is taken here as exact
 * key lookup: `PrefixListingIsLookup` shows the two agree on a bucket that
 * holds only tile keys.
 *
 * With at least one zoom level between the thresholds the bounded recursion
 * agrees with the terminating definition in `Rescaling` once the fuel covers
 * the tile's distance from the band between them; with adjacent thresholds a
 * cold tile at the downscale threshold never finishes, whatever the fuel.
 */
module RescalingAsWritten {
  import opened Wrappers
  import opened Tiles
  import opened Raster
  import opened CacheKeys
  import opened Rescaling

  /** A bounded run: the step it finished with, or `OutOfFuel` when the bound cut it off. */
  datatype Run = Finished(step: Step) | OutOfFuel

  /** One unit of fuel less. */
  function Less(fuel: nat): (r: nat)
    requires fuel > 0
    ensures r < fuel
  {
    fuel - 1
  }

  /** `get_tile_image(tile, year)` as written, with at most `fuel` nested rescales. */
  function GetTileImageRun(b: Bands, resize: Resampler, store: Store, t: Tile, year: int, fuel: nat): (r: Run)
    decreases fuel, 0, 1
  {
    if Key(t, year) in store then
      Finished(Step(Some(store[Key(t, year)].image), store))
    else
      var rescaled := RescaleRun(b, resize, store, t, year, fuel);
      if rescaled.Finished? && rescaled.step.image.Some? then
        Finished(Step(rescaled.step.image, Saved(rescaled.step.store, t, year, rescaled.step.image.value, true)))
      else rescaled
  }

  /** The rescale a miss attempts, as written; each downscale or upscale spends one unit of fuel. */
  function RescaleRun(b: Bands, resize: Resampler, store: Store, t: Tile, year: int, fuel: nat): (r: Run)
    decreases fuel, 0, 0
  {
    if t.z <= b.downscaleMaxZoom then
      if fuel == 0 then OutOfFuel else DownscaleRun(b, resize, store, t, year, Less(fuel))
    else if t.z >= b.upscaleMinZoom then
      if fuel == 0 then OutOfFuel else UpscaleRun(b, resize, store, t, year, Less(fuel))
    else
      Finished(Step(None, store))
  }

  /** `get_tile_image_from_downscaling(tile, year)` as written. */
  function DownscaleRun(b: Bands, resize: Resampler, store: Store, t: Tile, year: int, fuel: nat): (r: Run)
    decreases fuel, 2, 0
  {
    ResolveChildrenRun(b, resize, store, t, year, [], fuel)
  }

  /** The loop over the children as written, from child `|images|` on. */
  function ResolveChildrenRun(b: Bands, resize: Resampler, store: Store, t: Tile, year: int, images: seq<Image>, fuel: nat): (r: Run)
    requires |images| <= 4
    decreases fuel, 1, 4 - |images|
  {
    if |images| == 4 then
      Finished(Step(Some(resize(DownscaleCanvas(images))), store))
    else
      var c := GetTileImageRun(b, resize, store, Children(t)[|images|], year, fuel);
      if c.OutOfFuel? then OutOfFuel
      else if c.step.image.None? then Finished(Step(None, c.step.store))
      else
        var rest := ResolveChildrenRun(b, resize, c.step.store, t, year, images + [c.step.image.value], fuel);
        if rest.OutOfFuel? then OutOfFuel else Finished(rest.step)
  }

  /** `get_tile_image_from_upscaling(tile, year)` as written. */
  function UpscaleRun(b: Bands, resize: Resampler, store: Store, t: Tile, year: int, fuel: nat): (r: Run)
    decreases fuel, 1, 0
  {
    var p := GetTileImageRun(b, resize, store, Parent(t), year, fuel);
    if p.OutOfFuel? || p.step.image.None? then p
    else
      var box := CropRegion(QuadrantIndex(t));
      Finished(Step(Some(resize(Crop(p.step.image.value, box.left, box.top, box.right, box.bottom, Transparent))), p.step.store))
  }

  /**
   * With a zoom level between the thresholds, enough fuel to reach that band from the
   * tile's zoom level lets the recursion as written finish, with the terminating
   * definition's result.
   */
  lemma {:induction false} GetTileImageRunAgrees(b: Bands, resize: Resampler, store: Store, t: Tile, year: int, fuel: nat)
    requires WellBanded(b) && WellFormedStore(store) && fuel >= Rank(b, t.z)
    ensures GetTileImageRun(b, resize, store, t, year, fuel) == Finished(GetTileImage(b, resize, store, t, year))
    decreases fuel, 0, 2
  {
    PrefixListingIsLookup(store.Keys, year, t.z, t.y, t.x, Png);
    if Key(t, year) !in store {
      RescaleRunAgrees(b, resize, store, t, year, fuel);
    }
  }

  lemma {:induction false} RescaleRunAgrees(b: Bands, resize: Resampler, store: Store, t: Tile, year: int, fuel: nat)
    requires WellBanded(b) && WellFormedStore(store) && fuel >= Rank(b, t.z)
    ensures RescaleRun(b, resize, store, t, year, fuel) == Finished(Rescale(b, resize, store, t, year))
    decreases fuel, 0, 1
  {
    if t.z <= b.downscaleMaxZoom {
      DownscaleRescaleAgrees(b, resize, store, t, year, fuel);
    } else if t.z >= b.upscaleMinZoom {
      UpscaleRescaleAgrees(b, resize, store, t, year, fuel);
    }
  }

  /** At or below the first threshold, both definitions downscale; the one as written spends a unit of fuel. */
  lemma {:induction false} DownscaleRescaleAgrees(b: Bands, resize: Resampler, store: Store, t: Tile, year: int, fuel: nat)
    requires WellBanded(b) && WellFormedStore(store) && t.z <= b.downscaleMaxZoom && fuel >= Rank(b, t.z)
    ensures RescaleRun(b, resize, store, t, year, fuel) == Finished(Rescale(b, resize, store, t, year))
    decreases fuel, 0, 0
  {
    assert Rescale(b, resize, store, t, year) == Downscale(b, resize, store, t, year);
    assert RescaleRun(b, resize, store, t, year, fuel) == DownscaleRun(b, resize, store, t, year, Less(fuel));
    DownscaleRunAgrees(b, resize, store, t, year, Less(fuel));
  }

  /** At or above the second threshold, both definitions upscale; the one as written spends a unit of fuel. */
  lemma {:induction false} UpscaleRescaleAgrees(b: Bands, resize: Resampler, store: Store, t: Tile, year: int, fuel: nat)
    requires WellBanded(b) && WellFormedStore(store) && t.z >= b.upscaleMinZoom && fuel >= Rank(b, t.z)
    ensures RescaleRun(b, resize, store, t, year, fuel) == Finished(Rescale(b, resize, store, t, year))
    decreases fuel, 0, 0
  {
    assert Rescale(b, resize, store, t, year) == Upscale(b, resize, store, t, year);
    assert RescaleRun(b, resize, store, t, year, fuel) == UpscaleRun(b, resize, store, t, year, Less(fuel));
    UpscaleRunAgrees(b, resize, store, t, year, Less(fuel));
  }

  lemma {:induction false} DownscaleRunAgrees(b: Bands, resize: Resampler, store: Store, t: Tile, year: int, fuel: nat)
    requires WellBanded(b) && WellFormedStore(store) && t.z <= b.downscaleMaxZoom && fuel >= Rank(b, t.z + 1)
    ensures DownscaleRun(b, resize, store, t, year, fuel) == Finished(Downscale(b, resize, store, t, year))
    decreases fuel, 2, 0
  {
    ResolveChildrenRunAgrees(b, resize, store, t, year, [], fuel);
  }

  lemma {:induction false} ResolveChildrenRunAgrees(b: Bands, resize: Resampler, store: Store, t: Tile, year: int, images: seq<Image>, fuel: nat)
    requires WellBanded(b) && WellFormedStore(store) && FirstChildrenCached(store, t, year, images)
    requires t.z <= b.downscaleMaxZoom && fuel >= Rank(b, t.z + 1)
    ensures ResolveChildrenRun(b, resize, store, t, year, images, fuel) == Finished(ResolveChildren(b, resize, store, t, year, images))
    decreases fuel, 1, 4 - |images|
  {
    if |images| == 4 {
      ResolveChildrenDone(b, resize, store, t, year, images);
    } else {
      var child := Children(t)[|images|];
      ChildrenOfTile(t);
      GetTileImageRunAgrees(b, resize, store, child, year, fuel);
      var c := GetTileImage(b, resize, store, child, year);
      if c.image.Some? {
        ResolveChildrenContinues(b, resize, store, t, year, images);
        ResolveChildrenRunAgrees(b, resize, c.store, t, year, images + [c.image.value], fuel);
        ResolveChildrenRunContinues(b, resize, store, t, year, images, fuel, c);
      } else {
        ResolveChildrenStops(b, resize, store, t, year, images);
        ResolveChildrenRunStops(b, resize, store, t, year, images, fuel, c);
      }
    }
  }

  /** One turn of the loop as written: a child that is had is collected, and the loop goes on. */
  lemma ResolveChildrenRunContinues(b: Bands, resize: Resampler, store: Store, t: Tile, year: int, images: seq<Image>, fuel: nat, c: Step)
    requires |images| < 4 && GetTileImageRun(b, resize, store, Children(t)[|images|], year, fuel) == Finished(c) && c.image.Some?
    requires ResolveChildrenRun(b, resize, c.store, t, year, images + [c.image.value], fuel).Finished?
    ensures ResolveChildrenRun(b, resize, store, t, year, images, fuel) == ResolveChildrenRun(b, resize, c.store, t, year, images + [c.image.value], fuel)
  {
  }

  /** One turn of the loop as written: a child that cannot be had ends it, with no image. */
  lemma ResolveChildrenRunStops(b: Bands, resize: Resampler, store: Store, t: Tile, year: int, images: seq<Image>, fuel: nat, c: Step)
    requires |images| < 4 && GetTileImageRun(b, resize, store, Children(t)[|images|], year, fuel) == Finished(c) && c.image.None?
    ensures ResolveChildrenRun(b, resize, store, t, year, images, fuel) == Finished(Step(None, c.store))
  {
  }

  lemma {:induction false} UpscaleRunAgrees(b: Bands, resize: Resampler, store: Store, t: Tile, year: int, fuel: nat)
    requires WellBanded(b) && WellFormedStore(store) && t.z >= b.upscaleMinZoom && fuel >= Rank(b, t.z - 1)
    ensures UpscaleRun(b, resize, store, t, year, fuel) == Finished(Upscale(b, resize, store, t, year))
    decreases fuel, 1, 0
  {
    GetTileImageRunAgrees(b, resize, store, Parent(t), year, fuel);
  }

  /**
   * With adjacent thresholds, a tile at the downscale threshold that is missing along
   * with its upper-left child never finishes: downscaling asks for that child, one level
   * up at the upscale threshold, which asks for its parent, the tile itself, and so on.
   */
  lemma {:induction false} AdjacentThresholdsDiverge(b: Bands, resize: Resampler, store: Store, t: Tile, year: int, fuel: nat)
    requires b.upscaleMinZoom == b.downscaleMaxZoom + 1 && t.z == b.downscaleMaxZoom
    requires Key(t, year) !in store && Key(Children(t)[0], year) !in store
    ensures GetTileImageRun(b, resize, store, t, year, fuel) == OutOfFuel
    decreases fuel
  {
    if fuel > 0 {
      ChildDiverges(b, resize, store, t, year, Less(fuel));
      assert ResolveChildrenRun(b, resize, store, t, year, [], Less(fuel)) == OutOfFuel;
      assert RescaleRun(b, resize, store, t, year, fuel) == OutOfFuel;
    }
  }

  /** The upper-left child of such a tile never finishes either. */
  lemma {:induction false} ChildDiverges(b: Bands, resize: Resampler, store: Store, t: Tile, year: int, fuel: nat)
    requires b.upscaleMinZoom == b.downscaleMaxZoom + 1 && t.z == b.downscaleMaxZoom
    requires Key(t, year) !in store && Key(Children(t)[0], year) !in store
    ensures GetTileImageRun(b, resize, store, Children(t)[0], year, fuel) == OutOfFuel
    decreases fuel
  {
    var c := Children(t)[0];
    assert Parent(c) == t && c.z == b.upscaleMinZoom;
    if fuel > 0 {
      AdjacentThresholdsDiverge(b, resize, store, t, year, Less(fuel));
      assert UpscaleRun(b, resize, store, c, year, Less(fuel)) == OutOfFuel;
    }
  }
}
