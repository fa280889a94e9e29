/**
 * The newer `cache seed` command: validation of its options, the plan of
 * tilesets (for each year with imagery, every zoom level from `to_zoom` down
 * to `from_zoom`, the tiles over that imagery that meet the coverage, and
 * those of them the cache's query reports missing, which as written is all of
 * them), the summary, and the runner that requests
 * each missing tile from the tile API in batches of 500.
 *
 * WKT parsing, `mercantile.tiles` enumeration, tile bounds and the outcome
 * of each HTTP request are inputs; the requests' concurrency is not modelled.
 */
module Seeding {
  import opened Wrappers
  import opened Tiles
  import opened Sequences
  import opened NaipIndex
  import opened Naip
  import opened CacheKeys
  import opened TileCache
  import Env

  /** The message every failure of the coverage option surfaces as. */
  const CoverageError := "Error parsing coverage_wkt to geometry"
  const ZoomOrderError := "from_zoom must be less that to_zoom"
  const NotDeployedError := "Stack not deployed to AWS. If this is expected, try running with --dry_run flag"
  const CacheDisabledError := "Tile cache does not appear to be enabled. If this is expected, try running with --dry_run flag"

  /** How many requests the runner starts at once. */
  const BatchSize := 500

  /**
   * How the command stops short: click's `BadParameter` or `ClickException`, the error
   * `TileServerConfig.from_env()` raises, or an error from the catalog query.
   */
  datatype Failure = BadParameter(message: string) | ClickException(message: string) | ConfigError(message: string) | QueryError(message: string)

  /** Whether bounds leave the WGS84 range `[-180, 180] x [-90, 90]`. */
  predicate OutsideWgs84(b: Bounds) {
    b.minX < -180.0 || b.minY < -90.0 || b.maxX > 180.0 || b.maxY > 90.0
  }

  /**
   * `_validate_coverage`: no value (or an empty one) is no coverage; a value `parseWkt`
   * cannot read, or whose non-empty geometry leaves the WGS84 range, is rejected, always
   * with the one generic message, because the range error is caught and re-raised.  (The
   * bounds of an empty geometry are NaN, which no comparison rejects.)
   */
  function ValidateCoverage(value: Option<string>, parseWkt: string -> Option<Geometry>): (r: Result<Option<Geometry>>)
    ensures r.Err? ==> r.error == CoverageError
    ensures r == Ok(None) <==> value.None? || value.value == ""
    ensures r.Err? <==> (value.Some? && value.value != "" &&
      (parseWkt(value.value).None? || (!parseWkt(value.value).value.isEmpty && OutsideWgs84(parseWkt(value.value).value.bounds))))
    ensures r.Ok? && r.value.Some? ==> r.value == parseWkt(value.value)
  {
    if value.None? || value.value == "" then Ok(None)
    else
      match parseWkt(value.value)
      case None => Err(CoverageError)
      case Some(coverage) =>
        if !coverage.isEmpty && OutsideWgs84(coverage.bounds) then Err(CoverageError) else Ok(Some(coverage))
  }

  /**
   * `_seed_preflight_check`: the zoom range must not be reversed (equal zooms pass); unless
   * it is a dry run, the stack must be deployed and its cache enabled.
   */
  function PreflightCheck(fromZoom: int, toZoom: int, dryRun: bool, stackDeployed: bool, cacheEnabled: bool): (r: Option<Failure>)
    ensures r == Some(BadParameter(ZoomOrderError)) <==> fromZoom > toZoom
    ensures r.None? <==> fromZoom <= toZoom && (dryRun || (stackDeployed && cacheEnabled))
  {
    if fromZoom > toZoom then Some(BadParameter(ZoomOrderError))
    else if !dryRun && !stackDeployed then Some(ClickException(NotDeployedError))
    else if !dryRun && !cacheEnabled then Some(ClickException(CacheDisabledError))
    else None
  }

  /** `sorted(range(from_zoom, to_zoom + 1), reverse=True)`: each zoom of the range once, highest first. */
  function DescendingZooms(fromZoom: int, toZoom: int): (zs: seq<int>)
    ensures |zs| == if fromZoom <= toZoom then toZoom - fromZoom + 1 else 0
    ensures forall k :: 0 <= k < |zs| ==> zs[k] == toZoom - k
    ensures forall k, m :: 0 <= k < m < |zs| ==> zs[k] > zs[m]
    ensures forall z :: z in zs <==> fromZoom <= z <= toZoom
    decreases toZoom - fromZoom
  {
    if fromZoom > toZoom then []
    else
      var rest := DescendingZooms(fromZoom, toZoom - 1);
      assert forall z :: z in [toZoom] + rest <==> z == toZoom || z in rest;
      [toZoom] + rest
  }

  function MinReal(a: real, b: real): real { if a < b then a else b }
  function MaxReal(a: real, b: real): real { if a < b then b else a }

  /** `union_all([gt.get_extent() for gt in geotiffs]).bounds`: the smallest box holding every extent. */
  function UnionBounds(geotiffs: seq<Geotiff>): (b: Bounds)
    requires geotiffs != []
    ensures forall g :: g in geotiffs ==> b.minX <= g.minX && b.minY <= g.minY && g.maxX <= b.maxX && g.maxY <= b.maxY
    ensures exists g :: g in geotiffs && b.minX == g.minX
    ensures exists g :: g in geotiffs && b.minY == g.minY
    ensures exists g :: g in geotiffs && b.maxX == g.maxX
    ensures exists g :: g in geotiffs && b.maxY == g.maxY
  {
    var first := geotiffs[0];
    if |geotiffs| == 1 then Extent(first)
    else
      var rest := UnionBounds(geotiffs[1..]);
      assert forall g :: g in geotiffs <==> g == first || g in geotiffs[1..];
      Bounds(MinReal(first.minX, rest.minX), MinReal(first.minY, rest.minY), MaxReal(first.maxX, rest.maxX), MaxReal(first.maxY, rest.maxY))
  }

  /** `seed` queries in WGS84, so no reprojection is ever applied. */
  function Unprojected(g: Geometry): Geometry { g }

  /** The tile filter: every tile without a coverage, otherwise those whose bounds the coverage intersects. */
  predicate KeepTile(t: Tile, coverage: Option<Geometry>, tileBounds: Tile -> Bounds) {
    !HasCoverage(coverage) || coverage.value.intersects(tileBounds(t))
  }

  /** The loop that collects the enumerated tiles the filter keeps, in enumeration order. */
  method FilterTiles(candidates: seq<Tile>, coverage: Option<Geometry>, tileBounds: Tile -> Bounds) returns (tiles: seq<Tile>)
    ensures tiles == Select(candidates, t => KeepTile(t, coverage, tileBounds))
  {
    ghost var keep := t => KeepTile(t, coverage, tileBounds);
    tiles := [];
    for k := 0 to |candidates|
      invariant tiles == Select(candidates[..k], keep)
    {
      SelectPrefix(candidates, k, keep);
      if KeepTile(candidates[k], coverage, tileBounds) {
        tiles := tiles + [candidates[k]];
      }
    }
    assert candidates[..|candidates|] == candidates;
  }

  /** One planned tileset: the year, the zoom, how many tiles the filter kept, and those still to request. */
  datatype Tileset = Tileset(year: int, zoom: int, total: nat, tiles: seq<Tile>)

  /** No cache (`None`), or the keys of a bucket the rescaling cache wrote: ".png" keys of its layout only. */
  ghost predicate CacheWritten(keys: Option<set<string>>) {
    keys.Some? ==> AllKeysWith(keys.value, Png)
  }

  /**
   * The tiles to request: all of them without a cache, and with one whatever
   * `get_missing_tile_images` reports, which, as written, is every tile again.
   */
  function MissingOf(tiles: seq<Tile>, year: int, keys: Option<set<string>>): (r: seq<Tile>)
    requires CacheWritten(keys)
    ensures r == tiles
  {
    if keys.None? then tiles
    else
      AsWrittenReportsEveryTileMissing(keys.value, tiles, year);
      MissingTiles(keys.value, tiles, AsWrittenListing(year)).value
  }

  /** The tileset of one year at one zoom, over the bounds of that year's imagery. */
  function TilesetAt(year: int, zoom: int, bounds: Bounds, coverage: Option<Geometry>, tilesIn: (Bounds, int) -> seq<Tile>,
                     tileBounds: Tile -> Bounds, keys: Option<set<string>>): (ts: Tileset)
    requires CacheWritten(keys)
    ensures ts.year == year && ts.zoom == zoom && |ts.tiles| == ts.total
    ensures forall t :: t in ts.tiles <==> t in tilesIn(bounds, zoom) && KeepTile(t, coverage, tileBounds)
  {
    var tiles := Select(tilesIn(bounds, zoom), t => KeepTile(t, coverage, tileBounds));
    Tileset(year, zoom, |tiles|, MissingOf(tiles, year, keys))
  }

  /** The tilesets of one year at each of `zooms`, in that order. */
  function ZoomTilesets(year: int, zooms: seq<int>, bounds: Bounds, coverage: Option<Geometry>, tilesIn: (Bounds, int) -> seq<Tile>,
                        tileBounds: Tile -> Bounds, keys: Option<set<string>>): (r: seq<Tileset>)
    requires CacheWritten(keys)
    ensures |r| == |zooms| && forall k :: 0 <= k < |r| ==> r[k].year == year && r[k].zoom == zooms[k] && |r[k].tiles| == r[k].total
  {
    seq(|zooms|, k requires 0 <= k < |zooms| => TilesetAt(year, zooms[k], bounds, coverage, tilesIn, tileBounds, keys))
  }

  /**
   * The tilesets of one year: none when the catalog has no imagery for it, otherwise one per
   * zoom level from `toZoom` down to `fromZoom`; the query's `ValueError` (no coverage and
   * year 0) stops the command.
   */
  function YearTilesets(catalog: seq<Geotiff>, coverage: Option<Geometry>, year: int, fromZoom: int, toZoom: int,
                        tilesIn: (Bounds, int) -> seq<Tile>, tileBounds: Tile -> Bounds, keys: Option<set<string>>): (r: Result<seq<Tileset>>)
    requires CacheWritten(keys)
    ensures r.Err? <==> !HasCoverage(coverage) && year == 0
    ensures r.Ok? && GetNaipGeotiffs(catalog, coverage, Some(year), Wgs84, Unprojected).value == [] ==> r.value == []
    ensures r.Ok? && GetNaipGeotiffs(catalog, coverage, Some(year), Wgs84, Unprojected).value != [] ==>
      |r.value| == |DescendingZooms(fromZoom, toZoom)| &&
      forall k :: 0 <= k < |r.value| ==> r.value[k].year == year && r.value[k].zoom == toZoom - k
  {
    var found := GetNaipGeotiffs(catalog, coverage, Some(year), Wgs84, Unprojected);
    if found.Err? then Err(found.error)
    else if found.value == [] then Ok([])
    else
      Ok(ZoomTilesets(year, DescendingZooms(fromZoom, toZoom), UnionBounds(found.value), coverage, tilesIn, tileBounds, keys))
  }

  /** A plan with `done` tilesets before those of `rest`; the error of `rest` if it failed. */
  function After(done: seq<Tileset>, rest: Result<seq<Tileset>>): Result<seq<Tileset>> {
    if rest.Err? then rest else Ok(done + rest.value)
  }

  /** The plan for all the years, in the order given; the first failing year stops it. */
  function Plan(catalog: seq<Geotiff>, coverage: Option<Geometry>, years: seq<int>, fromZoom: int, toZoom: int,
                tilesIn: (Bounds, int) -> seq<Tile>, tileBounds: Tile -> Bounds, keys: Option<set<string>>): (r: Result<seq<Tileset>>)
    requires CacheWritten(keys)
    ensures years == [] ==> r == Ok([])
  {
    if years == [] then Ok([])
    else
      var first := YearTilesets(catalog, coverage, years[0], fromZoom, toZoom, tilesIn, tileBounds, keys);
      if first.Err? then first
      else After(first.value, Plan(catalog, coverage, years[1..], fromZoom, toZoom, tilesIn, tileBounds, keys))
  }

  /**
   * The plan fails exactly when a year is 0 and there is no coverage; otherwise every
   * tileset is of a year asked for, at a zoom of the range.
   */
  lemma PlanOutline(catalog: seq<Geotiff>, coverage: Option<Geometry>, years: seq<int>, fromZoom: int, toZoom: int,
                    tilesIn: (Bounds, int) -> seq<Tile>, tileBounds: Tile -> Bounds, keys: Option<set<string>>)
    requires CacheWritten(keys)
    ensures var r := Plan(catalog, coverage, years, fromZoom, toZoom, tilesIn, tileBounds, keys);
      && (r.Err? <==> !HasCoverage(coverage) && 0 in years)
      && (r.Ok? ==> forall n :: 0 <= n < |r.value| ==>
            r.value[n].year in years && fromZoom <= r.value[n].zoom <= toZoom && |r.value[n].tiles| == r.value[n].total)
  {
    PlanFails(catalog, coverage, years, fromZoom, toZoom, tilesIn, tileBounds, keys);
    PlanInRange(catalog, coverage, years, fromZoom, toZoom, tilesIn, tileBounds, keys);
  }

  /** The plan fails exactly when a year is 0 and there is no coverage. */
  lemma {:induction false} PlanFails(catalog: seq<Geotiff>, coverage: Option<Geometry>, years: seq<int>, fromZoom: int, toZoom: int,
                                     tilesIn: (Bounds, int) -> seq<Tile>, tileBounds: Tile -> Bounds, keys: Option<set<string>>)
    requires CacheWritten(keys)
    ensures Plan(catalog, coverage, years, fromZoom, toZoom, tilesIn, tileBounds, keys).Err? <==> !HasCoverage(coverage) && 0 in years
  {
    if years != [] {
      PlanFails(catalog, coverage, years[1..], fromZoom, toZoom, tilesIn, tileBounds, keys);
      assert 0 in years <==> years[0] == 0 || 0 in years[1..];
    }
  }

  /** A tileset of one of `years`, at a zoom between `fromZoom` and `toZoom`, that requests every tile it counts. */
  predicate Fits(t: Tileset, years: seq<int>, fromZoom: int, toZoom: int) {
    t.year in years && fromZoom <= t.zoom <= toZoom && |t.tiles| == t.total
  }

  /** Every tileset of a plan that succeeds is of a year asked for, at a zoom of the range. */
  lemma {:induction false} PlanInRange(catalog: seq<Geotiff>, coverage: Option<Geometry>, years: seq<int>, fromZoom: int, toZoom: int,
                                       tilesIn: (Bounds, int) -> seq<Tile>, tileBounds: Tile -> Bounds, keys: Option<set<string>>)
    requires CacheWritten(keys)
    ensures var r := Plan(catalog, coverage, years, fromZoom, toZoom, tilesIn, tileBounds, keys);
      r.Ok? ==> forall n :: 0 <= n < |r.value| ==> Fits(r.value[n], years, fromZoom, toZoom)
  {
    var r := Plan(catalog, coverage, years, fromZoom, toZoom, tilesIn, tileBounds, keys);
    if years != [] && r.Ok? {
      var first := YearTilesets(catalog, coverage, years[0], fromZoom, toZoom, tilesIn, tileBounds, keys);
      var rest := Plan(catalog, coverage, years[1..], fromZoom, toZoom, tilesIn, tileBounds, keys);
      PlanInRange(catalog, coverage, years[1..], fromZoom, toZoom, tilesIn, tileBounds, keys);
      assert rest.Ok? ==> forall n :: 0 <= n < |rest.value| ==> Fits(rest.value[n], years[1..], fromZoom, toZoom);
      YearOutline(catalog, coverage, years[0], fromZoom, toZoom, tilesIn, tileBounds, keys);
      assert r.value == first.value + rest.value;
      forall n | 0 <= n < |r.value|
        ensures Fits(r.value[n], years, fromZoom, toZoom)
      {
        if n < |first.value| {
          assert r.value[n] == first.value[n];
        } else {
          var m := n - |first.value|;
          assert r.value[n] == rest.value[m];
          assert Fits(rest.value[m], years[1..], fromZoom, toZoom);
        }
      }
    }
  }

  /** One year's tilesets are all of that year, at zooms of the range. */
  lemma YearOutline(catalog: seq<Geotiff>, coverage: Option<Geometry>, year: int, fromZoom: int, toZoom: int,
                    tilesIn: (Bounds, int) -> seq<Tile>, tileBounds: Tile -> Bounds, keys: Option<set<string>>)
    requires CacheWritten(keys)
    ensures var r := YearTilesets(catalog, coverage, year, fromZoom, toZoom, tilesIn, tileBounds, keys);
      r.Ok? ==> forall n :: 0 <= n < |r.value| ==>
        r.value[n].year == year && fromZoom <= r.value[n].zoom <= toZoom && |r.value[n].tiles| == r.value[n].total
  {
  }

  /** The bucket's keys, or `None` without a cache. */
  ghost function KeysOf(cache: S3TileCache?): Option<set<string>>
    reads cache
  {
    if cache == null then None else Some(cache.store.Keys)
  }

  /** The loops of `seed` that build `cache_tilesets`, year by year. */
  method PlanTilesets(catalog: seq<Geotiff>, coverage: Option<Geometry>, years: seq<int>, fromZoom: int, toZoom: int,
                      tilesIn: (Bounds, int) -> seq<Tile>, tileBounds: Tile -> Bounds, cache: S3TileCache?)
    returns (r: Result<seq<Tileset>>)
    requires cache != null ==> cache.Valid()
    ensures r == Plan(catalog, coverage, years, fromZoom, toZoom, tilesIn, tileBounds, KeysOf(cache))
  {
    ghost var keys := KeysOf(cache);
    var tilesets: seq<Tileset> := [];
    assert years[0..] == years;
    ghost var whole := Plan(catalog, coverage, years, fromZoom, toZoom, tilesIn, tileBounds, keys);
    assert whole.Ok? ==> tilesets + whole.value == whole.value;
    for n := 0 to |years|
      invariant whole == After(tilesets, Plan(catalog, coverage, years[n..], fromZoom, toZoom, tilesIn, tileBounds, keys))
    {
      var yearTilesets := PlanYear(catalog, coverage, years[n], fromZoom, toZoom, tilesIn, tileBounds, cache);
      PlanAfterYear(tilesets, catalog, coverage, years, n, fromZoom, toZoom, tilesIn, tileBounds, keys);
      if yearTilesets.Err? {
        return yearTilesets;
      }
      tilesets := tilesets + yearTilesets.value;
    }
    assert years[|years|..] == [] && tilesets + [] == tilesets;
    return Ok(tilesets);
  }

  /** Planning from year `n` on, after `done`: that year's tilesets, then those of the later years. */
  lemma {:induction false} PlanAfterYear(done: seq<Tileset>, catalog: seq<Geotiff>, coverage: Option<Geometry>, years: seq<int>, n: nat, fromZoom: int, toZoom: int,
                      tilesIn: (Bounds, int) -> seq<Tile>, tileBounds: Tile -> Bounds, keys: Option<set<string>>)
    requires CacheWritten(keys)
    requires n < |years|
    ensures var first := YearTilesets(catalog, coverage, years[n], fromZoom, toZoom, tilesIn, tileBounds, keys);
      After(done, Plan(catalog, coverage, years[n..], fromZoom, toZoom, tilesIn, tileBounds, keys)) ==
      if first.Err? then first else After(done + first.value, Plan(catalog, coverage, years[n + 1..], fromZoom, toZoom, tilesIn, tileBounds, keys))
  {
    assert years[n..][0] == years[n] && years[n..][1..] == years[n + 1..];
    var first := YearTilesets(catalog, coverage, years[n], fromZoom, toZoom, tilesIn, tileBounds, keys);
    if first.Ok? {
      AfterAfter(done, first.value, Plan(catalog, coverage, years[n + 1..], fromZoom, toZoom, tilesIn, tileBounds, keys));
    }
  }

  /** Prefixing a plan twice prefixes it once with both. */
  lemma AfterAfter(done: seq<Tileset>, more: seq<Tileset>, rest: Result<seq<Tileset>>)
    ensures After(done, After(more, rest)) == After(done + more, rest)
  {
    if rest.Ok? {
      assert done + (more + rest.value) == (done + more) + rest.value;
    }
  }

  /** One year's pass of those loops: the zoom levels in descending order, the tile filter and the missing tiles. */
  method PlanYear(catalog: seq<Geotiff>, coverage: Option<Geometry>, year: int, fromZoom: int, toZoom: int,
                  tilesIn: (Bounds, int) -> seq<Tile>, tileBounds: Tile -> Bounds, cache: S3TileCache?)
    returns (r: Result<seq<Tileset>>)
    requires cache != null ==> cache.Valid()
    ensures r == YearTilesets(catalog, coverage, year, fromZoom, toZoom, tilesIn, tileBounds, KeysOf(cache))
  {
    var found := GetNaipGeotiffs(catalog, coverage, Some(year), Wgs84, Unprojected);
    if found.Err? {
      return Err(found.error);
    }
    if found.value == [] {
      return Ok([]);
    }
    var tilesets := PlanZooms(year, DescendingZooms(fromZoom, toZoom), UnionBounds(found.value), coverage, tilesIn, tileBounds, cache);
    return Ok(tilesets);
  }

  /** The loop over the zoom levels of one year: the tiles the filter keeps, and those the cache lacks. */
  method PlanZooms(year: int, zooms: seq<int>, bounds: Bounds, coverage: Option<Geometry>, tilesIn: (Bounds, int) -> seq<Tile>,
                   tileBounds: Tile -> Bounds, cache: S3TileCache?) returns (tilesets: seq<Tileset>)
    requires cache != null ==> cache.Valid()
    ensures tilesets == ZoomTilesets(year, zooms, bounds, coverage, tilesIn, tileBounds, KeysOf(cache))
  {
    ghost var keys := KeysOf(cache);
    tilesets := [];
    for k := 0 to |zooms|
      invariant |tilesets| == k
      invariant forall m :: 0 <= m < k ==> tilesets[m] == TilesetAt(year, zooms[m], bounds, coverage, tilesIn, tileBounds, keys)
    {
      var tiles := FilterTiles(tilesIn(bounds, zooms[k]), coverage, tileBounds);
      var missing := tiles;
      if cache != null {
        missing := cache.GetMissingTileImages(tiles, year);
      }
      tilesets := tilesets + [Tileset(year, zooms[k], |tiles|, missing)];
    }
    ghost var expected := ZoomTilesets(year, zooms, bounds, coverage, tilesIn, tileBounds, keys);
    assert forall m :: 0 <= m < |tilesets| ==> expected[m] == tilesets[m];
    assert expected == tilesets;
  }

  /** A row of the cache summary. */
  datatype SummaryRow = SummaryRow(year: int, zoom: int, totalTiles: nat, cachedTiles: nat, missingTiles: nat)

  /** The summary: one row per tileset, with cached = total - missing. */
  function Summary(tilesets: seq<Tileset>): (rows: seq<SummaryRow>)
    requires forall n :: 0 <= n < |tilesets| ==> |tilesets[n].tiles| <= tilesets[n].total
    ensures |rows| == |tilesets|
    ensures forall n :: 0 <= n < |rows| ==>
      rows[n].cachedTiles + rows[n].missingTiles == rows[n].totalTiles == tilesets[n].total &&
      rows[n].missingTiles == |tilesets[n].tiles| && rows[n].year == tilesets[n].year && rows[n].zoom == tilesets[n].zoom
  {
    seq(|tilesets|, n requires 0 <= n < |tilesets| =>
      var ts := tilesets[n];
      SummaryRow(ts.year, ts.zoom, ts.total, ts.total - |ts.tiles|, |ts.tiles|))
  }

  /** How a tile request ends. */
  datatype RequestOutcome = Completed | TimedOut | Raised(message: string)

  /** `math.ceil(n / size)`. */
  function BatchCount(n: nat, size: nat): (count: nat)
    requires size > 0
    ensures count * size >= n
    ensures count > 0 ==> (count - 1) * size < n
  {
    (n + size - 1) / size
  }

  /** The positions in `tiles[..upTo]` whose request did not complete. */
  function FailedBefore(tiles: seq<Tile>, outcome: Tile -> RequestOutcome, upTo: nat): set<nat>
    requires upTo <= |tiles|
  {
    set i: nat | i < upTo && outcome(tiles[i]) != Completed
  }

  /**
   * `_seed_tiles_runner`: `ceil(n / 500)` consecutive slices of at most 500 tiles whose
   * concatenation is the list, each awaited in full before the next is started; every
   * request, however it ends, advances the progress bar once, so the count reaches the number
   * of tiles, and a failing request is reported without stopping the others.
   */
  method SeedTilesRunner(tiles: seq<Tile>, outcome: Tile -> RequestOutcome)
    returns (slices: seq<seq<Tile>>, progress: nat, failed: set<nat>)
    ensures |slices| == BatchCount(|tiles|, BatchSize)
    ensures forall b :: 0 <= b < |slices| ==> 0 < |slices[b]| <= BatchSize
    ensures Flatten(slices) == tiles
    ensures progress == |tiles|
    ensures failed == FailedBefore(tiles, outcome, |tiles|)
  {
    var batches := BatchCount(|tiles|, BatchSize);
    slices, progress, failed := [], 0, {};
    for b := 0 to batches
      invariant |slices| == b
      invariant progress == if b == batches then |tiles| else b * BatchSize
      invariant progress <= |tiles|
      invariant Flatten(slices) == tiles[..progress]
      invariant forall c :: 0 <= c < b ==> 0 < |slices[c]| <= BatchSize
      invariant failed == FailedBefore(tiles, outcome, progress)
    {
      var lo := b * BatchSize;
      assert lo < |tiles| by { BatchBelowCount(b, batches, |tiles|); }
      var hi := if lo + BatchSize < |tiles| then lo + BatchSize else |tiles|;
      var batchTiles := tiles[lo..hi];
      var finished, failedHere := AwaitBatch(tiles, lo, hi, outcome);
      FlattenAppend(slices, batchTiles);
      assert tiles[..hi] == tiles[..lo] + batchTiles;
      slices := slices + [batchTiles];
      progress := progress + finished;
      failed := failed + failedHere;
      assert forall i :: i in failed <==> i in FailedBefore(tiles, outcome, hi);
      if b + 1 == batches {
        LastBatchReachesEnd(b, batches, |tiles|);
      }
    }
    if batches == 0 {
      assert tiles == [];
    }
    assert tiles[..|tiles|] == tiles;
  }

  /**
   * The requests for `tiles[lo..hi]`, all started, then awaited in whatever order they
   * finish: each finished request counts once, and those that time out or raise are reported.
   */
  method AwaitBatch(tiles: seq<Tile>, lo: nat, hi: nat, outcome: Tile -> RequestOutcome) returns (finished: nat, failed: set<nat>)
    requires lo <= hi <= |tiles|
    ensures finished == hi - lo
    ensures forall i :: i in failed <==> lo <= i < hi && outcome(tiles[i]) != Completed
  {
    var pending := Positions(lo, hi);
    finished, failed := 0, {};
    while pending != {}
      invariant pending <= Positions(lo, hi)
      invariant finished == hi - lo - |pending|
      invariant forall i :: i in failed <==> lo <= i < hi && i !in pending && outcome(tiles[i]) != Completed
      decreases |pending|
    {
      var i :| i in pending;
      if outcome(tiles[i]) != Completed {
        failed := failed + {i};
      }
      finished := finished + 1;
      pending := pending - {i};
    }
  }

  /** The positions `lo` to `hi - 1`. */
  function Positions(lo: nat, hi: nat): (r: set<nat>)
    ensures |r| == if lo <= hi then hi - lo else 0
    ensures forall k: int :: k in r <==> lo <= k < hi
    decreases hi
  {
    if hi <= lo then {} else Positions(lo, hi - 1) + {hi - 1}
  }

  /** A batch number below the count starts inside the list. */
  lemma BatchBelowCount(b: nat, batches: nat, n: nat)
    requires batches == BatchCount(n, BatchSize) && b < batches
    ensures b * BatchSize < n
  {
    assert (batches - 1) * BatchSize < n;
    assert b * BatchSize <= (batches - 1) * BatchSize;
  }

  /** The last batch ends at the end of the list. */
  lemma LastBatchReachesEnd(b: nat, batches: nat, n: nat)
    requires batches == BatchCount(n, BatchSize) && b + 1 == batches
    ensures n <= b * BatchSize + BatchSize
  {
    assert batches * BatchSize >= n;
  }

  /** One request to the tile API, `GET {base}/{year}/{z}/{y}/{x}`. */
  datatype Request = Request(year: int, tile: Tile)

  /** The requests for `tiles` of `year`, in order. */
  function RequestsOf(year: int, tiles: seq<Tile>): (r: seq<Request>)
    ensures |r| == |tiles| && forall i :: 0 <= i < |r| ==> r[i] == Request(year, tiles[i])
  {
    seq(|tiles|, i requires 0 <= i < |tiles| => Request(year, tiles[i]))
  }

  /** The requests for the tilesets, one tileset after the other. */
  function Requests(tilesets: seq<Tileset>): (r: seq<Request>)
  {
    if tilesets == [] then []
    else Requests(tilesets[..|tilesets| - 1]) + RequestsOf(tilesets[|tilesets| - 1].year, tilesets[|tilesets| - 1].tiles)
  }

  /** A request is made exactly for a missing tile of some tileset, with that tileset's year. */
  lemma {:induction false} RequestsCoverTilesets(tilesets: seq<Tileset>, q: Request)
    ensures q in Requests(tilesets) <==> exists n :: 0 <= n < |tilesets| && q.year == tilesets[n].year && q.tile in tilesets[n].tiles
  {
    if tilesets != [] {
      var last := |tilesets| - 1;
      var init := tilesets[..last];
      RequestsCoverTilesets(init, q);
      var here := RequestsOf(tilesets[last].year, tilesets[last].tiles);
      if q in here {
        var i :| 0 <= i < |here| && here[i] == q;
        assert q.year == tilesets[last].year && q.tile in tilesets[last].tiles;
      }
      if q.year == tilesets[last].year && q.tile in tilesets[last].tiles {
        var i :| 0 <= i < |tilesets[last].tiles| && tilesets[last].tiles[i] == q.tile;
        assert here[i] == q;
      }
      assert forall n :: 0 <= n < last ==> init[n] == tilesets[n];
    }
  }

  /** The requests for two runs of tilesets, one after the other. */
  lemma {:induction false} RequestsAppend(first: seq<Tileset>, second: seq<Tileset>)
    ensures Requests(first + second) == Requests(first) + Requests(second)
    decreases |second|
  {
    if second == [] {
      assert first + second == first;
    } else {
      var last := |second| - 1;
      var whole := first + second;
      assert whole[..|whole| - 1] == first + second[..last];
      assert whole[|whole| - 1] == second[last];
      RequestsAppend(first, second[..last]);
      var tail := RequestsOf(second[last].year, second[last].tiles);
      assert Requests(whole) == Requests(first + second[..last]) + tail;
      assert Requests(second) == Requests(second[..last]) + tail;
    }
  }

  /** How a run of `seed` ends: stopped by a failure, or with its summary and the requests it made. */
  datatype SeedResult = Aborted(failure: Failure) | Seeded(summary: seq<SummaryRow>, requests: seq<Request>)

  /** The loop of `seed` that runs the runner on each tileset's missing tiles, in plan order. */
  method SeedTilesets(tilesets: seq<Tileset>, outcome: Request -> RequestOutcome) returns (requests: seq<Request>)
    ensures requests == Requests(tilesets)
  {
    requests := [];
    for n := 0 to |tilesets|
      invariant requests == Requests(tilesets[..n])
    {
      var year := tilesets[n].year;
      var slices, progress, failed := SeedTilesRunner(tilesets[n].tiles, t => outcome(Request(year, t)));
      assert tilesets[..n + 1][..n] == tilesets[..n];
      requests := requests + RequestsOf(year, Flatten(slices));
    }
    assert tilesets[..|tilesets|] == tilesets;
  }

  /**
   * `seed`: the coverage option is validated as it is parsed, then the preflight checks run;
   * the configuration is read from the environment `env` (a failure ends the command) and the
   * plan is built with its cache, `cache` standing for that cache (`null` when there is none),
   * and summarised; unless it is a dry run, every missing tile of every tileset is then
   * requested once.  As the cache's query reports every tile missing, the summary counts no
   * cached tile and every tile is requested, with a cache or without one.
   */
  method Seed(catalog: seq<Geotiff>, fromZoom: int, toZoom: int, years: seq<int>, coverageText: Option<string>, dryRun: bool,
              parseWkt: string -> Option<Geometry>, stackDeployed: bool, cacheEnabled: bool,
              tilesIn: (Bounds, int) -> seq<Tile>, tileBounds: Tile -> Bounds,
              env: map<string, string>, bucketExists: string -> bool, cache: S3TileCache?,
              outcome: Request -> RequestOutcome) returns (r: SeedResult)
    requires Env.FromEnv(env, Env.SourceNames).Ok? ==>
      (cache != null <==> Env.TileCacheOf(Env.FromEnv(env, Env.SourceNames).value, bucketExists).Some?)
    requires cache != null ==> cache.Valid()
    ensures ValidateCoverage(coverageText, parseWkt).Err? ==> r == Aborted(BadParameter(CoverageError))
    ensures ValidateCoverage(coverageText, parseWkt).Ok? && PreflightCheck(fromZoom, toZoom, dryRun, stackDeployed, cacheEnabled).Some? ==>
      r == Aborted(PreflightCheck(fromZoom, toZoom, dryRun, stackDeployed, cacheEnabled).value)
    ensures (ValidateCoverage(coverageText, parseWkt).Ok? && PreflightCheck(fromZoom, toZoom, dryRun, stackDeployed, cacheEnabled).None? &&
             Env.FromEnv(env, Env.SourceNames).Err?) ==> r == Aborted(ConfigError(Env.FromEnv(env, Env.SourceNames).error))
    ensures r.Seeded? <==> (ValidateCoverage(coverageText, parseWkt).Ok? && PreflightCheck(fromZoom, toZoom, dryRun, stackDeployed, cacheEnabled).None? &&
                            Env.FromEnv(env, Env.SourceNames).Ok? && (HasCoverage(ValidateCoverage(coverageText, parseWkt).value) || 0 !in years))
    ensures (ValidateCoverage(coverageText, parseWkt).Ok? && PreflightCheck(fromZoom, toZoom, dryRun, stackDeployed, cacheEnabled).None? &&
             Env.FromEnv(env, Env.SourceNames).Ok?) ==> (
      var plan := Plan(catalog, ValidateCoverage(coverageText, parseWkt).value, years, fromZoom, toZoom, tilesIn, tileBounds, KeysOf(cache));
      && (plan.Err? ==> r == Aborted(QueryError(plan.error)))
      && (plan.Ok? ==>
            && r.Seeded? && |r.summary| == |plan.value|
            && (forall n :: 0 <= n < |plan.value| ==>
                  r.summary[n].missingTiles == |plan.value[n].tiles| == r.summary[n].totalTiles == plan.value[n].total &&
                  r.summary[n].cachedTiles == 0)
            && r.requests == (if dryRun then [] else Requests(plan.value))))
  {
    var validated := ValidateCoverage(coverageText, parseWkt);
    if validated.Err? {
      return Aborted(BadParameter(validated.error));
    }
    var preflight := PreflightCheck(fromZoom, toZoom, dryRun, stackDeployed, cacheEnabled);
    if preflight.Some? {
      return Aborted(preflight.value);
    }
    var config := Env.FromEnv(env, Env.SourceNames);
    if config.Err? {
      return Aborted(ConfigError(config.error));
    }
    var coverage := validated.value;
    var plan := PlanTilesets(catalog, coverage, years, fromZoom, toZoom, tilesIn, tileBounds, cache);
    PlanOutline(catalog, coverage, years, fromZoom, toZoom, tilesIn, tileBounds, KeysOf(cache));
    if plan.Err? {
      return Aborted(QueryError(plan.error));
    }
    var summary := Summary(plan.value);
    var requests := [];
    if !dryRun {
      requests := SeedTilesets(plan.value, outcome);
    }
    return Seeded(summary, requests);
  }
}
