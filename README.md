# NAIP tile server: a Dafny model of its tile cache, imagery lookup, handlers and admin commands

The tile server renders web-mercator map tiles from NAIP aerial imagery, stored as
cloud-optimised GeoTIFFs, and keeps the rendered tiles in an S3 bucket. This project
models the server's core and proves properties of the model:

- **The rescaling tile cache.** Tiles are PNG objects under `year/z/y/x.png`.
  - On a miss, a tile at or below the downscale threshold is built from its four children.
  - A tile at or above the upscale threshold is built from its parent, by cropping one quadrant.
  - A rescaled tile is saved, flagged as rescaled, before it is returned.
  - The missing-tile query lists the bucket once and filters the tiles against that inventory. As written it reads only ".jpg" keys, so it reports every tile missing (see Findings).
- **The older JPEG tile cache**, with its get, save and contains operations.
- **The NAIP index and mosaic.**
  - The index lists the GeoTIFFs that hold imagery for a year.
  - Lookup finds the GeoTIFFs that intersect a tile's bounds, for one year, or for every year when only a coverage is given.
  - Mosaic assembles a tile from those GeoTIFFs.
- **The Lambda handlers** that turn an API event into a tile response, in the current and the older layout.
- **The configuration read from the environment.**
- **The admin commands.**
  - `cache seed`: the preflight checks, the coverage check, the configuration, the plan of missing tiles and the runner.
  - `inspector-ui`: reading and writing the `.env` file of the inspector UI.
  - `stack deploy` and `stack status`.

The bucket, the environment, the event and the files are values. Operations that change
the bucket are methods of classes whose `store` or `bucket` field is a map, proved against
the functions that specify them. Image resampling, WKT parsing, raster reads and the
network are parameters of the model.

## Model

| member | source | states |
|---|---|---|
| Tiles.Parent | src/utils/tile_cache.py:183 | the parent is one zoom level up, and its x and y are the tile's halved (the tile lies in the parent's 2 by 2 block) |
| Tiles.Children | src/utils/tile_cache.py:155 | a tile has exactly four children |
| Tiles.ChildrenOfTile | src/utils/tile_cache.py:155 | every child has the tile as its parent, the four children are distinct, and each is one zoom level down |
| Tiles.IndexOf | src/utils/tile_cache.py:190 | `list.index`: the first position holding the tile, and `None` exactly when the tile is not in the list |
| Tiles.IndexAmongSiblings | src/utils/tile_cache.py:190 | a tile's position among its parent's children is its quadrant, so the `index` call never raises |
| Tiles.Quadrant | src/utils/tile_cache.py:190-198 | the quadrant of a tile within its parent is one of four |
| Tiles.QuadrantIndex | src/utils/tile_cache.py:190 | the quadrant index is below 4 and names the tile among its parent's children |
| Raster.Filled | src/utils/tile_cache.py:161 | `Image.new`: a grid of the given shape with every pixel the fill value |
| Raster.Paste | src/utils/tile_cache.py:162-165 | a paste keeps the canvas's shape |
| Raster.PasteInto | src/utils/tile_cache.py:162-165 | the paste in place: each pixel covered by the image takes the image's pixel, every other pixel keeps its old value |
| Raster.PasteOnto | src/utils/tile_cache.py:162-165 | a paste into a canvas holding a grid leaves it holding the pasted grid |
| Raster.Pixels | src/utils/tile_cache.py:166 | reading a canvas out gives a grid of its shape holding its pixels |
| Raster.Crop | src/utils/tile_cache.py:201 | a crop has the box's height and width |
| Text.IntToString | src/utils/tile_cache.py:229 | `str(int)`: nonempty, digits with a leading '-' exactly for negative numbers |
| Text.ParseIntToString | src/utils/tile_cache.py:347 | `int(str(i)) == i`: the key fields read back as the numbers written |
| Text.IntToStringInjective | src/utils/tile_cache.py:229 | different numbers are written differently |
| Text.ParseInt | src/utils/env.py:37 | `int(s)`: a string is read exactly when it is an optional '+' or '-' followed by at least one decimal digit, and its value is the digits' value, negated after '-' |
| Text.ParseSignedDigits | src/utils/env.py:37 | a sign, or none, followed by digits reads as the digits' value, negated after '-' |
| Text.Lower | src/admin_cli/commands/stack.py:43 | `str.lower` on ASCII: same length, each capital lowered, everything else kept |
| Text.TrimStart | src/admin_cli/commands/inspector_ui.py:30 | the leading whitespace removed: a suffix that does not start with whitespace |
| Text.TrimEnd | src/admin_cli/commands/inspector_ui.py:30 | the trailing whitespace removed: a prefix that does not end with whitespace |
| Text.StripUnpadded | src/admin_cli/commands/inspector_ui.py:30 | `strip` leaves a string without surrounding whitespace unchanged |
| Text.ReadLines | src/admin_cli/commands/inspector_ui.py:27 | `readlines`: no line read is empty |
| Text.Split | src/utils/tile_cache.py:346 | `str.split`: at least one part, and no part contains the separator |
| Text.SplitJoin | src/utils/naip.py:55 | splitting a join on a separator no part contains gives the parts back |
| Text.ReadLinesConcat | src/admin_cli/commands/inspector_ui.py:27 | reading lines back from text written line by line gives those lines |
| Text.AssignmentLineParses | src/admin_cli/commands/inspector_ui.py:30 | a `name=value` line, stripped and split at '=', gives exactly the name and the value |
| CacheKeys.KeyOf | src/utils/tile_cache.py:228-229 | a key ends in its extension |
| CacheKeys.SplitKey | src/utils/tile_cache.py:346 | a key splits at '/' into year, z, y and `x.ext` |
| CacheKeys.KeyOfInjective | src/utils/tile_cache.py:228-229 | two tiles or years never share a key |
| CacheKeys.KeyPrefixOfKey | src/utils/tile_cache.py:325 | a key that starts with another key of the layout is that key |
| CacheKeys.PrefixListingIsLookup | src/utils/tile_cache.py:324-325 | in a bucket of layout keys, the prefix listing finds something exactly when the key itself is present |
| CacheKeys.InventoryEntryOfKey | src/utils/tile_cache.py:346-347 | parsing a layout key gives back the tile it was made from, whatever its extension |
| CacheKeys.Inventory | src/utils/tile_cache.py:343-347 | the inventory fails exactly when a listed key does not parse, and otherwise holds exactly the tiles of the listed keys |
| CacheKeys.Without | src/utils/tile_cache.py:349 | the filter keeps exactly the tiles not in the inventory, and is no longer than the input |
| CacheKeys.WithoutNothing | src/utils/tile_cache.py:349 | filtering against an empty inventory returns the tiles unchanged |
| CacheKeys.Uncached | src/utils/tile_cache.py:327-349 | the tiles whose key is not in the bucket, in order |
| CacheKeys.WithoutCached | src/utils/tile_cache.py:349 | filtering against the set of cached tiles is the uncached tiles |
| CacheKeys.MissingTiles | src/utils/tile_cache.py:343-349 | the query fails exactly when the inventory does, and otherwise filters the tiles against it |
| CacheKeys.PngKeyIsNotJpg | src/utils/tile_cache.py:345 | a key the cache writes never ends in ".jpg" |
| CacheKeys.AsWrittenReportsEveryTileMissing | src/utils/tile_cache.py:343-349 | with the listing as written, every tile is reported missing, whatever the bucket holds |
| CacheKeys.KeyUnderYear | src/utils/tile_cache.py:344 | a key lies under the prefix `str(year) + "/"` exactly when it is of that year |
| CacheKeys.CorrectedListingReadsOwnYear | src/utils/tile_cache.py:344-347 | the corrected listing selects a PNG key exactly when it is the key of its own tile for the year asked |
| CacheKeys.CorrectedInventoryIsLookup | src/utils/tile_cache.py:343-347 | with the corrected listing, a tile is in the inventory exactly when its key is in the bucket |
| CacheKeys.CorrectedMissingIsExact | src/utils/tile_cache.py:327-349 | with the corrected listing, the missing tiles are exactly the uncached ones, in order |
| Rescaling.Saved | src/utils/tile_cache.py:282-306 | `save_tile_image` stores the image under the tile's key with `is_rescaled` metadata when asked, and changes no other object |
| Rescaling.CropRegionOfTile | src/utils/tile_cache.py:189-198 | the crop box for a quadrant is the 128-pixel square at offsets `128 * (x % 2)` and `128 * (y % 2)` |
| Rescaling.DownscaleCanvas | src/utils/tile_cache.py:161-165 | the canvas of the four pasted children is 512 by 512 |
| Rescaling.DownscaleCanvasPastes | src/utils/tile_cache.py:161-165 | the canvas is the blank canvas pasted with child 0 at (0, 0), 1 at (256, 0), 3 at (0, 256) and 2 at (256, 256), in that order |
| Rescaling.DownscaleCanvasQuadrants | src/utils/tile_cache.py:161-165 | each pixel of the canvas is the pixel of the child whose quadrant it lies in |
| Rescaling.GetTileImage | src/utils/tile_cache.py:231-260 | the fetch keeps the bucket well formed and only adds objects; a hit returns the cached image and writes nothing; it returns an image exactly when the tile's key is then in the bucket; a rescaled tile is saved with `is_rescaled`; new keys are of that year and within the tile's zoom band |
| Rescaling.Rescale | src/utils/tile_cache.py:252-256 | on a miss, the rescale never writes the tile's own key and only adds objects within the tile's zoom band |
| Rescaling.Downscale | src/utils/tile_cache.py:139-166 | downscaling succeeds exactly when all four children end up cached, and then gives the resized composite of the cached children |
| Rescaling.ResolveChildren | src/utils/tile_cache.py:154-159 | the loop over the children stops at the first child it cannot get, and succeeds exactly when all four are cached |
| Rescaling.NextChild | src/utils/tile_cache.py:156-159 | one turn of the loop: a missing child ends it with no image, and a child that is had is collected before the loop goes on |
| Rescaling.Upscale | src/utils/tile_cache.py:168-201 | upscaling succeeds exactly when the parent ends up cached, and gives the resized quarter of the parent's image that the tile covers |
| Rescaling.FailedFetchLeavesTileUncached | src/utils/tile_cache.py:257-260 | a fetch that returns no image leaves the tile's key absent from the bucket |
| Rescaling.MissBetweenThresholds | src/utils/tile_cache.py:252-260 | a miss strictly between the thresholds returns no image and changes nothing |
| Rescaling.DownscaledTileIsComposite | src/utils/tile_cache.py:253-254 | a miss at or below the downscale threshold succeeds exactly when the four children end up cached, with the composite of their images |
| Rescaling.SavingKeepsChildren | src/utils/tile_cache.py:257-258 | saving a tile changes neither which of its children are cached nor their images |
| Rescaling.CachedChildren | src/utils/tile_cache.py:154-159 | the images of the four cached children, one per child |
| Rescaling.KeyIdentifiesTile | src/utils/tile_cache.py:228-229 | a key names one tile of one year |
| RescalingAsWritten.GetTileImageRunAgrees | src/utils/tile_cache.py:231-260 | with the thresholds at least two apart, the recursion as written finishes, given fuel for the tile's zoom band, and agrees with the terminating definition |
| RescalingAsWritten.RescaleRunAgrees | src/utils/tile_cache.py:252-256 | the same agreement for the rescale branch |
| RescalingAsWritten.DownscaleRescaleAgrees | src/utils/tile_cache.py:253-254 | the same agreement at or below the downscale threshold |
| RescalingAsWritten.UpscaleRescaleAgrees | src/utils/tile_cache.py:255-256 | the same agreement at or above the upscale threshold |
| RescalingAsWritten.DownscaleRunAgrees | src/utils/tile_cache.py:139-166 | downscaling as written agrees with the terminating definition |
| RescalingAsWritten.ResolveChildrenRunAgrees | src/utils/tile_cache.py:154-159 | the loop over the children as written agrees with the terminating definition |
| RescalingAsWritten.UpscaleRunAgrees | src/utils/tile_cache.py:168-201 | upscaling as written agrees with the terminating definition |
| RescalingAsWritten.AdjacentThresholdsDiverge | src/utils/tile_cache.py:253-256 | with `upscale_min_zoom == downscale_max_zoom + 1`, fetching a missing tile at the downscale threshold whose first child is missing never finishes, for any fuel |
| RescalingAsWritten.ChildDiverges | src/utils/tile_cache.py:183-184 | that first child, at the upscale threshold, asks for its parent, and never finishes either |
| TileCache.PasteChildren | src/utils/tile_cache.py:161-165 | the four pastes in place into a fresh transparent canvas give exactly the downscaling canvas |
| TileCache.S3TileCache.constructor | src/utils/tile_cache.py:207-226 | the cache keeps its settings and the bucket's contents |
| TileCache.S3TileCache.ContainsTileImage | src/utils/tile_cache.py:308-325 | `contains_tile_image` is true exactly when the tile's key is in the bucket |
| TileCache.S3TileCache.SaveTileImage | src/utils/tile_cache.py:282-306 | the bucket becomes the saved bucket of the specification, and stays well formed |
| TileCache.S3TileCache.HandleNullTileImage | src/utils/tile_cache.py:262-280 | a blank, fully transparent 256 by 256 tile is saved under the tile's key with no metadata |
| TileCache.S3TileCache.GetTileImage | src/utils/tile_cache.py:231-260 | the image returned and the bucket after the call are those of the specification's fetch |
| TileCache.S3TileCache.GetTileImageFromDownscaling | src/utils/tile_cache.py:139-166 | the image and the bucket are those of the specification's downscale |
| TileCache.S3TileCache.GetTileImageFromUpscaling | src/utils/tile_cache.py:168-201 | the image and the bucket are those of the specification's upscale |
| TileCache.S3TileCache.MissingTileImagesFrom | src/utils/tile_cache.py:343-349 | the listing loop and the filter compute the missing-tile query for the given listing |
| TileCache.S3TileCache.GetMissingTileImages | src/utils/tile_cache.py:327-349 | as written: against a bucket the cache wrote, every tile is reported missing, in input order |
| TileCache.S3TileCache.GetMissingTileImagesCorrected | src/utils/tile_cache.py:327-349 | with the listing the key layout calls for: exactly the tiles whose key is not in the bucket, in order |
| LegacyTileCache.LegacyKey | src/tile_cache.py:34-35 | the older cache's keys end in ".jpg" |
| LegacyTileCache.LegacyKeyInjective | src/tile_cache.py:34-35 | two tiles or years never share a key |
| LegacyTileCache.SavedTileIsContained | src/tile_cache.py:48-56 | after a save, `contains_tile` finds the tile |
| LegacyTileCache.UnsavedTileIsNotContained | src/tile_cache.py:54-56 | in a bucket of ".jpg" layout keys, `contains_tile` does not find a tile that was never saved |
| LegacyTileCache.SaveKeepsOtherTiles | src/tile_cache.py:48-52 | saving one tile changes no other tile's object |
| LegacyTileCache.SaveKeepsTileKeys | src/tile_cache.py:48-52 | saving keeps the bucket made of layout keys |
| LegacyTileCache.S3TileCache.constructor | src/tile_cache.py:24-32 | the cache keeps the bucket's contents and the JPEG encoder |
| LegacyTileCache.S3TileCache.GetTile | src/tile_cache.py:37-46 | a stored tile is returned; a missing key or a `NoSuchKey` error gives `None`; any other client error is raised again |
| LegacyTileCache.S3TileCache.SaveTile | src/tile_cache.py:48-52 | the JPEG-encoded image is stored under the tile's key and nothing else changes |
| LegacyTileCache.S3TileCache.ContainsTile | src/tile_cache.py:54-56 | `contains_tile` is the prefix listing; in a bucket of layout keys, it is true exactly when the key is present |
| Naip.BroadPhase | src/utils/naip.py:159-187 | the parquet filter keeps, in catalog order, exactly the rows of the year asked (if any) whose box is not wholly to one side of the coverage's WGS84 bounds (if any) |
| Naip.GetNaipGeotiffs | src/utils/naip.py:138-195 | `ValueError` exactly when neither a coverage nor a nonzero year is given; otherwise a subsequence of the catalog and of the broad phase holding exactly the matching rows, and for a coverage that is not its own bounding box only those whose extent it intersects |
| Naip.QueryByYear | src/utils/naip.py:186-187 | a query with a nonzero year always succeeds and returns rows of that year only |
| Naip.Resolution | src/utils/naip.py:47-55 | the resolution is a slash-free path field, and the lookup raises exactly when the path has fewer than six fields |
| Naip.ResolutionOfPath | src/utils/naip.py:55 | for a path joined from slash-free fields, the resolution is its sixth field |
| Naip.BuildImage | src/utils/naip.py:65-128 | the query's error is passed on; no GeoTIFF gives `None`; a non-square size makes the alpha stacking raise; otherwise the tile is the per-channel maximum composite of the crops over a black canvas, with alpha 0 exactly on black pixels |
| Mosaic.Max | src/utils/naip.py:117 | `np.maximum` on one channel is at least both values and is one of them |
| Mosaic.MaxPixel | src/utils/naip.py:117 | the pixel maximum is taken channel by channel |
| Mosaic.BlendInto | src/utils/naip.py:116-119 | in place: a pixel inside the crop's window becomes the maximum of itself and the crop's pixel, every other pixel is unchanged |
| Mosaic.Blend | src/utils/naip.py:116-119 | blending one crop keeps the canvas's shape |
| Mosaic.Composite | src/utils/naip.py:85-119 | blending all the crops keeps the canvas's shape |
| Mosaic.CompositeNeverDecreases | src/utils/naip.py:111-119 | no channel of any pixel ends below its value on the starting canvas |
| Mosaic.CompositeIsMaximum | src/utils/naip.py:111-119 | each channel of each pixel is the maximum of the canvas's value and the values of every crop covering that pixel |
| Mosaic.MaximumIsUnique | src/utils/naip.py:111-119 | that maximum is a single value |
| Mosaic.SameCropsSameMaximum | src/utils/naip.py:111-119 | the maximum depends only on which crops there are |
| Mosaic.CompositeOrderIndependent | src/utils/naip.py:85-119 | the composite is the same for any order or repetition of the same crops |
| Mosaic.UncoveredPixelUnchanged | src/utils/naip.py:116-119 | a pixel no crop covers keeps the canvas's value |
| Mosaic.Crops | src/utils/naip.py:85-109 | the crops are exactly those read from the GeoTIFFs that give one (a GeoTIFF whose box misses the tile is skipped) |
| Mosaic.CropsFit | src/utils/naip.py:99-109 | crops whose windows fit the canvas all fit |
| Mosaic.WriteCrops | src/utils/naip.py:84-119 | the loop over the GeoTIFFs leaves the buffer holding the composite of their crops |
| Mosaic.CropsOrderIndependent | src/utils/naip.py:85-119 | the order in which the query returns the GeoTIFFs does not change the tile |
| Mosaic.WithAlpha | src/utils/naip.py:121-126 | the colour channels are kept, and alpha is 0 exactly on black pixels and 255 elsewhere |
| LegacyNaip.MatchingRows | src/naip.py:111-128 | the filter keeps, in catalog order, exactly the rows of the year whose box is not wholly to one side of the reprojected query box |
| LegacyNaip.PathsOf | src/naip.py:129 | the `geotiff` column: one path per row, in order |
| LegacyNaip.GetNaipGeotiffs | src/naip.py:93-129 | a path is returned exactly when some matching row has it |
| LegacyNaip.Wgs84BoundsUnchanged | src/naip.py:111-115 | a query already in WGS84 is not reprojected: the result does not depend on the transformer |
| LegacyNaip.BuildImage | src/naip.py:27-83 | no path gives `None`; otherwise the tile is the per-channel maximum composite of the crops over a black canvas, with no alpha channel |
| Seeding.ValidateCoverage | src/admin_cli/commands/cache.py:62-72 | no value is no coverage; an unreadable value, or a geometry outside the WGS84 range, is rejected with the one generic message; otherwise the parsed geometry |
| Seeding.PreflightCheck | src/admin_cli/commands/cache.py:75-86 | the zoom-order error exactly when `from_zoom > to_zoom`, and no failure exactly when the zooms are ordered and it is a dry run or the stack is deployed with its cache enabled |
| Seeding.DescendingZooms | src/admin_cli/commands/cache.py:128 | the zooms from `to_zoom` down to `from_zoom`, strictly decreasing, each zoom of the range once |
| Seeding.UnionBounds | src/admin_cli/commands/cache.py:125-129 | the smallest box holding every GeoTIFF's extent |
| Seeding.FilterTiles | src/admin_cli/commands/cache.py:130-134 | the tiles kept are the enumerated tiles the coverage intersects (all of them without a coverage), in order |
| Seeding.MissingOf | src/admin_cli/commands/cache.py:137-140 | every tile is to be requested: without a cache as written, and with one because the cache's query reports every tile missing |
| Seeding.TilesetAt | src/admin_cli/commands/cache.py:129-141 | a tileset has the year and zoom asked; the tiles it requests are exactly the enumerated tiles the coverage keeps, as many as it counts in total |
| Seeding.ZoomTilesets | src/admin_cli/commands/cache.py:128-141 | one tileset per zoom, in the order given, each requesting all its tiles |
| Seeding.YearTilesets | src/admin_cli/commands/cache.py:119-141 | a year fails exactly when it is 0 without a coverage; with no GeoTIFFs it adds nothing; otherwise one tileset per zoom, from `to_zoom` down |
| Seeding.Plan | src/admin_cli/commands/cache.py:119-141 | no years give an empty plan |
| Seeding.PlanOutline | src/admin_cli/commands/cache.py:117-141 | the plan fails exactly when year 0 is asked without a coverage, and otherwise every tileset is of a year asked, at a zoom of the range, and requests all its tiles |
| Seeding.PlanFails | src/admin_cli/commands/cache.py:119-120 | the plan fails exactly when year 0 is asked without a coverage |
| Seeding.PlanInRange | src/admin_cli/commands/cache.py:119-141 | every tileset of a plan that succeeds is of a year asked, at a zoom of the range, and requests all its tiles |
| Seeding.YearOutline | src/admin_cli/commands/cache.py:119-141 | every tileset of a year is of that year, at a zoom of the range, and requests all its tiles |
| Seeding.PlanAfterYear | src/admin_cli/commands/cache.py:119-141 | the plan from year `n` on is that year's tilesets followed by the plan of the later years, and stops at a failing year |
| Seeding.PlanTilesets | src/admin_cli/commands/cache.py:116-141 | the loop over the years computes the plan, with the cache's keys when there is a cache |
| Seeding.PlanYear | src/admin_cli/commands/cache.py:120-141 | the body of the loop for one year computes that year's tilesets |
| Seeding.PlanZooms | src/admin_cli/commands/cache.py:128-141 | the loop over the zooms computes the tilesets of those zooms |
| Seeding.Summary | src/admin_cli/commands/cache.py:143-154 | one row per tileset; cached plus missing is the total, and missing is the number of tiles to seed |
| Seeding.BatchCount | src/admin_cli/commands/cache.py:37 | `math.ceil(n / size)`: the fewest batches of that size that hold `n` tiles |
| Seeding.BatchBelowCount | src/admin_cli/commands/cache.py:37-39 | every batch starts before the end of the tiles, so no batch is empty |
| Seeding.LastBatchReachesEnd | src/admin_cli/commands/cache.py:37-39 | the last batch reaches the end of the tiles |
| Seeding.AwaitBatch | src/admin_cli/commands/cache.py:46-55 | every task of a batch is awaited, and a task that does not complete is reported and counted, without stopping the run |
| Seeding.SeedTilesRunner | src/admin_cli/commands/cache.py:34-57 | the batches are nonempty, of at most 500 tiles, and together are the tiles in order; progress reaches the number of tiles; the failures are exactly the requests that did not complete |
| Seeding.RequestsOf | src/admin_cli/commands/cache.py:41-42 | one request per tile, in order, for the year |
| Seeding.RequestsCoverTilesets | src/admin_cli/commands/cache.py:158-165 | a request is sent exactly for the tiles of some tileset, with its year |
| Seeding.RequestsAppend | src/admin_cli/commands/cache.py:158-165 | the requests of two runs of tilesets are those of each, one after the other |
| Seeding.SeedTilesets | src/admin_cli/commands/cache.py:158-165 | the loop over the tilesets sends their requests in order |
| Seeding.Seed | src/admin_cli/commands/cache.py:112-165 | a bad coverage or a failed preflight check aborts first; then a configuration `from_env` cannot build aborts with its error; a query error aborts; otherwise the summary has one row per tileset of the plan, counting no cached tile, and the requests are those of the plan unless it is a dry run |
| LegacySeeding.Runner | aws_naip_tile_server/admin/commands/cache.py:30-35 | one request per tile, in order; the gather succeeds exactly when every request completes |
| LegacySeeding.YearTilesetsShape | aws_naip_tile_server/admin/commands/cache.py:86-104 | a year without GeoTIFFs gives nothing; otherwise one tileset per zoom from `to_zoom` down, holding exactly the enumerated tiles the coverage intersects |
| LegacySeeding.TilesetsByYear | aws_naip_tile_server/admin/commands/cache.py:86-104 | the tilesets of each year are that year's tilesets |
| LegacySeeding.PlanSkipsEmptyYears | aws_naip_tile_server/admin/commands/cache.py:89-90 | a year without GeoTIFFs is skipped |
| LegacySeeding.PlanStep | aws_naip_tile_server/admin/commands/cache.py:86-104 | the plan of one more year adds that year's tilesets, unless they are empty |
| LegacySeeding.PlanAroundYear | aws_naip_tile_server/admin/commands/cache.py:86-104 | the plan is the years before, that year's tilesets, and the years after |
| LegacySeeding.PlanConcat | aws_naip_tile_server/admin/commands/cache.py:86-104 | the plan of two runs of years is the plan of each, one after the other |
| LegacySeeding.FirstFailing | aws_naip_tile_server/admin/commands/cache.py:111-118 | where a run stops: the first tileset with a request that does not complete, if any |
| LegacySeeding.FirstFailingSpec | aws_naip_tile_server/admin/commands/cache.py:111-118 | no failing tileset exactly when none fails; otherwise that tileset fails and none before it does |
| LegacySeeding.FirstFailingAt | aws_naip_tile_server/admin/commands/cache.py:111-118 | the failing tileset with none failing before it is the first failing one |
| LegacySeeding.FirstFailingInMiddle | aws_naip_tile_server/admin/commands/cache.py:111-118 | a failure in a later year is found after all the tilesets of the earlier years |
| LegacySeeding.SeedYear | aws_naip_tile_server/admin/commands/cache.py:111-118 | one year's run succeeds exactly when no tileset fails, and its requests are those of the tilesets up to and including the first failing one |
| LegacySeeding.FailureInYear | aws_naip_tile_server/admin/commands/cache.py:86-118 | a failure in a year stops the whole command there, having logged the years up to it |
| LegacySeeding.StoppedRun | aws_naip_tile_server/admin/commands/cache.py:111-118 | a run that stops at the first failing request is what the command does |
| LegacySeeding.CompletesPlan | aws_naip_tile_server/admin/commands/cache.py:86-118 | a dry run, or a run in which every request completes, goes through the whole plan |
| LegacySeeding.CompletesYear | aws_naip_tile_server/admin/commands/cache.py:111-118 | a year in which every request completes adds its requests and keeps the run going |
| LegacySeeding.SeedYears | aws_naip_tile_server/admin/commands/cache.py:86-118 | the loop over the years logs each year's summary and, unless it is a dry run, seeds it, stopping at the first failing request |
| LegacySeeding.SeedPlannedYear | aws_naip_tile_server/admin/commands/cache.py:87-118 | one turn of that loop either keeps the run's invariant or ends the run as the command does |
| LegacySeeding.Seed | aws_naip_tile_server/admin/commands/cache.py:83-118 | a bad coverage or a failed preflight check rejects the command; otherwise the years are seeded as above |
| Env.NewConfig | src/utils/env.py:10-30 | the constructor fails with `AssertionError` exactly when either ordering fails, and otherwise stores every argument as given |
| Env.GetEnv | src/utils/env.py:36 | `os.getenv`: the variable's value exactly when it is set |
| Env.IntOf | src/utils/env.py:37-40 | `int(os.getenv(...))`: `TypeError` for an unset variable, `ValueError` for a non-integer, else the number |
| Env.FlagOf | src/utils/env.py:41 | `bool(os.getenv(...))`: true exactly when the variable is set and nonempty |
| Env.FromEnvSpec | src/utils/env.py:32-44 | `from_env` succeeds exactly when the four zoom variables are integers in order, and then holds each variable's value (the same for aws_naip_tile_server/layers/utils/env.py with its own names) |
| Env.FromEnvMissingMaxZoom | src/utils/env.py:37 | without `MAX_ZOOM`, `from_env` raises `TypeError` |
| Env.FromEnvRoundTrip | src/utils/env.py:32-44 | reading back the environment a valid configuration is written to gives that configuration |
| Env.FalseEnablesRescaling | src/utils/env.py:41 | `RESCALING_ENABLED=false` enables rescaling |
| Env.TileCacheOf | src/utils/env.py:46-63 | no cache exactly when the bucket name is unset or empty or the bucket does not exist; otherwise the cache gets the bucket and the rescaling settings |
| Env.CacheThresholdsBanded | src/utils/env.py:52-58 | for a configuration the constructor accepts, the thresholds handed to the cache leave a zoom level between them, as rescaling needs, exactly when they are not adjacent |
| Env.AdjacentThresholdsAccepted | src/utils/env.py:22 | the constructor accepts `upscale_min_zoom == downscale_max_zoom + 1` |
| Handlers.Truncate | src/utils/conversion.py:68 | `int(f)` on a finite float: its integer part, rounded toward zero |
| Handlers.ToInt | src/utils/conversion.py:50-72 | `val_to_type(v, int)`: an integer is kept, `true` reads as 1 and `false` as 0, a float is truncated toward zero, a string is parsed, and `null`, NaN, the infinities, arrays, objects and a missing key give `None` |
| Handlers.ToIntOfString | src/utils/conversion.py:67-68 | a number written as a string reads back as itself |
| Handlers.ReadRequest | src/lambda_functions/get_naip_tile.py:47-50 | each of `year`, `x`, `y` and `z` is converted from the field of that name |
| Handlers.SelectFields | src/lambda_functions/get_naip_tile.py:41-50 | the fields come from `pathParameters` when the event has it, else from the event; a `pathParameters` that is not a dictionary raises |
| Handlers.PathParametersShadowEvent | src/lambda_functions/get_naip_tile.py:41-45 | with `pathParameters`, the event's own fields are ignored |
| Handlers.BadRequest | src/lambda_functions/get_naip_tile.py:53 | status 400 with no body, not base64 |
| Handlers.NotFound | src/lambda_functions/get_naip_tile.py:79 | status 404 with no body, not base64 |
| Handlers.Found | src/lambda_functions/get_naip_tile.py:70-77 | status 200, base64, with the image encoded in the format and the content type given |
| Handlers.Fetch | src/lambda_functions/get_naip_tile.py:59-68 | without a cache the tile is rendered; a cached tile is returned without rendering; a miss renders and then saves the image, or records a null tile |
| Handlers.TileReply | src/lambda_functions/get_naip_tile.py:13-79 | a bad event raises; 400 exactly for a missing or zero field or a zoom outside the configured range, with nothing rendered or written; otherwise 200 or 404 |
| Handlers.TileReplyCases | src/lambda_functions/get_naip_tile.py:59-79 | for a valid request, the response and writes of each of the four cache cases |
| Handlers.TileReplyWithoutFormat | src/lambda_functions/get_naip_tile.py:59-79 | with no image format configured, a valid request still goes through the cache or the render with the same writes; a tile found then raises `ValueError`, and a tile not found is answered 404 |
| Handlers.TileReplyStatus | src/lambda_functions/get_naip_tile.py:70-79 | status 200 exactly when there is a body, which is base64 in the configured format with content type `image/<format>` lowered |
| Handlers.HandlerCache.constructor | src/lambda_functions/get_naip_tile.py:59 | the cache starts with the given tiles and no writes |
| Handlers.HandlerCache.GetTile | src/lambda_functions/get_naip_tile.py:60 | a stored tile is returned, and `None` exactly when there is none |
| Handlers.HandlerCache.SaveTile | src/lambda_functions/get_naip_tile.py:64 | the image is stored under the key and the write recorded |
| Handlers.HandlerCache.HandleNullTile | src/lambda_functions/get_naip_tile.py:66 | the null tile is recorded and the tiles stay as they were |
| Handlers.Handle | src/lambda_functions/get_naip_tile.py:13-79 | the handler's response, rendering and writes to the cache are those of the specification |
| Handlers.LegacyReply | aws_naip_tile_server/functions/get_naip_tile.py:32-93 | a bad event raises; 400 exactly for a missing or zero field, with no zoom check; otherwise 200 or 404, and the only writes are saves |
| Handlers.LegacyLookup | aws_naip_tile_server/functions/get_naip_tile.py:74-76 | without a cache nothing is found; a `NoSuchKey` error finds nothing and any other service error is raised; otherwise the stored picture under the tile's key, or nothing when the key is absent |
| Handlers.LegacyReplyCases | aws_naip_tile_server/functions/get_naip_tile.py:74-93 | a service error other than `NoSuchKey` makes the handler raise, with nothing rendered or written; a cached JPEG is returned; a miss renders and saves a found tile, and a tile that is not found is not saved |
| Handlers.LegacyHandle | aws_naip_tile_server/functions/get_naip_tile.py:32-93 | the handler's response, rendering and bucket after the call are those of the specification |
| InspectorUi.EnvLines | src/admin_cli/commands/inspector_ui.py:41-42 | one `name=value` line per field, in order |
| InspectorUi.ParseLine | src/admin_cli/commands/inspector_ui.py:28-31 | a line starting with '#' is skipped; any other line must split at '=' into exactly two parts, which set a key, or it raises `ValueError` |
| InspectorUi.ParseLines | src/admin_cli/commands/inspector_ui.py:27-31 | the only error reading the lines is `ValueError` |
| InspectorUi.ParseLinesErrPrefix | src/admin_cli/commands/inspector_ui.py:27-31 | a bad line fails the whole file, whatever follows it |
| InspectorUi.FromConfig | src/admin_cli/commands/inspector_ui.py:12-32 | `InspectorUISettings(**config)` raises `TypeError` exactly for an unknown key or a missing required field; otherwise each field is the string read, or its default |
| InspectorUi.ParseEnvFile | src/admin_cli/commands/inspector_ui.py:22-32 | a parsed file gives the five fields |
| InspectorUi.InspectorUISettings.Values | src/admin_cli/commands/inspector_ui.py:12-20 | the settings are the five fields |
| InspectorUi.InspectorUISettings.constructor | src/admin_cli/commands/inspector_ui.py:12-20 | the settings hold the values given |
| InspectorUi.InspectorUISettings.FromEnvFile | src/admin_cli/commands/inspector_ui.py:22-32 | fresh settings holding the parsed fields, or the parsing error |
| InspectorUi.InspectorUISettings.ToEnvFile | src/admin_cli/commands/inspector_ui.py:38-42 | the file written is one line per field, in declaration order |
| InspectorUi.InspectorUISettings.Update | src/admin_cli/commands/inspector_ui.py:63-65 | the three stack-derived fields are set and the initial view is kept |
| InspectorUi.UpdateInspectorUiSettings | src/admin_cli/commands/inspector_ui.py:45-69 | the file written is the one the specification gives, or the error raised |
| InspectorUi.LineParses | src/admin_cli/commands/inspector_ui.py:30 | a written line is not skipped, and stripped and split at '=' gives its name and value |
| InspectorUi.ParseWrittenLines | src/admin_cli/commands/inspector_ui.py:27-42 | reading back written lines gives the mapping from each name to its value |
| InspectorUi.NamesDistinct | src/admin_cli/commands/inspector_ui.py:16-20 | the field names are distinct |
| InspectorUi.NamesAreGood | src/admin_cli/commands/inspector_ui.py:16-20 | the field names can be written and read back |
| InspectorUi.ConfigOfAllFields | src/admin_cli/commands/inspector_ui.py:32 | a configuration with every field gives settings holding those strings |
| InspectorUi.EnvFileRoundTrip | src/admin_cli/commands/inspector_ui.py:22-42 | reading a written file gives back every field, as a string |
| InspectorUi.UpdateParsedFile | src/admin_cli/commands/inspector_ui.py:61-69 | updating an existing file replaces the three stack-derived fields and keeps the rest as read |
| InspectorUi.UpdateKeepsInitialView | src/admin_cli/commands/inspector_ui.py:61-69 | updating a file this command wrote keeps its initial view |
| InspectorUi.FreshFileDefaults | src/admin_cli/commands/inspector_ui.py:66-69 | without a file, the initial view takes its defaults |
| Stack.Title | src/admin_cli/commands/stack.py:43 | `str.title` on ASCII: a letter after a non-letter, or at the start, is upper-cased, every other character lower-cased |
| Stack.Titles | src/admin_cli/commands/stack.py:43 | each word is title-cased, in order |
| Stack.TitleKeepsUnderscores | src/admin_cli/commands/stack.py:43 | title-casing leaves underscores where they are and adds none |
| Stack.CamelCaseSegments | src/admin_cli/commands/stack.py:43 | a name converts word by word at its underscores |
| Stack.CamelCaseWord | src/admin_cli/commands/stack.py:43 | a name without underscores is its title-cased lower-case form |
| Stack.EmptySegmentAddsNothing | src/admin_cli/commands/stack.py:43 | a doubled or leading underscore adds nothing |
| Stack.CamelCaseHasNoUnderscore | src/admin_cli/commands/stack.py:43 | the converted name has no underscore |
| Stack.TitleOfCapitals | src/admin_cli/commands/stack.py:43 | a word of capitals becomes its first capital followed by lower case |
| Stack.SourceNamesBecomeLayerNames | src/admin_cli/commands/stack.py:43 | each variable read by src/utils/env.py converts to the stack parameter read by aws_naip_tile_server/layers/utils/env.py |
| Stack.Override | src/admin_cli/commands/stack.py:42-44 | a line gives an override exactly when it splits at '=' into two parts, and raises `ValueError` otherwise |
| Stack.Overrides | src/admin_cli/commands/stack.py:41-44 | one override per line, or `ValueError` |
| Stack.OverridesErrPrefix | src/admin_cli/commands/stack.py:41-44 | a bad line fails the whole file, whatever follows it |
| Stack.OverrideOfLine | src/admin_cli/commands/stack.py:42-44 | a `.env` line becomes the override of the converted name, with the value unchanged |
| Stack.ReadOverrides | src/admin_cli/commands/stack.py:41-44 | the loop over the lines computes the overrides |
| Stack.DeployArgs | src/admin_cli/commands/stack.py:37-51 | without a file or with no overrides, a plain deploy; otherwise the overrides joined by spaces are passed; a bad line raises |
| Stack.Deploy | src/admin_cli/commands/stack.py:32-51 | the deploy command's arguments are those of the specification |
| Stack.Status | src/admin_cli/commands/stack.py:21-27 | the description keeps exactly the five listed properties it has, with their values |

## Left out

- S3, CloudFormation and the network: a bucket is a map from key to object (or a set of keys), stack outputs and `get_is_stack_deployed` / `get_is_cache_enabled` are given values, and a service error is a given value of the bucket view.
- Image processing: PIL's resize is the uninterpreted function `resize`, PNG and JPEG encoding and base64 (section 4 of RFC 4648) are left out, and a response body is kept as the image and the format it would be encoded in.
- Raster reads, reprojection and geometry: the crop of each GeoTIFF (its window in the tile and its pixels), the transformer to WGS84, WKT parsing, `union_all`, shapely's `intersects` and `mercantile.tiles` are inputs. Coordinates are exact reals, so floating-point rounding is not modelled.
- The parquet catalog is a given sequence of rows, so reading it is not modelled.
- Concurrency: both seeding runners are modelled sequentially, and a request's outcome is a given function of the request. The order in which `asyncio.wait` hands back finished tasks does not change what is counted.
- LegacySeeding.Runner: `gather` is modelled as failing when some request fails. The model leaves out which exception is raised and what happens to the sibling requests that are still running.
- Logging, `tqdm` progress output, the `click` wiring, the `sam build` / `sam deploy` and `npm` subprocesses, and the printing in `status` are left out. `Stack.Deploy` gives the arguments of the `sam deploy` call.
- aws_naip_tile_server/layers/utils/naip.py, aws_naip_tile_server/layers/utils/tile_cache.py and the stack-info modules are not part of this model.
  - The deployed stack's handler is modelled against the cache of src/tile_cache.py.
  - The seeding commands' query is a parameter in the older command, and `Naip.GetNaipGeotiffs` in the newer one.
- Handlers.HandlerCache: the handlers call `get_tile`, `save_tile` and `handle_null_tile`, which src/utils/tile_cache.py does not define. The handler is therefore modelled against an abstract cache with those three operations.
- Handlers.Handle: the `lru_cache` of the configuration is left out. The configuration is an argument, and so is the cache it yields (or none).
- Handlers.Handle: an `image_format` that PIL does not know is not modelled. A format that is not set raises `ValueError`; any other format is encoded.
- Text.ParseInt: a subset of Python's `int()` on strings. It accepts an optional '+' or '-' followed by ASCII decimal digits. Surrounding whitespace, underscores between digits and non-ASCII digits, which Python also accepts, are refused.
- Text.ReadLines: the text is taken as Python hands it over after its newline translation. '\r' and '\r\n' line ends are not translated here.
- Handlers.ToInt: a float is its exact value. The rounding of a JSON number to a binary float before `int()` is not modelled.
- Text.Lower, Stack.Title: ASCII only. Python's full Unicode case mapping is not modelled.
- TileCache.S3TileCache.constructor: the `ValueError` for a bucket that does not exist is not raised here. `Env.TileCacheOf` models that case, by giving no cache.
- TileCache.S3TileCache.constructor: requires `downscale_max_zoom + 2 <= upscale_min_zoom`, the corrected condition described under Findings. It also requires a bucket that holds only keys of the layout the cache writes.
- RescalingAsWritten.GetTileImageRunAgrees: Python's stack depth is modelled as a fuel bound. A run that exhausts it answers `OutOfFuel` instead of raising `RecursionError`.
- RescalingAsWritten.GetTileImageRunAgrees: the existence test, a prefix listing, is taken as exact key lookup. `CacheKeys.PrefixListingIsLookup` shows that the two agree on a bucket of layout keys.
- TileCache.S3TileCache.GetMissingTileImages: the listing is taken as the set of keys in the bucket, so the order of the pages of the listing is not modelled.
- Seeding.Seed: `cache` stands for the cache `tile_cache` builds from the configuration read. It is required to be present exactly when `Env.TileCacheOf` gives one. Its thresholds are not tied to the configuration's, because seeding uses only the missing-tile query.
- Naip.BuildImage: the alpha channel is computed as a new grid from the composite buffer, not written in place.
- LegacyNaip.GetNaipGeotiffs: states which paths are returned, not their order or how many times each appears. `LegacyNaip.MatchingRows` and `LegacyNaip.PathsOf` state the order.
- Stack.Status: applies to a deployed stack. The message printed for a stack that is not deployed is left out.
- Stack.Deploy: like the source, it does not skip lines starting with '#' in `.env`. Such a line is converted like any other.

## Findings

| source | as written | input that shows it | evidently intended | confidence | as-written member | corrected member |
|---|---|---|---|---|---|---|
| src/utils/tile_cache.py:253-256 | the constructor accepts `upscale_min_zoom == downscale_max_zoom + 1`, and with such thresholds `get_tile_image` recurses between a tile and its first child forever | `downscale_max_zoom = 11`, `upscale_min_zoom = 12`, an empty bucket, any tile at zoom 11: downscaling asks for child 0 at zoom 12, which asks for its parent, the tile itself | the fetch of every tile finishes; thresholds at least two zoom levels apart guarantee this | not executed | RescalingAsWritten.AdjacentThresholdsDiverge | RescalingAsWritten.GetTileImageRunAgrees |
| src/utils/tile_cache.py:343-349 | `get_missing_tile_images` lists keys under the prefix `str(year)` and reads only keys ending in ".jpg", while `_get_key` writes ".png" keys | any bucket the cache has written and any tile list: every tile is reported missing, cached or not | the tiles whose ".png" key is absent under the prefix `str(year) + "/"`, in input order | not executed | TileCache.S3TileCache.GetMissingTileImages | TileCache.S3TileCache.GetMissingTileImagesCorrected |
