/**
 * The newer NAIP renderer: the catalog query `get_naip_geotiffs`, by year,
 * by coverage or by both, and `_build_image`, which composites the matching
 * GeoTIFFs' crops into a tile and derives its alpha channel from black.
 * Reprojection, the shapely geometry of a coverage and the raster reads are
 * inputs: a coverage carries its bounds, whether it equals its own bounding
 * box, and its intersection test.
 */
module Naip {
  import opened Wrappers
  import opened Text
  import opened Raster
  import opened Sequences
  import opened NaipIndex
  import opened Mosaic

  /** The EPSG code of WGS84 longitude / latitude, the index's coordinates. */
  const Wgs84 := 4326

  /** What `get_naip_geotiffs` raises when given neither a coverage nor a year. */
  const NoFilterError := "must supply coverage and/or year parameters"

  /** What `np.dstack` raises when the alpha plane's shape differs from the buffer's. */
  const ShapeError := "all the input array dimensions except for the concatenation axis must match exactly"

  /**
   * A shapely geometry, as far as the query looks at it: whether it is empty (an empty
   * geometry is falsy), its bounds, whether it equals `box(*bounds)`, and which boxes it
   * intersects.
   */
  datatype Geometry = Geometry(isEmpty: bool, bounds: Bounds, isBox: bool, intersects: Bounds -> bool)

  /** `if coverage:` */
  predicate HasCoverage(coverage: Option<Geometry>) {
    coverage.Some? && !coverage.value.isEmpty
  }

  /** `if year:` (year 0 counts as no year). */
  predicate HasYear(year: Option<int>) {
    year.Some? && year.value != 0
  }

  /** The coverage in WGS84: reprojected by `toWgs84` unless it already is. */
  function InWgs84(coverage: Geometry, epsg: int, toWgs84: Geometry -> Geometry): Geometry {
    if epsg != Wgs84 then toWgs84(coverage) else coverage
  }

  /** The conditions of the catalog filter that a row must meet. */
  predicate MatchesFilter(g: Geotiff, coverage: Option<Geometry>, year: Option<int>, epsg: int, toWgs84: Geometry -> Geometry) {
    && (HasYear(year) ==> g.year == year.value)
    && (HasCoverage(coverage) ==> !Disjoint(g, InWgs84(coverage.value, epsg, toWgs84).bounds))
  }

  /** The rows the parquet filter keeps, in catalog order. */
  function BroadPhase(catalog: seq<Geotiff>, coverage: Option<Geometry>, year: Option<int>, epsg: int, toWgs84: Geometry -> Geometry): (rows: seq<Geotiff>)
    ensures Subsequence(rows, catalog)
    ensures forall g :: g in rows <==> g in catalog && MatchesFilter(g, coverage, year, epsg, toWgs84)
  {
    Select(catalog, g => MatchesFilter(g, coverage, year, epsg, toWgs84))
  }

  /** Whether the exact intersection test runs: there is a coverage, and it is not a plain box. */
  predicate Refines(coverage: Option<Geometry>, epsg: int, toWgs84: Geometry -> Geometry) {
    HasCoverage(coverage) && !InWgs84(coverage.value, epsg, toWgs84).isBox
  }

  /**
   * `get_naip_geotiffs(coverage, year, epsg)`: `ValueError` without a coverage or a year;
   * otherwise the catalog rows of that year whose box is not disjoint from the coverage's
   * bounds, then, for a coverage that is not a box, only those whose extent the coverage
   * intersects, in catalog order.
   */
  function GetNaipGeotiffs(catalog: seq<Geotiff>, coverage: Option<Geometry>, year: Option<int>, epsg: int,
                           toWgs84: Geometry -> Geometry): (r: Result<seq<Geotiff>>)
    ensures r.Err? <==> !HasCoverage(coverage) && !HasYear(year)
    ensures r.Ok? ==> Subsequence(r.value, BroadPhase(catalog, coverage, year, epsg, toWgs84))
    ensures r.Ok? ==> Subsequence(r.value, catalog)
    ensures r.Ok? ==> forall g :: g in r.value <==>
      g in catalog && MatchesFilter(g, coverage, year, epsg, toWgs84) &&
      (Refines(coverage, epsg, toWgs84) ==> InWgs84(coverage.value, epsg, toWgs84).intersects(Extent(g)))
  {
    if !HasCoverage(coverage) && !HasYear(year) then Err(NoFilterError)
    else
      var broad := BroadPhase(catalog, coverage, year, epsg, toWgs84);
      if Refines(coverage, epsg, toWgs84) then
        var wgs84 := InWgs84(coverage.value, epsg, toWgs84);
        var refined := Select(broad, g => wgs84.intersects(Extent(g)));
        SubsequenceTransitive(refined, broad, catalog);
        Ok(refined)
      else
        assert Subsequence(broad, broad) by { SubsequenceReflexive(broad); }
        Ok(broad)
  }

  /** With a year, every row returned is of that year. */
  lemma QueryByYear(catalog: seq<Geotiff>, coverage: Option<Geometry>, year: int, epsg: int, toWgs84: Geometry -> Geometry)
    requires year != 0
    ensures GetNaipGeotiffs(catalog, coverage, Some(year), epsg, toWgs84).Ok?
    ensures forall g :: g in GetNaipGeotiffs(catalog, coverage, Some(year), epsg, toWgs84).value ==> g.year == year
  {
  }

  /** `get_resolution`: the sixth `/`-separated field of the S3 path; `IndexError` when there are fewer. */
  function Resolution(g: Geotiff): (r: Result<string>)
    ensures r.Ok? ==> '/' !in r.value
    ensures r.Err? <==> |Split(g.s3Path, '/')| < 6
  {
    var fields := Split(g.s3Path, '/');
    if |fields| > 5 then Ok(fields[5]) else Err("list index out of range")
  }

  /**
   * For a path of the bucket's layout, "s3:" / "" / bucket / state / year / resolution / ...,
   * the resolution is the field in that place.
   */
  lemma ResolutionOfPath(fields: seq<string>, g: Geotiff)
    requires |fields| >= 6 && forall k :: 0 <= k < |fields| ==> '/' !in fields[k]
    requires g.s3Path == Join(fields, "/")
    ensures Resolution(g) == Ok(fields[5])
  {
    SplitJoin(fields, '/');
  }

  /**
   * `_build_image(bounds, year, epsg, height, width)`: `None` when no GeoTIFF matches;
   * otherwise every matching GeoTIFF's crop, as `readCrop` gives it, is written into a
   * zero buffer of `width` rows and `height` columns with the per-channel maximum, and the
   * result gets an alpha channel that is 0 on black pixels and 255 elsewhere.  The alpha
   * plane is `height` by `width`, so stacking fails unless the two are equal.
   */
  method BuildImage(catalog: seq<Geotiff>, bounds: Geometry, year: int, epsg: int, height: nat, width: nat,
                    toWgs84: Geometry -> Geometry, readCrop: Geotiff -> Option<Crop>)
    returns (r: Result<Option<Grid<Rgba>>>)
    requires forall g :: g in catalog && readCrop(g).Some? ==> FitsIn(readCrop(g).value, width, height)
    ensures var found := GetNaipGeotiffs(catalog, Some(bounds), Some(year), epsg, toWgs84);
      && (found.Err? ==> r == Err(found.error))
      && (found.Ok? && found.value == [] ==> r == Ok(None))
      && (found.Ok? && found.value != [] && height != width ==> r == Err(ShapeError))
      && (found.Ok? && found.value != [] && height == width ==>
            AllFit(Crops(found.value, readCrop), width, height) &&
            r == Ok(Some(WithAlpha(Composite(Filled(width, height, Black), Crops(found.value, readCrop), width, height), width, height))))
  {
    var found := GetNaipGeotiffs(catalog, Some(bounds), Some(year), epsg, toWgs84);
    if found.Err? {
      return Err(found.error);
    }
    var geotiffs := found.value;
    if geotiffs == [] {
      return Ok(None);
    }
    var buffer := new Rgb[width, height]((_, _) => Black);
    ghost var zero := Filled(width, height, Black);
    WriteCrops(buffer, geotiffs, readCrop, zero);
    if height != width {
      return Err(ShapeError);
    }
    var pixels := Pixels(buffer);
    GridsEqual(pixels, Composite(zero, Crops(geotiffs, readCrop), width, height), width, height);
    return Ok(Some(WithAlpha(pixels, width, height)));
  }
}
