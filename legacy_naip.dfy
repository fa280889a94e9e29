/**
 * The older NAIP renderer: the catalog query by year and bounding box, and
 * `_build_image`, which composites the matching GeoTIFFs' crops into a
 * three-channel tile with no alpha channel.  Reprojection of the query box
 * and the raster reads are inputs.
 */
module LegacyNaip {
  import opened Wrappers
  import opened Raster
  import opened Sequences
  import opened NaipIndex
  import opened Mosaic

  const Wgs84 := 4326

  /** The query box in WGS84: `toWgs84` gives the bounds of the reprojected box. */
  function QueryBounds(bounds: Bounds, epsg: int, toWgs84: Bounds -> Bounds): Bounds {
    if epsg != Wgs84 then toWgs84(bounds) else bounds
  }

  /** A row the filter keeps: of the year, and not disjoint from the query box. */
  predicate Matches(g: Geotiff, bounds: Bounds, year: int, epsg: int, toWgs84: Bounds -> Bounds) {
    g.year == year && !Disjoint(g, QueryBounds(bounds, epsg, toWgs84))
  }

  /** The rows the parquet filter keeps, in catalog order. */
  function MatchingRows(catalog: seq<Geotiff>, bounds: Bounds, year: int, epsg: int, toWgs84: Bounds -> Bounds): (rows: seq<Geotiff>)
    ensures Subsequence(rows, catalog)
    ensures forall g :: g in rows <==> g in catalog && Matches(g, bounds, year, epsg, toWgs84)
  {
    Select(catalog, g => Matches(g, bounds, year, epsg, toWgs84))
  }

  /** `df["geotiff"].to_list()`. */
  function PathsOf(rows: seq<Geotiff>): (paths: seq<string>)
    ensures |paths| == |rows| && forall n :: 0 <= n < |rows| ==> paths[n] == rows[n].s3Path
  {
    seq(|rows|, n requires 0 <= n < |rows| => rows[n].s3Path)
  }

  /**
   * `get_naip_geotiffs(bounds, year, epsg)`: the paths of the rows of `year` whose box is
   * not disjoint from the query box, in catalog order.
   */
  function GetNaipGeotiffs(catalog: seq<Geotiff>, bounds: Bounds, year: int, epsg: int, toWgs84: Bounds -> Bounds): (paths: seq<string>)
    ensures forall p :: p in paths <==> exists g :: g in catalog && Matches(g, bounds, year, epsg, toWgs84) && g.s3Path == p
  {
    var rows := MatchingRows(catalog, bounds, year, epsg, toWgs84);
    var paths := PathsOf(rows);
    assert forall p :: p in paths ==> exists n :: 0 <= n < |rows| && rows[n].s3Path == p;
    assert forall g :: g in rows ==> g.s3Path in paths;
    paths
  }

  /** Bounds already in WGS84 are queried unchanged: the reprojection is never consulted. */
  lemma Wgs84BoundsUnchanged(catalog: seq<Geotiff>, bounds: Bounds, year: int, toWgs84: Bounds -> Bounds, toWgs84': Bounds -> Bounds)
    ensures GetNaipGeotiffs(catalog, bounds, year, Wgs84, toWgs84) == GetNaipGeotiffs(catalog, bounds, year, Wgs84, toWgs84')
  {
    SelectExtensional(catalog, g => Matches(g, bounds, year, Wgs84, toWgs84), g => Matches(g, bounds, year, Wgs84, toWgs84'));
  }

  /**
   * `_build_image(bounds, year, epsg, height, width)`: `None` when no GeoTIFF matches;
   * otherwise the crops of the matching GeoTIFFs, as `readCrop` gives them, written with
   * the per-channel maximum into a zero buffer of `width` rows and `height` columns, which
   * is returned as it is.
   */
  method BuildImage(catalog: seq<Geotiff>, bounds: Bounds, year: int, epsg: int, height: nat, width: nat,
                    toWgs84: Bounds -> Bounds, readCrop: string -> Option<Crop>)
    returns (r: Option<Grid<Rgb>>)
    requires forall g :: g in catalog && readCrop(g.s3Path).Some? ==> FitsIn(readCrop(g.s3Path).value, width, height)
    ensures var paths := GetNaipGeotiffs(catalog, bounds, year, epsg, toWgs84);
      && (paths == [] ==> r == None)
      && (paths != [] ==> AllFit(Crops(paths, readCrop), width, height))
      && (paths != [] ==> r == Some(Composite(Filled(width, height, Black), Crops(paths, readCrop), width, height)))
  {
    var paths := GetNaipGeotiffs(catalog, bounds, year, epsg, toWgs84);
    if paths == [] {
      return None;
    }
    var buffer := new Rgb[width, height]((_, _) => Black);
    ghost var zero := Filled(width, height, Black);
    WriteCrops(buffer, paths, readCrop, zero);
    var pixels := Pixels(buffer);
    GridsEqual(pixels, Composite(zero, Crops(paths, readCrop), width, height), width, height);
    return Some(pixels);
  }
}
