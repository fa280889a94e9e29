/**
 * The tile server's configuration, `TileServerConfig`, as read from the
 * process environment: the constructor's two ordering assertions, the
 * conversions `from_env` applies to each variable, and the `tile_cache`
 * property that turns the configuration into the cache's settings.  The
 * two copies of the class differ only in the names of the variables they
 * read (`SourceNames` and `LayerNames`).
 *
 * A raised exception is an `Err` carrying the exception's class name.
 */
module Env {
  import opened Wrappers
  import opened Text
  import Rescaling

  /** `assert` failing in the constructor. */
  const AssertionError := "AssertionError"
  /** `int(None)`, for a variable that is not set. */
  const TypeError := "TypeError"
  /** `int(s)` for a string that is not a decimal integer. */
  const ValueError := "ValueError"

  /** The fields of a constructed configuration; a variable that is not set stays `None`. */
  datatype TileServerConfig = TileServerConfig(
    imageFormat: Option<string>,
    maxZoom: int,
    minZoom: int,
    downscaleMaxZoom: int,
    upscaleMinZoom: int,
    rescalingEnabled: bool,
    tileCacheBucket: Option<string>)

  /** The two orderings the constructor asserts. */
  predicate Ordered(c: TileServerConfig) {
    c.minZoom < c.maxZoom && c.downscaleMaxZoom < c.upscaleMinZoom
  }

  /** `TileServerConfig(...)`: both orderings are asserted, then every argument is stored as given. */
  function NewConfig(imageFormat: Option<string>, maxZoom: int, minZoom: int, downscaleMaxZoom: int,
                     upscaleMinZoom: int, rescalingEnabled: bool, tileCacheBucket: Option<string>): (r: Result<TileServerConfig>)
    ensures r.Ok? <==> minZoom < maxZoom && downscaleMaxZoom < upscaleMinZoom
    ensures r.Err? ==> r.error == AssertionError
    ensures r.Ok? ==> Ordered(r.value)
    ensures r.Ok? ==> r.value.imageFormat == imageFormat && r.value.tileCacheBucket == tileCacheBucket
    ensures r.Ok? ==> r.value.maxZoom == maxZoom && r.value.minZoom == minZoom
    ensures r.Ok? ==> r.value.downscaleMaxZoom == downscaleMaxZoom && r.value.upscaleMinZoom == upscaleMinZoom
    ensures r.Ok? ==> r.value.rescalingEnabled == rescalingEnabled
  {
    if !(minZoom < maxZoom) || !(downscaleMaxZoom < upscaleMinZoom) then Err(AssertionError)
    else Ok(TileServerConfig(imageFormat, maxZoom, minZoom, downscaleMaxZoom, upscaleMinZoom, rescalingEnabled, tileCacheBucket))
  }

  /** The names of the environment variables one copy of `from_env` reads. */
  datatype EnvNames = EnvNames(
    imageFormat: string,
    maxZoom: string,
    minZoom: string,
    downscaleMaxZoom: string,
    upscaleMinZoom: string,
    rescalingEnabled: string,
    tileCacheBucket: string)

  /** The variables of the command-line project's copy. */
  const SourceNames := EnvNames("IMAGE_FORMAT", "MAX_ZOOM", "MIN_ZOOM", "DOWNSCALE_MAX_ZOOM",
                                "UPSCALE_MIN_ZOOM", "RESCALING_ENABLED", "TILE_CACHE_BUCKET")

  /** The variables of the deployed Lambda layer's copy, named after the stack's parameters. */
  const LayerNames := EnvNames("ImageFormat", "MaxZoom", "MinZoom", "DownscaleMaxZoom",
                               "UpscaleMinZoom", "RescalingEnabled", "TileCacheBucket")

  /** `os.getenv(name)`. */
  function GetEnv(env: map<string, string>, name: string): (v: Option<string>)
    ensures v.Some? <==> name in env
    ensures v.Some? ==> v.value == env[name]
  {
    if name in env then Some(env[name]) else None
  }

  /** `int(os.getenv(name))`: `int(None)` raises `TypeError`, an unparsable string `ValueError`. */
  function IntOf(v: Option<string>): (r: Result<int>)
    ensures v.None? ==> r == Err(TypeError)
    ensures v.Some? && ParseInt(v.value).None? ==> r == Err(ValueError)
    ensures v.Some? && ParseInt(v.value).Some? ==> r == Ok(ParseInt(v.value).value)
  {
    match v
    case None => Err(TypeError)
    case Some(s) => if ParseInt(s).None? then Err(ValueError) else Ok(ParseInt(s).value)
  }

  /** `bool(os.getenv(name))`: true exactly for a set, non-empty variable, whatever it says. */
  function FlagOf(v: Option<string>): (b: bool)
    ensures b <==> v.Some? && v.value != ""
  {
    v.Some? && v.value != ""
  }

  /**
   * `from_env`: the keyword arguments are converted in the order they are written, the
   * first conversion that raises ends the construction, and then the constructor runs.
   */
  function FromEnv(env: map<string, string>, names: EnvNames): (r: Result<TileServerConfig>) {
    var imageFormat := GetEnv(env, names.imageFormat);
    var maxZoom :- IntOf(GetEnv(env, names.maxZoom));
    var minZoom :- IntOf(GetEnv(env, names.minZoom));
    var downscaleMaxZoom :- IntOf(GetEnv(env, names.downscaleMaxZoom));
    var upscaleMinZoom :- IntOf(GetEnv(env, names.upscaleMinZoom));
    var rescalingEnabled := FlagOf(GetEnv(env, names.rescalingEnabled));
    var tileCacheBucket := GetEnv(env, names.tileCacheBucket);
    NewConfig(imageFormat, maxZoom, minZoom, downscaleMaxZoom, upscaleMinZoom, rescalingEnabled, tileCacheBucket)
  }

  /** Whether variable `name` holds a decimal integer. */
  predicate Numeric(env: map<string, string>, name: string) {
    name in env && ParseInt(env[name]).Some?
  }

  /** The integer variable `name` holds. */
  function Number(env: map<string, string>, name: string): int
    requires Numeric(env, name)
  {
    ParseInt(env[name]).value
  }

  /**
   * `from_env` succeeds exactly when the four zoom variables hold integers in the asserted
   * orders, and then every field is the converted variable: the flag is set by any non-empty
   * string, and an unset format or bucket stays `None`.
   */
  lemma FromEnvSpec(env: map<string, string>, names: EnvNames)
    ensures var r := FromEnv(env, names);
      r.Ok? <==>
        && Numeric(env, names.maxZoom) && Numeric(env, names.minZoom)
        && Numeric(env, names.downscaleMaxZoom) && Numeric(env, names.upscaleMinZoom)
        && Number(env, names.minZoom) < Number(env, names.maxZoom)
        && Number(env, names.downscaleMaxZoom) < Number(env, names.upscaleMinZoom)
    ensures var r := FromEnv(env, names);
      r.Ok? ==>
        && Ordered(r.value)
        && r.value.maxZoom == Number(env, names.maxZoom) && r.value.minZoom == Number(env, names.minZoom)
        && r.value.downscaleMaxZoom == Number(env, names.downscaleMaxZoom)
        && r.value.upscaleMinZoom == Number(env, names.upscaleMinZoom)
        && r.value.imageFormat == GetEnv(env, names.imageFormat)
        && r.value.tileCacheBucket == GetEnv(env, names.tileCacheBucket)
        && (r.value.rescalingEnabled <==> names.rescalingEnabled in env && env[names.rescalingEnabled] != "")
  {
  }

  /** The first error `from_env` raises: a missing zoom variable is a `TypeError`, and so on in argument order. */
  lemma FromEnvMissingMaxZoom(env: map<string, string>, names: EnvNames)
    requires names.maxZoom !in env
    ensures FromEnv(env, names) == Err(TypeError)
  {
  }

  /** The environment a configuration is written to: every field as `str()` of itself, the flag as "1" or unset. */
  function EnvOf(c: TileServerConfig, names: EnvNames): (env: map<string, string>)
    requires c.imageFormat.Some? && c.tileCacheBucket.Some?
  {
    var numbers := map[
      names.imageFormat := c.imageFormat.value,
      names.tileCacheBucket := c.tileCacheBucket.value,
      names.maxZoom := IntToString(c.maxZoom),
      names.minZoom := IntToString(c.minZoom),
      names.downscaleMaxZoom := IntToString(c.downscaleMaxZoom),
      names.upscaleMinZoom := IntToString(c.upscaleMinZoom)];
    if c.rescalingEnabled then numbers[names.rescalingEnabled := "1"] else numbers
  }

  /** The seven names are different variables. */
  predicate Distinct(names: EnvNames) {
    var all := [names.imageFormat, names.maxZoom, names.minZoom, names.downscaleMaxZoom,
                names.upscaleMinZoom, names.rescalingEnabled, names.tileCacheBucket];
    forall i, j :: 0 <= i < j < |all| ==> all[i] != all[j]
  }

  /** Reading back the environment a valid configuration is written to gives the configuration. */
  lemma FromEnvRoundTrip(c: TileServerConfig, names: EnvNames)
    requires Ordered(c) && c.imageFormat.Some? && c.tileCacheBucket.Some? && Distinct(names)
    ensures FromEnv(EnvOf(c, names), names) == Ok(c)
  {
    var env := EnvOf(c, names);
    EnvOfReads(c, names);
    IntOfString(c.maxZoom);
    IntOfString(c.minZoom);
    IntOfString(c.downscaleMaxZoom);
    IntOfString(c.upscaleMinZoom);
    assert IntOf(GetEnv(env, names.maxZoom)) == Ok(c.maxZoom);
    assert IntOf(GetEnv(env, names.minZoom)) == Ok(c.minZoom);
    assert IntOf(GetEnv(env, names.downscaleMaxZoom)) == Ok(c.downscaleMaxZoom);
    assert IntOf(GetEnv(env, names.upscaleMinZoom)) == Ok(c.upscaleMinZoom);
  }

  /** Each variable of the written environment holds its field's rendering, and the flag reads back. */
  lemma EnvOfReads(c: TileServerConfig, names: EnvNames)
    requires c.imageFormat.Some? && c.tileCacheBucket.Some? && Distinct(names)
    ensures var env := EnvOf(c, names);
      && GetEnv(env, names.imageFormat) == c.imageFormat && GetEnv(env, names.tileCacheBucket) == c.tileCacheBucket
      && GetEnv(env, names.maxZoom) == Some(IntToString(c.maxZoom)) && GetEnv(env, names.minZoom) == Some(IntToString(c.minZoom))
      && GetEnv(env, names.downscaleMaxZoom) == Some(IntToString(c.downscaleMaxZoom))
      && GetEnv(env, names.upscaleMinZoom) == Some(IntToString(c.upscaleMinZoom))
      && FlagOf(GetEnv(env, names.rescalingEnabled)) == c.rescalingEnabled
  {
    var all := [names.imageFormat, names.maxZoom, names.minZoom, names.downscaleMaxZoom,
                names.upscaleMinZoom, names.rescalingEnabled, names.tileCacheBucket];
    assert all[1] != all[5] && all[2] != all[5] && all[3] != all[5] && all[4] != all[5];
    assert all[0] != all[5] && all[5] != all[6];
  }

  /** A variable holding `str(i)` converts back to `i`. */
  lemma IntOfString(i: int)
    ensures IntOf(Some(IntToString(i))) == Ok(i)
  {
    ParseIntToString(i);
  }

  /** The variable switching rescaling on is read as a Python truth value of a string: "false" switches it on. */
  lemma FalseEnablesRescaling(env: map<string, string>, names: EnvNames)
    requires FromEnv(env, names).Ok? && names.rescalingEnabled in env && env[names.rescalingEnabled] == "false"
    ensures FromEnv(env, names).value.rescalingEnabled
  {
  }

  /** The settings `tile_cache` hands to `S3TileCache(...)`. */
  datatype CacheSettings = CacheSettings(bucket: string, rescalingEnabled: bool, downscaleMaxZoom: int, upscaleMinZoom: int)

  /**
   * The `tile_cache` property: no cache without a bucket name or when the bucket cannot be
   * found (the constructor's error is logged and swallowed); otherwise a cache over the bucket
   * with the configuration's thresholds and flag.  `bucketExists` answers S3's lookup.
   */
  function TileCacheOf(c: TileServerConfig, bucketExists: string -> bool): (r: Option<CacheSettings>)
    ensures r.None? <==> c.tileCacheBucket.None? || c.tileCacheBucket.value == "" || !bucketExists(c.tileCacheBucket.value)
    ensures r.Some? ==> r.value.bucket == c.tileCacheBucket.value && r.value.rescalingEnabled == c.rescalingEnabled
    ensures r.Some? ==> r.value.downscaleMaxZoom == c.downscaleMaxZoom && r.value.upscaleMinZoom == c.upscaleMinZoom
  {
    if c.tileCacheBucket.None? || c.tileCacheBucket.value == "" then None
    else if !bucketExists(c.tileCacheBucket.value) then None
    else Some(CacheSettings(c.tileCacheBucket.value, c.rescalingEnabled, c.downscaleMaxZoom, c.upscaleMinZoom))
  }

  /**
   * The thresholds a configuration hands to its cache leave a zoom level between them, as the
   * cache's rescaling needs, exactly when they are not adjacent: the constructor's ordering
   * assertion alone does not give the cache thresholds it can rescale with.
   */
  lemma CacheThresholdsBanded(c: TileServerConfig, bucketExists: string -> bool)
    requires Ordered(c) && TileCacheOf(c, bucketExists).Some?
    ensures var s := TileCacheOf(c, bucketExists).value;
      Rescaling.WellBanded(Rescaling.Bands(s.downscaleMaxZoom, s.upscaleMinZoom)) <==> c.upscaleMinZoom != c.downscaleMaxZoom + 1
  {
  }

  /**
   * The constructor lets through thresholds with no zoom level between them (here 11 and 12),
   * for which the cache's rescaling recursion does not terminate.
   */
  lemma AdjacentThresholdsAccepted()
    ensures var r := NewConfig(Some("PNG"), 20, 5, 11, 12, true, Some("tiles"));
      r.Ok? && r.value.upscaleMinZoom == r.value.downscaleMaxZoom + 1
  {
  }
}
