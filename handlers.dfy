/**
 * The two Lambda handlers that answer a slippy-map tile request: the
 * command-line project's (`src/lambda_functions/get_naip_tile.py`) and the
 * deployed stack's (`aws_naip_tile_server/functions/get_naip_tile.py`).
 *
 * Each is specified by a function that decides, from the event, the
 * configuration and what the cache holds, which response is sent, whether
 * the tile is rendered and which writes the cache receives; the handler
 * methods run that decision against a cache object and are proved to agree
 * with it.  Rendering (`naip.get_tile(z, y, x, year)`) is a function
 * parameter; the base64 body is the encoded image, kept as the image and
 * the format it is encoded in.
 */
module Handlers {
  import opened Wrappers
  import opened Text
  import Env
  import LegacyTileCache

  /** `AttributeError`: `.get` on a `pathParameters` entry that is not a dictionary. */
  const AttributeError := "AttributeError"
  /** `ValueError`: PIL cannot save an image with no format given. */
  const ValueError := "ValueError"

  /**
   * A JSON value of the invocation event.  A number with a fraction or an exponent is a
   * `Float`, kept as its exact value; `NaN` and the infinities, which `json.loads` also
   * accepts, are `NonFinite`.
   */
  datatype Value = Null | Bool(b: bool) | Int(i: int) | Float(f: real) | NonFinite | Str(s: string)
                 | Array(items: seq<Value>) | Object(fields: map<string, Value>)

  /** `int(f)` for a finite float: the integer part, rounded toward zero. */
  function Truncate(f: real): (i: int)
    ensures 0.0 <= f ==> i as real <= f < i as real + 1.0
    ensures f < 0.0 ==> i as real - 1.0 < f <= i as real
  {
    if f >= 0.0 then f.Floor else -((-f).Floor)
  }

  /**
   * `conversion.val_to_type(v, int)`: `int(v)`, or `None` when it raises (a missing key,
   * `null`, `NaN` or an infinity, an array, an object or a string that is not a decimal
   * integer).  `int(True)` is 1, and a float loses its fraction.
   */
  function ToInt(v: Option<Value>): (r: Option<int>)
    ensures v.None? || v.value.Null? || v.value.NonFinite? || v.value.Array? || v.value.Object? ==> r.None?
    ensures v.Some? && v.value.Bool? ==> r == Some(if v.value.b then 1 else 0)
    ensures v.Some? && v.value.Int? ==> r == Some(v.value.i)
    ensures v.Some? && v.value.Float? ==> r == Some(Truncate(v.value.f))
    ensures v.Some? && v.value.Str? ==> r == ParseInt(v.value.s)
  {
    match v
    case None => None
    case Some(Null) => None
    case Some(Bool(b)) => Some(if b then 1 else 0)
    case Some(Int(i)) => Some(i)
    case Some(Float(f)) => Some(Truncate(f))
    case Some(NonFinite) => None
    case Some(Str(s)) => ParseInt(s)
    case Some(Array(_)) => None
    case Some(Object(_)) => None
  }

  /** A path parameter written as `str(i)` converts back to `i`. */
  lemma ToIntOfString(i: int)
    ensures ToInt(Some(Str(IntToString(i)))) == Some(i)
  {
    ParseIntToString(i);
  }

  /** The four converted fields of a request; `None` where the conversion failed. */
  datatype TileRequest = TileRequest(year: Option<int>, x: Option<int>, y: Option<int>, z: Option<int>)

  /** `d.get(name)`. */
  function Get(fields: map<string, Value>, name: string): Option<Value> {
    if name in fields then Some(fields[name]) else None
  }

  /** The four fields converted from one dictionary. */
  function ReadRequest(fields: map<string, Value>): (q: TileRequest)
    ensures q.year == ToInt(Get(fields, "year")) && q.x == ToInt(Get(fields, "x"))
    ensures q.y == ToInt(Get(fields, "y")) && q.z == ToInt(Get(fields, "z"))
  {
    TileRequest(ToInt(Get(fields, "year")), ToInt(Get(fields, "x")), ToInt(Get(fields, "y")), ToInt(Get(fields, "z")))
  }

  /**
   * Field selection: an API Gateway event carries the fields under `pathParameters`, a direct
   * invocation carries them at the top level.
   */
  function SelectFields(event: map<string, Value>): (r: Result<TileRequest>)
    ensures "pathParameters" !in event ==> r == Ok(ReadRequest(event))
    ensures "pathParameters" in event ==>
      if event["pathParameters"].Object? then r == Ok(ReadRequest(event["pathParameters"].fields))
      else r == Err(AttributeError)
  {
    if "pathParameters" in event then
      match event["pathParameters"]
      case Object(fields) => Ok(ReadRequest(fields))
      case _ => Err(AttributeError)
    else Ok(ReadRequest(event))
  }

  /** When `pathParameters` is present, no top-level entry besides it changes which tile is asked for. */
  lemma PathParametersShadowEvent(event: map<string, Value>, name: string, v: Value)
    requires "pathParameters" in event && name != "pathParameters"
    ensures SelectFields(event[name := v]) == SelectFields(event)
  {
    assert event[name := v]["pathParameters"] == event["pathParameters"];
  }

  /** Python truth of a converted field: present and not zero. */
  predicate Truthy(v: Option<int>) {
    v.Some? && v.value != 0
  }

  /** `not x or not y or not z or not year` is false: every field converted and none is 0. */
  predicate Complete(q: TileRequest) {
    Truthy(q.x) && Truthy(q.y) && Truthy(q.z) && Truthy(q.year)
  }

  /** The body of a 200 response: base64 of `image` saved in `format`. */
  datatype Body<I> = Body(format: string, image: I)

  datatype Response<I> = Response(statusCode: int, contentType: Option<string>, body: Option<Body<I>>, isBase64Encoded: bool)

  /** `{"statusCode": 400, "body": None, "isBase64Encoded": False}`. */
  function BadRequest<I>(): (r: Response<I>)
    ensures r.statusCode == 400 && r.body.None? && !r.isBase64Encoded
  {
    Response(400, None, None, false)
  }

  /** `{"statusCode": 404, "body": None, "isBase64Encoded": False}`. */
  function NotFound<I>(): (r: Response<I>)
    ensures r.statusCode == 404 && r.body.None? && !r.isBase64Encoded
  {
    Response(404, None, None, false)
  }

  /** A 200 response carrying `image` encoded in `format`, sent with Content-Type `contentType`. */
  function Found<I>(image: I, format: string, contentType: string): (r: Response<I>)
    ensures r.statusCode == 200 && r.isBase64Encoded && r.contentType == Some(contentType)
    ensures r.body == Some(Body(format, image))
  {
    Response(200, Some(contentType), Some(Body(format, image)), true)
  }

  /** The cache's key for a tile of a year. */
  datatype TileKey = TileKey(x: int, y: int, z: int, year: int)

  /** A write the handler makes through the cache interface. */
  datatype Write<I> = Saved(key: TileKey, image: I) | NullHandled(key: TileKey)

  /** The cached images after `writes`; recording a null tile stores no image. */
  function Apply<I>(tiles: map<TileKey, I>, writes: seq<Write<I>>): (r: map<TileKey, I>)
    ensures writes == [] ==> r == tiles
  {
    if writes == [] then tiles
    else
      var last := writes[|writes| - 1];
      var before := Apply(tiles, writes[..|writes| - 1]);
      if last.Saved? then before[last.key := last.image] else before
  }

  /** `naip.get_tile(z, y, x, year)`: the rendered tile, or `None` where NAIP has no imagery. */
  type Render<I> = (int, int, int, int) -> Option<I>

  /** What one invocation does: the response (or the exception raised), the render, the cache writes. */
  datatype Reply<I> = Reply(outcome: Result<Response<I>>, rendered: bool, writes: seq<Write<I>>)

  /**
   * The command-line project's handler, given the configuration and the cached tiles (`None`
   * when `tile_cache` is `None`): validation, the inclusive zoom range, then a cache hit,
   * a render that is saved, or a render that finds nothing and is recorded as a null tile.
   */
  function TileReply<I>(event: map<string, Value>, config: Env.TileServerConfig, cached: Option<map<TileKey, I>>,
                        render: Render<I>): (r: Reply<I>)
    ensures SelectFields(event).Err? ==> r == Reply(Err(SelectFields(event).error), false, [])
    ensures r.outcome == Ok(BadRequest()) <==>
      SelectFields(event).Ok? &&
      var q := SelectFields(event).value;
      !Complete(q) || q.z.value < config.minZoom || q.z.value > config.maxZoom
    ensures r.outcome == Ok(BadRequest()) ==> !r.rendered && r.writes == []
    ensures r.outcome.Ok? ==> r.outcome.value.statusCode in {200, 400, 404}
  {
    var fields := SelectFields(event);
    if fields.Err? then Reply(Err(fields.error), false, [])
    else
      var q := fields.value;
      if !Complete(q) then Reply(Ok(BadRequest()), false, [])
      else
        var key := TileKey(q.x.value, q.y.value, q.z.value, q.year.value);
        if key.z < config.minZoom || key.z > config.maxZoom then Reply(Ok(BadRequest()), false, [])
        else
          var got := Fetch(key, cached, render);
          if got.image.None? then Reply(Ok(NotFound()), got.rendered, got.writes)
          else if config.imageFormat.None? then Reply(Err(ValueError), got.rendered, got.writes)
          else
            var format := config.imageFormat.value;
            Reply(Ok(Found(got.image.value, format, "image/" + Lower(format))), got.rendered, got.writes)
  }

  /** The image a valid request ends with, whether it was rendered, and the cache writes on the way. */
  datatype Fetched<I> = Fetched(image: Option<I>, rendered: bool, writes: seq<Write<I>>)

  /** The cache-or-render step of the command-line project's handler. */
  function Fetch<I>(key: TileKey, cached: Option<map<TileKey, I>>, render: Render<I>): (f: Fetched<I>)
    ensures cached.None? ==> f == Fetched(render(key.z, key.y, key.x, key.year), true, [])
    ensures cached.Some? && key in cached.value ==> f == Fetched(Some(cached.value[key]), false, [])
    ensures cached.Some? && key !in cached.value ==>
      var img := render(key.z, key.y, key.x, key.year);
      f.rendered && f.image == img && f.writes == (if img.Some? then [Saved(key, img.value)] else [NullHandled(key)])
  {
    match cached
    case None => Fetched(render(key.z, key.y, key.x, key.year), true, [])
    case Some(tiles) =>
      if key in tiles then Fetched(Some(tiles[key]), false, [])
      else
        var img := render(key.z, key.y, key.x, key.year);
        if img.Some? then Fetched(img, true, [Saved(key, img.value)]) else Fetched(None, true, [NullHandled(key)])
  }

  /**
   * The responses of a valid request, case by case: a cached tile is served with no render and
   * no write; a missing tile is rendered, saved once when found, and recorded as a null tile
   * (ending in 404) when not; with no cache the tile is rendered and nothing is written.
   */
  lemma TileReplyCases<I>(event: map<string, Value>, config: Env.TileServerConfig, cached: Option<map<TileKey, I>>,
                          render: Render<I>, key: TileKey)
    requires SelectFields(event) == Ok(TileRequest(Some(key.year), Some(key.x), Some(key.y), Some(key.z)))
    requires key.x != 0 && key.y != 0 && key.z != 0 && key.year != 0
    requires config.minZoom <= key.z <= config.maxZoom && config.imageFormat.Some?
    ensures var r := TileReply(event, config, cached, render);
      var img := render(key.z, key.y, key.x, key.year);
      var contentType := "image/" + Lower(config.imageFormat.value);
      && (cached.Some? && key in cached.value ==>
            r == Reply(Ok(Found(cached.value[key], config.imageFormat.value, contentType)), false, []))
      && (cached.Some? && key !in cached.value && img.Some? ==>
            r == Reply(Ok(Found(img.value, config.imageFormat.value, contentType)), true, [Saved(key, img.value)]))
      && (cached.Some? && key !in cached.value && img.None? ==>
            r == Reply(Ok(NotFound()), true, [NullHandled(key)]))
      && (cached.None? ==>
            r.rendered && r.writes == [] &&
            r.outcome == if img.Some? then Ok(Found(img.value, config.imageFormat.value, contentType)) else Ok(NotFound()))
  {
  }

  /**
   * Without an image format, a valid request still goes through the cache or the render, with
   * the same writes; a tile found then raises PIL's `ValueError` instead of being sent, and a
   * tile not found is answered 404.
   */
  lemma TileReplyWithoutFormat<I>(event: map<string, Value>, config: Env.TileServerConfig, cached: Option<map<TileKey, I>>,
                                  render: Render<I>, key: TileKey)
    requires SelectFields(event) == Ok(TileRequest(Some(key.year), Some(key.x), Some(key.y), Some(key.z)))
    requires key.x != 0 && key.y != 0 && key.z != 0 && key.year != 0
    requires config.minZoom <= key.z <= config.maxZoom && config.imageFormat.None?
    ensures var r := TileReply(event, config, cached, render);
      var got := Fetch(key, cached, render);
      r == Reply(if got.image.Some? then Err(ValueError) else Ok(NotFound()), got.rendered, got.writes)
  {
  }

  /**
   * A 200 response carries an image and the Content-Type "image/" plus the lower-cased format
   * it was encoded in; every other response has a null body and is not base64 encoded.
   */
  lemma TileReplyStatus<I>(event: map<string, Value>, config: Env.TileServerConfig, cached: Option<map<TileKey, I>>,
                           render: Render<I>)
    requires TileReply(event, config, cached, render).outcome.Ok?
    ensures var response := TileReply(event, config, cached, render).outcome.value;
      (response.statusCode == 200 <==> response.body.Some?) &&
      (response.statusCode == 200 ==>
        response.isBase64Encoded && config.imageFormat.Some? &&
        response.body.value.format == config.imageFormat.value &&
        response.contentType == Some("image/" + Lower(config.imageFormat.value))) &&
      (response.statusCode != 200 ==> !response.isBase64Encoded)
  {
  }

  /**
   * The interface the command-line project's handler calls on its cache (`get_tile`,
   * `save_tile`, `handle_null_tile`), over the cached images and the log of writes made.
   */
  class HandlerCache<I> {
    var tiles: map<TileKey, I>
    var writes: seq<Write<I>>

    constructor (tiles: map<TileKey, I>)
      ensures this.tiles == tiles && writes == []
    {
      this.tiles := tiles;
      writes := [];
    }

    /** `get_tile(x, y, z, year)`: the cached image, or `None`. */
    method GetTile(key: TileKey) returns (image: Option<I>)
      ensures image.Some? <==> key in tiles
      ensures image.Some? ==> image.value == tiles[key]
    {
      if key in tiles {
        return Some(tiles[key]);
      }
      return None;
    }

    /** `save_tile(x, y, z, year, image)`. */
    method SaveTile(key: TileKey, image: I)
      modifies this
      ensures writes == old(writes) + [Saved(key, image)]
      ensures tiles == old(tiles)[key := image]
    {
      tiles := tiles[key := image];
      writes := writes + [Saved(key, image)];
    }

    /** `handle_null_tile(x, y, z, year)`: recorded; no image is stored. */
    method HandleNullTile(key: TileKey)
      modifies this
      ensures writes == old(writes) + [NullHandled(key)]
      ensures tiles == old(tiles)
    {
      writes := writes + [NullHandled(key)];
    }
  }

  /** The command-line project's `handler`, over `tile_cache` (`null` when it is `None`). */
  method Handle<I>(event: map<string, Value>, config: Env.TileServerConfig, cache: HandlerCache?<I>, render: Render<I>)
      returns (outcome: Result<Response<I>>, rendered: bool)
    modifies cache
    ensures var reply := TileReply(event, config, if cache == null then None else Some(old(cache.tiles)), render);
      outcome == reply.outcome && rendered == reply.rendered &&
      (cache != null ==> cache.writes == old(cache.writes) + reply.writes && cache.tiles == Apply(old(cache.tiles), reply.writes))
  {
    var fields := SelectFields(event);
    if fields.Err? {
      return Err(fields.error), false;
    }
    var q := fields.value;
    if !Complete(q) {
      return Ok(BadRequest()), false;
    }
    var key := TileKey(q.x.value, q.y.value, q.z.value, q.year.value);
    if key.z < config.minZoom || key.z > config.maxZoom {
      return Ok(BadRequest()), false;
    }
    var image: Option<I>;
    rendered := false;
    if cache != null {
      image := cache.GetTile(key);
      if image.None? {
        image := render(key.z, key.y, key.x, key.year);
        rendered := true;
        if image.Some? {
          cache.SaveTile(key, image.value);
          assert Apply(old(cache.tiles), [Saved(key, image.value)]) == old(cache.tiles)[key := image.value];
        } else {
          cache.HandleNullTile(key);
          assert Apply(old(cache.tiles), [NullHandled(key)]) == old(cache.tiles);
        }
      }
    } else {
      image := render(key.z, key.y, key.x, key.year);
      rendered := true;
    }
    if image.None? {
      return Ok(NotFound()), rendered;
    }
    if config.imageFormat.None? {
      return Err(ValueError), rendered;
    }
    var format := config.imageFormat.value;
    return Ok(Found(image.value, format, "image/" + Lower(format))), rendered;
  }

  /** The legacy cache's picture type. */
  type Picture = LegacyTileCache.Picture

  /** What the legacy S3 bucket answers for this invocation: its contents, and a service error if there is one. */
  datatype BucketView = BucketView(bucket: map<string, Picture>, failure: Option<string>)

  /**
   * The deployed stack's handler, given its cache's bucket (`None` when `_get_cache()` gives no
   * cache): validation with no zoom check, then a cache hit or a render that is saved when it
   * finds something.  A service error from the bucket other than NoSuchKey is raised; the
   * picture is always sent as JPEG.
   */
  function LegacyReply(event: map<string, Value>, cached: Option<BucketView>, jpeg: Picture -> Picture,
                       render: Render<Picture>): (r: Reply<Picture>)
    ensures SelectFields(event).Err? ==> r == Reply(Err(SelectFields(event).error), false, [])
    ensures r.outcome == Ok(BadRequest()) <==> SelectFields(event).Ok? && !Complete(SelectFields(event).value)
    ensures r.outcome == Ok(BadRequest()) ==> !r.rendered && r.writes == []
    ensures r.outcome.Ok? ==> r.outcome.value.statusCode in {200, 400, 404}
    ensures forall w :: w in r.writes ==> w.Saved?
  {
    var fields := SelectFields(event);
    if fields.Err? then Reply(Err(fields.error), false, [])
    else
      var q := fields.value;
      if !Complete(q) then Reply(Ok(BadRequest()), false, [])
      else
        var key := TileKey(q.x.value, q.y.value, q.z.value, q.year.value);
        var hit := LegacyLookup(key, cached);
        if hit.Err? then Reply(Err(hit.error), false, [])
        else if hit.value.Some? then Reply(Ok(Found(hit.value.value, "JPEG", "image/jpeg")), false, [])
        else
          var img := render(key.z, key.y, key.x, key.year);
          if img.None? then Reply(Ok(NotFound()), true, [])
          else Reply(Ok(Found(img.value, "JPEG", "image/jpeg")), true, if cached.Some? then [Saved(key, img.value)] else [])
  }

  /** `cache.get_tile(x, y, z, year)`, or `None` with no cache. */
  function LegacyLookup(key: TileKey, cached: Option<BucketView>): (r: Result<Option<Picture>>)
    ensures cached.None? ==> r == Ok(None)
    ensures cached.Some? && cached.value.failure.Some? ==>
      r == if cached.value.failure.value == LegacyTileCache.NoSuchKey then Ok(None) else Err(cached.value.failure.value)
    ensures cached.Some? && cached.value.failure.None? ==>
      var k := LegacyTileCache.LegacyKey(key.x, key.y, key.z, key.year);
      r == if k in cached.value.bucket then Ok(Some(cached.value.bucket[k])) else Ok(None)
  {
    match cached
    case None => Ok(None)
    case Some(view) =>
      var k := LegacyTileCache.LegacyKey(key.x, key.y, key.z, key.year);
      if view.failure.Some? then
        if view.failure.value == LegacyTileCache.NoSuchKey then Ok(None) else Err(view.failure.value)
      else if k in view.bucket then Ok(Some(view.bucket[k]))
      else Ok(None)
  }

  /**
   * The deployed stack's handler on a valid request: any non-zero zoom level goes on to the
   * cache; a service error other than NoSuchKey is raised, with nothing rendered or written;
   * a cached tile is served without rendering; a missing tile is rendered and saved when
   * found, and answered 404 with nothing saved when not.
   */
  lemma LegacyReplyCases(event: map<string, Value>, cached: Option<BucketView>, jpeg: Picture -> Picture,
                         render: Render<Picture>, key: TileKey)
    requires SelectFields(event) == Ok(TileRequest(Some(key.year), Some(key.x), Some(key.y), Some(key.z)))
    requires key.x != 0 && key.y != 0 && key.z != 0 && key.year != 0
    ensures var r := LegacyReply(event, cached, jpeg, render);
      var img := render(key.z, key.y, key.x, key.year);
      var k := LegacyTileCache.LegacyKey(key.x, key.y, key.z, key.year);
      && r.outcome != Ok(BadRequest())
      && (LegacyLookup(key, cached).Err? ==> r == Reply(Err(LegacyLookup(key, cached).error), false, []))
      && (cached.Some? && cached.value.failure.None? && k in cached.value.bucket ==>
            r == Reply(Ok(Found(cached.value.bucket[k], "JPEG", "image/jpeg")), false, []))
      && (LegacyLookup(key, cached) == Ok(None) && img.Some? ==>
            r.outcome == Ok(Found(img.value, "JPEG", "image/jpeg")) && r.rendered &&
            r.writes == (if cached.Some? then [Saved(key, img.value)] else []))
      && (LegacyLookup(key, cached) == Ok(None) && img.None? ==> r == Reply(Ok(NotFound()), true, []))
  {
  }

  /** The deployed stack's `handler`, over the cache `_get_cache()` gives (`null` when it is `None`). */
  method LegacyHandle(event: map<string, Value>, cache: LegacyTileCache.S3TileCache?, failure: Option<string>,
                      render: Render<Picture>) returns (outcome: Result<Response<Picture>>, rendered: bool)
    modifies cache
    ensures var reply := LegacyReply(event, if cache == null then None else Some(BucketView(old(cache.bucket), failure)),
                                     if cache == null then (p: Picture) => p else cache.jpeg, render);
      outcome == reply.outcome && rendered == reply.rendered &&
      (cache != null ==> cache.bucket == LegacyApply(old(cache.bucket), cache.jpeg, reply.writes))
  {
    var fields := SelectFields(event);
    if fields.Err? {
      return Err(fields.error), false;
    }
    var q := fields.value;
    if !Complete(q) {
      return Ok(BadRequest()), false;
    }
    var key := TileKey(q.x.value, q.y.value, q.z.value, q.year.value);
    var image: Option<Picture> := None;
    rendered := false;
    if cache != null {
      var got := cache.GetTile(key.x, key.y, key.z, key.year, failure);
      if got.Err? {
        return Err(got.error), false;
      }
      image := got.value;
    }
    if image.None? {
      image := render(key.z, key.y, key.x, key.year);
      rendered := true;
      if image.Some? && cache != null {
        cache.SaveTile(key.x, key.y, key.z, key.year, image.value);
      }
    }
    if image.None? {
      return Ok(NotFound()), rendered;
    }
    return Ok(Found(image.value, "JPEG", "image/jpeg")), rendered;
  }

  /** The legacy bucket after `writes`: each saved picture is stored as its JPEG round trip under its key. */
  function LegacyApply(bucket: map<string, Picture>, jpeg: Picture -> Picture, writes: seq<Write<Picture>>): (r: map<string, Picture>)
    ensures writes == [] ==> r == bucket
  {
    if writes == [] then bucket
    else
      var last := writes[|writes| - 1];
      var before := LegacyApply(bucket, jpeg, writes[..|writes| - 1]);
      if last.Saved? then before[LegacyTileCache.LegacyKey(last.key.x, last.key.y, last.key.z, last.key.year) := jpeg(last.image)]
      else before
  }
}
