/**
 * The older `cache seed` command.  It validates its options as the newer one
 * does, then works year by year: for a year with imagery it plans one
 * tileset per zoom level from `to_zoom` down to `from_zoom` (every tile the
 * coverage keeps; there is no cache to consult), logs that year's summary
 * and, unless it is a dry run, requests every tile of each tileset, all at
 * once and with no batching.  A request that fails stops the whole command,
 * after the other requests of its tileset were issued.
 *
 * The catalog query of this version is a parameter (`query`), and so are WKT
 * parsing, the tile enumeration, tile bounds and each request's outcome.
 */
module LegacySeeding {
  import opened Wrappers
  import opened Tiles
  import opened Sequences
  import opened NaipIndex
  import opened Naip
  import opened Seeding

  /** Whether some request for the tileset's tiles does not complete. */
  predicate Failing(ts: Tileset, outcome: Request -> RequestOutcome) {
    exists i :: 0 <= i < |ts.tiles| && outcome(Request(ts.year, ts.tiles[i])) != Completed
  }

  /**
   * `_seed_tiles_runner`: one request per tile, in order, all gathered at once; the gather
   * succeeds exactly when every request completes.
   */
  method Runner(tiles: seq<Tile>, year: int, outcome: Request -> RequestOutcome) returns (requests: seq<Request>, ok: bool)
    ensures requests == RequestsOf(year, tiles)
    ensures ok <==> !Failing(Tileset(year, 0, |tiles|, tiles), outcome)
  {
    requests := [];
    for k := 0 to |tiles|
      invariant requests == RequestsOf(year, tiles[..k])
    {
      requests := requests + [Request(year, tiles[k])];
    }
    assert tiles[..|tiles|] == tiles;
    ok := true;
    for k := 0 to |requests|
      invariant ok <==> forall i :: 0 <= i < k ==> outcome(requests[i]) == Completed
    {
      if outcome(requests[k]) != Completed {
        ok := false;
      }
    }
  }

  /**
   * One year's tilesets: none when the query finds no imagery, otherwise one per zoom level
   * in descending order, each holding every tile the coverage keeps.
   */
  function YearTilesets(query: (Option<Geometry>, int) -> seq<Geotiff>, coverage: Option<Geometry>, year: int, fromZoom: int, toZoom: int,
                        tilesIn: (Bounds, int) -> seq<Tile>, tileBounds: Tile -> Bounds): (r: seq<Tileset>)
  {
    var found := query(coverage, year);
    if found == [] then []
    else ZoomTilesets(year, DescendingZooms(fromZoom, toZoom), UnionBounds(found), coverage, tilesIn, tileBounds, None)
  }

  /**
   * A year without imagery yields no tileset; one with imagery yields `to_zoom - from_zoom + 1`
   * of them, at the zooms in descending order, each with exactly the enumerated tiles the
   * coverage keeps, all of them to be requested.
   */
  lemma YearTilesetsShape(query: (Option<Geometry>, int) -> seq<Geotiff>, coverage: Option<Geometry>, year: int, fromZoom: int, toZoom: int,
                          tilesIn: (Bounds, int) -> seq<Tile>, tileBounds: Tile -> Bounds)
    requires fromZoom <= toZoom
    ensures var r := YearTilesets(query, coverage, year, fromZoom, toZoom, tilesIn, tileBounds);
      && (r == [] <==> query(coverage, year) == [])
      && (r != [] ==> |r| == toZoom - fromZoom + 1 && forall k :: 0 <= k < |r| ==>
            && r[k].year == year && r[k].zoom == toZoom - k && r[k].total == |r[k].tiles|
            && forall t :: t in r[k].tiles <==>
                 t in tilesIn(UnionBounds(query(coverage, year)), toZoom - k) && KeepTile(t, coverage, tileBounds))
  {
    var found := query(coverage, year);
    if found != [] {
      var zooms := DescendingZooms(fromZoom, toZoom);
      var r := ZoomTilesets(year, zooms, UnionBounds(found), coverage, tilesIn, tileBounds, None);
      forall k | 0 <= k < |r|
        ensures r[k].total == |r[k].tiles|
        ensures forall t :: t in r[k].tiles <==> t in tilesIn(UnionBounds(found), toZoom - k) && KeepTile(t, coverage, tileBounds)
      {
        assert r[k] == TilesetAt(year, zooms[k], UnionBounds(found), coverage, tilesIn, tileBounds, None);
      }
    }
  }

  /** The year-to-tilesets map of one run of the command. */
  function TilesetsByYear(query: (Option<Geometry>, int) -> seq<Geotiff>, coverage: Option<Geometry>, fromZoom: int, toZoom: int,
                          tilesIn: (Bounds, int) -> seq<Tile>, tileBounds: Tile -> Bounds): (f: int -> seq<Tileset>)
    ensures forall year :: f(year) == YearTilesets(query, coverage, year, fromZoom, toZoom, tilesIn, tileBounds)
  {
    year => YearTilesets(query, coverage, year, fromZoom, toZoom, tilesIn, tileBounds)
  }

  /** The tilesets planned and summarised for the years, in order; years without tilesets are skipped. */
  function Plan(tilesetsOf: int -> seq<Tileset>, years: seq<int>): (r: seq<seq<Tileset>>)
  {
    if years == [] then []
    else
      var last := tilesetsOf(years[|years| - 1]);
      Plan(tilesetsOf, years[..|years| - 1]) + (if last == [] then [] else [last])
  }

  /** Every year contributes a summary exactly when it has tilesets, so none is empty and there are at most as many as years. */
  lemma {:induction false} PlanSkipsEmptyYears(tilesetsOf: int -> seq<Tileset>, years: seq<int>)
    ensures var r := Plan(tilesetsOf, years);
      |r| <= |years| && forall n :: 0 <= n < |r| ==> r[n] != []
  {
    if years != [] {
      PlanSkipsEmptyYears(tilesetsOf, years[..|years| - 1]);
    }
  }

  /** Whether no tileset of `tilesets` has a failing request. */
  predicate NoneFailing(tilesets: seq<Tileset>, outcome: Request -> RequestOutcome) {
    forall m :: 0 <= m < |tilesets| ==> !Failing(tilesets[m], outcome)
  }

  /** The first tileset with a failing request, or `None`: where a run over `tilesets` stops. */
  function FirstFailing(tilesets: seq<Tileset>, outcome: Request -> RequestOutcome): (r: Option<nat>)
    ensures r.Some? ==> r.value < |tilesets|
  {
    if tilesets == [] then None
    else if Failing(tilesets[0], outcome) then Some(0)
    else
      var rest := FirstFailing(tilesets[1..], outcome);
      if rest.None? then None else Some(rest.value + 1)
  }

  /** `FirstFailing` finds nothing exactly when no tileset fails, and otherwise a failing tileset after none that fail. */
  lemma {:induction false} FirstFailingSpec(tilesets: seq<Tileset>, outcome: Request -> RequestOutcome)
    ensures var r := FirstFailing(tilesets, outcome);
      && (r.None? <==> NoneFailing(tilesets, outcome))
      && (r.Some? ==> Failing(tilesets[r.value], outcome) && NoneFailing(tilesets[..r.value], outcome))
  {
    if tilesets != [] && !Failing(tilesets[0], outcome) {
      FirstFailingSpec(tilesets[1..], outcome);
      assert forall m :: 0 < m < |tilesets| ==> tilesets[m] == tilesets[1..][m - 1];
    }
  }

  /** How a run of the older `seed` ends. */
  datatype End = Rejected(failure: Failure) | RequestFailed | Done

  /** The summaries the run logged (one per year with imagery), the requests it issued, and how it ended. */
  datatype Run = Run(summaries: seq<seq<Tileset>>, requests: seq<Request>, end: End)

  /**
   * The loop of `seed` over one year's tilesets: the runner on each in turn, until one fails.
   */
  method SeedYear(tilesets: seq<Tileset>, outcome: Request -> RequestOutcome) returns (requests: seq<Request>, ok: bool)
    ensures ok <==> FirstFailing(tilesets, outcome).None?
    ensures ok <==> NoneFailing(tilesets, outcome)
    ensures requests == Requests(if ok then tilesets else tilesets[..FirstFailing(tilesets, outcome).value + 1])
  {
    requests := [];
    for n := 0 to |tilesets|
      invariant requests == Requests(tilesets[..n])
      invariant NoneFailing(tilesets[..n], outcome)
    {
      var made, completed := Runner(tilesets[n].tiles, tilesets[n].year, outcome);
      assert tilesets[..n + 1][..n] == tilesets[..n];
      requests := requests + made;
      if !completed {
        assert Failing(tilesets[n], outcome);
        FirstFailingAt(tilesets, outcome, n);
        return requests, false;
      }
      assert forall m :: 0 <= m < n + 1 ==> tilesets[..n + 1][m] == tilesets[m];
    }
    assert tilesets[..|tilesets|] == tilesets;
    FirstFailingSpec(tilesets, outcome);
    ok := true;
  }

  /** A failing tileset after none that fail is the first one. */
  lemma FirstFailingAt(tilesets: seq<Tileset>, outcome: Request -> RequestOutcome, n: nat)
    requires n < |tilesets| && Failing(tilesets[n], outcome) && NoneFailing(tilesets[..n], outcome)
    ensures FirstFailing(tilesets, outcome) == Some(n)
  {
    FirstFailingSpec(tilesets, outcome);
  }

  /** The plan for two lists of years, one after the other, is the one plan followed by the other. */
  lemma {:induction false} PlanConcat(tilesetsOf: int -> seq<Tileset>, first: seq<int>, second: seq<int>)
    ensures Plan(tilesetsOf, first + second) == Plan(tilesetsOf, first) + Plan(tilesetsOf, second)
    decreases |second|
  {
    if second == [] {
      assert first + second == first;
    } else {
      var both := first + second;
      var init := second[..|second| - 1];
      assert both[..|both| - 1] == first + init && both[|both| - 1] == second[|second| - 1];
      PlanConcat(tilesetsOf, first, init);
    }
  }

  /** The first failing tileset of `all == a + b + c`, when `a` has none and `b` has one, is that of `b`. */
  lemma FirstFailingInMiddle(all: seq<Tileset>, a: seq<Tileset>, b: seq<Tileset>, c: seq<Tileset>, outcome: Request -> RequestOutcome, at: nat)
    requires all == a + b + c
    requires NoneFailing(a, outcome) && FirstFailing(b, outcome) == Some(at)
    ensures FirstFailing(all, outcome) == Some(|a| + at)
    ensures all[..|a| + at + 1] == a + b[..at + 1]
  {
    FirstFailingSpec(b, outcome);
    var k := |a| + at;
    assert all[k] == b[at];
    assert all[..k] == a + b[..at];
    forall m | 0 <= m < k
      ensures !Failing(all[..k][m], outcome)
    {
      if m >= |a| {
        assert all[..k][m] == b[..at][m - |a|];
      }
    }
    FirstFailingAt(all, outcome, k);
    assert all[..k + 1] == a + b[..at + 1];
  }

  /** The tilesets of the plan `done + [tilesets] + later`, flattened. */
  lemma FlattenAround(done: seq<seq<Tileset>>, tilesets: seq<Tileset>, later: seq<seq<Tileset>>)
    ensures Flatten(done + [tilesets] + later) == Flatten(done) + tilesets + Flatten(later)
    ensures Flatten(done + [tilesets]) == Flatten(done) + tilesets
  {
    FlattenConcat(done + [tilesets], later);
    FlattenAppend(done, tilesets);
  }

  /**
   * When the run stops at the first failing tileset of the year after `done`, that tileset is
   * the first failing one of the whole plan, the requests issued are those of the plan up to
   * and including it, and the summaries logged are those of the years up to its year.
   */
  lemma FailureInYear(plan: seq<seq<Tileset>>, done: seq<seq<Tileset>>, tilesets: seq<Tileset>, later: seq<seq<Tileset>>,
                      outcome: Request -> RequestOutcome, at: nat)
    requires plan == done + [tilesets] + later
    requires NoneFailing(Flatten(done), outcome) && FirstFailing(tilesets, outcome) == Some(at)
    ensures Seeds(Run(done + [tilesets], Requests(Flatten(done)) + Requests(tilesets[..at + 1]), RequestFailed), plan, false, outcome)
  {
    var flatDone := Flatten(done);
    FlattenAround(done, tilesets, later);
    var flat := Flatten(plan);
    FirstFailingInMiddle(flat, flatDone, tilesets, Flatten(later), outcome, at);
    var k := |flatDone| + at;
    var issued := Requests(flatDone) + Requests(tilesets[..at + 1]);
    assert issued == Requests(flat[..k + 1]) by {
      RequestsAppend(flatDone, tilesets[..at + 1]);
    }
    var summaries := done + [tilesets];
    assert summaries[..|summaries| - 1] == done;
    StoppedRun(Run(summaries, issued, RequestFailed), plan, outcome, k);
  }

  /** The clause of `Seeds` for a run that stopped at the plan's first failing tileset, `first`. */
  lemma StoppedRun(r: Run, plan: seq<seq<Tileset>>, outcome: Request -> RequestOutcome, first: nat)
    requires FirstFailing(Flatten(plan), outcome) == Some(first) && first < |Flatten(plan)|
    requires r.end == RequestFailed && r.requests == Requests(Flatten(plan)[..first + 1])
    requires 0 < |r.summaries| <= |plan| && r.summaries == plan[..|r.summaries|]
    requires |Flatten(r.summaries[..|r.summaries| - 1])| <= first < |Flatten(r.summaries)|
    ensures Seeds(r, plan, false, outcome)
  {
  }

  /** One more year of the plan: its tilesets, unless it has none. */
  lemma PlanStep(tilesetsOf: int -> seq<Tileset>, years: seq<int>, n: nat)
    requires n < |years|
    ensures Plan(tilesetsOf, years[..n + 1]) ==
      Plan(tilesetsOf, years[..n]) + (if tilesetsOf(years[n]) == [] then [] else [tilesetsOf(years[n])])
  {
    assert years[..n + 1][..n] == years[..n] && years[..n + 1][n] == years[n];
  }

  /** A year with tilesets splits the plan into the years before it, its tilesets, and the years after it. */
  lemma PlanAroundYear(tilesetsOf: int -> seq<Tileset>, years: seq<int>, n: nat)
    requires n < |years| && tilesetsOf(years[n]) != []
    ensures Plan(tilesetsOf, years) == Plan(tilesetsOf, years[..n]) + [tilesetsOf(years[n])] + Plan(tilesetsOf, years[n + 1..])
  {
    PlanStep(tilesetsOf, years, n);
    assert years == years[..n + 1] + years[n + 1..];
    PlanConcat(tilesetsOf, years[..n + 1], years[n + 1..]);
  }

  /** A run that got through every year ends as `Seeds` says. */
  lemma CompletesPlan(plan: seq<seq<Tileset>>, dryRun: bool, outcome: Request -> RequestOutcome)
    requires !dryRun ==> NoneFailing(Flatten(plan), outcome)
    ensures Seeds(Run(plan, if dryRun then [] else Requests(Flatten(plan)), Done), plan, dryRun, outcome)
  {
    FirstFailingSpec(Flatten(plan), outcome);
  }

  /** Finishing a year whose requests all complete keeps the run free of failures. */
  lemma CompletesYear(done: seq<seq<Tileset>>, tilesets: seq<Tileset>, outcome: Request -> RequestOutcome)
    requires NoneFailing(Flatten(done), outcome) && NoneFailing(tilesets, outcome)
    ensures NoneFailing(Flatten(done + [tilesets]), outcome)
    ensures Requests(Flatten(done + [tilesets])) == Requests(Flatten(done)) + Requests(tilesets)
  {
    FlattenAppend(done, tilesets);
    NoneFailingAppend(Flatten(done), tilesets, outcome);
    RequestsAppend(Flatten(done), tilesets);
  }

  /**
   * `seed`: the coverage option is validated as it is parsed and the preflight checks run;
   * then the years are seeded.
   */
  method Seed(query: (Option<Geometry>, int) -> seq<Geotiff>, fromZoom: int, toZoom: int, years: seq<int>, coverageText: Option<string>,
              dryRun: bool, parseWkt: string -> Option<Geometry>, stackDeployed: bool, cacheEnabled: bool,
              tilesIn: (Bounds, int) -> seq<Tile>, tileBounds: Tile -> Bounds, outcome: Request -> RequestOutcome) returns (r: Run)
    ensures ValidateCoverage(coverageText, parseWkt).Err? ==> r == Run([], [], Rejected(BadParameter(CoverageError)))
    ensures ValidateCoverage(coverageText, parseWkt).Ok? && PreflightCheck(fromZoom, toZoom, dryRun, stackDeployed, cacheEnabled).Some? ==>
      r == Run([], [], Rejected(PreflightCheck(fromZoom, toZoom, dryRun, stackDeployed, cacheEnabled).value))
    ensures ValidateCoverage(coverageText, parseWkt).Ok? && PreflightCheck(fromZoom, toZoom, dryRun, stackDeployed, cacheEnabled).None? ==>
      Seeds(r, Plan(TilesetsByYear(query, ValidateCoverage(coverageText, parseWkt).value, fromZoom, toZoom, tilesIn, tileBounds), years), dryRun, outcome)
  {
    var validated := ValidateCoverage(coverageText, parseWkt);
    if validated.Err? {
      return Run([], [], Rejected(BadParameter(validated.error)));
    }
    var preflight := PreflightCheck(fromZoom, toZoom, dryRun, stackDeployed, cacheEnabled);
    if preflight.Some? {
      return Run([], [], Rejected(preflight.value));
    }
    r := SeedYears(query, validated.value, years, fromZoom, toZoom, dryRun, tilesIn, tileBounds, outcome);
  }

  /**
   * How a run that passed its checks ends, given its plan: a dry run logs every summary and
   * requests nothing; otherwise, when no request fails, every tile of the plan is requested in
   * order, and when one does, the run stops after issuing the requests of the plan up to the
   * first failing tileset, having logged the summaries of the years up to that tileset's.
   */
  ghost predicate Seeds(r: Run, plan: seq<seq<Tileset>>, dryRun: bool, outcome: Request -> RequestOutcome) {
    var first := FirstFailing(Flatten(plan), outcome);
    && (dryRun ==> r == Run(plan, [], Done))
    && (!dryRun && first.None? ==> r == Run(plan, Requests(Flatten(plan)), Done))
    && (!dryRun && first.Some? ==>
          && r.end == RequestFailed && r.requests == Requests(Flatten(plan)[..first.value + 1])
          && 0 < |r.summaries| <= |plan| && r.summaries == plan[..|r.summaries|]
          && |Flatten(r.summaries[..|r.summaries| - 1])| <= first.value < |Flatten(r.summaries)|)
  }

  /**
   * Where the loop over the years stands after `n` of them: the summaries of those years are
   * logged and, unless it is a dry run, all their tiles were requested and none failed.
   */
  ghost predicate Progress(tilesetsOf: int -> seq<Tileset>, years: seq<int>, n: nat, summaries: seq<seq<Tileset>>,
                           requests: seq<Request>, dryRun: bool, outcome: Request -> RequestOutcome) {
    && n <= |years|
    && summaries == Plan(tilesetsOf, years[..n])
    && requests == (if dryRun then [] else Requests(Flatten(summaries)))
    && (!dryRun ==> NoneFailing(Flatten(summaries), outcome))
  }

  /** The loop of `seed` over the years. */
  method SeedYears(query: (Option<Geometry>, int) -> seq<Geotiff>, coverage: Option<Geometry>, years: seq<int>, fromZoom: int, toZoom: int,
                   dryRun: bool, tilesIn: (Bounds, int) -> seq<Tile>, tileBounds: Tile -> Bounds, outcome: Request -> RequestOutcome)
    returns (r: Run)
    ensures Seeds(r, Plan(TilesetsByYear(query, coverage, fromZoom, toZoom, tilesIn, tileBounds), years), dryRun, outcome)
  {
    ghost var tilesetsOf := TilesetsByYear(query, coverage, fromZoom, toZoom, tilesIn, tileBounds);
    var summaries: seq<seq<Tileset>> := [];
    var requests: seq<Request> := [];
    assert years[..0] == [];
    for n := 0 to |years|
      invariant Progress(tilesetsOf, years, n, summaries, requests, dryRun, outcome)
    {
      var found := query(coverage, years[n]);
      var tilesets := [];
      if found != [] {
        tilesets := PlanZooms(years[n], DescendingZooms(fromZoom, toZoom), UnionBounds(found), coverage, tilesIn, tileBounds, null);
      }
      assert tilesets == tilesetsOf(years[n]);
      var stopped;
      summaries, requests, stopped := SeedPlannedYear(tilesetsOf, years, n, tilesets, summaries, requests, dryRun, outcome);
      if stopped.Some? {
        return stopped.value;
      }
    }
    assert years[..|years|] == years;
    CompletesPlan(summaries, dryRun, outcome);
    return Run(summaries, requests, Done);
  }

  /**
   * One pass of that loop, once the year's tilesets are planned: a year with tilesets is
   * summarised and, unless it is a dry run, its tilesets are requested; `stopped` is how the
   * run ends when one of those requests fails.
   */
  method SeedPlannedYear(ghost tilesetsOf: int -> seq<Tileset>, ghost years: seq<int>, ghost n: nat, tilesets: seq<Tileset>,
                         summaries: seq<seq<Tileset>>, requests: seq<Request>, dryRun: bool, outcome: Request -> RequestOutcome)
    returns (summaries': seq<seq<Tileset>>, requests': seq<Request>, stopped: Option<Run>)
    requires n < |years| && tilesets == tilesetsOf(years[n])
    requires Progress(tilesetsOf, years, n, summaries, requests, dryRun, outcome)
    ensures stopped.None? ==> Progress(tilesetsOf, years, n + 1, summaries', requests', dryRun, outcome)
    ensures stopped.Some? ==> Seeds(stopped.value, Plan(tilesetsOf, years), dryRun, outcome)
  {
    PlanStep(tilesetsOf, years, n);
    summaries', requests', stopped := summaries, requests, None;
    if tilesets == [] {
      return;
    }
    summaries' := summaries + [tilesets];
    if dryRun {
      return;
    }
    var made, completed := SeedYear(tilesets, outcome);
    if !completed {
      PlanAroundYear(tilesetsOf, years, n);
      FailureInYear(Plan(tilesetsOf, years), summaries, tilesets, Plan(tilesetsOf, years[n + 1..]), outcome, FirstFailing(tilesets, outcome).value);
      return summaries', requests, Some(Run(summaries', requests + made, RequestFailed));
    }
    CompletesYear(summaries, tilesets, outcome);
    requests' := requests + made;
  }

  /** Two runs of tilesets without a failing request make one. */
  lemma NoneFailingAppend(first: seq<Tileset>, second: seq<Tileset>, outcome: Request -> RequestOutcome)
    requires NoneFailing(first, outcome) && NoneFailing(second, outcome)
    ensures NoneFailing(first + second, outcome)
  {
    assert forall m :: |first| <= m < |first + second| ==> (first + second)[m] == second[m - |first|];
  }
}
