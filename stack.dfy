/**
 * The command-line tool's stack commands: `deploy`, which turns the
 * project's `.env` file into the `--parameter-overrides` argument of
 * `sam deploy`, and `status`, which shows a fixed few properties of the
 * stack's description.  The `sam` calls are represented by the arguments
 * they are given; the description is a parameter.
 */
module Stack {
  import opened Wrappers
  import opened Text
  import Env

  /** A `.env` line that does not unpack into one name and one value. */
  const ValueError := "ValueError"

  predicate IsLetter(c: char) {
    'a' <= c <= 'z' || 'A' <= c <= 'Z'
  }

  /** `word.title()` on ASCII: a letter is upper-cased after a non-letter (or at the start), lower-cased otherwise. */
  function Title(w: string): (r: string)
    ensures |r| == |w|
    ensures forall k :: 0 <= k < |w| ==>
      r[k] == if IsLetter(w[k]) && (k == 0 || !IsLetter(w[k - 1])) then UpperChar(w[k]) else LowerChar(w[k])
  {
    seq(|w|, k requires 0 <= k < |w| =>
      if IsLetter(w[k]) && (k == 0 || !IsLetter(w[k - 1])) then UpperChar(w[k]) else LowerChar(w[k]))
  }

  /** `word.title()` for each word. */
  function Titles(words: seq<string>): (r: seq<string>)
    ensures |r| == |words| && forall k :: 0 <= k < |words| ==> r[k] == Title(words[k])
  {
    seq(|words|, k requires 0 <= k < |words| => Title(words[k]))
  }

  /** `"".join(word.title() for word in name.lower().split("_"))`. */
  function CamelCase(name: string): string {
    Concat(Titles(Split(Lower(name), '_')))
  }

  /** Title-casing leaves underscores where they are and makes none. */
  lemma TitleKeepsUnderscores(w: string)
    ensures forall k :: 0 <= k < |w| ==> (Title(w)[k] == '_' <==> w[k] == '_')
  {
  }

  /** Lower-casing distributes over the parts of a name. */
  lemma LowerConcat(a: string, b: string)
    ensures Lower(a + "_" + b) == Lower(a) + "_" + Lower(b)
    ensures '_' !in a ==> '_' !in Lower(a)
  {
    assert forall k :: 0 <= k < |a| ==> Lower(a)[k] == LowerChar(a[k]);
  }

  /** A name's first word is title-cased on its own, and the rest of the name after it. */
  lemma CamelCaseSegments(a: string, b: string)
    requires '_' !in a
    ensures CamelCase(a + "_" + b) == Title(Lower(a)) + CamelCase(b)
  {
    LowerConcat(a, b);
    SplitConcat(Lower(a), Lower(b), '_');
    var words := Split(Lower(a + "_" + b), '_');
    assert words == [Lower(a)] + Split(Lower(b), '_');
    assert Titles(words) == [Title(Lower(a))] + Titles(Split(Lower(b), '_'));
  }

  /** A name of one word is that word title-cased. */
  lemma CamelCaseWord(w: string)
    requires '_' !in w
    ensures CamelCase(w) == Title(Lower(w))
  {
    assert '_' !in Lower(w) by {
      LowerConcat(w, "");
    }
    SplitNoSeparator(Lower(w), '_');
    assert Titles([Lower(w)]) == [Title(Lower(w))];
    assert Concat([Title(Lower(w))]) == Title(Lower(w)) + Concat([]);
  }

  /** An empty segment, as in a doubled or leading underscore, adds nothing. */
  lemma EmptySegmentAddsNothing(b: string)
    ensures CamelCase("_" + b) == CamelCase(b)
  {
    CamelCaseSegments("", b);
    assert "" + "_" + b == "_" + b;
  }

  /** The converted name holds no underscore. */
  lemma {:induction false} CamelCaseHasNoUnderscore(name: string)
    ensures '_' !in CamelCase(name)
  {
    var words := Split(Lower(name), '_');
    forall k | 0 <= k < |words|
      ensures '_' !in Title(words[k])
    {
      TitleKeepsUnderscores(words[k]);
    }
    ConcatAvoids(Titles(words), '_');
  }

  /** A concatenation of strings none of which holds `c` does not hold `c`. */
  lemma {:induction false} ConcatAvoids(parts: seq<string>, c: char)
    requires forall k :: 0 <= k < |parts| ==> c !in parts[k]
    ensures c !in Concat(parts)
  {
    if parts != [] {
      ConcatAvoids(parts[1..], c);
    }
  }

  /** An all-capitals word title-cases to its first letter and the rest in lower case. */
  lemma TitleOfCapitals(w: string)
    requires w != [] && forall k :: 0 <= k < |w| ==> 'A' <= w[k] <= 'Z'
    ensures Title(Lower(w)) == [w[0]] + Lower(w[1..])
  {
    var t := Title(Lower(w));
    forall k | 0 <= k < |w|
      ensures t[k] == ([w[0]] + Lower(w[1..]))[k]
    {
      if k > 0 {
        assert Lower(w[1..])[k - 1] == LowerChar(w[k]);
      }
    }
  }

  /**
   * One line of `deploy`'s loop: the stripped line must split at '=' into exactly a name and
   * a value, and becomes `CamelName=value`.
   */
  function Override(line: string): (r: Result<string>)
    ensures r.Ok? <==> |Split(Strip(line), '=')| == 2
    ensures r.Err? ==> r.error == ValueError
  {
    var parts := Split(Strip(line), '=');
    if |parts| != 2 then Err(ValueError) else Ok(CamelCase(parts[0]) + "=" + parts[1])
  }

  /** The overrides of the lines read so far, in file order, or the error of the first bad line. */
  function Overrides(lines: seq<string>): (r: Result<seq<string>>)
    ensures r.Ok? ==> |r.value| == |lines|
    ensures r.Err? ==> r.error == ValueError
  {
    if lines == [] then Ok([])
    else
      var init :- Overrides(lines[..|lines| - 1]);
      var last :- Override(lines[|lines| - 1]);
      Ok(init + [last])
  }

  /** Once a line is refused, so is every file that goes on after it. */
  lemma {:induction false} OverridesErrPrefix(lines: seq<string>, n: nat)
    requires n <= |lines| && Overrides(lines[..n]).Err?
    ensures Overrides(lines).Err?
    decreases |lines|
  {
    if n < |lines| {
      var init := lines[..|lines| - 1];
      assert init[..n] == lines[..n];
      OverridesErrPrefix(init, n);
    } else {
      assert lines[..n] == lines;
    }
  }

  /**
   * The arguments `deploy` hands to `sam` after `sam build`, given the `.env` file's text
   * (`None` when there is no file): the overrides are passed, joined by spaces, exactly when
   * there is at least one.
   */
  function DeployArgs(envFile: Option<string>): (r: Result<seq<string>>)
    ensures envFile.None? ==> r == Ok(["deploy", "--no-confirm-changeset"])
    ensures envFile.Some? ==> (r.Ok? <==> Overrides(ReadLines(envFile.value)).Ok?)
    ensures r.Ok? ==>
      var overrides := if envFile.Some? then Overrides(ReadLines(envFile.value)).value else [];
      (overrides != [] ==> r.value == ["deploy", "--parameter-overrides", Join(overrides, " "), "--no-confirm-changeset"]) &&
      (overrides == [] ==> r.value == ["deploy", "--no-confirm-changeset"])
  {
    var overrides :- if envFile.Some? then Overrides(ReadLines(envFile.value)) else Ok([]);
    if overrides != [] then Ok(["deploy", "--parameter-overrides", Join(overrides, " "), "--no-confirm-changeset"])
    else Ok(["deploy", "--no-confirm-changeset"])
  }

  /** `deploy`'s loop over the lines of `.env`: one override per line, in file order. */
  method ReadOverrides(lines: seq<string>) returns (r: Result<seq<string>>)
    ensures r == Overrides(lines)
  {
    var overrides: seq<string> := [];
    for n := 0 to |lines|
      invariant Overrides(lines[..n]) == Ok(overrides)
    {
      assert lines[..n + 1][..n] == lines[..n];
      var parts := Split(Strip(lines[n]), '=');
      if |parts| != 2 {
        OverridesErrPrefix(lines, n + 1);
        return Err(ValueError);
      }
      overrides := overrides + [CamelCase(parts[0]) + "=" + parts[1]];
    }
    assert lines[..|lines|] == lines;
    return Ok(overrides);
  }

  /** `deploy`: the `sam deploy` arguments, or the exception raised reading the file. */
  method Deploy(envFile: Option<string>) returns (r: Result<seq<string>>)
    ensures r == DeployArgs(envFile)
  {
    var overrides: seq<string> := [];
    if envFile.Some? {
      var read := ReadOverrides(ReadLines(envFile.value));
      if read.Err? {
        return Err(read.error);
      }
      overrides := read.value;
    }
    if overrides != [] {
      return Ok(["deploy", "--parameter-overrides", Join(overrides, " "), "--no-confirm-changeset"]);
    }
    return Ok(["deploy", "--no-confirm-changeset"]);
  }

  /** The `.env` line for one setting. */
  function EnvLine(name: string, value: string): string {
    name + "=" + value + "\n"
  }

  /**
   * A `.env` line for a setting becomes the override of the stack parameter of the converted
   * name, with the value unchanged.
   */
  lemma OverrideOfLine(name: string, value: string)
    requires name != [] && !IsSpace(name[0]) && '=' !in name && '\n' !in name
    requires '=' !in value && '\n' !in value && (value == [] || !IsSpace(value[|value| - 1]))
    ensures Override(EnvLine(name, value)) == Ok(CamelCase(name) + "=" + value)
  {
    AssignmentLineParses(name, value);
  }

  /**
   * The settings the command-line configuration reads, written to `.env`, override the
   * parameters the deployed Lambda layer reads: each converted name is the layer's name.
   */
  lemma SourceNamesBecomeLayerNames()
    ensures CamelCase(Env.SourceNames.imageFormat) == Env.LayerNames.imageFormat
    ensures CamelCase(Env.SourceNames.maxZoom) == Env.LayerNames.maxZoom
    ensures CamelCase(Env.SourceNames.minZoom) == Env.LayerNames.minZoom
    ensures CamelCase(Env.SourceNames.downscaleMaxZoom) == Env.LayerNames.downscaleMaxZoom
    ensures CamelCase(Env.SourceNames.upscaleMinZoom) == Env.LayerNames.upscaleMinZoom
    ensures CamelCase(Env.SourceNames.rescalingEnabled) == Env.LayerNames.rescalingEnabled
    ensures CamelCase(Env.SourceNames.tileCacheBucket) == Env.LayerNames.tileCacheBucket
  {
    ImageFormatName();
    MaxZoomName();
    MinZoomName();
    DownscaleMaxZoomName();
    UpscaleMinZoomName();
    RescalingEnabledName();
    TileCacheBucketName();
  }

  lemma ImageFormatName()
    ensures CamelCase(Env.SourceNames.imageFormat) == Env.LayerNames.imageFormat
  {
    assert Env.SourceNames.imageFormat == "IMAGE" + "_" + "FORMAT";
    assert Env.LayerNames.imageFormat == "Image" + "Format";
    WordImage();
    WordFormat();
    TwoWords("IMAGE", "FORMAT", "Image", "Format");
  }

  lemma MaxZoomName()
    ensures CamelCase(Env.SourceNames.maxZoom) == Env.LayerNames.maxZoom
  {
    assert Env.SourceNames.maxZoom == "MAX" + "_" + "ZOOM";
    assert Env.LayerNames.maxZoom == "Max" + "Zoom";
    WordMax();
    WordZoom();
    TwoWords("MAX", "ZOOM", "Max", "Zoom");
  }

  lemma MinZoomName()
    ensures CamelCase(Env.SourceNames.minZoom) == Env.LayerNames.minZoom
  {
    assert Env.SourceNames.minZoom == "MIN" + "_" + "ZOOM";
    assert Env.LayerNames.minZoom == "Min" + "Zoom";
    WordMin();
    WordZoom();
    TwoWords("MIN", "ZOOM", "Min", "Zoom");
  }

  lemma DownscaleMaxZoomName()
    ensures CamelCase(Env.SourceNames.downscaleMaxZoom) == Env.LayerNames.downscaleMaxZoom
  {
    assert Env.SourceNames.downscaleMaxZoom == "DOWNSCALE" + "_" + "MAX" + "_" + "ZOOM";
    assert Env.LayerNames.downscaleMaxZoom == "Downscale" + "Max" + "Zoom";
    WordDownscale();
    WordMax();
    WordZoom();
    ThreeWords("DOWNSCALE", "MAX", "ZOOM", "Downscale", "Max", "Zoom");
  }

  lemma UpscaleMinZoomName()
    ensures CamelCase(Env.SourceNames.upscaleMinZoom) == Env.LayerNames.upscaleMinZoom
  {
    assert Env.SourceNames.upscaleMinZoom == "UPSCALE" + "_" + "MIN" + "_" + "ZOOM";
    assert Env.LayerNames.upscaleMinZoom == "Upscale" + "Min" + "Zoom";
    WordUpscale();
    WordMin();
    WordZoom();
    ThreeWords("UPSCALE", "MIN", "ZOOM", "Upscale", "Min", "Zoom");
  }

  lemma RescalingEnabledName()
    ensures CamelCase(Env.SourceNames.rescalingEnabled) == Env.LayerNames.rescalingEnabled
  {
    assert Env.SourceNames.rescalingEnabled == "RESCALING" + "_" + "ENABLED";
    assert Env.LayerNames.rescalingEnabled == "Rescaling" + "Enabled";
    WordRescaling();
    WordEnabled();
    TwoWords("RESCALING", "ENABLED", "Rescaling", "Enabled");
  }

  lemma TileCacheBucketName()
    ensures CamelCase(Env.SourceNames.tileCacheBucket) == Env.LayerNames.tileCacheBucket
  {
    assert Env.SourceNames.tileCacheBucket == "TILE" + "_" + "CACHE" + "_" + "BUCKET";
    assert Env.LayerNames.tileCacheBucket == "Tile" + "Cache" + "Bucket";
    WordTile();
    WordCache();
    WordBucket();
    ThreeWords("TILE", "CACHE", "BUCKET", "Tile", "Cache", "Bucket");
  }

  /** An all-capitals word whose title-cased form is `titled`. */
  predicate TitlesTo(w: string, titled: string) {
    w != [] && (forall k :: 0 <= k < |w| ==> 'A' <= w[k] <= 'Z') && titled == [w[0]] + Lower(w[1..])
  }

  // The words of the settings' names, title-cased.

  lemma WordImage()
    ensures TitlesTo("IMAGE", "Image")
  {
  }

  lemma WordFormat()
    ensures TitlesTo("FORMAT", "Format")
  {
  }

  lemma WordMax()
    ensures TitlesTo("MAX", "Max")
  {
  }

  lemma WordMin()
    ensures TitlesTo("MIN", "Min")
  {
  }

  lemma WordZoom()
    ensures TitlesTo("ZOOM", "Zoom")
  {
  }

  lemma WordDownscale()
    ensures TitlesTo("DOWNSCALE", "Downscale")
  {
  }

  lemma WordUpscale()
    ensures TitlesTo("UPSCALE", "Upscale")
  {
  }

  lemma WordRescaling()
    ensures TitlesTo("RESCALING", "Rescaling")
  {
  }

  lemma WordEnabled()
    ensures TitlesTo("ENABLED", "Enabled")
  {
  }

  lemma WordTile()
    ensures TitlesTo("TILE", "Tile")
  {
  }

  lemma WordCache()
    ensures TitlesTo("CACHE", "Cache")
  {
  }

  lemma WordBucket()
    ensures TitlesTo("BUCKET", "Bucket")
  {
  }

  lemma TwoWords(a: string, b: string, ta: string, tb: string)
    requires TitlesTo(a, ta) && TitlesTo(b, tb)
    ensures CamelCase(a + "_" + b) == ta + tb
  {
    CamelCaseSegments(a, b);
    CamelCaseWord(b);
    TitleOfCapitals(a);
    TitleOfCapitals(b);
  }

  lemma ThreeWords(a: string, b: string, c: string, ta: string, tb: string, tc: string)
    requires TitlesTo(a, ta) && TitlesTo(b, tb) && TitlesTo(c, tc)
    ensures CamelCase(a + "_" + b + "_" + c) == ta + tb + tc
  {
    assert a + "_" + b + "_" + c == a + "_" + (b + "_" + c);
    CamelCaseSegments(a, b + "_" + c);
    TitleOfCapitals(a);
    TwoWords(b, c, tb, tc);
  }

  /** The properties of the stack description `status` shows. */
  const StatusKeys: set<string> := {"StackId", "StackName", "CreationTime", "LastUpdatedTime", "Outputs"}

  /**
   * `status` on a deployed stack: every property outside the list is popped from the
   * description; the listed ones that are present are kept with their values.
   */
  method Status<V>(description: map<string, V>) returns (shown: map<string, V>)
    ensures shown.Keys == description.Keys * StatusKeys
    ensures forall k :: k in shown ==> shown[k] == description[k]
  {
    shown := description;
    var props := description.Keys;
    while props != {}
      invariant props <= description.Keys
      invariant shown.Keys == (description.Keys - props) * StatusKeys + props
      invariant forall k :: k in shown ==> shown[k] == description[k]
      decreases props
    {
      var prop :| prop in props;
      if prop !in StatusKeys {
        shown := shown - {prop};
      }
      props := props - {prop};
    }
  }
}
