/**
 * The inspector UI's settings file, `inspector-ui/.env`: the dataclass
 * `InspectorUISettings` with its reader `from_env_file` and writer
 * `to_env_file`, and `update_inspector_ui_settings`, which refreshes the
 * three values the deployed stack determines.  Files are their text; the
 * stack's outputs are parameters.
 *
 * The reader does not convert values: a setting read from a file holds the
 * string found there, whatever type the dataclass declares for it.
 */
module InspectorUi {
  import opened Wrappers
  import opened Text
  import Env

  /** A missing, extra or unexpected keyword argument to the dataclass. */
  const TypeError := "TypeError"
  /** A line that does not unpack into one name and one value. */
  const ValueError := "ValueError"

  /** The value a setting holds: an `int`, a `str`, or `None` for a stack output that does not exist. */
  datatype Field = IntField(i: int) | StrField(s: string) | NoneField

  /** `f"{v}"`. */
  function Show(v: Field): string {
    match v
    case IntField(i) => IntToString(i)
    case StrField(s) => s
    case NoneField => "None"
  }

  /** The dataclass's fields, in declaration order. */
  const Names: seq<string> := ["VITE_NAIP_TILE_API", "VITE_MIN_ZOOM", "VITE_MAX_ZOOM",
                               "VITE_INITIAL_VIEW_ZOOM", "VITE_INITIAL_VIEW_CENTER"]

  const DefaultInitialViewZoom := 5
  const DefaultInitialViewCenter := "-95.7129,37.0902"

  /** The line `to_env_file` writes for one field. */
  function EnvLine(name: string, value: Field): string {
    name + "=" + Show(value) + "\n"
  }

  /** The lines for the given fields and values, in order. */
  function EnvLines(names: seq<string>, values: seq<Field>): (lines: seq<string>)
    requires |names| == |values|
    ensures |lines| == |names|
    ensures forall k :: 0 <= k < |names| ==> lines[k] == EnvLine(names[k], values[k])
  {
    seq(|names|, k requires 0 <= k < |names| => EnvLine(names[k], values[k]))
  }

  /** The text of a settings file with these values. */
  function EnvText(values: seq<Field>): string
    requires |values| == |Names|
  {
    Concat(EnvLines(Names, values))
  }

  /**
   * One line of `from_env_file`'s loop: a line starting with '#' is skipped; any other line,
   * stripped, must split at '=' into exactly a name and a value, which is recorded.
   */
  function ParseLine(config: map<string, string>, ln: string): (r: Result<map<string, string>>)
    ensures StartsWith(ln, "#") ==> r == Ok(config)
    ensures !StartsWith(ln, "#") ==> (r.Ok? <==> |Split(Strip(ln), '=')| == 2)
    ensures !StartsWith(ln, "#") && r.Ok? ==>
      var parts := Split(Strip(ln), '='); r.value == config[parts[0] := parts[1]]
    ensures r.Err? ==> r.error == ValueError
  {
    if StartsWith(ln, "#") then Ok(config)
    else
      var parts := Split(Strip(ln), '=');
      if |parts| != 2 then Err(ValueError) else Ok(config[parts[0] := parts[1]])
  }

  /** The `config` dictionary after the loop over `lines`, or the error of the first bad line. */
  function ParseLines(lines: seq<string>): (r: Result<map<string, string>>)
    ensures r.Err? ==> r.error == ValueError
  {
    if lines == [] then Ok(map[])
    else
      var config :- ParseLines(lines[..|lines| - 1]);
      ParseLine(config, lines[|lines| - 1])
  }

  /** Once a line is refused, so is every file that goes on after it. */
  lemma {:induction false} ParseLinesErrPrefix(lines: seq<string>, n: nat)
    requires n <= |lines| && ParseLines(lines[..n]).Err?
    ensures ParseLines(lines).Err?
    decreases |lines|
  {
    if n < |lines| {
      var init := lines[..|lines| - 1];
      assert init[..n] == lines[..n];
      ParseLinesErrPrefix(init, n);
    } else {
      assert lines[..n] == lines;
    }
  }

  /** Every key of `config` is a field of the dataclass. */
  predicate KnownKeys(config: map<string, string>) {
    forall k :: k in config ==> k in Names
  }

  /** `InspectorUISettings(**config)`: each field is the string read for it, or its default. */
  function FromConfig(config: map<string, string>): (r: Result<seq<Field>>)
    ensures r.Ok? <==> KnownKeys(config) && Names[0] in config && Names[1] in config && Names[2] in config
    ensures r.Err? ==> r.error == TypeError
    ensures r.Ok? ==> |r.value| == |Names|
    ensures r.Ok? ==> forall k :: 0 <= k < |Names| && Names[k] in config ==> r.value[k] == StrField(config[Names[k]])
    ensures r.Ok? && Names[3] !in config ==> r.value[3] == IntField(DefaultInitialViewZoom)
    ensures r.Ok? && Names[4] !in config ==> r.value[4] == StrField(DefaultInitialViewCenter)
  {
    if !KnownKeys(config) || Names[0] !in config || Names[1] !in config || Names[2] !in config then Err(TypeError)
    else
      Ok(seq(|Names|, k requires 0 <= k < |Names| =>
        if Names[k] in config then StrField(config[Names[k]])
        else if k == 3 then IntField(DefaultInitialViewZoom)
        else StrField(DefaultInitialViewCenter)))
  }

  /** `from_env_file` on the text of a file: the settings, or the exception it raises. */
  function ParseEnvFile(text: string): (r: Result<seq<Field>>)
    ensures r.Ok? ==> |r.value| == |Names|
  {
    var config :- ParseLines(ReadLines(text));
    FromConfig(config)
  }

  class InspectorUISettings {
    var tileApi: Field
    var minZoom: Field
    var maxZoom: Field
    var initialViewZoom: Field
    var initialViewCenter: Field

    /** `asdict(self).values()`: the fields in declaration order. */
    function Values(): (vs: seq<Field>)
      reads this
      ensures |vs| == |Names|
    {
      [tileApi, minZoom, maxZoom, initialViewZoom, initialViewCenter]
    }

    constructor (values: seq<Field>)
      requires |values| == |Names|
      ensures Values() == values
    {
      tileApi, minZoom, maxZoom := values[0], values[1], values[2];
      initialViewZoom, initialViewCenter := values[3], values[4];
    }

    /** `from_env_file`: the settings the file's lines give, or the exception reading them raises. */
    static method FromEnvFile(text: string) returns (r: Result<InspectorUISettings>)
      ensures r.Ok? <==> ParseEnvFile(text).Ok?
      ensures r.Ok? ==> fresh(r.value) && r.value.Values() == ParseEnvFile(text).value
      ensures r.Err? ==> r.error == ParseEnvFile(text).error
    {
      var lines := ReadLines(text);
      var config: map<string, string> := map[];
      for n := 0 to |lines|
        invariant ParseLines(lines[..n]) == Ok(config)
      {
        assert lines[..n + 1][..n] == lines[..n];
        var ln := lines[n];
        if StartsWith(ln, "#") {
          continue;
        }
        var parts := Split(Strip(ln), '=');
        if |parts| != 2 {
          ParseLinesErrPrefix(lines, n + 1);
          return Err(ValueError);
        }
        config := config[parts[0] := parts[1]];
      }
      assert lines[..|lines|] == lines;
      var values := FromConfig(config);
      if values.Err? {
        return Err(values.error);
      }
      var settings := new InspectorUISettings(values.value);
      return Ok(settings);
    }

    /** `to_env_file`: one "name=value" line per field, in declaration order. */
    method ToEnvFile() returns (text: string)
      ensures text == EnvText(Values())
    {
      var values := Values();
      text := "";
      for k := 0 to |Names|
        invariant text == Concat(EnvLines(Names[..k], values[..k]))
      {
        assert EnvLines(Names[..k + 1], values[..k + 1]) == EnvLines(Names[..k], values[..k]) + [EnvLine(Names[k], values[k])];
        ConcatAppend(EnvLines(Names[..k], values[..k]), EnvLine(Names[k], values[k]));
        text := text + EnvLine(Names[k], values[k]);
      }
      assert Names[..|Names|] == Names && values[..|Names|] == values;
    }

    /** The three assignments of `update_inspector_ui_settings`; the initial view is kept. */
    method Update(tileApi: Field, minZoom: Field, maxZoom: Field)
      modifies this
      ensures Values() == [tileApi, minZoom, maxZoom] + old(Values())[3..]
    {
      this.tileApi, this.minZoom, this.maxZoom := tileApi, minZoom, maxZoom;
    }
  }

  /** The value a stack output gives the tile API setting: the URL, or `None` when the output is missing. */
  function OutputField(output: Option<string>): Field {
    if output.Some? then StrField(output.value) else NoneField
  }

  /**
   * `update_inspector_ui_settings` on the stack's three outputs and the current file (`None`
   * when there is none): the text written, or the exception raised before writing.
   */
  function UpdatedEnvFile(tileApi: Option<string>, minZoom: Option<string>, maxZoom: Option<string>,
                          existing: Option<string>): (r: Result<string>)
  {
    var min :- Env.IntOf(minZoom);
    var max :- Env.IntOf(maxZoom);
    var front := [OutputField(tileApi), IntField(min), IntField(max)];
    if existing.Some? then
      var current :- ParseEnvFile(existing.value);
      Ok(EnvText(front + current[3..]))
    else
      Ok(EnvText(front + [IntField(DefaultInitialViewZoom), StrField(DefaultInitialViewCenter)]))
  }

  /** `update_inspector_ui_settings`, returning the text it writes to the file. */
  method UpdateInspectorUiSettings(tileApi: Option<string>, minZoom: Option<string>, maxZoom: Option<string>,
                                   existing: Option<string>) returns (r: Result<string>)
    ensures r == UpdatedEnvFile(tileApi, minZoom, maxZoom, existing)
  {
    var min := Env.IntOf(minZoom);
    if min.Err? {
      return Err(min.error);
    }
    var max := Env.IntOf(maxZoom);
    if max.Err? {
      return Err(max.error);
    }
    var front := [OutputField(tileApi), IntField(min.value), IntField(max.value)];
    var settings: InspectorUISettings;
    if existing.Some? {
      var parsed := InspectorUISettings.FromEnvFile(existing.value);
      if parsed.Err? {
        return Err(parsed.error);
      }
      settings := parsed.value;
      settings.Update(OutputField(tileApi), IntField(min.value), IntField(max.value));
      assert settings.Values() == front + ParseEnvFile(existing.value).value[3..];
    } else {
      settings := new InspectorUISettings(front + [IntField(DefaultInitialViewZoom), StrField(DefaultInitialViewCenter)]);
    }
    var text := settings.ToEnvFile();
    return Ok(text);
  }

  /** A name the writer can put at the head of a line: it reads back unchanged. */
  predicate GoodName(name: string) {
    name != [] && name[0] != '#' && !IsSpace(name[0]) && '=' !in name && '\n' !in name
  }

  /** A value the writer can put at the end of a line: it reads back unchanged. */
  predicate Writable(v: Field) {
    var s := Show(v);
    '=' !in s && '\n' !in s && (s == [] || !IsSpace(s[|s| - 1]))
  }

  /** A written line, stripped and split at '=', is its name and its value. */
  lemma LineParses(name: string, v: Field)
    requires GoodName(name) && Writable(v)
    ensures IsLine(EnvLine(name, v)) && !StartsWith(EnvLine(name, v), "#")
    ensures Split(Strip(EnvLine(name, v)), '=') == [name, Show(v)]
  {
    AssignmentLineParses(name, Show(v));
    var line := EnvLine(name, v);
    assert line[..1] == [name[0]];
  }

  /** The dictionary the reader builds from `names[k]=shown[k]` lines: later lines win. */
  function Written(names: seq<string>, shown: seq<string>): map<string, string>
    requires |names| == |shown|
  {
    if names == [] then map[]
    else Written(names[..|names| - 1], shown[..|shown| - 1])[names[|names| - 1] := shown[|shown| - 1]]
  }

  /** `str()` of each value. */
  function Shown(values: seq<Field>): (shown: seq<string>)
    ensures |shown| == |values| && forall k :: 0 <= k < |values| ==> shown[k] == Show(values[k])
  {
    seq(|values|, k requires 0 <= k < |values| => Show(values[k]))
  }

  /** Reading back written lines records every name with the text of its value. */
  lemma {:induction false} ParseWrittenLines(names: seq<string>, values: seq<Field>)
    requires |names| == |values|
    requires forall k :: 0 <= k < |names| ==> GoodName(names[k]) && Writable(values[k])
    ensures ParseLines(EnvLines(names, values)) == Ok(Written(names, Shown(values)))
    decreases |names|
  {
    if names != [] {
      var n := |names| - 1;
      var lines := EnvLines(names, values);
      assert lines[..n] == EnvLines(names[..n], values[..n]);
      ParseWrittenLines(names[..n], values[..n]);
      assert Shown(values)[..n] == Shown(values[..n]);
      LineParses(names[n], values[n]);
    }
  }

  /** A name no later line repeats holds the value of its own line. */
  lemma {:induction false} WrittenLookup(names: seq<string>, shown: seq<string>, k: nat)
    requires |names| == |shown| && k < |names|
    requires forall j :: k < j < |names| ==> names[j] != names[k]
    ensures names[k] in Written(names, shown) && Written(names, shown)[names[k]] == shown[k]
    decreases |names|
  {
    var n := |names| - 1;
    if k < n {
      WrittenLookup(names[..n], shown[..n], k);
    }
  }

  /** The dictionary's keys are the names of the lines. */
  lemma {:induction false} WrittenKeys(names: seq<string>, shown: seq<string>)
    requires |names| == |shown|
    ensures forall key :: key in Written(names, shown) ==> key in names
    decreases |names|
  {
    if names != [] {
      var n := |names| - 1;
      WrittenKeys(names[..n], shown[..n]);
      assert forall j :: 0 <= j < n ==> names[..n][j] == names[j];
    }
  }

  /** The five field names are different. */
  lemma NamesDistinct()
    ensures forall i, j :: 0 <= i < j < |Names| ==> Names[i] != Names[j]
  {
    assert |Names[0]| == 18 && |Names[1]| == 13 && |Names[2]| == 13 && |Names[3]| == 22 && |Names[4]| == 24;
    assert Names[1][6] != Names[2][6];
  }

  /** In the dictionary built from lines for the five fields, each field holds its own value. */
  lemma WrittenFields(shown: seq<string>)
    requires |shown| == |Names|
    ensures KnownKeys(Written(Names, shown))
    ensures forall k :: 0 <= k < |Names| ==> Names[k] in Written(Names, shown) && Written(Names, shown)[Names[k]] == shown[k]
  {
    NamesDistinct();
    WrittenKeys(Names, shown);
    forall k | 0 <= k < |Names|
      ensures Names[k] in Written(Names, shown) && Written(Names, shown)[Names[k]] == shown[k]
    {
      WrittenLookup(Names, shown, k);
    }
  }

  /**
   * Writing settings to a file and reading the file back gives every field as the string
   * it was written as, provided no value holds '=' or a line break or ends in white space.
   */
  lemma EnvFileRoundTrip(values: seq<Field>)
    requires |values| == |Names| && forall k :: 0 <= k < |Names| ==> Writable(values[k])
    ensures ParseEnvFile(EnvText(values)) == Ok(AsStrings(Shown(values)))
  {
    var lines := EnvLines(Names, values);
    var config := Written(Names, Shown(values));
    assert ReadLines(EnvText(values)) == lines by {
      EnvLinesAreLines(values);
      ReadLinesConcat(lines);
    }
    assert ParseLines(lines) == Ok(config) by {
      NamesAreGood();
      ParseWrittenLines(Names, values);
    }
    assert FromConfig(config) == Ok(AsStrings(Shown(values))) by {
      WrittenFields(Shown(values));
      ConfigOfAllFields(config, Shown(values));
    }
  }

  /** The five field names can head a line. */
  lemma NamesAreGood()
    ensures forall k :: 0 <= k < |Names| ==> GoodName(Names[k])
  {
  }

  /** Every line written for the five fields is a single line. */
  lemma EnvLinesAreLines(values: seq<Field>)
    requires |values| == |Names| && forall k :: 0 <= k < |Names| ==> Writable(values[k])
    ensures forall k :: 0 <= k < |Names| ==> IsLine(EnvLines(Names, values)[k])
  {
    forall k | 0 <= k < |Names|
      ensures IsLine(EnvLines(Names, values)[k])
    {
      NamesAreGood();
      LineParses(Names[k], values[k]);
    }
  }

  /** Settings holding the given strings. */
  function AsStrings(shown: seq<string>): (values: seq<Field>)
    ensures |values| == |shown| && forall k :: 0 <= k < |shown| ==> values[k] == StrField(shown[k])
  {
    seq(|shown|, k requires 0 <= k < |shown| => StrField(shown[k]))
  }

  /** A dictionary with exactly the five fields gives each field its string. */
  lemma ConfigOfAllFields(config: map<string, string>, shown: seq<string>)
    requires |shown| == |Names| && KnownKeys(config)
    requires forall k :: 0 <= k < |Names| ==> Names[k] in config && config[Names[k]] == shown[k]
    ensures FromConfig(config) == Ok(AsStrings(shown))
  {
    var r := FromConfig(config);
    assert r.Ok?;
    assert forall k :: 0 <= k < |Names| ==> r.value[k] == StrField(shown[k]);
    assert r.value == AsStrings(shown);
  }

  /**
   * Refreshing a file the UI wrote replaces the tile API and the zoom range and keeps the
   * initial view the file held.
   */
  lemma UpdateKeepsInitialView(tileApi: Option<string>, minZoom: int, maxZoom: int, values: seq<Field>)
    requires |values| == |Names| && forall k :: 0 <= k < |Names| ==> Writable(values[k])
    ensures UpdatedEnvFile(tileApi, Some(IntToString(minZoom)), Some(IntToString(maxZoom)), Some(EnvText(values))) ==
      Ok(EnvText([OutputField(tileApi), IntField(minZoom), IntField(maxZoom), StrField(Show(values[3])), StrField(Show(values[4]))]))
  {
    var current := AsStrings(Shown(values));
    assert ParseEnvFile(EnvText(values)) == Ok(current) by {
      EnvFileRoundTrip(values);
    }
    var updated := [OutputField(tileApi), IntField(minZoom), IntField(maxZoom), StrField(Show(values[3])), StrField(Show(values[4]))];
    assert updated == [OutputField(tileApi), IntField(minZoom), IntField(maxZoom)] + current[3..];
    UpdateParsedFile(tileApi, minZoom, maxZoom, EnvText(values), current, updated);
  }

  /** Refreshing a file that reads as `current` writes the stack's three values and the rest of `current`. */
  lemma UpdateParsedFile(tileApi: Option<string>, minZoom: int, maxZoom: int, text: string, current: seq<Field>,
                         updated: seq<Field>)
    requires ParseEnvFile(text) == Ok(current)
    requires updated == [OutputField(tileApi), IntField(minZoom), IntField(maxZoom)] + current[3..]
    ensures UpdatedEnvFile(tileApi, Some(IntToString(minZoom)), Some(IntToString(maxZoom)), Some(text)) == Ok(EnvText(updated))
  {
    ParseIntToString(minZoom);
    ParseIntToString(maxZoom);
  }

  /** A first file gets the stack's values and the default initial view, zoom 5 over the contiguous US. */
  lemma FreshFileDefaults(tileApi: Option<string>, minZoom: int, maxZoom: int)
    ensures UpdatedEnvFile(tileApi, Some(IntToString(minZoom)), Some(IntToString(maxZoom)), None) ==
      Ok(EnvText([OutputField(tileApi), IntField(minZoom), IntField(maxZoom), IntField(5), StrField("-95.7129,37.0902")]))
  {
    ParseIntToString(minZoom);
    ParseIntToString(maxZoom);
    var front := [OutputField(tileApi), IntField(minZoom), IntField(maxZoom)];
    assert front + [IntField(DefaultInitialViewZoom), StrField(DefaultInitialViewCenter)] ==
      [OutputField(tileApi), IntField(minZoom), IntField(maxZoom), IntField(5), StrField("-95.7129,37.0902")];
  }
}
