/**
 * The configuration read by the script `CustomSorter.__init__` of `scripts/cs.py`: missing keys
 * take their defaults, method and key names are lower-cased, blank folder names fall back to
 * `input` and `output`, and the resolution table falls back to the default table and is parsed
 * entry by entry.
 */
module Settings {
  import opened Wrappers
  import opened Text
  import opened Resolution

  /** The YAML configuration entries the sorters read; `None` is a missing key. */
  datatype SorterConfig = SorterConfig(
    inputFolders: Option<seq<string>>,
    outputFolder: Option<string>,
    useOutputFolder: Option<bool>,
    sortMethod: Option<string>,
    resolutionFolders: Option<seq<(string, Dimension)>>,
    dynamicThresholds: Option<bool>,
    metadataKey: Option<string>,
    sortMethods: Option<seq<string>>,
    metadataKeys: Option<seq<string>>)

  /** A missing configuration file, or one holding `{}`. */
  const NoConfig := SorterConfig(None, None, None, None, None, None, None, None, None)

  /** `not name.strip()`. */
  predicate Blank(name: string) {
    Strip(name) == ""
  }

  /** `[folder if folder.strip() else "input" for folder in input_folders]`. */
  function InputFolderNames(folders: seq<string>): (r: seq<string>)
    ensures |r| == |folders|
  {
    seq(|folders|, i requires 0 <= i < |folders| => if Blank(folders[i]) then "input" else folders[i])
  }

  /** A blank output folder becomes `"output"`. */
  function OutputFolderName(name: string): string {
    if Blank(name) then "output" else name
  }

  /** After normalisation no folder name is blank, and a name that was not blank is kept. */
  lemma FolderNamesNotBlank(folders: seq<string>, output: string)
    ensures forall i :: 0 <= i < |folders| ==>
      !Blank(InputFolderNames(folders)[i]) && (!Blank(folders[i]) ==> InputFolderNames(folders)[i] == folders[i])
    ensures !Blank(OutputFolderName(output)) && (!Blank(output) ==> OutputFolderName(output) == output)
  {
    var i, o := "input", "output";
    StripByFixed(i, IsSpace);
    StripByFixed(o, IsSpace);
  }

  /** `[m.lower() for m in names]`. */
  function LowerAll(names: seq<string>): (r: seq<string>)
    ensures |r| == |names|
  {
    seq(|names|, i requires 0 <= i < |names| => Lower(names[i]))
  }

  /** The fields the script sorter ends up with. */
  datatype ScriptSettings = ScriptSettings(
    inputFolders: seq<string>,
    outputFolder: string,
    useOutputFolder: bool,
    sortMethod: string,
    dynamicThresholds: bool,
    metadataKey: string,
    sortMethods: seq<string>,
    metadataKeys: seq<string>,
    resolutionFolders: seq<(string, Dimension)>,
    resolutionThresholds: seq<(string, Threshold)>)

  /** The script `CustomSorter.__init__` up to the folder creation; a malformed threshold raises. */
  function ScriptSettingsOf(c: SorterConfig): (r: Result<ScriptSettings>) {
    var folders := ResolutionFolders(c.resolutionFolders);
    match ParseThresholds(folders)
    case Err(e) => Err(e)
    case Ok(th) =>
      Ok(ScriptSettings(
        InputFolderNames(c.inputFolders.GetOr(["input"])),
        OutputFolderName(c.outputFolder.GetOr("output")),
        c.useOutputFolder.GetOr(true),
        Lower(c.sortMethod.GetOr("resolution")),
        c.dynamicThresholds.GetOr(false),
        Lower(c.metadataKey.GetOr("model")),
        LowerAll(c.sortMethods.GetOr(["metadata"])),
        LowerAll(c.metadataKeys.GetOr(["model"])),
        folders,
        th))
  }

  /** Construction fails exactly when some entry of the (possibly default) table is malformed, with a `ValueError`. */
  lemma ScriptSettingsFails(c: SorterConfig)
    ensures var folders := ResolutionFolders(c.resolutionFolders);
      ScriptSettingsOf(c).Err? <==> exists i :: 0 <= i < |folders| && ParsePixelDimensions(folders[i].1).Err?
    ensures ScriptSettingsOf(c).Err? ==> ScriptSettingsOf(c).error == "ValueError"
  {
    ParseThresholdsEntries(ResolutionFolders(c.resolutionFolders));
    ParseThresholdsError(ResolutionFolders(c.resolutionFolders));
  }

  /** Method and key names come out lower-case, and folder names come out non-blank. */
  lemma ScriptSettingsNormalised(c: SorterConfig)
    requires ScriptSettingsOf(c).Ok?
    ensures var s := ScriptSettingsOf(c).value;
      NoUpper(s.sortMethod) && NoUpper(s.metadataKey) &&
      (forall i :: 0 <= i < |s.sortMethods| ==> NoUpper(s.sortMethods[i])) &&
      (forall i :: 0 <= i < |s.metadataKeys| ==> NoUpper(s.metadataKeys[i])) &&
      (forall i :: 0 <= i < |s.inputFolders| ==> !Blank(s.inputFolders[i])) &&
      !Blank(s.outputFolder)
  {
    var s := ScriptSettingsOf(c).value;
    LowerNoUpper(c.sortMethod.GetOr("resolution"));
    LowerNoUpper(c.metadataKey.GetOr("model"));
    var methods := c.sortMethods.GetOr(["metadata"]);
    var keys := c.metadataKeys.GetOr(["model"]);
    forall i | 0 <= i < |methods| ensures NoUpper(s.sortMethods[i]) {
      LowerNoUpper(methods[i]);
    }
    forall i | 0 <= i < |keys| ensures NoUpper(s.metadataKeys[i]) {
      LowerNoUpper(keys[i]);
    }
    FolderNamesNotBlank(c.inputFolders.GetOr(["input"]), c.outputFolder.GetOr("output"));
  }

  /** The thresholds are the (configured or default) table parsed entry by entry, names and order kept. */
  lemma ScriptSettingsThresholds(c: SorterConfig)
    requires ScriptSettingsOf(c).Ok?
    ensures var s := ScriptSettingsOf(c).value;
      |s.resolutionThresholds| == |s.resolutionFolders| &&
      (c.resolutionFolders.Some? && |c.resolutionFolders.value| > 0 ==> s.resolutionFolders == c.resolutionFolders.value) &&
      forall i :: 0 <= i < |s.resolutionFolders| ==>
        ParsePixelDimensions(s.resolutionFolders[i].1).Ok? &&
        s.resolutionThresholds[i] == (s.resolutionFolders[i].0, ParsePixelDimensions(s.resolutionFolders[i].1).value)
  {
    ParseThresholdsEntries(ResolutionFolders(c.resolutionFolders));
  }

  /**
   * With an empty configuration the sorter reads `input` into `output`, sorts by resolution
   * with the default table, the `metadata` method and the `model` key.
   */
  lemma ScriptDefaults(c: SorterConfig)
    requires c == NoConfig
    ensures ScriptSettingsOf(c).Ok?
    ensures var s := ScriptSettingsOf(c).value;
      s.inputFolders == ["input"] && s.outputFolder == "output" && s.useOutputFolder &&
      s.sortMethod == "resolution" && !s.dynamicThresholds && s.metadataKey == "model" &&
      s.sortMethods == ["metadata"] && s.metadataKeys == ["model"] &&
      s.resolutionFolders == DefaultResolutionFolders &&
      forall i :: 0 <= i < |DefaultResolutionFolders| ==>
        s.resolutionThresholds[i] == (DefaultResolutionFolders[i].0, DefaultThresholdValues[i])
  {
    var folders := ResolutionFolders(c.resolutionFolders);
    DefaultThresholds(folders);
    DefaultNames();
    var th := ParseThresholds(folders).value;
    assert ScriptSettingsOf(c) == Ok(ScriptSettings(["input"], "output", true, "resolution", false, "model",
      ["metadata"], ["model"], folders, th));
  }

  /** The default names are already normalised: none is blank and none has a capital. */
  lemma DefaultNames()
    ensures InputFolderNames(["input"]) == ["input"] && OutputFolderName("output") == "output"
    ensures Lower("resolution") == "resolution" && Lower("model") == "model"
    ensures LowerAll(["metadata"]) == ["metadata"] && LowerAll(["model"]) == ["model"]
  {
    var input, output, resolution, model, metadata := "input", "output", "resolution", "model", "metadata";
    FolderNamesNotBlank([input], output);
    LowerNoUpper(resolution);
    LowerNoUpper(model);
    LowerNoUpper(metadata);
  }
}
