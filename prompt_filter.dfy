/**
 * `PromptFilter`: parsers for AUTOMATIC1111-style generation parameters, the text a
 * generator writes beside an image ("<prompt>\nNegative prompt: ...\nSteps: 20, ...").
 * The text a `PromptFilter` reads from its metadata file is a parameter here.
 */
module PromptFilter {
  import opened Wrappers
  import opened Text
  import opened Values
  import opened Patterns

  const Marker: string := "negative prompt:"

  /** Where the field section starts: the first case-insensitive `negative prompt:`, or -1. */
  function MarkerIndex(text: string): (i: int)
    ensures i == -1 || 0 <= i < |text|
  {
    Find(Lower(text), Marker)
  }

  // ---------------------------------------------------------------- parse_parameters

  /** The positive prompt: the stripped text before the marker, or all of it. */
  function PositivePart(text: string): string {
    var i := MarkerIndex(text);
    if i >= 0 then Strip(text[..i]) else Strip(text)
  }

  /** The field section: the stripped text from the marker on, or empty. */
  function FieldSection(text: string): string {
    var i := MarkerIndex(text);
    if i >= 0 then Strip(text[i..]) else ""
  }

  /** How `parse_parameters` stores one field value: a comma list, unless it looks like JSON. */
  function FieldValue(v: string): (r: Value)
    ensures r.Str? || r.List?
  {
    if ',' in v && !StartsWith(v, "{") then List(CommaList(v)) else Str(Strip(v))
  }

  /** The (key, value) assignments `parse_parameters` makes for the pairs found, in order. */
  function FieldAssignments(found: seq<(string, string)>): (us: seq<(string, Value)>)
    ensures |us| == |found|
  {
    if |found| == 0 then []
    else
      var last := found[|found| - 1];
      FieldAssignments(found[..|found| - 1]) + [(NormKey(last.0), FieldValue(last.1))]
  }

  /** Assignment `j` is made from pair `j`. */
  lemma {:induction false} FieldAssignmentsAt(found: seq<(string, string)>, j: nat)
    requires j < |found|
    ensures FieldAssignments(found)[j] == (NormKey(found[j].0), FieldValue(found[j].1))
  {
    if j < |found| - 1 {
      FieldAssignmentsAt(found[..|found| - 1], j);
    }
  }

  function SectionFields(section: string): seq<(string, Value)> {
    FieldAssignments(FindAllFields(section, 0))
  }

  /** The loop of `parse_parameters`: store the pairs one after another. */
  function StorePairs(m: Metadata, found: seq<(string, string)>): Metadata {
    if |found| == 0 then m
    else
      var last := found[|found| - 1];
      StorePairs(m, found[..|found| - 1])[NormKey(last.0) := FieldValue(last.1)]
  }

  /** Storing the pairs one by one is the same as the dict update with every assignment. */
  lemma {:induction false} StorePairsAssign(m: Metadata, found: seq<(string, string)>)
    ensures StorePairs(m, found) == Assign(m, FieldAssignments(found))
  {
    if |found| > 0 {
      var init := found[..|found| - 1];
      var last := found[|found| - 1];
      StorePairsAssign(m, init);
      AssignSnoc(m, FieldAssignments(init), NormKey(last.0), FieldValue(last.1));
    }
  }

  /** The result of `parse_parameters` on a string. */
  function ParseText(text: string): Metadata {
    var section := FieldSection(text);
    var fields := Assign(map["positive_prompts" := Str(PositivePart(text))], SectionFields(section));
    match SearchHashes(section, 0)
    case Some(h) => fields["hashes" := Dict([("model", Str(h))])]
    case None => fields
  }

  /**
   * The argument `parse_parameters` works on: a dict holding `"Parameters"` is replaced
   * by that entry; anything that is not then a string fails at `.lower()`.
   */
  function ParametersText(input: Value): (r: Result<string>)
    ensures input.Str? ==> r == Ok(input.s)
    ensures r.Ok? ==> input.Str? || (input.Dict? && Lookup(input.entries, "Parameters") == Some(Str(r.value)))
  {
    var v := if input.Dict? && Lookup(input.entries, "Parameters").Some? then Lookup(input.entries, "Parameters").value else input;
    if v.Str? then Ok(v.s) else Err("AttributeError")
  }

  /** `PromptFilter.parse_parameters` as a function of its argument. */
  function ParseParametersSpec(input: Value): Result<Metadata> {
    match ParametersText(input)
    case Ok(text) => Ok(ParseText(text))
    case Err(e) => Err(e)
  }

  /** `PromptFilter.parse_parameters`: one assignment per field found, then the hashes. */
  method ParseParameters(input: Value) returns (r: Result<Metadata>)
    ensures r == ParseParametersSpec(input)
  {
    var t := ParametersText(input);
    if t.Err? {
      return Err(t.error);
    }
    var text := t.value;
    var i := MarkerIndex(text);
    var positive, section;
    if i != -1 {
      positive := Strip(text[..i]);
      section := Strip(text[i..]);
    } else {
      positive := Strip(text);
      section := "";
    }
    assert positive == PositivePart(text) && section == FieldSection(text);
    var base: Metadata := map["positive_prompts" := Str(positive)];
    var lines := FindAllFields(section, 0);
    var metadata := StoreFields(base, lines);
    StorePairsAssign(base, lines);
    match SearchHashes(section, 0) {
      case Some(h) => metadata := metadata["hashes" := Dict([("model", Str(h))])];
      case None =>
    }
    return Ok(metadata);
  }

  /** The loop of `parse_parameters` over the fields found. */
  method StoreFields(base: Metadata, lines: seq<(string, string)>) returns (metadata: Metadata)
    ensures metadata == StorePairs(base, lines)
  {
    metadata := base;
    for j := 0 to |lines|
      invariant metadata == StorePairs(base, lines[..j])
    {
      assert lines[..j + 1][..j] == lines[..j];
      var key := NormKey(lines[j].0);
      var value := lines[j].1;
      var stored;
      if ',' in value && !StartsWith(value, "{") {
        stored := List(CommaList(value));
      } else {
        stored := Str(Strip(value));
      }
      metadata := metadata[key := stored];
    }
    assert lines[..|lines|] == lines;
  }

  /** `positive_prompts` is always stored. */
  lemma ParseHasPositivePrompts(text: string)
    ensures "positive_prompts" in ParseText(text)
  {
    AssignKeys(map["positive_prompts" := Str(PositivePart(text))], SectionFields(FieldSection(text)), "positive_prompts");
  }

  /** A dict wrapping the text under `"Parameters"` parses exactly like the text itself. */
  lemma ParseUnwrapsParameters(text: string, rest: seq<(string, Value)>)
    ensures ParseParametersSpec(Dict([("Parameters", Str(text))] + rest)) == ParseParametersSpec(Str(text))
  {
  }

  /** `positive_prompts` is the stripped text before the first marker. */
  lemma ParsePositivePrompt(text: string)
    requires "positive_prompts" !in (set j | 0 <= j < |SectionFields(FieldSection(text))| :: SectionFields(FieldSection(text))[j].0)
    ensures "positive_prompts" in ParseText(text) && ParseText(text)["positive_prompts"] == Str(PositivePart(text))
  {
    var us := SectionFields(FieldSection(text));
    assert LastFor(us, "positive_prompts").None?;
    AssignLastWins(map["positive_prompts" := Str(PositivePart(text))], us, "positive_prompts");
  }

  /** Without the marker the whole stripped text is the positive prompt and nothing else is stored. */
  lemma ParseWithoutMarker(text: string)
    requires MarkerIndex(text) == -1
    ensures ParseText(text) == map["positive_prompts" := Str(Strip(text))]
  {
    assert FieldSection(text) == "";
    assert SectionFields("") == [];
    assert SearchHashes("", 0) == HashesAt("", 0);
  }

  lemma SectionKeysNormalized(section: string)
    ensures forall j :: 0 <= j < |SectionFields(section)| ==> NormKey(SectionFields(section)[j].0) == SectionFields(section)[j].0
  {
    var found := FindAllFields(section, 0);
    forall j | 0 <= j < |found|
      ensures NormKey(SectionFields(section)[j].0) == SectionFields(section)[j].0
    {
      FieldAssignmentsAt(found, j);
      NormKeyIdempotent(found[j].0);
    }
  }

  /** Every stored key is `positive_prompts`, `hashes` or the normal form of a field name. */
  lemma ParseKeysNormalized(text: string, k: string)
    requires k in ParseText(text)
    ensures k == "positive_prompts" || k == "hashes" || NormKey(k) == k
  {
    var us := SectionFields(FieldSection(text));
    SectionKeysNormalized(FieldSection(text));
    AssignKeys(map["positive_prompts" := Str(PositivePart(text))], us, k);
  }

  /** A key named twice in the field section keeps the later value. */
  lemma ParseLaterFieldWins(text: string, k: string)
    requires k != "hashes" || SearchHashes(FieldSection(text), 0).None?
    requires LastFor(SectionFields(FieldSection(text)), k).Some?
    ensures k in ParseText(text) && ParseText(text)[k] == LastFor(SectionFields(FieldSection(text)), k).value
  {
    var us := SectionFields(FieldSection(text));
    AssignLastWins(map["positive_prompts" := Str(PositivePart(text))], us, k);
  }

  /** No numeric coercion: every value is a string or a list, except the hashes dict. */
  lemma ParseValuesUncoerced(text: string, k: string)
    requires k in ParseText(text)
    ensures ParseText(text)[k].Str? || ParseText(text)[k].List? || (k == "hashes" && ParseText(text)[k].Dict?)
  {
    var section := FieldSection(text);
    var found := FindAllFields(section, 0);
    var us := SectionFields(section);
    var base := map["positive_prompts" := Str(PositivePart(text))];
    var fields := Assign(base, us);
    if k != "hashes" || SearchHashes(section, 0).None? {
      assert k in fields && ParseText(text)[k] == fields[k];
      AssignValueFrom(base, us, k);
      if !(k in base && fields[k] == base[k]) {
        var j :| 0 <= j < |us| && us[j] == (k, fields[k]);
        FieldAssignmentsAt(found, j);
      }
    }
  }

  /** A `Hashes: {... "model": "<hex>" ...}` entry sets `hashes` to exactly the model hash. */
  lemma ParseHashes(text: string, hex: string)
    requires SearchHashes(FieldSection(text), 0) == Some(hex)
    ensures ParseText(text)["hashes"] == Dict([("model", Str(hex))])
    ensures forall i :: 0 <= i < |hex| ==> IsHexDigit(hex[i])
  {
  }

  // ---------------------------------------------------------------- extract_metadata_fields

  predicate IsFieldLine(line: string) {
    MatchField(Strip(line)).Some?
  }

  /** The field a `Key: value` line contributes; other lines contribute nothing. */
  function LineField(line: string): (us: seq<(string, Value)>)
    ensures |us| <= 1
    ensures |us| == 1 <==> IsFieldLine(line)
  {
    match MatchField(Strip(line))
    case Some(m) => [(NormKey(m.key), Coerce(Strip(m.value)))]
    case None => []
  }

  function LinesFields(ls: seq<string>): seq<(string, Value)> {
    if |ls| == 0 then [] else LinesFields(ls[..|ls| - 1]) + LineField(ls[|ls| - 1])
  }

  /** Which lines are `Key: value` lines. */
  function FieldFlags(ls: seq<string>): (flags: seq<bool>)
    ensures |flags| == |ls|
  {
    seq(|ls|, j requires 0 <= j < |ls| => IsFieldLine(ls[j]))
  }

  /** Index of the first `true`, or the length. */
  function FirstTrue(bs: seq<bool>): (n: nat)
    ensures n <= |bs|
    ensures forall j :: 0 <= j < n ==> !bs[j]
    ensures n < |bs| ==> bs[n]
  {
    if |bs| == 0 || bs[0] then 0 else 1 + FirstTrue(bs[1..])
  }

  /** Index of the first `Key: value` line, or the number of lines. */
  function FirstFieldLine(ls: seq<string>): (n: nat)
    ensures n <= |ls|
  {
    FirstTrue(FieldFlags(ls))
  }

  /** The prompt lines: every line before the first `Key: value` line, blank ones included, stripped. */
  function PositiveLines(ls: seq<string>): (r: seq<string>)
    ensures |r| == FirstFieldLine(ls)
  {
    seq(FirstFieldLine(ls), j requires 0 <= j < FirstFieldLine(ls) => Strip(ls[j]))
  }

  function Lines(parameters: string): seq<string> {
    SplitChar(Strip(parameters), '\n')
  }

  /** The result of `extract_metadata_fields` for the collected fields and prompt lines. */
  function FieldsResult(fields: Metadata, positive: seq<string>): (m: Metadata)
    ensures "model_hash" !in m
  {
    var hashes := if "model_hash" in fields then [("model", fields["model_hash"])] else [];
    var rest := fields - {"model_hash"};
    map["positive_prompts" := List(positive), "negative_prompt" := List([]), "hashes" := Dict(hashes)] + rest
  }

  function ExtractMetadataFieldsSpec(parameters: string): Metadata {
    var ls := Lines(parameters);
    FieldsResult(Assign(map[], LinesFields(ls)), PositiveLines(ls))
  }

  /** The loop state of `extract_metadata_fields`: `found_metadata`, the prompt lines, the fields. */
  datatype Scan = Scan(found: bool, positive: seq<string>, fields: Metadata)

  /** One iteration of the loop on one line. */
  function ScanLine(st: Scan, line: string): Scan {
    var l := Strip(line);
    match MatchField(l)
    case Some(m) => Scan(true, st.positive, st.fields[NormKey(m.key) := Coerce(Strip(m.value))])
    case None => if st.found then st else Scan(st.found, st.positive + [l], st.fields)
  }

  /** The loop run over `ls`, line by line. */
  function ScanAll(ls: seq<string>): Scan {
    if |ls| == 0 then Scan(false, [], map[]) else ScanLine(ScanAll(ls[..|ls| - 1]), ls[|ls| - 1])
  }

  /** `PromptFilter.extract_metadata_fields`, with the `found_metadata` flag of the source. */
  method ExtractMetadataFields(parameters: string) returns (metadata: Metadata)
    ensures metadata == ExtractMetadataFieldsSpec(parameters)
  {
    var lines := Lines(parameters);
    var positive: seq<string> := [];
    var fields: Metadata := map[];
    var found := false;
    for i := 0 to |lines|
      invariant Scan(found, positive, fields) == ScanAll(lines[..i])
    {
      assert lines[..i + 1][..i] == lines[..i];
      var line := Strip(lines[i]);
      var m := MatchField(line);
      if m.Some? {
        found := true;
        fields := fields[NormKey(m.value.key) := Coerce(Strip(m.value.value))];
        continue;
      }
      if !found {
        positive := positive + [line];
      }
    }
    assert lines[..|lines|] == lines;
    ScanAllMeaning(lines);
    metadata := FieldsResult(fields, positive);
  }

  /** The first `true` of a longer list: unchanged once found, else possibly the new entry. */
  lemma {:induction false} FirstTrueSnoc(bs: seq<bool>, b: bool)
    ensures FirstTrue(bs + [b]) == if FirstTrue(bs) < |bs| then FirstTrue(bs) else if b then |bs| else |bs| + 1
  {
    if |bs| > 0 {
      assert (bs + [b])[1..] == bs[1..] + [b];
      FirstTrueSnoc(bs[1..], b);
    }
  }

  /** The first field line of a longer list: unchanged once found, else possibly the new line. */
  lemma FirstFieldLineSnoc(init: seq<string>, last: string)
    ensures FirstFieldLine(init + [last]) ==
      if FirstFieldLine(init) < |init| then FirstFieldLine(init) else if IsFieldLine(last) then |init| else |init| + 1
  {
    assert FieldFlags(init + [last]) == FieldFlags(init) + [IsFieldLine(last)];
    FirstTrueSnoc(FieldFlags(init), IsFieldLine(last));
  }

  /** A new line is a prompt line exactly when no field line has been seen and it is none either. */
  lemma PositiveLinesSnoc(init: seq<string>, last: string)
    ensures PositiveLines(init + [last]) ==
      if FirstFieldLine(init) < |init| || IsFieldLine(last) then PositiveLines(init) else PositiveLines(init) + [Strip(last)]
  {
    FirstFieldLineSnoc(init, last);
    var ls := init + [last];
    assert forall j :: 0 <= j < |init| ==> ls[j] == init[j];
  }

  /** A new field line adds its assignment; any other line adds nothing. */
  lemma LinesFieldsSnoc(init: seq<string>, last: string)
    ensures MatchField(Strip(last)).Some? ==>
      var f := MatchField(Strip(last)).value;
      Assign(map[], LinesFields(init + [last])) == Assign(map[], LinesFields(init))[NormKey(f.key) := Coerce(Strip(f.value))]
    ensures MatchField(Strip(last)).None? ==> LinesFields(init + [last]) == LinesFields(init)
  {
    var ls := init + [last];
    assert ls[..|ls| - 1] == init;
    match MatchField(Strip(last))
    case Some(f) => AssignSnoc(map[], LinesFields(init), NormKey(f.key), Coerce(Strip(f.value)));
    case None =>
  }

  /**
   * What the loop computes: `found_metadata` is set exactly when some line is a field line,
   * the prompt lines are those before the first one, and the fields are every field line's
   * assignment, later lines winning.
   */
  lemma {:induction false} ScanAllMeaning(ls: seq<string>)
    ensures ScanAll(ls) == Scan(FirstFieldLine(ls) < |ls|, PositiveLines(ls), Assign(map[], LinesFields(ls)))
  {
    if |ls| > 0 {
      var init := ls[..|ls| - 1];
      var last := ls[|ls| - 1];
      assert ls == init + [last];
      ScanAllMeaning(init);
      FirstFieldLineSnoc(init, last);
      PositiveLinesSnoc(init, last);
      LinesFieldsSnoc(init, last);
    }
  }

  /** `model_hash` never stays at top level; it moves into `hashes` unless a field overwrites `hashes`. */
  lemma ModelHashMoves(parameters: string)
    requires "model_hash" in Assign(map[], LinesFields(Lines(parameters)))
    requires "hashes" !in Assign(map[], LinesFields(Lines(parameters)))
    ensures "model_hash" !in ExtractMetadataFieldsSpec(parameters)
    ensures ExtractMetadataFieldsSpec(parameters)["hashes"]
         == Dict([("model", Assign(map[], LinesFields(Lines(parameters)))["model_hash"])])
  {
  }

  /** `negative_prompt` is `[]` unless a `Negative prompt: ...` line set it. */
  lemma NegativePromptDefault(parameters: string)
    requires "negative_prompt" !in Assign(map[], LinesFields(Lines(parameters)))
    ensures ExtractMetadataFieldsSpec(parameters)["negative_prompt"] == List([])
  {
  }

  /** Every field value is coerced: an int exactly for digit strings, a float only for parseable texts with a `.`. */
  lemma {:induction false} LinesFieldsCoerced(ls: seq<string>, j: nat)
    requires j < |LinesFields(ls)|
    ensures exists v :: LinesFields(ls)[j].1 == Coerce(v)
  {
    var init := ls[..|ls| - 1];
    if j < |LinesFields(init)| {
      LinesFieldsCoerced(init, j);
    } else {
      var m := MatchField(Strip(ls[|ls| - 1]));
      assert LinesFields(ls)[j].1 == Coerce(Strip(m.value.value));
    }
  }

  // ---------------------------------------------------------------- extract_metadata(key)

  /** The text `extract_metadata(key)` searches: from the marker on, or all of it. */
  function SearchText(parameters: string): string {
    var i := MarkerIndex(parameters);
    if i != -1 then parameters[i..] else parameters
  }

  /** `PromptFilter.extract_metadata(key)`: the trimmed text after `key:` up to the next comma, or `"Unknown"`. */
  function ExtractMetadataValue(parameters: string, key: string): (r: string)
    requires PlainKey(key)
    ensures ',' !in r
    ensures SearchKey(SearchText(parameters), key, 0).None? ==> r == "Unknown"
    ensures SearchKey(SearchText(parameters), key, 0).Some? ==> r == Strip(SearchKey(SearchText(parameters), key, 0).value)
  {
    match SearchKey(SearchText(parameters), key, 0)
    case Some(v) =>
      StripByChars(v, IsSpace, ',');
      Strip(v)
    case None => "Unknown"
  }

  /** The key is matched case-insensitively. */
  lemma KeyAtIgnoresCase(t: string, key: string, p: nat)
    ensures KeyAt(t, key, p) == KeyAt(t, Lower(key), p)
  {
    LowerIdempotent(key);
  }

  lemma KeyValueAtIgnoresCase(t: string, key: string, p: nat)
    requires p <= |t|
    ensures KeyValueAt(t, key, p) == KeyValueAt(t, Lower(key), p)
  {
    KeyAtIgnoresCase(t, key, p);
  }

  lemma {:induction false} SearchKeyIgnoresCase(t: string, key: string, p: nat)
    requires p <= |t|
    ensures SearchKey(t, key, p) == SearchKey(t, Lower(key), p)
    decreases |t| - p
  {
    KeyValueAtIgnoresCase(t, key, p);
    if p < |t| {
      SearchKeyIgnoresCase(t, key, p + 1);
    }
  }

  lemma PlainKeyLower(key: string)
    requires PlainKey(key)
    ensures PlainKey(Lower(key))
  {
    forall i | 0 <= i < |key| ensures IsWordChar(Lower(key)[i]) || Lower(key)[i] == ' ' || Lower(key)[i] == '-' {
    }
  }

  lemma ExtractIgnoresKeyCase(parameters: string, key: string)
    requires PlainKey(key) && PlainKey(Lower(key))
    ensures ExtractMetadataValue(parameters, key) == ExtractMetadataValue(parameters, Lower(key))
  {
    SearchKeyIgnoresCase(SearchText(parameters), key, 0);
  }

  /** An occurrence of `key:` right after `hash` and a space is never the one returned. */
  lemma ExtractSkipsHashPrefix(t: string, key: string, p: nat)
    requires p <= |t| && AfterHash(t, p)
    ensures KeyValueAt(t, key, p).None?
  {
  }

  /** A key that occurs nowhere after the marker yields `"Unknown"`. */
  lemma ExtractAbsentKey(parameters: string, key: string)
    requires PlainKey(key)
    requires forall i :: 0 <= i <= |SearchText(parameters)| ==> !KeyAt(SearchText(parameters), key, i)
    ensures ExtractMetadataValue(parameters, key) == "Unknown"
  {
  }
}
