/**
 * `MetadataExtractor`: turns the metadata of one image (read by ExifTool, or parsed from
 * the `.txt` file beside it when ExifTool reports an error) into the cleaned dictionary
 * saved as `<stem>.json`. ExifTool, the file system and the JSON decoder are parameters.
 */
module MetadataExtraction {
  import opened Wrappers
  import opened Text
  import opened Values
  import opened Patterns
  import opened Paths
  import opened PromptFilter

  // ================================================================ clean_metadata_prompt

  predicate IsBang(c: char) { c == '~' || c == '!' }

  predicate IsWordBreak(c: char) { c == ',' || c == ':' }

  predicate NotClose(c: char) { c != '}' }

  /** The optional `%?` after a digit run that ends at `i`. */
  function PercentEnd(s: string, i: nat): (e: nat)
    requires i <= |s|
    ensures i <= e <= |s|
  {
    if i < |s| && s[i] == '%' then i + 1 else i
  }

  /**
   * End of the numeric modifier `(:\d+(\.\d+)?%-\d+%?)|(:\d+(\.\d+)?)|(-\d+%?)` matched at
   * `p`, alternatives tried in order; `p` itself when none matches there.
   */
  function ModifierEnd(s: string, p: nat): (e: nat)
    requires p <= |s|
    ensures e == p || p + 2 <= e <= |s|
    ensures e > p ==> s[p] == ':' || s[p] == '-'
  {
    if p == |s| then p
    else if s[p] == ':' then
      var a := RunEnd(s, p + 1, IsDigit);
      if a == p + 1 then p
      else
        var b := if a + 1 < |s| && s[a] == '.' && IsDigit(s[a + 1]) then RunEnd(s, a + 1, IsDigit) else a;
        if b + 2 < |s| && s[b] == '%' && s[b + 1] == '-' && IsDigit(s[b + 2]) then PercentEnd(s, RunEnd(s, b + 2, IsDigit))
        else b
    else if s[p] == '-' && p + 1 < |s| && IsDigit(s[p + 1]) then PercentEnd(s, RunEnd(s, p + 1, IsDigit))
    else p
  }

  /** `re.sub` of the numeric-modifier pattern with `""`, scanning from `p`. */
  function RemoveModifiers(s: string, p: nat): (r: string)
    requires p <= |s|
    ensures |r| <= |s| - p
    ensures forall c :: c in r ==> c in s
    decreases |s| - p
  {
    if p == |s| then ""
    else
      var e := ModifierEnd(s, p);
      if e > p then RemoveModifiers(s, e) else [s[p]] + RemoveModifiers(s, p + 1)
  }

  /** Text without `:` and `-` carries no numeric modifier. */
  lemma {:induction false} RemoveModifiersPlain(s: string, p: nat)
    requires p <= |s|
    requires forall i :: p <= i < |s| ==> s[i] != ':' && s[i] != '-'
    ensures RemoveModifiers(s, p) == s[p..]
    decreases |s| - p
  {
    if p < |s| {
      RemoveModifiersPlain(s, p + 1);
      assert s[p..] == [s[p]] + s[p + 1..];
    }
  }

  /** `re.sub(r"_(\{[^}]+\})", r", \1", s)`, scanning from `p`. */
  function UnderscoreBraces(s: string, p: nat): (r: string)
    requires p <= |s|
    ensures forall c :: c in r ==> c in s || c == ',' || c == ' '
    decreases |s| - p
  {
    if p == |s| then ""
    else if s[p] == '_' && p + 2 < |s| && s[p + 1] == '{' && s[p + 2] != '}' then
      var j := RunEnd(s, p + 2, NotClose);
      if j < |s| then
        assert forall c :: c in s[p + 1..j + 1] ==> c in s;
        ", " + s[p + 1..j + 1] + UnderscoreBraces(s, j + 1)
      else [s[p]] + UnderscoreBraces(s, p + 1)
    else [s[p]] + UnderscoreBraces(s, p + 1)
  }

  /** `re.findall(r"\{([^}]*)\}", s[p..])`: the text inside each brace pair. */
  function FindGroups(s: string, p: nat): (r: seq<string>)
    requires p <= |s|
    ensures forall k :: 0 <= k < |r| ==> '}' !in r[k]
    ensures forall k, c :: 0 <= k < |r| && c in r[k] ==> c in s
    decreases |s| - p
  {
    if p == |s| then []
    else if s[p] == '{' then
      var j := RunEnd(s, p + 1, NotClose);
      if j < |s| then
        assert forall i :: p + 1 <= i < j ==> s[p + 1..j][i - p - 1] == s[i];
        assert forall c :: c in s[p + 1..j] ==> c in s;
        [s[p + 1..j]] + FindGroups(s, j + 1)
      else FindGroups(s, p + 1)
    else FindGroups(s, p + 1)
  }

  /** The text with every `{g}` of the groups, in order, replaced by `g`. */
  function Unbrace(s: string, groups: seq<string>): string {
    if |groups| == 0 then s
    else
      var g := groups[|groups| - 1];
      Replace(Unbrace(s, groups[..|groups| - 1]), "{" + g + "}", g)
  }

  lemma {:induction false} UnbraceAvoids(s: string, groups: seq<string>, c: char)
    requires c !in s
    requires forall k :: 0 <= k < |groups| ==> c !in groups[k]
    ensures c !in Unbrace(s, groups)
  {
    if |groups| > 0 {
      var init := groups[..|groups| - 1];
      UnbraceAvoids(s, init, c);
      ReplaceAvoids(Unbrace(s, init), "{" + groups[|groups| - 1] + "}", groups[|groups| - 1], c);
    }
  }

  /** `[w.strip().replace("_", " ") for w in parts if w.strip()]`. */
  function Words(parts: seq<string>): (r: seq<string>)
    ensures forall k :: 0 <= k < |r| ==> |r[k]| > 0 && '_' !in r[k]
  {
    if |parts| == 0 then []
    else
      var t := Strip(parts[0]);
      if |t| > 0 then [ReplaceChar(t, '_', ' ')] + Words(parts[1..]) else Words(parts[1..])
  }

  lemma {:induction false} WordsAvoid(parts: seq<string>, c: char)
    requires c != ' '
    requires forall k :: 0 <= k < |parts| ==> c !in parts[k]
    ensures forall k :: 0 <= k < |Words(parts)| ==> c !in Words(parts)[k]
  {
    if |parts| > 0 {
      StripByChars(parts[0], IsSpace, c);
      WordsAvoid(parts[1..], c);
    }
  }

  /** Index of the first occurrence of `w` in `ws`. */
  function FirstIndex(ws: seq<string>, w: string): (i: nat)
    requires w in ws
    ensures i < |ws| && ws[i] == w
    ensures forall j :: 0 <= j < i ==> ws[j] != w
  {
    if ws[0] == w then 0 else 1 + FirstIndex(ws[1..], w)
  }

  /** `sorted(set(ws), key=ws.index)`: each distinct word once, in order of first occurrence. */
  function Dedupe(ws: seq<string>): (r: seq<string>)
    ensures forall w :: w in r <==> w in ws
    ensures forall i, j :: 0 <= i < j < |r| ==> r[i] != r[j]
    ensures forall i, j :: 0 <= i < j < |r| ==> FirstIndex(ws, r[i]) < FirstIndex(ws, r[j])
  {
    if |ws| == 0 then []
    else
      var init := ws[..|ws| - 1];
      var last := ws[|ws| - 1];
      var d := Dedupe(init);
      assert ws == init + [last];
      FirstIndexPrefix(init, last);
      if last in d then d
      else
        assert FirstIndex(ws, last) == |ws| - 1;
        d + [last]
  }

  /** Appending a word does not move the first occurrence of the words already there. */
  lemma FirstIndexPrefix(init: seq<string>, last: string)
    ensures forall w :: w in init ==> FirstIndex(init + [last], w) == FirstIndex(init, w)
  {
    forall w | w in init
      ensures FirstIndex(init + [last], w) == FirstIndex(init, w)
    {
      var i0 := FirstIndex(init, w);
      var i1 := FirstIndex(init + [last], w);
      assert forall j :: 0 <= j < |init| ==> (init + [last])[j] == init[j];
    }
  }

  /** The text `clean_metadata_prompt` splits into words, after every rewriting step. */
  function CleanedText(prompt: string): string {
    var s1 := RemoveWhere(prompt, IsBang);
    var s2 := RemoveModifiers(s1, 0);
    var s3 := Replace(Replace(s2, "::", ", "), "//", ", ");
    var s4 := UnderscoreBraces(s3, 0);
    Unbrace(s4, FindGroups(s4, 0))
  }

  /** What `clean_metadata_prompt` returns. */
  function CleanPromptSpec(prompt: string): seq<string> {
    Dedupe(Words(SplitWhere(CleanedText(prompt), IsWordBreak)))
  }

  /** No separator, underscore or emphasis mark survives in a cleaned word. */
  lemma CleanedTextAvoids(prompt: string, c: char)
    requires IsBang(c)
    ensures c !in CleanedText(prompt)
  {
    var s1 := RemoveWhere(prompt, IsBang);
    var s2 := RemoveModifiers(s1, 0);
    ReplaceAvoids(s2, "::", ", ", c);
    ReplaceAvoids(Replace(s2, "::", ", "), "//", ", ", c);
    var s3 := Replace(Replace(s2, "::", ", "), "//", ", ");
    var s4 := UnderscoreBraces(s3, 0);
    UnbraceAvoids(s4, FindGroups(s4, 0), c);
  }

  /** Every cleaned word is non-empty, has no `,` `:` `_` `~` `!`, and occurs once. */
  lemma CleanedWords(prompt: string)
    ensures forall k :: 0 <= k < |CleanPromptSpec(prompt)| ==>
      var w := CleanPromptSpec(prompt)[k];
      |w| > 0 && ',' !in w && ':' !in w && '_' !in w && '~' !in w && '!' !in w
    ensures forall i, j :: 0 <= i < j < |CleanPromptSpec(prompt)| ==> CleanPromptSpec(prompt)[i] != CleanPromptSpec(prompt)[j]
  {
    var t := CleanedText(prompt);
    var parts := SplitWhere(t, IsWordBreak);
    CleanedTextAvoids(prompt, '~');
    CleanedTextAvoids(prompt, '!');
    SplitWhereAvoids(t, IsWordBreak, '~');
    SplitWhereAvoids(t, IsWordBreak, '!');
    assert forall k :: 0 <= k < |parts| ==> ',' !in parts[k] && ':' !in parts[k];
    WordsAvoid(parts, '~');
    WordsAvoid(parts, '!');
    WordsAvoid(parts, ',');
    WordsAvoid(parts, ':');
    var ws := Words(parts);
    var r := Dedupe(ws);
    forall k | 0 <= k < |r|
      ensures |r[k]| > 0 && ',' !in r[k] && ':' !in r[k] && '_' !in r[k] && '~' !in r[k] && '!' !in r[k]
    {
      var i := FirstIndex(ws, r[k]);
      assert ws[i] == r[k];
    }
  }

  // ================================================================ process_prompts

  /** `metadata.get(k, default)`. */
  function Get(md: Metadata, k: string, default: Value): Value {
    if k in md then md[k] else default
  }

  /** Step 0: a raw `"Parameters"` entry is parsed, merged in and dropped. */
  function MergeParameters(md: Metadata): (r: Result<Metadata>)
    ensures r.Ok? ==> "Parameters" !in r.value
    ensures "Parameters" !in md ==> r == Ok(md)
  {
    if "Parameters" in md then
      match ParseParametersSpec(md["Parameters"])
      case Ok(parsed) => Ok((md + parsed) - {"Parameters"})
      case Err(e) => Err(e)
    else Ok(md)
  }

  /**
   * The positive prompts as a list: a string is split at commas, a list is taken as it
   * is, an empty dict iterates as nothing; indexing a non-empty dict with `[0]` raises
   * `KeyError`, and a number raises `TypeError`.
   */
  function PositiveList(v: Value): (r: Result<seq<string>>)
    ensures v.Str? ==> r == Ok(CommaList(v.s))
    ensures v.List? ==> r == Ok(v.items)
    ensures r.Err? <==> v.Int? || v.Float? || (v.Dict? && |v.entries| > 0)
  {
    match v
    case Str(s) => Ok(CommaList(s))
    case List(items) => Ok(items)
    case Dict(es) => if |es| == 0 then Ok([]) else Err("KeyError")
    case Int(_) => Err("TypeError")
    case Float(_, _) => Err("TypeError")
  }

  /** The negative prompt: a string becomes its comma list; anything else is kept. */
  function NegativeValue(v: Value): (r: Value)
    ensures !r.Str?
    ensures v.Str? ==> r == List(CommaList(v.s))
    ensures !v.Str? ==> r == v
  {
    if v.Str? then List(CommaList(v.s)) else v
  }

  /**
   * Step 1: when the first prompt holds a line break, it keeps only its stripped first
   * line, and the rest of the text, split at commas (pieces not stripped), is returned as
   * the second component.
   */
  function SplitFirstPrompt(positive: seq<string>): (seq<string>, seq<string>) {
    if |positive| > 0 && RunEnd(positive[0], 0, NotNewline) < |positive[0]| then
      var s := positive[0];
      var i := RunEnd(s, 0, NotNewline);
      (positive[0 := Strip(s[..i])], SplitChar(Strip(s[i + 1..]), ','))
    else (positive, [])
  }

  lemma SplitFirstPromptMeaning(positive: seq<string>)
    ensures var r := SplitFirstPrompt(positive);
      |r.0| == |positive| && (forall k :: 1 <= k < |positive| ==> r.0[k] == positive[k])
      && (|positive| > 0 && '\n' in positive[0] ==> '\n' !in r.0[0] && |r.1| > 0)
      && (!(|positive| > 0 && '\n' in positive[0]) ==> r == (positive, []))
  {
    if |positive| > 0 && RunEnd(positive[0], 0, NotNewline) < |positive[0]| {
      var s := positive[0];
      var i := RunEnd(s, 0, NotNewline);
      assert forall j :: 0 <= j < i ==> s[..i][j] == s[j];
      StripByChars(s[..i], IsSpace, '\n');
    } else {
      assert |positive| > 0 ==> '\n' !in positive[0];
    }
  }

  /** Index of the first token spelled `steps` in any case, or the length when none is. */
  function StepsToken(temp: seq<string>): (i: nat)
    ensures i <= |temp|
    ensures i < |temp| ==> Lower(temp[i]) == "steps"
  {
    if |temp| == 0 then 0 else if Lower(temp[0]) == "steps" then 0 else 1 + StepsToken(temp[1..])
  }

  /** No token before the one `StepsToken` finds is spelled `steps`. */
  lemma {:induction false} StepsTokenFirst(temp: seq<string>, j: nat)
    requires j < StepsToken(temp)
    ensures Lower(temp[j]) != "steps"
  {
    if j > 0 {
      StepsTokenFirst(temp[1..], j - 1);
    }
  }

  /**
   * Steps 2 and 3: the first `steps` token and the token after it leave their place, and
   * the pair comes back at the end as `"Steps", value`; a trailing `steps` token with no
   * value is dropped.
   */
  function MoveSteps(temp: seq<string>): seq<string> {
    var i := StepsToken(temp);
    if i == |temp| then temp
    else if i + 1 < |temp| then temp[..i] + temp[i + 2..] + ["Steps", temp[i + 1]]
    else temp[..i]
  }

  lemma MoveStepsMeaning(temp: seq<string>)
    ensures var i := StepsToken(temp);
      (i == |temp| ==> MoveSteps(temp) == temp)
      && (i + 1 == |temp| ==> MoveSteps(temp) == temp[..|temp| - 1])
      && (i + 1 < |temp| ==>
            |MoveSteps(temp)| == |temp| && MoveSteps(temp)[|temp| - 2..] == ["Steps", temp[i + 1]]
            && multiset(MoveSteps(temp)) == multiset(temp) - multiset{temp[i]} + multiset{"Steps"})
  {
    var i := StepsToken(temp);
    var r := MoveSteps(temp);
    if i + 1 < |temp| {
      var a, b := temp[..i], temp[i + 2..];
      assert r == a + b + ["Steps", temp[i + 1]];
      assert temp == a + [temp[i], temp[i + 1]] + b;
      MultisetSwap(a, temp[i], temp[i + 1], b);
    } else if i + 1 == |temp| {
      assert r == temp[..i];
    } else {
      assert r == temp;
    }
  }

  lemma MultisetSwap(a: seq<string>, x: string, y: string, b: seq<string>)
    ensures multiset(a + b + ["Steps", y]) == multiset(a + [x, y] + b) - multiset{x} + multiset{"Steps"}
    ensures (a + b + ["Steps", y])[|a| + |b|..] == ["Steps", y]
  {
    assert multiset(a + [x, y] + b) == multiset(a) + multiset{x, y} + multiset(b);
    assert multiset(a + b + ["Steps", y]) == multiset(a) + multiset(b) + multiset{"Steps", y};
  }

  /** The items whose `IsKeyValueItem` is `kv`, in order. */
  function Select(xs: seq<string>, kv: bool): (r: seq<string>)
    ensures forall k :: 0 <= k < |r| ==> IsKeyValueItem(r[k]) == kv
  {
    if |xs| == 0 then []
    else
      var rest := Select(xs[..|xs| - 1], kv);
      assert xs == xs[..|xs| - 1] + [xs[|xs| - 1]];
      if IsKeyValueItem(xs[|xs| - 1]) == kv then rest + [xs[|xs| - 1]] else rest
  }

  /** Step 4 splits the prompts into metadata items and prompts, losing and adding none. */
  lemma {:induction false} SelectPartition(xs: seq<string>)
    ensures multiset(Select(xs, true)) + multiset(Select(xs, false)) == multiset(xs)
    ensures forall x :: x in xs ==> x in Select(xs, IsKeyValueItem(x))
  {
    if |xs| > 0 {
      var init, last := xs[..|xs| - 1], xs[|xs| - 1];
      SelectPartition(init);
      assert xs == init + [last];
      assert multiset(xs) == multiset(init) + multiset{last};
      assert forall x :: x in xs ==> x in init || x == last;
      if IsKeyValueItem(last) {
        assert Select(xs, true) == Select(init, true) + [last] && Select(xs, false) == Select(init, false);
      } else {
        assert Select(xs, false) == Select(init, false) + [last] && Select(xs, true) == Select(init, true);
      }
    }
  }

  /** Step 5, one pair: item `i` normalised as the key, item `i + 1` stripped and coerced. */
  function PairAt(full: seq<string>, i: nat): (string, Value)
    requires i + 1 < |full|
  {
    (NormKey(full[i]), Coerce(Strip(full[i + 1])))
  }

  /** Step 5: the (key, value) pairs whose key item comes before item `i`, stepping by two. */
  function PairsTo(full: seq<string>, i: nat): (us: seq<(string, Value)>)
    requires i <= |full|
  {
    if i < 2 then [] else PairsTo(full, i - 2) + [PairAt(full, i - 2)]
  }

  /** Every pair written comes from two consecutive items. */
  lemma {:induction false} PairsToAt(full: seq<string>, i: nat, j: nat)
    requires i <= |full| && j < |PairsTo(full, i)|
    ensures exists t: nat :: t + 1 < |full| && PairsTo(full, i)[j] == PairAt(full, t)
  {
    assert i >= 2;
    var prev := PairsTo(full, i - 2);
    assert PairsTo(full, i) == prev + [PairAt(full, i - 2)];
    if j < |prev| {
      PairsToAt(full, i - 2, j);
      assert PairsTo(full, i)[j] == prev[j];
    } else {
      assert PairsTo(full, i)[j] == PairAt(full, i - 2);
    }
  }

  /** Every pair of consecutive items; an odd last item has no partner. */
  function Pairs(full: seq<string>): seq<(string, Value)> {
    PairsTo(full, |full| - |full| % 2)
  }

  /** The loop of step 5: the dict after storing the pairs whose key item comes before item `i`. */
  function StoreTo(full: seq<string>, i: nat): Metadata
    requires i <= |full|
  {
    if i < 2 then map[] else StoreTo(full, i - 2)[NormKey(full[i - 2]) := Coerce(Strip(full[i - 1]))]
  }

  /** Storing the pairs one by one is the dict update with all of them. */
  lemma {:induction false} StoreToAssign(full: seq<string>, i: nat)
    requires i <= |full|
    ensures StoreTo(full, i) == Assign(map[], PairsTo(full, i))
  {
    if i >= 2 {
      StoreToAssign(full, i - 2);
      AssignSnoc(map[], PairsTo(full, i - 2), NormKey(full[i - 2]), Coerce(Strip(full[i - 1])));
    }
  }

  /** Once the loop stops, every pair is stored; an odd last item is left alone. */
  lemma StoreToPairs(full: seq<string>, i: nat)
    requires i % 2 == 0 && i <= |full| <= i + 1
    ensures StoreTo(full, i) == Assign(map[], Pairs(full))
  {
    assert |full| - |full| % 2 == i;
    StoreToAssign(full, i);
  }

  lemma {:induction false} PairsToExtend(full: seq<string>, x: string, i: nat)
    requires i <= |full|
    ensures PairsTo(full + [x], i) == PairsTo(full, i)
  {
    if i >= 2 {
      PairsToExtend(full, x, i - 2);
      assert (full + [x])[i - 2] == full[i - 2] && (full + [x])[i - 1] == full[i - 1];
    }
  }

  /** An item without a partner at the end of the list adds no pair. */
  lemma PairsIgnoreOddTail(full: seq<string>, x: string)
    requires |full| % 2 == 0
    ensures Pairs(full + [x]) == Pairs(full)
  {
    assert |full + [x]| - |full + [x]| % 2 == |full|;
    PairsToExtend(full, x, |full|);
  }

  /** Step 6 and the final stores: `model_hash` moves into `hashes`; the prompts are written last. */
  function Finish(md: Metadata, fields: Metadata, prompts: seq<string>, negative: Value): (r: Metadata)
    ensures "hashes" in r && "positive_prompts" in r && "negative_prompt" in r
  {
    var hashes := if "model_hash" in fields then [("model", fields["model_hash"])] else [];
    (md + (fields - {"model_hash"}))["hashes" := Dict(hashes)]["positive_prompts" := List(prompts)]["negative_prompt" := negative]
  }

  /** The positive prompts and the metadata items of process_prompts, from the prompt list. */
  function PromptsAndItems(positive: seq<string>): (seq<string>, seq<string>) {
    var (prompts, temp) := SplitFirstPrompt(positive);
    (Select(prompts, false), Select(prompts, true) + MoveSteps(temp))
  }

  /** What `process_prompts` returns, or the exception it raises. */
  function ProcessPromptsSpec(md: Metadata): Result<Metadata> {
    match MergeParameters(md)
    case Err(e) => Err(e)
    case Ok(merged) =>
      match PositiveList(Get(merged, "positive_prompts", List([])))
      case Err(e) => Err(e)
      case Ok(positive) => Ok(PromptsResult(merged, positive))
  }

  /** Steps 1 to 6 and the final stores, on the merged metadata and its prompt list. */
  function PromptsResult(merged: Metadata, positive: seq<string>): Metadata {
    var (prompts, full) := PromptsAndItems(positive);
    var negative := NegativeValue(Get(merged, "negative_prompt", List([])));
    Finish(merged, Assign(map[], Pairs(full)), prompts, negative)
  }

  lemma SelectAll(xs: seq<string>, kv: bool)
    requires forall k :: 0 <= k < |xs| ==> IsKeyValueItem(xs[k]) == kv
    ensures Select(xs, kv) == xs && Select(xs, !kv) == []
  {
    if |xs| > 0 {
      SelectAll(xs[..|xs| - 1], kv);
      assert xs == xs[..|xs| - 1] + [xs[|xs| - 1]];
    }
  }

  /** A key the pairs write is a normalised key: lower case, so never `"Parameters"`. */
  lemma PairKeysNormal(full: seq<string>, k: string)
    requires k in Assign(map[], Pairs(full))
    ensures exists j :: 0 <= j < |full| && k == NormKey(full[j])
  {
    var us := Pairs(full);
    AssignKeys(map[], us, k);
    var j :| 0 <= j < |us| && us[j].0 == k;
    PairsToAt(full, |full| - |full| % 2, j);
    var t: nat :| t + 1 < |full| && us[j] == PairAt(full, t);
    assert k == NormKey(full[t]);
  }

  /** No key the pairs write has a capital letter. */
  lemma PairKeysLowerCase(full: seq<string>)
    ensures forall k :: k in Assign(map[], Pairs(full)) ==> forall i :: 0 <= i < |k| ==> !('A' <= k[i] <= 'Z')
  {
    forall k | k in Assign(map[], Pairs(full))
      ensures forall i :: 0 <= i < |k| ==> !('A' <= k[i] <= 'Z')
    {
      PairKeysNormal(full, k);
      var j :| 0 <= j < |full| && k == NormKey(full[j]);
      NormKeyShape(full[j]);
    }
  }

  /**
   * After steps 1 to 6: no `"Parameters"` entry comes back, the positive prompts are a
   * list holding no `key: value` item, `hashes` is a dict, and the negative prompt is no
   * longer a string.
   */
  lemma PromptsResultShape(merged: Metadata, positive: seq<string>)
    requires "Parameters" !in merged
    ensures var m := PromptsResult(merged, positive);
      "Parameters" !in m
      && "positive_prompts" in m && m["positive_prompts"].List?
      && (forall k :: 0 <= k < |m["positive_prompts"].items| ==> !IsKeyValueItem(m["positive_prompts"].items[k]))
      && "hashes" in m && m["hashes"].Dict?
      && "negative_prompt" in m && !m["negative_prompt"].Str?
  {
    var (prompts, full) := PromptsAndItems(positive);
    PairKeysLowerCase(full);
    assert "Parameters"[0] == 'P';
  }

  /** The same facts about `process_prompts` as a whole. */
  lemma ProcessPromptsShape(md: Metadata)
    requires ProcessPromptsSpec(md).Ok?
    ensures var m := ProcessPromptsSpec(md).value;
      "Parameters" !in m
      && "positive_prompts" in m && m["positive_prompts"].List?
      && (forall k :: 0 <= k < |m["positive_prompts"].items| ==> !IsKeyValueItem(m["positive_prompts"].items[k]))
      && "hashes" in m && m["hashes"].Dict?
      && "negative_prompt" in m && !m["negative_prompt"].Str?
  {
    var merged := MergeParameters(md).value;
    var positive := PositiveList(Get(merged, "positive_prompts", List([]))).value;
    assert ProcessPromptsSpec(md).value == PromptsResult(merged, positive);
    PromptsResultShape(merged, positive);
  }

  /** A `"Parameters"` entry that is not text (nor a dict holding text) makes `process_prompts` fail. */
  lemma ProcessPromptsBadParameters(md: Metadata)
    requires "Parameters" in md && ParametersText(md["Parameters"]).Err?
    ensures ProcessPromptsSpec(md) == Err("AttributeError")
  {
  }

  /** Without `"Parameters"`, only a positive prompt of the wrong type makes `process_prompts` fail. */
  lemma ProcessPromptsFails(md: Metadata)
    requires "Parameters" !in md
    ensures ProcessPromptsSpec(md).Err? <==>
      "positive_prompts" in md && (md["positive_prompts"].Int? || md["positive_prompts"].Float? ||
      (md["positive_prompts"].Dict? && |md["positive_prompts"].entries| > 0))
  {
  }

  /**
   * The metadata items pair up as key and value; the last pair with a key decides its
   * value, and a key no pair writes keeps its value.
   */
  lemma ProcessPromptsFields(md: Metadata, merged: Metadata, positive: seq<string>, k: string)
    requires MergeParameters(md) == Ok(merged)
    requires PositiveList(Get(merged, "positive_prompts", List([]))) == Ok(positive)
    requires k != "model_hash" && k != "hashes" && k != "positive_prompts" && k != "negative_prompt"
    ensures var m := ProcessPromptsSpec(md).value;
      var pairs := Pairs(PromptsAndItems(positive).1);
      (LastFor(pairs, k).Some? ==> k in m && m[k] == LastFor(pairs, k).value)
      && (LastFor(pairs, k).None? ==> (k in m <==> k in merged) && (k in merged ==> m[k] == merged[k]))
  {
    assert ProcessPromptsSpec(md).value == PromptsResult(merged, positive);
    PromptsResultFields(merged, positive, k);
  }

  lemma PromptsResultFields(merged: Metadata, positive: seq<string>, k: string)
    requires k != "model_hash" && k != "hashes" && k != "positive_prompts" && k != "negative_prompt"
    ensures var m := PromptsResult(merged, positive);
      var pairs := Pairs(PromptsAndItems(positive).1);
      (LastFor(pairs, k).Some? ==> k in m && m[k] == LastFor(pairs, k).value)
      && (LastFor(pairs, k).None? ==> (k in m <==> k in merged) && (k in merged ==> m[k] == merged[k]))
  {
    var pairs := Pairs(PromptsAndItems(positive).1);
    AssignKeys(map[], pairs, k);
    if LastFor(pairs, k).Some? {
      AssignLastWins(map[], pairs, k);
    }
  }

  /** `hashes` holds the value of the last `model_hash` pair under `model`, or nothing. */
  lemma ProcessPromptsModelHash(md: Metadata, merged: Metadata, positive: seq<string>)
    requires MergeParameters(md) == Ok(merged)
    requires PositiveList(Get(merged, "positive_prompts", List([]))) == Ok(positive)
    ensures var pairs := Pairs(PromptsAndItems(positive).1);
      ProcessPromptsSpec(md).value["hashes"] == Dict(match LastFor(pairs, "model_hash") case Some(v) => [("model", v)] case None => [])
  {
    assert ProcessPromptsSpec(md).value == PromptsResult(merged, positive);
    var pairs := Pairs(PromptsAndItems(positive).1);
    AssignKeys(map[], pairs, "model_hash");
    if LastFor(pairs, "model_hash").Some? {
      AssignLastWins(map[], pairs, "model_hash");
    }
  }

  /** A list of plain prompts whose first has no line break comes back as it was, with no hashes. */
  lemma ProcessPromptsPlainList(md: Metadata, items: seq<string>)
    requires "Parameters" !in md && "positive_prompts" in md && md["positive_prompts"] == List(items)
    requires |items| > 0 ==> '\n' !in items[0]
    requires forall k :: 0 <= k < |items| ==> !IsKeyValueItem(items[k])
    ensures ProcessPromptsSpec(md).Ok?
    ensures ProcessPromptsSpec(md).value["positive_prompts"] == List(items)
    ensures ProcessPromptsSpec(md).value["hashes"] == Dict([])
  {
    assert MergeParameters(md) == Ok(md);
    assert ProcessPromptsSpec(md) == Ok(PromptsResult(md, items));
    SelectAll(items, false);
    assert PromptsAndItems(items).1 == [];
  }

  // ================================================================ process_steps

  /** One entry of the `steps` list: a `key: value` entry stores the value text, a bare number stores `steps`. */
  function StepEntry(d: Metadata, entry: string): Metadata {
    match MatchField(entry)
    case Some(m) => d[NormKey(m.key) := Str(Strip(m.value))]
    case None => if IsDigits(entry) then d["steps" := Int(DigitsValue(entry))] else d
  }

  /** `steps_dict` after the first `n` entries. */
  function StepsFold(es: seq<string>, n: nat): Metadata
    requires n <= |es|
  {
    if n == 0 then map[] else StepEntry(StepsFold(es, n - 1), es[n - 1])
  }

  /** What `process_steps` returns. */
  function ProcessStepsSpec(md: Metadata): Metadata {
    if "steps" in md && md["steps"].List? then (md + StepsFold(md["steps"].items, |md["steps"].items|)) - {"steps"} else md
  }

  /** Every key of `steps_dict` is `steps` holding an int, or a normalised key holding text. */
  lemma {:induction false} StepsFoldShape(es: seq<string>, n: nat, k: string)
    requires n <= |es| && k in StepsFold(es, n)
    ensures (k == "steps" && StepsFold(es, n)[k].Int?) || (StepsFold(es, n)[k].Str? && NormKey(k) == k)
  {
    var d := StepsFold(es, n - 1);
    var e := es[n - 1];
    assert StepsFold(es, n) == StepEntry(d, e);
    match MatchField(e)
    case Some(m) =>
      assert StepsFold(es, n) == d[NormKey(m.key) := Str(Strip(m.value))];
      if k == NormKey(m.key) {
        NormKeyIdempotent(m.key);
      } else {
        StepsFoldShape(es, n - 1, k);
      }
    case None =>
      if !(IsDigits(e) && k == "steps") {
        assert k in d && StepsFold(es, n)[k] == d[k];
        StepsFoldShape(es, n - 1, k);
      }
  }

  /**
   * After `process_steps` on a list: `steps` is gone, and every value it added or changed
   * is text (the int and float conversions are overwritten by the text).
   */
  lemma ProcessStepsAddsText(md: Metadata, k: string)
    requires "steps" in md && md["steps"].List?
    ensures "steps" !in ProcessStepsSpec(md)
    ensures k in ProcessStepsSpec(md) ==>
      (k in md && ProcessStepsSpec(md)[k] == md[k]) || (ProcessStepsSpec(md)[k].Str? && NormKey(k) == k)
  {
    var es := md["steps"].items;
    if k in StepsFold(es, |es|) {
      StepsFoldShape(es, |es|, k);
    }
  }

  lemma {:induction false} StepsFoldOnlySteps(es: seq<string>, n: nat)
    requires n <= |es|
    requires forall k :: 0 <= k < |es| ==> MatchField(es[k]).None?
    ensures StepsFold(es, n).Keys <= {"steps"}
  {
    if n > 0 {
      StepsFoldOnlySteps(es, n - 1);
    }
  }

  /** A list of bare numbers is simply dropped: the `steps` int it sets is deleted with the list. */
  lemma ProcessStepsDropsNumbers(md: Metadata)
    requires "steps" in md && md["steps"].List?
    requires forall k :: 0 <= k < |md["steps"].items| ==> MatchField(md["steps"].items[k]).None?
    ensures ProcessStepsSpec(md) == md - {"steps"}
  {
    StepsFoldOnlySteps(md["steps"].items, |md["steps"].items|);
  }

  // ================================================================ extract_metadata

  const ImageExtensions: seq<string> := [".jpg", ".jpeg", ".png", ".webp", ".tiff"]

  /** `image_path.replace(ext, ".txt")`, component by component (the extension holds no separator). */
  function TxtPath(p: Path, ext: string): (r: Path)
    requires |ext| > 0
    ensures |r| == |p|
  {
    seq(|p|, i requires 0 <= i < |p| => Replace(p[i], ext, ".txt"))
  }

  /** The JSON file: `<stem>.json` in the metadata folder, or beside the image when there is none. */
  function JsonPath(folder: Path, imagePath: Path): (r: Path)
    ensures Basename(r) == Stem(Basename(imagePath)) + ".json"
    ensures Dirname(r) == if |folder| > 0 then folder else Dirname(imagePath)
  {
    var dir := if |folder| > 0 then folder else Dirname(imagePath);
    assert (dir + [Stem(Basename(imagePath)) + ".json"])[..|dir|] == dir;
    dir + [Stem(Basename(imagePath)) + ".json"]
  }

  /**
   * The metadata to process: ExifTool's, unless it reports `"Error"`; then the parsed
   * sidecar text, or nothing when there is no sidecar.
   */
  function SourceMetadata(imagePath: Path, ext: string, exif: Metadata, files: map<Path, string>): Option<Metadata>
    requires |ext| > 0
  {
    if "Error" in exif then
      var txt := TxtPath(imagePath, ext);
      if txt in files then Some(ParseText(Strip(files[txt]))) else None
    else Some(exif)
  }

  /** The `"Hashes"` JSON text replaces `hashes` when it decodes; the raw entry is dropped either way. */
  function FixHashes(md: Metadata, decode: string -> Option<Value>): (r: Result<Metadata>)
    ensures r.Ok? ==> "Hashes" !in r.value
    ensures r.Err? <==> "Hashes" in md && !md["Hashes"].Str?
  {
    if "Hashes" !in md then Ok(md)
    else
      match md["Hashes"]
      case Str(s) =>
        var m := match decode(s) case Some(v) => md["hashes" := v] case None => md;
        Ok(m - {"Hashes"})
      case _ => Err("TypeError")
  }

  /** Decoding the hashes changes no key but `hashes` and `Hashes`. */
  lemma FixHashesKeeps(md: Metadata, decode: string -> Option<Value>, k: string)
    requires FixHashes(md, decode).Ok? && k != "hashes" && k != "Hashes"
    ensures k in FixHashes(md, decode).value <==> k in md
    ensures k in md ==> FixHashes(md, decode).value[k] == md[k]
  {
  }

  /**
   * What `extract_metadata` returns: `None` for `{}`, or the metadata and the JSON path it
   * is written to; `Err` for an exception it lets through.
   */
  function ExtractMetadataSpec(folder: Path, imagePath: Path, exif: Metadata, files: map<Path, string>,
                               decode: string -> Option<Value>): Result<Option<(Metadata, Path)>>
  {
    var ext := SplitExtPath(imagePath).1;
    if Lower(ext) !in ImageExtensions then Ok(None)
    else
      match SourceMetadata(imagePath, ext, exif, files)
      case None => Ok(None)
      case Some(m0) => ProcessedResult(folder, imagePath, m0, decode)
  }

  /** What `extract_metadata` makes of the metadata it read: prompts, steps, then hashes. */
  function ProcessedResult(folder: Path, imagePath: Path, m0: Metadata,
                           decode: string -> Option<Value>): Result<Option<(Metadata, Path)>>
  {
    match ProcessPromptsSpec(m0)
    case Err(e) => Err(e)
    case Ok(m1) =>
      match FixHashes(ProcessStepsSpec(m1), decode)
      case Err(e) => Err(e)
      case Ok(m) => Ok(Some((m, JsonPath(folder, imagePath))))
  }

  class MetadataExtractor {
    /** `metadata_folder`; `[]` when none (or an empty one) was given. */
    const metadataFolder: Path

    constructor(metadataFolder: Path)
      ensures this.metadataFolder == metadataFolder
    {
      this.metadataFolder := metadataFolder;
    }

    /** `MetadataExtractor.clean_metadata_prompt`. */
    static method CleanMetadataPrompt(prompt: string) returns (words: seq<string>)
      ensures words == CleanPromptSpec(prompt)
    {
      var p := RemoveWhere(prompt, IsBang);
      p := RemoveModifiers(p, 0);
      p := Replace(Replace(p, "::", ", "), "//", ", ");
      p := UnderscoreBraces(p, 0);
      var groups := FindGroups(p, 0);
      ghost var start := p;
      for k := 0 to |groups|
        invariant p == Unbrace(start, groups[..k])
      {
        var group := groups[k];
        var items := SplitOn(group, ", ");
        var replacement := JoinWith(items, ", ");
        JoinSplit(group, ", ");
        assert groups[..k + 1][..k] == groups[..k];
        p := Replace(p, "{" + group + "}", replacement);
      }
      assert groups[..|groups|] == groups;
      var parts := SplitWhere(p, IsWordBreak);
      var cleaned := Words(parts);
      words := Dedupe(cleaned);
    }

    /** `MetadataExtractor.process_prompts`. */
    method ProcessPrompts(metadata: Metadata) returns (r: Result<Metadata>)
      ensures r == ProcessPromptsSpec(metadata)
    {
      var merged := MergeStep(metadata);
      if merged.Err? {
        return Err(merged.error);
      }
      var md := merged.value;
      var value := if "positive_prompts" in md then md["positive_prompts"] else List([]);
      var positive := PromptList(value);
      if positive.Err? {
        return Err(positive.error);
      }
      md := PromptSteps(md, positive.value);
      r := Ok(md);
    }

    /** The positive prompts as a list, or the exception that reading them raises. */
    static method PromptList(value: Value) returns (r: Result<seq<string>>)
      ensures r == PositiveList(value)
    {
      match value {
        case Str(s) => r := Ok(CommaList(s));
        case List(items) => r := Ok(items);
        case Dict(es) =>
          if |es| > 0 {
            return Err("KeyError");
          }
          r := Ok([]);
        case Int(_) => r := Err("TypeError");
        case Float(_, _) => r := Err("TypeError");
      }
    }

    /** Step 0 of `process_prompts`: the raw `"Parameters"` entry is parsed and merged. */
    static method MergeStep(metadata: Metadata) returns (r: Result<Metadata>)
      ensures r == MergeParameters(metadata)
    {
      var md := metadata;
      if "Parameters" in md {
        var parsed := ParseParameters(md["Parameters"]);
        if parsed.Err? {
          return Err(parsed.error);
        }
        md := md + parsed.value;
        md := md - {"Parameters"};
      }
      r := Ok(md);
    }

    /** Steps 1 to 6 of `process_prompts` and its final stores. */
    static method PromptSteps(merged: Metadata, positive: seq<string>) returns (md: Metadata)
      ensures md == PromptsResult(merged, positive)
    {
      md := merged;
      var negative := if "negative_prompt" in md then md["negative_prompt"] else List([]);
      if negative.Str? {
        negative := List(CommaList(negative.s));
      }
      // Steps 1 to 3: a line break in the first prompt starts metadata items; `Steps` moves last.
      var split := SplitFirstPrompt(positive);
      var temp := MoveSteps(split.1);
      var extracted, cleaned := PartitionPrompts(split.0);
      assert (cleaned, extracted + temp) == PromptsAndItems(positive);
      var stored := StorePairFields(extracted + temp);
      md := StoreResults(md, stored, cleaned, negative);
    }

    /** Step 6 of `process_prompts` and the final stores. */
    static method StoreResults(merged: Metadata, stored: Metadata, cleaned: seq<string>, negative: Value) returns (md: Metadata)
      ensures md == Finish(merged, stored, cleaned, negative)
    {
      var fields, hashes := MoveModelHash(stored);
      md := merged + fields;
      md := md["hashes" := Dict(hashes)];
      md := md["positive_prompts" := List(cleaned)];
      md := md["negative_prompt" := negative];
    }

    /** Step 4 of `process_prompts`: key-value items leave the prompts. */
    static method PartitionPrompts(positive: seq<string>) returns (extracted: seq<string>, cleaned: seq<string>)
      ensures extracted == Select(positive, true) && cleaned == Select(positive, false)
    {
      extracted, cleaned := [], [];
      for k := 0 to |positive|
        invariant extracted == Select(positive[..k], true) && cleaned == Select(positive[..k], false)
      {
        assert positive[..k + 1][..k] == positive[..k];
        if IsKeyValueItem(positive[k]) {
          extracted := extracted + [positive[k]];
        } else {
          cleaned := cleaned + [positive[k]];
        }
      }
      assert positive[..|positive|] == positive;
    }

    /** Step 5 of `process_prompts`: consecutive items are key and value. */
    static method StorePairFields(full: seq<string>) returns (fields: Metadata)
      ensures fields == Assign(map[], Pairs(full))
    {
      fields := map[];
      var i := 0;
      while i + 1 < |full|
        invariant i % 2 == 0 && i <= |full|
        invariant fields == StoreTo(full, i)
      {
        var key := NormKey(full[i]);
        var value := Coerce(Strip(full[i + 1]));
        fields := fields[key := value];
        i := i + 2;
      }
      StoreToPairs(full, i);
    }

    /** The model hash moves into `hashes`. */
    static method MoveModelHash(stored: Metadata) returns (fields: Metadata, hashes: seq<(string, Value)>)
      ensures fields == stored - {"model_hash"}
      ensures hashes == if "model_hash" in stored then [("model", stored["model_hash"])] else []
    {
      fields := stored;
      hashes := [];
      if "model_hash" in fields {
        hashes := [("model", fields["model_hash"])];
        fields := fields - {"model_hash"};
      } else {
        assert fields - {"model_hash"} == fields;
      }
    }

    /** `MetadataExtractor.process_steps`. */
    method ProcessSteps(metadata: Metadata) returns (r: Metadata)
      ensures r == ProcessStepsSpec(metadata)
    {
      r := metadata;
      if "steps" in r && r["steps"].List? {
        var entries := r["steps"].items;
        var stepsDict: Metadata := map[];
        for k := 0 to |entries|
          invariant stepsDict == StepsFold(entries, k)
        {
          var entry := entries[k];
          var m := MatchField(entry);
          if m.Some? {
            var key := NormKey(m.value.key);
            stepsDict := stepsDict[key := Str(Strip(m.value.value))];
          } else if IsDigits(entry) {
            stepsDict := stepsDict["steps" := Int(DigitsValue(entry))];
          }
        }
        r := r + stepsDict;
        r := r - {"steps"};
      }
    }

    /**
     * `MetadataExtractor.extract_metadata`: `exif` is what ExifTool reports for the image,
     * `files` the text files on disk, `decode` the JSON decoder (`None` when it fails).
     */
    method ExtractMetadata(imagePath: Path, exif: Metadata, files: map<Path, string>, decode: string -> Option<Value>)
      returns (r: Result<Option<(Metadata, Path)>>)
      ensures r == ExtractMetadataSpec(metadataFolder, imagePath, exif, files, decode)
    {
      var ext := SplitExtPath(imagePath).1;
      if Lower(ext) !in ImageExtensions {
        return Ok(None);
      }
      var metadata := exif;
      if "Error" in exif {
        var txtPath := TxtPath(imagePath, ext);
        if txtPath !in files {
          return Ok(None);
        }
        var parsed := ParseParameters(Str(Strip(files[txtPath])));
        metadata := parsed.value;
      }
      assert SourceMetadata(imagePath, ext, exif, files) == Some(metadata);
      r := ProcessMetadata(imagePath, metadata, decode);
    }

    /** The part of `extract_metadata` after the metadata is read. */
    method ProcessMetadata(imagePath: Path, metadata: Metadata, decode: string -> Option<Value>)
      returns (r: Result<Option<(Metadata, Path)>>)
      ensures r == ProcessedResult(metadataFolder, imagePath, metadata, decode)
    {
      var processed := ProcessPrompts(metadata);
      if processed.Err? {
        return Err(processed.error);
      }
      var stepped := ProcessSteps(processed.value);
      var fixed := DecodeHashes(stepped, decode);
      if fixed.Err? {
        return Err(fixed.error);
      }
      r := Ok(Some((fixed.value, JsonPath(metadataFolder, imagePath))));
    }

    /** The end of `extract_metadata`: the `"Hashes"` text is decoded into `hashes`. */
    static method DecodeHashes(md: Metadata, decode: string -> Option<Value>) returns (r: Result<Metadata>)
      ensures r == FixHashes(md, decode)
    {
      var metadata := md;
      if "Hashes" in metadata {
        match metadata["Hashes"] {
          case Str(s) =>
            match decode(s) {
              case Some(v) => metadata := metadata["hashes" := v];
              case None =>
            }
          case _ => return Err("TypeError");
        }
        metadata := metadata - {"Hashes"};
      }
      r := Ok(metadata);
    }
  }

  /** Files whose extension, in any case, is not an image extension give `{}`. */
  lemma ExtractSkipsOtherFiles(folder: Path, imagePath: Path, exif: Metadata, files: map<Path, string>, decode: string -> Option<Value>)
    requires Lower(SplitExtPath(imagePath).1) !in ImageExtensions
    ensures ExtractMetadataSpec(folder, imagePath, exif, files, decode) == Ok(None)
  {
  }

  /** When ExifTool fails and no sidecar text exists, the result is `{}`. */
  lemma ExtractNeedsSidecar(folder: Path, imagePath: Path, exif: Metadata, files: map<Path, string>, decode: string -> Option<Value>)
    requires "Error" in exif
    requires Lower(SplitExtPath(imagePath).1) in ImageExtensions
    requires TxtPath(imagePath, SplitExtPath(imagePath).1) !in files
    ensures ExtractMetadataSpec(folder, imagePath, exif, files, decode) == Ok(None)
  {
  }

  /**
   * Saved metadata holds neither raw `"Parameters"` nor raw `"Hashes"`, and is written
   * to `<stem>.json` in the metadata folder or beside the image.
   */
  lemma ExtractResult(folder: Path, imagePath: Path, exif: Metadata, files: map<Path, string>, decode: string -> Option<Value>)
    requires ExtractMetadataSpec(folder, imagePath, exif, files, decode).Ok?
    requires ExtractMetadataSpec(folder, imagePath, exif, files, decode).value.Some?
    ensures var (m, jsonPath) := ExtractMetadataSpec(folder, imagePath, exif, files, decode).value.value;
      "Parameters" !in m && "Hashes" !in m && "positive_prompts" in m
      && Basename(jsonPath) == Stem(Basename(imagePath)) + ".json"
      && Dirname(jsonPath) == (if |folder| > 0 then folder else Dirname(imagePath))
  {
    var ext := SplitExtPath(imagePath).1;
    var m0 := SourceMetadata(imagePath, ext, exif, files).value;
    assert ExtractMetadataSpec(folder, imagePath, exif, files, decode) == ProcessedResult(folder, imagePath, m0, decode);
    ProcessedResultShape(folder, imagePath, m0, decode);
  }

  lemma ProcessedResultShape(folder: Path, imagePath: Path, m0: Metadata, decode: string -> Option<Value>)
    requires ProcessedResult(folder, imagePath, m0, decode).Ok?
    ensures var (m, jsonPath) := ProcessedResult(folder, imagePath, m0, decode).value.value;
      "Parameters" !in m && "Hashes" !in m && "positive_prompts" in m
      && Basename(jsonPath) == Stem(Basename(imagePath)) + ".json"
      && Dirname(jsonPath) == (if |folder| > 0 then folder else Dirname(imagePath))
  {
    var m1 := ProcessPromptsSpec(m0).value;
    ProcessPromptsShape(m0);
    var m2 := ProcessStepsSpec(m1);
    if "steps" in m1 && m1["steps"].List? {
      ProcessStepsAddsText(m1, "Parameters");
      ProcessStepsAddsText(m1, "positive_prompts");
    }
    assert "Parameters" !in m2 && "positive_prompts" in m2;
    FixHashesKeeps(m2, decode, "Parameters");
    FixHashesKeeps(m2, decode, "positive_prompts");
  }
}
