/**
 * Resolution buckets. `resolution_folders` maps folder names to `"WxH"` texts (or to the float
 * `inf`); two classifiers pick a folder for an image's pixel count: the string variant of
 * `sort_by_resolution`, which parses every threshold itself and skips bad ones, and the
 * `CustomSorter` variant, which works on pre-parsed pixel counts and may fall back to
 * `superlow`/`superhigh`. Tables keep the dictionary's insertion order as a sequence.
 */
module Resolution {
  import opened Wrappers
  import opened Text

  // ---------------------------------------------------------------- thresholds

  /** A pixel-count threshold: a whole number, or the float `inf` of the default table. */
  datatype Threshold = Finite(pixels: int) | Infinite

  /** `total_pixels <= threshold`. */
  predicate Within(total: int, t: Threshold) {
    t.Infinite? || total <= t.pixels
  }

  /** `total_pixels < threshold`. */
  predicate Below(total: int, t: Threshold) {
    t.Infinite? || total < t.pixels
  }

  /** `total_pixels > threshold`. */
  predicate Above(total: int, t: Threshold) {
    t.Finite? && total > t.pixels
  }

  /** Order of thresholds, `inf` above every number. */
  predicate AtMost(a: Threshold, b: Threshold) {
    b.Infinite? || (a.Finite? && a.pixels <= b.pixels)
  }

  /** A configured `resolution_folders` value: a `"WxH"` text, or the float `inf`. */
  datatype Dimension = Sized(text: string) | Unbounded

  /** `map(int, s.split('x'))` unpacked into exactly two integers, multiplied; `None` for `ValueError`. */
  function ParseWxH(s: string): (r: Option<int>)
  {
    var parts := SplitChar(s, 'x');
    if |parts| == 2 && ParseInt(parts[0]).Some? && ParseInt(parts[1]).Some? then
      Some(ParseInt(parts[0]).value * ParseInt(parts[1]).value)
    else None
  }

  /** Two digit strings around one `x` parse to the product of their values. */
  lemma ParseWxHDigits(w: string, h: string)
    requires IsDigits(w) && IsDigits(h)
    ensures ParseWxH(w + "x" + h) == Some(DigitsValue(w) * DigitsValue(h))
  {
    assert 'x' !in w && 'x' !in h by {
      assert !IsDigit('x');
    }
    SplitCharOnce(w, 'x', h);
  }

  /** `"WxH"` built from two numbers parses back to their product. */
  lemma ParseWxHOf(w: int, h: int)
    ensures ParseWxH(IntStr(w) + "x" + IntStr(h)) == Some(w * h)
  {
    var sw, sh := IntStr(w), IntStr(h);
    ParseIntStr(w);
    ParseIntStr(h);
    IntStrNoX(w);
    IntStrNoX(h);
    SplitCharOnce(sw, 'x', sh);
  }

  /** `str(i)` is a sign and digits, so it has no `x`. */
  lemma IntStrNoX(i: int)
    ensures 'x' !in IntStr(i)
  {
    assert !IsDigit('x');
    if i < 0 {
      NatStrDigits(-i);
      assert IntStr(i) == "-" + NatStr(-i);
    } else {
      NatStrDigits(i);
    }
  }

  /** Text with no `x`, or with two or more, is not a threshold. */
  lemma ParseWxHNeedsOneX(s: string)
    requires |SplitChar(s, 'x')| != 2
    ensures ParseWxH(s) == None
  {
  }

  // ---------------------------------------------------------------- parse_pixel_dimensions

  /**
   * `parse_pixel_dimensions` of the top-level `CustomSorter` as written: a text is split and
   * multiplied (`ValueError` when malformed); the float `inf` has no `split`, and the
   * `AttributeError` it raises is not the `ValueError` the handler catches.
   */
  function ParsePixelDimensionsAsWritten(d: Dimension): (r: Result<int>)
    ensures d.Unbounded? ==> r == Err("AttributeError")
    ensures d.Sized? ==> (r.Ok? <==> ParseWxH(d.text).Some?)
    ensures r.Ok? ==> r.value == ParseWxH(d.text).value
  {
    match d
    case Unbounded => Err("AttributeError")
    case Sized(t) => if ParseWxH(t).Some? then Ok(ParseWxH(t).value) else Err("ValueError")
  }

  /**
   * `parse_pixel_dimensions` of the script `CustomSorter`: a float is passed through, so `inf`
   * becomes the `Infinite` threshold; a text must be exactly two integers around one `x`.
   */
  function ParsePixelDimensions(d: Dimension): (r: Result<Threshold>)
    ensures d.Unbounded? ==> r == Ok(Infinite)
    ensures d.Sized? ==> (r.Ok? <==> ParseWxH(d.text).Some?)
    ensures d.Sized? && r.Ok? ==> r.value == Finite(ParseWxH(d.text).value)
    ensures r.Err? ==> r.error == "ValueError"
  {
    match d
    case Unbounded => Ok(Infinite)
    case Sized(t) => if ParseWxH(t).Some? then Ok(Finite(ParseWxH(t).value)) else Err("ValueError")
  }

  /** Every text the as-written parser accepts, the script parser accepts with the same count. */
  lemma ParsersAgreeOnText(t: string)
    ensures ParsePixelDimensionsAsWritten(Sized(t)).Ok? <==> ParsePixelDimensions(Sized(t)).Ok?
    ensures ParsePixelDimensionsAsWritten(Sized(t)).Ok? ==>
      ParsePixelDimensions(Sized(t)).value == Finite(ParsePixelDimensionsAsWritten(Sized(t)).value)
  {
  }

  /**
   * The dictionary comprehension `{folder: parse_pixel_dimensions(d) ...}`: every entry is
   * parsed in order, and the first error propagates out of the constructor.
   */
  function ParseThresholds(folders: seq<(string, Dimension)>): (r: Result<seq<(string, Threshold)>>)
    ensures r.Ok? ==> |r.value| == |folders|
  {
    if |folders| == 0 then Ok([])
    else match ParsePixelDimensions(folders[|folders| - 1].1)
      case Err(e) => Err(e)
      case Ok(t) =>
        match ParseThresholds(folders[..|folders| - 1])
        case Err(e) => Err(e)
        case Ok(init) => Ok(init + [(folders[|folders| - 1].0, t)])
  }

  /** Parsing keeps the folder names and order, and parses each entry on its own. */
  lemma {:induction false} ParseThresholdsEntries(folders: seq<(string, Dimension)>)
    ensures ParseThresholds(folders).Ok? <==> forall i :: 0 <= i < |folders| ==> ParsePixelDimensions(folders[i].1).Ok?
    ensures ParseThresholds(folders).Ok? ==> forall i :: 0 <= i < |folders| ==>
      ParseThresholds(folders).value[i] == (folders[i].0, ParsePixelDimensions(folders[i].1).value)
  {
    if |folders| > 0 {
      var init := folders[..|folders| - 1];
      ParseThresholdsEntries(init);
      assert forall i :: 0 <= i < |init| ==> init[i] == folders[i];
    }
  }

  /** A table that fails to parse fails with the `ValueError` of one of its entries. */
  lemma {:induction false} ParseThresholdsError(folders: seq<(string, Dimension)>)
    ensures ParseThresholds(folders).Err? ==> ParseThresholds(folders).error == "ValueError"
  {
    if |folders| > 0 {
      ParseThresholdsError(folders[..|folders| - 1]);
    }
  }

  /** `default_resolution_folders`, used when `resolution_folders` is missing or empty. */
  const DefaultResolutionFolders: seq<(string, Dimension)> := [
    ("superlow", Sized("0x0")),
    ("lores", Sized("512x512")),
    ("medres", Sized("640x960")),
    ("hires", Sized("1080x1920")),
    ("superhigh", Unbounded)
  ]

  /** `resolution_folders` when configured, else the defaults (an empty table counts as missing). */
  function ResolutionFolders(configured: Option<seq<(string, Dimension)>>): (r: seq<(string, Dimension)>)
    ensures |r| > 0
    ensures configured.Some? && |configured.value| > 0 ==> r == configured.value
  {
    if configured.Some? && |configured.value| > 0 then configured.value else DefaultResolutionFolders
  }

  /** The pixel counts of `default_resolution_folders`, in order. */
  const DefaultThresholdValues: seq<Threshold> :=
    [Finite(0), Finite(262144), Finite(614400), Finite(2073600), Infinite]

  /**
   * The default table parses, keeping its folder names, to 0, 262144, 614400 and 2073600 pixels
   * and `inf`.
   */
  lemma DefaultThresholds(folders: seq<(string, Dimension)>)
    requires folders == DefaultResolutionFolders
    ensures ParseThresholds(folders).Ok?
    ensures forall i :: 0 <= i < |folders| ==>
      ParseThresholds(folders).value[i] == (folders[i].0, DefaultThresholdValues[i])
  {
    var t := DefaultThresholdValues;
    forall i | 0 <= i < |folders| ensures ParsePixelDimensions(folders[i].1) == Ok(t[i]) {
      if i == 0 {
        ParsesToSuperlow(folders[0].1.text);
      } else if i == 1 {
        ParsesToLores(folders[1].1.text);
      } else if i == 2 {
        ParsesToMedres(folders[2].1.text);
      } else if i == 3 {
        ParsesToHires(folders[3].1.text);
      }
    }
    ParseThresholdsEntries(folders);
  }

  /** `"0x0"` is 0 pixels. */
  lemma ParsesToSuperlow(t: string)
    requires t == "0x0"
    ensures ParseWxH(t) == Some(0)
  {
    var w, h := t[..1], t[2..];
    assert t == w + "x" + h;
    ParseWxHDigits(w, h);
  }

  /** `"512x512"` is 262144 pixels. */
  lemma ParsesToLores(t: string)
    requires t == "512x512"
    ensures ParseWxH(t) == Some(262144)
  {
    var w, h := t[..3], t[4..];
    assert t == w + "x" + h;
    DigitsValue3(w);
    DigitsValue3(h);
    ParseWxHDigits(w, h);
  }

  /** `"640x960"` is 614400 pixels. */
  lemma ParsesToMedres(t: string)
    requires t == "640x960"
    ensures ParseWxH(t) == Some(614400)
  {
    var w, h := t[..3], t[4..];
    assert t == w + "x" + h;
    DigitsValue3(w);
    DigitsValue3(h);
    ParseWxHDigits(w, h);
  }

  /** `"1080x1920"` is 2073600 pixels. */
  lemma ParsesToHires(t: string)
    requires t == "1080x1920"
    ensures ParseWxH(t) == Some(2073600)
  {
    var w, h := t[..4], t[5..];
    assert t == w + "x" + h;
    DigitsValue4(w);
    DigitsValue4(h);
    ParseWxHDigits(w, h);
  }

  lemma DigitsValue3(s: string)
    requires IsDigits(s) && |s| == 3
    ensures DigitsValue(s) == 100 * DigitValue(s[0]) + 10 * DigitValue(s[1]) + DigitValue(s[2])
  {
    var s2, s1 := s[..2], s[..1];
    assert s2[..1] == s1 && s1[..0] == [];
    assert DigitsValue(s) == DigitsValue(s2) * 10 + DigitValue(s[2]);
    assert DigitsValue(s2) == DigitsValue(s1) * 10 + DigitValue(s[1]);
    assert DigitsValue(s1) == DigitValue(s[0]);
  }

  lemma DigitsValue4(s: string)
    requires IsDigits(s) && |s| == 4
    ensures DigitsValue(s) == 1000 * DigitValue(s[0]) + 100 * DigitValue(s[1]) + 10 * DigitValue(s[2]) + DigitValue(s[3])
  {
    var s3 := s[..3];
    assert DigitsValue(s) == DigitsValue(s3) * 10 + DigitValue(s[3]);
    DigitsValue3(s3);
  }

  /** With the as-written parser the default table cannot be parsed: its `inf` entry raises. */
  lemma DefaultTableBreaksAsWritten()
    ensures DefaultResolutionFolders[4] == ("superhigh", Unbounded)
    ensures ParsePixelDimensionsAsWritten(DefaultResolutionFolders[4].1) == Err("AttributeError")
  {
  }

  // ---------------------------------------------------------------- the string variant

  /** A `"WxH"` entry is valid and its product is at least the pixel count. */
  predicate FitsText(total: int, entry: (string, string)) {
    ParseWxH(entry.1).Some? && total <= ParseWxH(entry.1).value
  }

  /**
   * `get_resolution_folder(total_pixels, resolution_thresholds)` of `sort_by_resolution`, from
   * entry `i` on: an entry whose text is not two integers around one `x` is skipped, the first
   * entry whose product is at least the pixel count names the folder, and `"other"` is the
   * fallback.
   */
  function StringsFolderFrom(total: int, th: seq<(string, string)>, i: nat): (r: string)
    requires i <= |th|
    ensures r == "other" || exists j :: i <= j < |th| && th[j].0 == r
    decreases |th| - i
  {
    if i == |th| then "other"
    else if FitsText(total, th[i]) then th[i].0
    else StringsFolderFrom(total, th, i + 1)
  }

  function StringsFolder(total: int, th: seq<(string, string)>): (r: string)
    ensures r == "other" || exists j :: 0 <= j < |th| && th[j].0 == r
  {
    StringsFolderFrom(total, th, 0)
  }

  /** The search from `i` returns the first fitting entry's folder, and `"other"` when none fits. */
  lemma {:induction false} StringsFolderFromFirst(total: int, th: seq<(string, string)>, i: nat, k: nat)
    requires i <= k <= |th|
    requires forall j :: i <= j < k ==> !FitsText(total, th[j])
    ensures k < |th| && FitsText(total, th[k]) ==> StringsFolderFrom(total, th, i) == th[k].0
    ensures k == |th| ==> StringsFolderFrom(total, th, i) == "other"
    decreases k - i
  {
    if i < k {
      StringsFolderFromFirst(total, th, i + 1, k);
    }
  }

  /**
   * The string variant returns the folder of the first valid entry whose product is at least
   * the pixel count; with no such entry it returns `"other"`.
   */
  lemma StringsFolderFirstFit(total: int, th: seq<(string, string)>, k: nat)
    requires k <= |th|
    requires forall j :: 0 <= j < k ==> !FitsText(total, th[j])
    ensures k < |th| && FitsText(total, th[k]) ==> StringsFolder(total, th) == th[k].0
    ensures k == |th| ==> StringsFolder(total, th) == "other"
  {
    StringsFolderFromFirst(total, th, 0, k);
  }

  /** A malformed threshold is skipped: the folder is the one the rest of the table gives. */
  lemma StringsFolderSkipsInvalid(total: int, th: seq<(string, string)>, i: nat)
    requires i < |th| && ParseWxH(th[i].1).None?
    ensures StringsFolder(total, th) == StringsFolder(total, th[..i] + th[i + 1..])
  {
    var rest := th[..i] + th[i + 1..];
    FirstFitExists(total, rest, 0);
    var k: nat :| FirstFitAt(total, rest, k);
    assert forall j :: 0 <= j < i ==> rest[j] == th[j];
    assert forall j :: i <= j < |rest| ==> rest[j] == th[j + 1];
    StringsFolderFirstFit(total, rest, k);
    if k < i {
      StringsFolderFirstFit(total, th, k);
    } else {
      forall j | 0 <= j < k + 1 ensures !FitsText(total, th[j]) {
        if j > i {
          assert th[j] == rest[j - 1];
        }
      }
      StringsFolderFirstFit(total, th, k + 1);
    }
  }

  /** `k` is the first fitting entry, or the end of the table when none fits. */
  predicate FirstFitAt(total: int, th: seq<(string, string)>, k: nat) {
    k <= |th| && (forall j :: 0 <= j < k ==> !FitsText(total, th[j])) && (k == |th| || FitsText(total, th[k]))
  }

  /** Every table has a first fitting entry at or after `i`, or none at all. */
  lemma {:induction false} FirstFitExists(total: int, th: seq<(string, string)>, i: nat)
    requires i <= |th|
    requires forall j :: 0 <= j < i ==> !FitsText(total, th[j])
    ensures exists k: nat :: i <= k && FirstFitAt(total, th, k)
    decreases |th| - i
  {
    if i < |th| && !FitsText(total, th[i]) {
      FirstFitExists(total, th, i + 1);
    } else {
      assert FirstFitAt(total, th, i);
    }
  }

  /** Products of the entries, for a table whose entries are all valid. */
  predicate AllValid(th: seq<(string, string)>) {
    forall j :: 0 <= j < |th| ==> ParseWxH(th[j].1).Some?
  }

  predicate Ascending(th: seq<(string, string)>)
    requires AllValid(th)
  {
    forall j, k :: 0 <= j < k < |th| ==> ParseWxH(th[j].1).value <= ParseWxH(th[k].1).value
  }

  /**
   * With valid thresholds listed in ascending order, the string variant returns a folder whose
   * threshold is the smallest one at least the pixel count.
   */
  lemma StringsFolderSmallestFit(total: int, th: seq<(string, string)>)
    requires AllValid(th) && Ascending(th)
    requires exists j :: 0 <= j < |th| && FitsText(total, th[j])
    ensures exists i :: (0 <= i < |th| && FitsText(total, th[i]) && StringsFolder(total, th) == th[i].0
      && forall j :: 0 <= j < |th| && FitsText(total, th[j]) ==> ParseWxH(th[i].1).value <= ParseWxH(th[j].1).value)
  {
    FirstFitExists(total, th, 0);
    var k: nat :| FirstFitAt(total, th, k);
    assert k < |th|;
    StringsFolderFirstFit(total, th, k);
    forall j | 0 <= j < |th| && FitsText(total, th[j]) ensures ParseWxH(th[k].1).value <= ParseWxH(th[j].1).value {
      assert k <= j;
    }
  }

  /** `{lores: "512x512", medres: "640x960"}` puts a 512 by 700 image (358400 pixels) in `medres`. */
  lemma StringsFolderExample(th: seq<(string, string)>)
    requires th == [("lores", "512x512"), ("medres", "640x960")]
    ensures StringsFolder(512 * 700, th) == "medres"
  {
    ParsesToLores(th[0].1);
    ParsesToMedres(th[1].1);
    assert !FitsText(512 * 700, th[0]);
    StringsFolderFirstFit(512 * 700, th, 1);
  }

  // ---------------------------------------------------------------- the CustomSorter variant

  /** The first folder from entry `i` on whose threshold is at least the pixel count. */
  function FirstWithin(total: int, th: seq<(string, Threshold)>, i: nat): (r: Option<string>)
    requires i <= |th|
    ensures r.None? ==> forall j :: i <= j < |th| ==> !Within(total, th[j].1)
    decreases |th| - i
  {
    if i == |th| then None
    else if Within(total, th[i].1) then Some(th[i].0)
    else FirstWithin(total, th, i + 1)
  }

  /** The first match from `i` is the first entry within its threshold. */
  lemma {:induction false} FirstWithinFirst(total: int, th: seq<(string, Threshold)>, i: nat, k: nat)
    requires i <= k < |th| && Within(total, th[k].1)
    requires forall j :: i <= j < k ==> !Within(total, th[j].1)
    ensures FirstWithin(total, th, i) == Some(th[k].0)
    decreases k - i
  {
    if i < k {
      FirstWithinFirst(total, th, i + 1, k);
    }
  }

  /** `sorted(thresholds, key=pixels)[0]`: a smallest threshold of the table. */
  function Lowest(th: seq<(string, Threshold)>): (t: Threshold)
    requires |th| > 0
    ensures forall j :: 0 <= j < |th| ==> AtMost(t, th[j].1)
    ensures exists j :: 0 <= j < |th| && th[j].1 == t
  {
    if |th| == 1 then th[0].1
    else
      var rest := Lowest(th[1..]);
      assert forall j :: 1 <= j < |th| ==> th[j] == th[1..][j - 1];
      if AtMost(th[0].1, rest) then th[0].1 else rest
  }

  /** `sorted(thresholds, key=pixels)[-1]`: a largest threshold of the table. */
  function Highest(th: seq<(string, Threshold)>): (t: Threshold)
    requires |th| > 0
    ensures forall j :: 0 <= j < |th| ==> AtMost(th[j].1, t)
    ensures exists j :: 0 <= j < |th| && th[j].1 == t
  {
    if |th| == 1 then th[0].1
    else
      var rest := Highest(th[1..]);
      assert forall j :: 1 <= j < |th| ==> th[j] == th[1..][j - 1];
      if AtMost(rest, th[0].1) then th[0].1 else rest
  }

  /**
   * `CustomSorter.get_resolution_folder`: the first folder in order whose threshold is at least
   * the pixel count; otherwise, with `dynamic_thresholds`, `"superlow"` below the lowest
   * threshold and `"superhigh"` above the highest; `"other"` in every remaining case. An empty
   * table with `dynamic_thresholds` indexes an empty list.
   */
  function ThresholdFolder(total: int, th: seq<(string, Threshold)>, dynamic: bool): (r: Result<string>)
  {
    match FirstWithin(total, th, 0)
    case Some(f) => Ok(f)
    case None =>
      if !dynamic then Ok("other")
      else if |th| == 0 then Err("IndexError")
      else if Below(total, Lowest(th)) then Ok("superlow")
      else if Above(total, Highest(th)) then Ok("superhigh")
      else Ok("other")
  }

  /** The first folder whose threshold holds is the answer, with or without dynamic thresholds. */
  lemma ThresholdFolderFirstFit(total: int, th: seq<(string, Threshold)>, dynamic: bool, k: nat)
    requires k < |th| && Within(total, th[k].1)
    requires forall j :: 0 <= j < k ==> !Within(total, th[j].1)
    ensures ThresholdFolder(total, th, dynamic) == Ok(th[k].0)
  {
    FirstWithinFirst(total, th, 0, k);
  }

  /** Only an empty table with dynamic thresholds fails. */
  lemma ThresholdFolderFails(total: int, th: seq<(string, Threshold)>, dynamic: bool)
    ensures ThresholdFolder(total, th, dynamic).Err? <==> dynamic && |th| == 0
  {
  }

  /**
   * When no threshold holds and `dynamic_thresholds` is on, the folder is `"superhigh"`: the
   * pixel count exceeds every threshold, the lowest included, so `"superlow"` is unreachable.
   */
  lemma ThresholdFolderNoMatchDynamic(total: int, th: seq<(string, Threshold)>)
    requires |th| > 0
    requires forall j :: 0 <= j < |th| ==> !Within(total, th[j].1)
    ensures ThresholdFolder(total, th, true) == Ok("superhigh")
  {
    var l := Lowest(th);
    var h := Highest(th);
    var jl :| 0 <= jl < |th| && th[jl].1 == l;
    var jh :| 0 <= jh < |th| && th[jh].1 == h;
    assert !Within(total, l) && !Within(total, h);
    FirstWithinNone(total, th, 0);
  }

  /** When no threshold holds, the search comes back empty. */
  lemma {:induction false} FirstWithinNone(total: int, th: seq<(string, Threshold)>, i: nat)
    requires i <= |th|
    requires forall j :: i <= j < |th| ==> !Within(total, th[j].1)
    ensures FirstWithin(total, th, i) == None
    decreases |th| - i
  {
    if i < |th| {
      FirstWithinNone(total, th, i + 1);
    }
  }

  /** The fallback never yields `"superlow"`: that name comes back only as a folder of the table. */
  lemma ThresholdFolderNeverSuperlow(total: int, th: seq<(string, Threshold)>, dynamic: bool)
    requires ThresholdFolder(total, th, dynamic) == Ok("superlow")
    ensures exists j :: 0 <= j < |th| && th[j].0 == "superlow" && Within(total, th[j].1)
  {
    match FirstWithin(total, th, 0)
    case Some(f) =>
      FirstWithinIsEntry(total, th, 0);
    case None =>
      if dynamic && |th| > 0 {
        ThresholdFolderNoMatchDynamic(total, th);
      }
  }

  /** A match names an entry whose threshold holds. */
  lemma {:induction false} FirstWithinIsEntry(total: int, th: seq<(string, Threshold)>, i: nat)
    requires i <= |th|
    ensures FirstWithin(total, th, i).Some? ==> exists j :: i <= j < |th| && th[j].0 == FirstWithin(total, th, i).value && Within(total, th[j].1)
    decreases |th| - i
  {
    if i < |th| && !Within(total, th[i].1) {
      FirstWithinIsEntry(total, th, i + 1);
    }
  }

  /** Without dynamic thresholds, no match means `"other"`. */
  lemma ThresholdFolderNoMatchStatic(total: int, th: seq<(string, Threshold)>)
    requires forall j :: 0 <= j < |th| ==> !Within(total, th[j].1)
    ensures ThresholdFolder(total, th, false) == Ok("other")
  {
    FirstWithinNone(total, th, 0);
  }

  /** The result is a folder of the table, or one of the three fallback names. */
  lemma ThresholdFolderRange(total: int, th: seq<(string, Threshold)>, dynamic: bool)
    requires !(dynamic && |th| == 0)
    ensures ThresholdFolder(total, th, dynamic).Ok?
    ensures var r := ThresholdFolder(total, th, dynamic).value;
      r in {"other", "superhigh"} || exists j :: 0 <= j < |th| && th[j].0 == r
  {
    FirstWithinIsEntry(total, th, 0);
    if FirstWithin(total, th, 0).None? && dynamic {
      ThresholdFolderNoMatchDynamic(total, th);
    }
  }

  /**
   * The two classifiers agree: a table of valid `"WxH"` texts, parsed as `CustomSorter` does,
   * classifies every pixel count as the string variant does when `dynamic_thresholds` is off.
   */
  lemma VariantsAgree(total: int, th: seq<(string, string)>)
    requires AllValid(th)
    ensures ParseThresholds(Lifted(th)).Ok?
    ensures ThresholdFolder(total, ParseThresholds(Lifted(th)).value, false) == Ok(StringsFolder(total, th))
  {
    var lifted := Lifted(th);
    ParseThresholdsEntries(lifted);
    var parsed := ParseThresholds(lifted).value;
    assert forall j :: 0 <= j < |th| ==> parsed[j] == (th[j].0, Finite(ParseWxH(th[j].1).value));
    assert forall j :: 0 <= j < |th| ==> (Within(total, parsed[j].1) <==> FitsText(total, th[j]));
    FirstFitExists(total, th, 0);
    var k: nat :| FirstFitAt(total, th, k);
    StringsFolderFirstFit(total, th, k);
    if k < |th| {
      ThresholdFolderFirstFit(total, parsed, false, k);
    } else {
      ThresholdFolderNoMatchStatic(total, parsed);
    }
  }

  /** A table of `"WxH"` texts as configured values. */
  function Lifted(th: seq<(string, string)>): (r: seq<(string, Dimension)>)
    ensures |r| == |th| && forall j :: 0 <= j < |th| ==> r[j] == (th[j].0, Sized(th[j].1))
  {
    seq(|th|, j requires 0 <= j < |th| => (th[j].0, Sized(th[j].1)))
  }
}
