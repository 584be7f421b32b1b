/**
 * `sanitize_folder_name`, defined identically in `sort_by_metadata` and on `ImageSorter`: every
 * character Windows forbids in a folder name becomes `_`, then `_` is stripped from both ends.
 */
module FolderNames {
  import opened Text

  /** The characters of `<>:"/\|?*`. */
  predicate Forbidden(c: char) {
    c == '<' || c == '>' || c == ':' || c == '"' || c == '/' || c == '\\' || c == '|' || c == '?' || c == '*'
  }

  predicate IsUnderscore(c: char) { c == '_' }

  /** `re.sub("[<>:\"/\\|?*]", "_", name)`. */
  function ForbiddenToUnderscore(name: string): (r: string)
    ensures |r| == |name|
    ensures forall i :: 0 <= i < |r| ==> !Forbidden(r[i])
  {
    seq(|name|, i requires 0 <= i < |name| => if Forbidden(name[i]) then '_' else name[i])
  }

  /** `sanitize_folder_name(name)`. */
  function SanitizeFolderName(name: string): (r: string)
    ensures |r| <= |name|
    ensures forall i :: 0 <= i < |r| ==> !Forbidden(r[i])
    ensures |r| > 0 ==> r[0] != '_' && r[|r| - 1] != '_'
  {
    var s := ForbiddenToUnderscore(name);
    var r := StripBy(s, IsUnderscore);
    StripByNoForbidden(s);
    r
  }

  /** Stripping keeps a text free of forbidden characters. */
  lemma StripByNoForbidden(s: string)
    requires forall i :: 0 <= i < |s| ==> !Forbidden(s[i])
    ensures forall i :: 0 <= i < |StripBy(s, IsUnderscore)| ==> !Forbidden(StripBy(s, IsUnderscore)[i])
  {
    var a := RunEnd(s, 0, IsUnderscore);
    var b := RunStart(s, a, |s|, IsUnderscore);
    assert forall i :: 0 <= i < b - a ==> s[a..b][i] == s[a + i];
  }

  /** A name is left alone exactly when it has no forbidden character and no `_` at either end. */
  lemma SanitizeFixedPoints(name: string)
    ensures SanitizeFolderName(name) == name <==>
      (forall i :: 0 <= i < |name| ==> !Forbidden(name[i])) && (|name| > 0 ==> name[0] != '_' && name[|name| - 1] != '_')
  {
    if (forall i :: 0 <= i < |name| ==> !Forbidden(name[i])) && (|name| > 0 ==> name[0] != '_' && name[|name| - 1] != '_') {
      assert ForbiddenToUnderscore(name) == name;
      StripByFixed(name, IsUnderscore);
    }
  }

  /** Sanitising twice is sanitising once. */
  lemma SanitizeIdempotent(name: string)
    ensures SanitizeFolderName(SanitizeFolderName(name)) == SanitizeFolderName(name)
  {
    SanitizeFixedPoints(SanitizeFolderName(name));
  }

  /** A sanitised name is never a path of several components or a drive prefix: it has no `/`, `\` or `:`. */
  lemma SanitizedIsOneComponent(name: string)
    ensures '/' !in SanitizeFolderName(name) && '\\' !in SanitizeFolderName(name) && ':' !in SanitizeFolderName(name)
  {
    var r := SanitizeFolderName(name);
    assert forall c :: c in r ==> exists i :: 0 <= i < |r| && r[i] == c;
  }
}
