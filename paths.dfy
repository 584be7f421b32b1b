/**
 * File-system paths as lists of components. `os.path.join`, `basename`, `dirname`,
 * `splitext` and `relpath` become operations on those lists; separators, `.`/`..`
 * normalisation and drive letters are not represented.
 */
module Paths {
  import opened Text

  /** A path as its components; `[]` is the empty path. */
  type Path = seq<string>

  /** `os.path.basename`: the last component, or `""`. */
  function Basename(p: Path): string {
    if |p| == 0 then "" else p[|p| - 1]
  }

  /** `os.path.dirname`: every component but the last. */
  function Dirname(p: Path): Path {
    if |p| == 0 then [] else p[..|p| - 1]
  }

  lemma DirnameBasename(p: Path)
    requires |p| > 0
    ensures Dirname(p) + [Basename(p)] == p
  {
  }

  predicate IsDot(c: char) { c == '.' }

  /** Index of the last `c` in `s`, or -1. */
  function LastIndex(s: string, c: char): (i: int)
    ensures -1 <= i < |s|
    ensures i >= 0 ==> s[i] == c
    ensures forall j :: i < j < |s| ==> s[j] != c
    decreases |s|
  {
    if |s| == 0 then -1
    else if s[|s| - 1] == c then |s| - 1
    else LastIndex(s[..|s| - 1], c)
  }

  /**
   * `os.path.splitext` of one name: the extension runs from the last `.`, unless every
   * character before that dot is a dot too (`.bashrc`, `..x`), when there is none.
   */
  function SplitExt(name: string): (r: (string, string))
    ensures r.0 + r.1 == name
    ensures r.1 != "" ==> r.1[0] == '.' && '.' !in r.1[1..]
    ensures r.1 != "" ==> RunEnd(r.0, 0, IsDot) < |r.0|
  {
    var d := LastIndex(name, '.');
    if d > 0 && RunEnd(name, 0, IsDot) < d then
      assert name[..d] + name[d..] == name;
      assert forall j :: d + 1 <= j < |name| ==> name[d + 1..][j - d - 1] == name[j];
      SplitExtRun(name, d);
      (name[..d], name[d..])
    else (name, "")
  }

  /** The run of leading dots is the same in a prefix that still ends after it. */
  lemma SplitExtRun(name: string, d: nat)
    requires d <= |name| && RunEnd(name, 0, IsDot) < d
    ensures RunEnd(name[..d], 0, IsDot) == RunEnd(name, 0, IsDot)
  {
    var k := RunEnd(name, 0, IsDot);
    var k' := RunEnd(name[..d], 0, IsDot);
    assert forall j :: 0 <= j < d ==> name[..d][j] == name[j];
  }

  /** The stem of a name: the name without its extension. */
  function Stem(name: string): string {
    SplitExt(name).0
  }

  /** `os.path.splitext` of a whole path: only the last component has an extension. */
  function SplitExtPath(p: Path): (r: (Path, string))
    ensures |p| > 0 ==> |r.0| == |p| && Dirname(r.0) == Dirname(p) && Basename(r.0) + r.1 == Basename(p)
    ensures |p| == 0 ==> r == ([], "")
  {
    if |p| == 0 then ([], "")
    else
      var (stem, ext) := SplitExt(Basename(p));
      (Dirname(p) + [stem], ext)
  }

  /** A name that ends in `.` and a dot-free extension after some other character splits there. */
  lemma SplitExtOf(stem: string, ext: string)
    requires |ext| > 0 && ext[0] == '.' && '.' !in ext[1..]
    requires RunEnd(stem, 0, IsDot) < |stem|
    ensures SplitExt(stem + ext) == (stem, ext)
  {
    var name := stem + ext;
    var d := LastIndex(name, '.');
    assert name[|stem|] == '.';
    assert forall j :: |stem| < j < |name| ==> name[j] == ext[1..][j - |stem| - 1];
    assert d == |stem|;
    var k := RunEnd(stem, 0, IsDot);
    assert !IsDot(stem[k]);
    assert forall j :: 0 <= j < |stem| ==> name[j] == stem[j];
    assert RunEnd(name, 0, IsDot) <= k by {
      assert !IsDot(name[k]);
    }
    assert name[..d] == stem;
  }

  /** `a` is `b` or one of its ancestors. */
  predicate IsPrefix(a: Path, b: Path) {
    |a| <= |b| && b[..|a|] == a
  }

  /** Length of the longest common prefix of two paths. */
  function CommonLength(a: Path, b: Path): (n: nat)
    ensures n <= |a| && n <= |b|
    ensures forall i :: 0 <= i < n ==> a[i] == b[i]
    ensures n < |a| && n < |b| ==> a[n] != b[n]
    decreases |a|
  {
    if |a| == 0 || |b| == 0 || a[0] != b[0] then 0 else 1 + CommonLength(a[1..], b[1..])
  }

  /** `os.path.relpath(target, start)`: up to the common ancestor, then down; `.` when equal. */
  function RelPath(target: Path, start: Path): (r: Path)
    ensures |r| > 0
  {
    var n := CommonLength(target, start);
    var up := seq(|start| - n, _ => "..");
    if |up| + |target| - n == 0 then ["."] else up + target[n..]
  }

  /** Below its start, a path's relative path is the part below. */
  lemma RelPathBelow(start: Path, rest: Path)
    requires |rest| > 0
    ensures RelPath(start + rest, start) == rest
  {
    var n := CommonLength(start + rest, start);
    assert n == |start|;
    assert (start + rest)[|start|..] == rest;
  }

  /** A path relative to itself is `.`. */
  lemma RelPathSame(p: Path)
    ensures RelPath(p, p) == ["."]
  {
    assert CommonLength(p, p) == |p|;
  }
}
