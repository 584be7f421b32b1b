/**
 * Hand-written scanners for the regular expressions of the metadata parsers. Each one
 * returns exactly what Python's backtracking matcher returns for its pattern, on ASCII
 * text: `\w` is `IsWordChar`, `\s` is `IsSpace`, and `.` is every character but `\n`.
 */
module Patterns {
  import opened Wrappers
  import opened Text

  /** The character class `[\w\s-]`. */
  predicate KeyChar(c: char) { IsWordChar(c) || IsSpace(c) || c == '-' }

  predicate Other(c: char, stop: char) { c != stop }

  /**
   * Largest start `q` with `lo <= q <= hi` at which `[^stop]+` can begin; this is the
   * position a greedy `\s*` backs off to.
   */
  function LastStart(s: string, lo: nat, hi: nat, stop: char): (r: Option<nat>)
    requires lo <= hi <= |s|
    ensures r.Some? ==> lo <= r.value <= hi && r.value < |s| && s[r.value] != stop
    ensures r.Some? ==> forall q :: r.value < q <= hi ==> q == |s| || s[q] == stop
    ensures r.None? ==> forall q :: lo <= q <= hi ==> q == |s| || s[q] == stop
    decreases hi - lo
  {
    if hi < |s| && s[hi] != stop then Some(hi)
    else if hi == lo then None
    else LastStart(s, lo, hi - 1, stop)
  }

  /**
   * `\s*([^stop]+)` matched at `p`: the span `(q, e)` of the group. `.+` is the case
   * `stop == '\n'`.
   */
  function ValueSpan(s: string, p: nat, stop: char): (r: Option<(nat, nat)>)
    requires p <= |s|
    ensures r.Some? ==> p <= r.value.0 < r.value.1 <= |s|
    ensures r.Some? ==> forall i :: p <= i < r.value.0 ==> IsSpace(s[i])
    ensures r.Some? ==> forall i :: r.value.0 <= i < r.value.1 ==> s[i] != stop
    ensures r.Some? ==> r.value.1 == |s| || s[r.value.1] == stop
  {
    var w := RunEnd(s, p, IsSpace);
    match LastStart(s, p, w, stop)
    case None => None
    case Some(q) =>
      var e := RunEnd(s, q, c => Other(c, stop));
      Some((q, e))
  }

  /** `\s*([^stop]+)` fails exactly when every position the `\s*` can stop at holds `stop` or is the end. */
  lemma ValueSpanNone(s: string, p: nat, stop: char)
    requires p <= |s|
    ensures ValueSpan(s, p, stop).None? <==> forall q :: p <= q <= RunEnd(s, p, IsSpace) ==> q == |s| || s[q] == stop
  {
  }

  datatype FieldMatch = FieldMatch(key: string, value: string, end: nat)

  /** `([\w\s-]+):\s*([^stop]+)` matched at `p` (no search). */
  function FieldAt(s: string, p: nat, stop: char): (r: Option<FieldMatch>)
    requires p <= |s|
    ensures r.Some? ==> |r.value.key| > 0 && p + |r.value.key| < |s| && s[p + |r.value.key|] == ':'
    ensures r.Some? ==> r.value.key == s[p..p + |r.value.key|]
    ensures r.Some? ==> forall i :: 0 <= i < |r.value.key| ==> KeyChar(r.value.key[i])
    ensures r.Some? ==> |r.value.value| > 0 && stop !in r.value.value
    ensures r.Some? ==> p < r.value.end <= |s|
  {
    var k := RunEnd(s, p, KeyChar);
    if k == p || k == |s| || s[k] != ':' then None
    else
      match ValueSpan(s, k + 1, stop)
      case None => None
      case Some(span) =>
        assert forall i :: span.0 <= i < span.1 ==> s[span.0..span.1][i - span.0] == s[i];
        Some(FieldMatch(s[p..k], s[span.0..span.1], span.1))
  }

  /** `re.match(r"([\w\s-]+):\s*(.+)", s)`. */
  function MatchField(s: string): (r: Option<FieldMatch>)
    ensures r.Some? ==> StartsWith(s, r.value.key + ":")
    ensures r.Some? ==> '\n' !in r.value.value && |r.value.value| > 0
  {
    var r := FieldAt(s, 0, '\n');
    if r.Some? then
      assert s[..|r.value.key| + 1] == r.value.key + ":";
      r
    else r
  }

  /** `re.match(r"^[\w\s-]+:\s*\S+", s)` succeeds. */
  predicate IsKeyValueItem(s: string) {
    var k := RunEnd(s, 0, KeyChar);
    0 < k < |s| && s[k] == ':' && RunEnd(s, k + 1, IsSpace) < |s|
  }

  /**
   * `\n?([\w\s-]+):\s*([^\n]+)` matched at `p`. A leading `\n` is taken into the match
   * but left out of the key group when the key run after it is non-empty.
   */
  function FieldAtNl(s: string, p: nat): (r: Option<FieldMatch>)
    requires p <= |s|
    ensures r.Some? ==> p < r.value.end <= |s| && '\n' !in r.value.value && |r.value.value| > 0
  {
    match FieldAt(s, p, '\n')
    case None => None
    case Some(m) =>
      if s[p] == '\n' && |m.key| > 1 then Some(FieldMatch(m.key[1..], m.value, m.end)) else Some(m)
  }

  /** `re.findall(r"\n?([\w\s-]+):\s*([^\n]+)", s[p..])`, as (key, value) pairs. */
  function FindAllFields(s: string, p: nat): (r: seq<(string, string)>)
    requires p <= |s|
    ensures forall k :: 0 <= k < |r| ==> '\n' !in r[k].1 && |r[k].1| > 0
    decreases |s| - p
  {
    if p == |s| then []
    else
      match FieldAtNl(s, p)
      case Some(m) => [(m.key, m.value)] + FindAllFields(s, m.end)
      case None => FindAllFields(s, p + 1)
  }

  /** Text without a single `:` has no field to find. */
  lemma {:induction false} FindAllFieldsNeedColon(s: string, p: nat)
    requires p <= |s|
    requires forall i :: p <= i < |s| ==> s[i] != ':'
    ensures FindAllFields(s, p) == []
    decreases |s| - p
  {
    if p < |s| {
      var k := RunEnd(s, p, KeyChar);
      assert k == |s| || s[k] != ':';
      FindAllFieldsNeedColon(s, p + 1);
    }
  }

  // ---------------------------------------------------------------- Hashes: {... "model": "<hex>" ...}

  /** `"model":\s*"([\da-fA-F]+)".*?\}` matched at `q`: the hex group. */
  function ModelEntryAt(s: string, q: nat): (r: Option<string>)
    requires q <= |s|
    ensures r.Some? ==> |r.value| > 0 && forall i :: 0 <= i < |r.value| ==> IsHexDigit(r.value[i])
  {
    if !OccursAt(s, "\"model\":", q) then None
    else
      var a := RunEnd(s, q + 8, IsSpace);
      if a == |s| || s[a] != '"' then None
      else
        var h := RunEnd(s, a + 1, IsHexDigit);
        if h == a + 1 || h == |s| || s[h] != '"' then None
        else
          var t := RunEnd(s, h + 1, NotNewline);
          if FindFrom(s[..t], "}", h + 1) < 0 then None
          else
            assert forall i :: a + 1 <= i < h ==> s[a + 1..h][i - (a + 1)] == s[i];
            Some(s[a + 1..h])
  }

  /** The lazy `.*?` before `"model"`: the first `q` on the same line that completes the match. */
  function ModelAfter(s: string, q: nat): (r: Option<string>)
    requires q <= |s|
    ensures r.Some? ==> |r.value| > 0 && forall i :: 0 <= i < |r.value| ==> IsHexDigit(r.value[i])
    decreases |s| - q
  {
    match ModelEntryAt(s, q)
    case Some(h) => Some(h)
    case None => if q < |s| && s[q] != '\n' then ModelAfter(s, q + 1) else None
  }

  /** `Hashes:\s*\{.*?"model":\s*"([\da-fA-F]+)".*?\}` matched at `p`. */
  function HashesAt(s: string, p: nat): (r: Option<string>)
    requires p <= |s|
  {
    if !OccursAt(s, "Hashes:", p) then None
    else
      var w := RunEnd(s, p + 7, IsSpace);
      if w == |s| || s[w] != '{' then None else ModelAfter(s, w + 1)
  }

  /** `re.search` of the Hashes pattern from `p`: the group of the leftmost match. */
  function SearchHashes(s: string, p: nat): (r: Option<string>)
    requires p <= |s|
    ensures r.Some? ==> |r.value| > 0 && forall i :: 0 <= i < |r.value| ==> IsHexDigit(r.value[i])
    decreases |s| - p
  {
    match HashesAt(s, p)
    case Some(h) => Some(h)
    case None => if p == |s| then None else SearchHashes(s, p + 1)
  }

  /** The search finds the leftmost match from `p`, and nothing only when no position matches. */
  lemma {:induction false} SearchHashesFirst(s: string, p: nat)
    requires p <= |s|
    ensures SearchHashes(s, p).Some? ==> exists i :: p <= i <= |s| && HashesAt(s, i) == SearchHashes(s, p)
    ensures SearchHashes(s, p).None? ==> forall i :: p <= i <= |s| ==> HashesAt(s, i).None?
    decreases |s| - p
  {
    if HashesAt(s, p).None? && p < |s| {
      SearchHashesFirst(s, p + 1);
    }
  }

  // ---------------------------------------------------------------- (?<!hash\s)(key:\s*([^,]+)), IGNORECASE

  /** A key that the pattern reads literally: word characters, spaces and `-` only. */
  predicate PlainKey(key: string) {
    forall i :: 0 <= i < |key| ==> IsWordChar(key[i]) || key[i] == ' ' || key[i] == '-'
  }

  /** The negative look-behind `(?<!hash\s)`, case-insensitive. */
  predicate AfterHash(t: string, p: nat)
    requires p <= |t|
  {
    p >= 5 && Lower(t[p - 5..p - 1]) == "hash" && IsSpace(t[p - 1])
  }

  /** `key:` matched case-insensitively at `p`. */
  predicate KeyAt(t: string, key: string, p: nat) {
    p + |key| + 1 <= |t| && Lower(t[p..p + |key|]) == Lower(key) && t[p + |key|] == ':'
  }

  /** The pattern matched at `p`: group 2. */
  function KeyValueAt(t: string, key: string, p: nat): (r: Option<string>)
    requires p <= |t|
    ensures r.Some? ==> KeyAt(t, key, p) && !AfterHash(t, p) && ',' !in r.value
  {
    if !KeyAt(t, key, p) || AfterHash(t, p) then None
    else
      match ValueSpan(t, p + |key| + 1, ',')
      case None => None
      case Some(span) =>
        assert forall i :: span.0 <= i < span.1 ==> t[span.0..span.1][i - span.0] == t[i];
        Some(t[span.0..span.1])
  }

  /** `re.search` of the pattern from `p`. */
  function SearchKey(t: string, key: string, p: nat): (r: Option<string>)
    requires p <= |t|
    ensures r.Some? ==> ',' !in r.value
    ensures r.Some? ==> exists i :: p <= i <= |t| && KeyValueAt(t, key, i) == r
    ensures r.None? ==> forall i :: p <= i <= |t| ==> KeyValueAt(t, key, i).None?
    decreases |t| - p
  {
    match KeyValueAt(t, key, p)
    case Some(v) => Some(v)
    case None => if p == |t| then None else SearchKey(t, key, p + 1)
  }
}
