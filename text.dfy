/**
 * The Python string built-ins the sorter relies on (`strip`, `lower`, `split`, `find`,
 * `replace`, `join`, `isdigit`, `int`), modelled on ASCII text.
 */
module Text {
  import opened Wrappers

  /** `str.isspace` and the regex class `\s`, restricted to ASCII. */
  predicate IsSpace(c: char) {
    c == ' ' || c == '\t' || c == '\n' || c == '\r' || c == '\U{0B}' || c == '\U{0C}'
    || ('\U{1C}' <= c <= '\U{1F}')
  }

  predicate IsDigit(c: char) { '0' <= c <= '9' }

  /** The regex class `\w` on ASCII. */
  predicate IsWordChar(c: char) { 'a' <= c <= 'z' || 'A' <= c <= 'Z' || IsDigit(c) || c == '_' }

  predicate IsHexDigit(c: char) { IsDigit(c) || 'a' <= c <= 'f' || 'A' <= c <= 'F' }

  predicate NotNewline(c: char) { c != '\n' }

  function LowerChar(c: char): (d: char)
    ensures !('A' <= d <= 'Z')
    ensures !('A' <= c <= 'Z') ==> d == c
  {
    if 'A' <= c <= 'Z' then (c as int + 32) as char else c
  }

  /** `str.lower()`; on ASCII it keeps the length, so indices into the result are indices into `s`. */
  function Lower(s: string): (r: string)
    ensures |r| == |s|
  {
    seq(|s|, i requires 0 <= i < |s| => LowerChar(s[i]))
  }

  /** No ASCII capital letter. */
  predicate NoUpper(s: string) {
    forall i :: 0 <= i < |s| ==> !('A' <= s[i] <= 'Z')
  }

  /** Lower-casing leaves no capital and changes nothing in a text without one. */
  lemma LowerNoUpper(s: string)
    ensures NoUpper(Lower(s))
    ensures NoUpper(s) ==> Lower(s) == s
  {
  }

  /** Lower-casing twice is lower-casing once. */
  lemma LowerIdempotent(s: string)
    ensures Lower(Lower(s)) == Lower(s)
  {
    assert forall i :: 0 <= i < |s| ==> Lower(Lower(s))[i] == Lower(s)[i];
  }

  /** `s.replace(a, b)` for single characters. */
  function ReplaceChar(s: string, a: char, b: char): (r: string)
    ensures |r| == |s|
  {
    seq(|s|, i requires 0 <= i < |s| => if s[i] == a then b else s[i])
  }

  /** After the replacement `a` is gone, and every character is an old one or `b`. */
  lemma ReplaceCharChars(s: string, a: char, b: char)
    ensures a != b ==> a !in ReplaceChar(s, a, b)
    ensures forall c :: c in ReplaceChar(s, a, b) ==> c in s || c == b
  {
    var r := ReplaceChar(s, a, b);
    assert forall c :: c in r ==> exists i :: 0 <= i < |r| && r[i] == c;
  }

  /** End of the longest run of characters satisfying `p` that starts at `i`. */
  function RunEnd(s: string, i: nat, p: char -> bool): (j: nat)
    requires i <= |s|
    ensures i <= j <= |s|
    ensures forall k :: i <= k < j ==> p(s[k])
    ensures j < |s| ==> !p(s[j])
    decreases |s| - i
  {
    if i < |s| && p(s[i]) then RunEnd(s, i + 1, p) else i
  }

  // ---------------------------------------------------------------- strip

  /** Start of the longest run of characters satisfying `p` that ends at `hi` (and starts no earlier than `lo`). */
  function RunStart(s: string, lo: nat, hi: nat, p: char -> bool): (j: nat)
    requires lo <= hi <= |s|
    ensures lo <= j <= hi
    ensures forall k :: j <= k < hi ==> p(s[k])
    ensures j > lo ==> !p(s[j - 1])
    decreases hi
  {
    if hi > lo && p(s[hi - 1]) then RunStart(s, lo, hi - 1, p) else hi
  }

  /** `s.strip(chars)`: drop every leading and trailing character satisfying `p`. */
  function StripBy(s: string, p: char -> bool): (r: string)
    ensures |r| <= |s|
    ensures |r| > 0 ==> !p(r[0]) && !p(r[|r| - 1])
  {
    var i := RunEnd(s, 0, p);
    s[i..RunStart(s, i, |s|, p)]
  }

  /** `str.strip()` with no argument. */
  function Strip(s: string): (r: string)
    ensures |r| <= |s|
    ensures |r| > 0 ==> !IsSpace(r[0]) && !IsSpace(r[|r| - 1])
  {
    StripBy(s, IsSpace)
  }

  lemma StripByFixed(s: string, p: char -> bool)
    requires |s| > 0 ==> !p(s[0]) && !p(s[|s| - 1])
    ensures StripBy(s, p) == s
  {
    assert s[0..|s|] == s;
  }

  lemma StripByIdempotent(s: string, p: char -> bool)
    ensures StripBy(StripBy(s, p), p) == StripBy(s, p)
  {
    StripByFixed(StripBy(s, p), p);
  }

  /** Every character of `StripBy(s, p)` is a character of `s`. */
  lemma StripByChars(s: string, p: char -> bool, c: char)
    requires c !in s
    ensures c !in StripBy(s, p)
  {
    var i := RunEnd(s, 0, p);
    var j := RunStart(s, i, |s|, p);
    assert forall k :: 0 <= k < j - i ==> s[i..j][k] == s[i + k];
  }

  // ---------------------------------------------------------------- find, split, join, replace

  predicate OccursAt(s: string, pat: string, i: nat) {
    i + |pat| <= |s| && s[i..i + |pat|] == pat
  }

  function FindFrom(s: string, pat: string, from: nat): (i: int)
    requires from <= |s|
    ensures i == -1 || (from <= i && OccursAt(s, pat, i))
    decreases |s| - from
  {
    if OccursAt(s, pat, from) then from
    else if from == |s| then -1
    else FindFrom(s, pat, from + 1)
  }

  /** The search from `from` returns the first occurrence, and -1 only when there is none. */
  lemma {:induction false} FindFromFirst(s: string, pat: string, from: nat)
    requires from <= |s|
    ensures FindFrom(s, pat, from) == -1 ==> forall j :: from <= j <= |s| ==> !OccursAt(s, pat, j)
    ensures FindFrom(s, pat, from) >= 0 ==> forall j :: from <= j < FindFrom(s, pat, from) ==> !OccursAt(s, pat, j)
    decreases |s| - from
  {
    if !OccursAt(s, pat, from) && from < |s| {
      FindFromFirst(s, pat, from + 1);
    }
  }

  /** `str.find`: the first index of `pat` in `s`, or -1. */
  function Find(s: string, pat: string): (i: int)
    ensures i == -1 || (0 <= i && OccursAt(s, pat, i))
  {
    FindFrom(s, pat, 0)
  }

  /** `Find` gives the first occurrence, and -1 only when there is none. */
  lemma FindFirst(s: string, pat: string)
    ensures Find(s, pat) == -1 ==> forall j :: 0 <= j <= |s| ==> !OccursAt(s, pat, j)
    ensures Find(s, pat) >= 0 ==> forall j :: 0 <= j < Find(s, pat) ==> !OccursAt(s, pat, j)
  {
    FindFromFirst(s, pat, 0);
  }

  /** `s.split(sep)` for a non-empty separator. */
  function SplitOn(s: string, sep: string): (parts: seq<string>)
    requires |sep| > 0
    ensures |parts| >= 1
    decreases |s|
  {
    var i := Find(s, sep);
    if i < 0 then [s] else [s[..i]] + SplitOn(s[i + |sep|..], sep)
  }

  /** `sep.join(parts)`. */
  function JoinWith(parts: seq<string>, sep: string): string {
    if |parts| == 0 then ""
    else if |parts| == 1 then parts[0]
    else parts[0] + sep + JoinWith(parts[1..], sep)
  }

  /** `s.replace(pat, rep)`: Python's replace is `rep.join(s.split(pat))` for a non-empty `pat`. */
  function Replace(s: string, pat: string, rep: string): string
    requires |pat| > 0
  {
    JoinWith(SplitOn(s, pat), rep)
  }

  /** `s.split(c)` for one separator character. */
  function SplitChar(s: string, c: char): (parts: seq<string>)
    ensures |parts| >= 1
  {
    SplitOn(s, [c])
  }

  /** Joining the pieces of a split with the same separator gives the text back. */
  lemma {:induction false} JoinSplit(s: string, sep: string)
    requires |sep| > 0
    ensures JoinWith(SplitOn(s, sep), sep) == s
    decreases |s|
  {
    var i := Find(s, sep);
    if i >= 0 {
      var rest := s[i + |sep|..];
      var tail := SplitOn(rest, sep);
      JoinSplit(rest, sep);
      var parts := SplitOn(s, sep);
      assert parts == [s[..i]] + tail;
      assert parts[1..] == tail;
      assert JoinWith(parts, sep) == s[..i] + sep + rest;
      assert s == s[..i] + s[i..i + |sep|] + rest;
    }
  }

  /** A character that is in neither `s` nor the separator is in no piece of the split. */
  lemma {:induction false} SplitOnAvoids(s: string, sep: string, c: char)
    requires |sep| > 0 && c !in s
    ensures forall k :: 0 <= k < |SplitOn(s, sep)| ==> c !in SplitOn(s, sep)[k]
    decreases |s|
  {
    var i := Find(s, sep);
    if i >= 0 {
      var rest := s[i + |sep|..];
      assert forall j :: 0 <= j < |rest| ==> rest[j] == s[i + |sep| + j];
      assert c !in rest;
      SplitOnAvoids(rest, sep, c);
      assert forall j :: 0 <= j < i ==> s[..i][j] == s[j];
      assert c !in s[..i];
    }
  }

  lemma {:induction false} JoinAvoids(parts: seq<string>, sep: string, c: char)
    requires forall k :: 0 <= k < |parts| ==> c !in parts[k]
    requires c !in sep
    ensures c !in JoinWith(parts, sep)
  {
    if |parts| > 1 {
      JoinAvoids(parts[1..], sep, c);
    }
  }

  /** `Replace` brings in no character that neither the text nor the replacement has. */
  lemma ReplaceAvoids(s: string, pat: string, rep: string, c: char)
    requires |pat| > 0 && c !in s && c !in rep
    ensures c !in Replace(s, pat, rep)
  {
    SplitOnAvoids(s, pat, c);
    JoinAvoids(SplitOn(s, pat), rep, c);
  }

  /** A piece of `s.split(c)` never contains `c`. */
  lemma {:induction false} SplitCharSeparates(s: string, c: char)
    ensures forall k :: 0 <= k < |SplitChar(s, c)| ==> c !in SplitChar(s, c)[k]
    decreases |s|
  {
    var i := Find(s, [c]);
    FindFirst(s, [c]);
    if i < 0 {
      forall j | 0 <= j < |s| ensures s[j] != c {
        assert !OccursAt(s, [c], j);
        assert s[j..j + 1] == [s[j]];
      }
    } else {
      SplitCharSeparates(s[i + 1..], c);
      assert SplitChar(s, c) == [s[..i]] + SplitChar(s[i + 1..], c);
      forall j | 0 <= j < i ensures s[..i][j] != c {
        assert !OccursAt(s, [c], j);
        assert s[j..j + 1] == [s[j]];
      }
    }
  }

  /** With no `c` in it, `s.split(c)` is `[s]`. */
  lemma SplitCharNone(s: string, c: char)
    requires c !in s
    ensures SplitChar(s, c) == [s]
  {
    forall j | 0 <= j < |s| ensures !OccursAt(s, [c], j) {
      assert s[j..j + 1] == [s[j]];
    }
  }

  /** Splitting `a + [c] + b` at its only `c` gives `[a, b]`. */
  lemma SplitCharOnce(a: string, c: char, b: string)
    requires c !in a && c !in b
    ensures SplitChar(a + [c] + b, c) == [a, b]
  {
    var s := a + [c] + b;
    var i := Find(s, [c]);
    FindFirst(s, [c]);
    assert s[|a|..|a| + 1] == [c];
    assert OccursAt(s, [c], |a|);
    forall j | 0 <= j < |a| ensures !OccursAt(s, [c], j) {
      assert s[j..j + 1] == [a[j]];
    }
    assert i == |a|;
    assert s[..i] == a;
    assert s[i + 1..] == b;
    SplitCharNone(b, c);
  }

  /** `re.split` on a character class: split at every character satisfying `isSep`. */
  function SplitWhere(s: string, isSep: char -> bool): (parts: seq<string>)
    ensures |parts| >= 1
    ensures forall k :: 0 <= k < |parts| ==> forall j :: 0 <= j < |parts[k]| ==> !isSep(parts[k][j])
    decreases |s|
  {
    if |s| == 0 then [""]
    else
      var rest := SplitWhere(s[1..], isSep);
      if isSep(s[0]) then [""] + rest else [[s[0]] + rest[0]] + rest[1..]
  }

  lemma {:induction false} SplitWhereAvoids(s: string, isSep: char -> bool, c: char)
    requires c !in s
    ensures forall k :: 0 <= k < |SplitWhere(s, isSep)| ==> c !in SplitWhere(s, isSep)[k]
    decreases |s|
  {
    if |s| > 0 {
      assert c !in s[1..];
      SplitWhereAvoids(s[1..], isSep, c);
    }
  }

  /** `re.sub("[...]+", "", s)`: drop every character satisfying `p`. */
  function RemoveWhere(s: string, p: char -> bool): (r: string)
    ensures forall i :: 0 <= i < |r| ==> !p(r[i])
    ensures forall c :: c in r ==> c in s
    decreases |s|
  {
    if |s| == 0 then ""
    else if p(s[0]) then RemoveWhere(s[1..], p)
    else [s[0]] + RemoveWhere(s[1..], p)
  }

  predicate StartsWith(s: string, prefix: string) {
    |prefix| <= |s| && s[..|prefix|] == prefix
  }

  predicate EndsWith(s: string, suffix: string) {
    |suffix| <= |s| && s[|s| - |suffix|..] == suffix
  }

  // ---------------------------------------------------------------- digits and integers

  /** `str.isdigit()` on ASCII: non-empty and all decimal digits. */
  predicate IsDigits(s: string) {
    |s| > 0 && forall i :: 0 <= i < |s| ==> IsDigit(s[i])
  }

  function DigitValue(c: char): nat
    requires IsDigit(c)
  {
    c as int - '0' as int
  }

  function DigitChar(d: nat): (c: char)
    requires d < 10
    ensures IsDigit(c) && DigitValue(c) == d
  {
    ('0' as int + d) as char
  }

  /** The number a string of decimal digits denotes. */
  function DigitsValue(s: string): nat
    requires forall i :: 0 <= i < |s| ==> IsDigit(s[i])
  {
    if |s| == 0 then 0 else DigitsValue(s[..|s| - 1]) * 10 + DigitValue(s[|s| - 1])
  }

  /** `str(n)` for a natural number. */
  function NatStr(n: nat): (s: string)
    decreases n
  {
    if n < 10 then [DigitChar(n)] else NatStr(n / 10) + [DigitChar(n % 10)]
  }

  /** `str(i)` for an integer. */
  function IntStr(i: int): string {
    if i < 0 then "-" + NatStr(-i) else NatStr(i)
  }

  lemma {:induction false} NatStrDigits(n: nat)
    ensures IsDigits(NatStr(n)) && DigitsValue(NatStr(n)) == n
    decreases n
  {
    if n >= 10 {
      NatStrDigits(n / 10);
      var s := NatStr(n);
      assert s[..|s| - 1] == NatStr(n / 10);
    }
  }

  /** `int(s)` on ASCII: an optional sign, then one or more digits. */
  function ParseInt(s: string): (r: Option<int>)
  {
    if IsDigits(s) then Some(DigitsValue(s))
    else if |s| > 1 && s[0] == '-' && IsDigits(s[1..]) then Some(-(DigitsValue(s[1..]) as int))
    else if |s| > 1 && s[0] == '+' && IsDigits(s[1..]) then Some(DigitsValue(s[1..]))
    else None
  }

  /** `int(str(i)) == i`. */
  lemma ParseIntStr(i: int)
    ensures ParseInt(IntStr(i)) == Some(i)
  {
    if i < 0 {
      NatStrDigits(-i);
      assert IntStr(i)[1..] == NatStr(-i);
    } else {
      NatStrDigits(i);
    }
  }
}
