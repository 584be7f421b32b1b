/**
 * The Python values that travel through the metadata dictionaries: strings, ints,
 * decimal floats, lists of strings and ordered nested dicts; the value coercion the
 * parsers apply (`int(v)` if `v.isdigit()`, else `float(v)` if `"." in v`, else `v`),
 * key normalisation and `str()` rendering.
 */
module Values {
  import opened Wrappers
  import opened Text

  /**
   * A float is kept as an exact decimal `mantissa * 10^exponent`, normalised so that
   * the mantissa has no trailing zero digit (and zero is `Float(0, 0)`).
   */
  datatype Value =
    | Str(s: string)
    | Int(i: int)
    | Float(mantissa: int, exponent: int)
    | List(items: seq<string>)
    | Dict(entries: seq<(string, Value)>)

  /** A metadata dictionary; Python's insertion order of the top-level keys is not modelled. */
  type Metadata = map<string, Value>

  /** Python truthiness of a value. */
  predicate Truthy(v: Value) {
    match v
    case Str(s) => |s| > 0
    case Int(i) => i != 0
    case Float(m, _) => m != 0
    case List(items) => |items| > 0
    case Dict(es) => |es| > 0
  }

  // ---------------------------------------------------------------- floats

  predicate NormalDecimal(m: int, e: int) {
    (m == 0 ==> e == 0) && (m != 0 ==> m % 10 != 0)
  }

  function Pow10(n: nat): (p: nat)
    ensures p >= 1
  {
    if n == 0 then 1 else 10 * Pow10(n - 1)
  }

  /** Multiplying both sides of `q == a * p` by ten. */
  lemma ScaleByTen(q: int, a: int, p: int)
    requires q == a * p
    ensures q * 10 == a * (10 * p)
  {
    assert a * (10 * p) == (a * p) * 10;
  }

  /** Drops trailing zero digits of the mantissa, keeping the number denoted. */
  function Normalize(m: int, e: int): (r: (int, int))
    ensures NormalDecimal(r.0, r.1)
    ensures m != 0 ==> r.1 >= e && m == r.0 * Pow10(r.1 - e)
    ensures m == 0 <==> r.0 == 0
    decreases if m < 0 then -m else m
  {
    if m == 0 then (0, 0)
    else if m % 10 == 0 then
      var r := Normalize(m / 10, e + 1);
      assert m == (m / 10) * 10;
      assert Pow10(r.1 - e) == 10 * Pow10(r.1 - (e + 1));
      ScaleByTen(m / 10, r.0, Pow10(r.1 - (e + 1)));
      r
    else (m, e)
  }

  /**
   * `float(s)` for the decimal-point forms the parsers reach (their input always holds
   * a `.`): an optional sign, digits, `.`, digits (at least one digit in all), then an
   * optional exponent `e`/`E` with an optional sign.
   */
  function ParseFloat(s: string): (r: Option<(int, int)>)
    ensures r.Some? ==> NormalDecimal(r.value.0, r.value.1)
    ensures r.Some? ==> '.' in s
  {
    var neg := |s| > 0 && s[0] == '-';
    var body := if |s| > 0 && (s[0] == '-' || s[0] == '+') then s[1..] else s;
    var i := RunEnd(body, 0, IsDigit);
    if i == |body| || body[i] != '.' then None
    else
      var j := RunEnd(body, i + 1, IsDigit);
      if i == 0 && j == i + 1 then None
      else
        var exp := if j == |body| then Some(0)
                   else if body[j] == 'e' || body[j] == 'E' then ParseInt(body[j + 1..])
                   else None;
        if exp.None? then None
        else
          var whole, fraction := body[..i], body[i + 1..j];
          assert forall k :: 0 <= k < |fraction| ==> IsDigit(fraction[k]) by {
            forall k | 0 <= k < |fraction| ensures IsDigit(fraction[k]) { assert fraction[k] == body[i + 1 + k]; }
          }
          var digits := whole + fraction;
          assert forall k :: 0 <= k < |digits| ==> IsDigit(digits[k]) by {
            forall k | 0 <= k < |digits| ensures IsDigit(digits[k]) {
              if k < |whole| { assert digits[k] == whole[k]; } else { assert digits[k] == fraction[k - |whole|]; }
            }
          }
          var mag := DigitsValue(digits) as int;
          var n := Normalize(if neg then -mag else mag, exp.value - (j - (i + 1)));
          assert body[i] == '.';
          assert '.' in s by {
            if |s| > 0 && (s[0] == '-' || s[0] == '+') { assert s[i + 1] == '.'; } else { assert s[i] == '.'; }
          }
          Some(n)
  }

  /** The value the parsers store for a field text. */
  function Coerce(v: string): (r: Value)
    ensures r.Int? <==> IsDigits(v)
    ensures r.Int? ==> r.i == DigitsValue(v)
    ensures r.Float? ==> '.' in v && ParseFloat(v) == Some((r.mantissa, r.exponent))
    ensures r.Str? ==> r.s == v && (v == [] || !IsDigits(v)) && ('.' in v ==> ParseFloat(v).None?)
    ensures r.Str? || r.Int? || r.Float?
  {
    if IsDigits(v) then Int(DigitsValue(v))
    else if '.' in v then
      match ParseFloat(v)
      case Some(d) => Float(d.0, d.1)
      case None => Str(v)
    else Str(v)
  }

  /** A number written out by `str(n)` comes back as that int. */
  lemma CoerceNatStr(n: nat)
    ensures Coerce(NatStr(n)) == Int(n)
  {
    NatStrDigits(n);
  }

  /** Every value written `<digits>.<digits>` without sign or exponent is read as a float. */
  lemma CoerceDecimal(a: string, b: string)
    requires forall k :: 0 <= k < |a| ==> IsDigit(a[k])
    requires forall k :: 0 <= k < |b| ==> IsDigit(b[k])
    requires |a| + |b| > 0
    ensures Coerce(a + "." + b).Float?
  {
    var s := a + "." + b;
    assert !IsDigit(s[|a|]);
    assert !IsDigits(s);
    assert s[|a|] == '.';
    var i := RunEnd(s, 0, IsDigit);
    assert i == |a|;
    var j := RunEnd(s, i + 1, IsDigit);
    assert j == |s|;
  }

  // ---------------------------------------------------------------- keys

  /** `key.strip().lower().replace(" ", "_")`. */
  function NormKey(k: string): (r: string)
    ensures |r| <= |k|
  {
    ReplaceChar(Lower(Strip(k)), ' ', '_')
  }

  /** A normalised key has no capital letter, no space, and no white space at either end. */
  lemma NormKeyShape(k: string)
    ensures ' ' !in NormKey(k)
    ensures forall i :: 0 <= i < |NormKey(k)| ==> !('A' <= NormKey(k)[i] <= 'Z')
    ensures |NormKey(k)| > 0 ==> !IsSpace(NormKey(k)[0]) && !IsSpace(NormKey(k)[|NormKey(k)| - 1])
  {
    ReplaceCharChars(Lower(Strip(k)), ' ', '_');
  }

  /** A normalised key is its own normal form. */
  lemma NormKeyIdempotent(k: string)
    ensures NormKey(NormKey(k)) == NormKey(k)
  {
    var r := NormKey(k);
    StripByFixed(r, IsSpace);
    assert Lower(r) == r;
    assert ReplaceChar(r, ' ', '_') == r;
  }

  // ---------------------------------------------------------------- rendering

  function DecimalStr(m: int, e: int): string {
    var sign := if m < 0 then "-" else "";
    var mag: nat := if m < 0 then -m else m;
    if e >= 0 then sign + NatStr(mag * Pow10(e)) + ".0"
    else
      var d := NatStr(mag);
      var k: nat := -e;
      if |d| > k then sign + d[..|d| - k] + "." + d[|d| - k..]
      else sign + "0." + seq(k - |d|, _ => '0') + d
  }

  function Quote(s: string): string { "'" + s + "'" }

  /** `repr(v)`: strings in single quotes, containers in Python's display syntax. */
  function Repr(v: Value): string
    decreases v
  {
    match v
    case Str(s) => Quote(s)
    case Int(i) => IntStr(i)
    case Float(m, e) => DecimalStr(m, e)
    case List(items) => "[" + JoinWith(seq(|items|, k requires 0 <= k < |items| => Quote(items[k])), ", ") + "]"
    case Dict(es) =>
      "{" + JoinWith(seq(|es|, k requires 0 <= k < |es| => Quote(es[k].0) + ": " + Repr(es[k].1)), ", ") + "}"
  }

  /** `str(v)`: a string is itself, every other value is its `repr`. */
  function Render(v: Value): (r: string)
    ensures v.Str? ==> r == v.s
    ensures v.Int? ==> r == IntStr(v.i)
  {
    if v.Str? then v.s else Repr(v)
  }

  /** `str` of an int read from a digit string gives back a number equal to it. */
  lemma RenderCoercedInt(v: string)
    requires IsDigits(v)
    ensures ParseInt(Render(Coerce(v))) == Some(DigitsValue(v) as int)
  {
    ParseIntStr(DigitsValue(v));
  }

  // ---------------------------------------------------------------- comma lists

  /** `[p.strip() for p in s.split(",") if p.strip()]`. */
  function TrimmedParts(parts: seq<string>): (r: seq<string>)
    ensures |r| <= |parts|
    ensures forall k :: 0 <= k < |r| ==> |r[k]| > 0 && Strip(r[k]) == r[k]
  {
    if |parts| == 0 then []
    else
      var t := Strip(parts[0]);
      StripByIdempotent(parts[0], IsSpace);
      if |t| > 0 then [t] + TrimmedParts(parts[1..]) else TrimmedParts(parts[1..])
  }

  lemma {:induction false} TrimmedPartsAvoid(parts: seq<string>, c: char)
    requires forall k :: 0 <= k < |parts| ==> c !in parts[k]
    ensures forall k :: 0 <= k < |TrimmedParts(parts)| ==> c !in TrimmedParts(parts)[k]
  {
    if |parts| > 0 {
      StripByChars(parts[0], IsSpace, c);
      TrimmedPartsAvoid(parts[1..], c);
    }
  }

  function CommaList(s: string): (r: seq<string>)
    ensures forall k :: 0 <= k < |r| ==> |r[k]| > 0 && Strip(r[k]) == r[k] && ',' !in r[k]
  {
    SplitCharSeparates(s, ',');
    TrimmedPartsAvoid(SplitChar(s, ','), ',');
    TrimmedParts(SplitChar(s, ','))
  }

  // ---------------------------------------------------------------- dictionary updates

  /** The value of the last pair in `us` whose key is `k`. */
  function LastFor(us: seq<(string, Value)>, k: string): (r: Option<Value>)
    ensures r.None? <==> forall j :: 0 <= j < |us| ==> us[j].0 != k
    ensures r.Some? ==> exists j :: 0 <= j < |us| && us[j] == (k, r.value) && forall j' :: j < j' < |us| ==> us[j'].0 != k
  {
    if |us| == 0 then None
    else if us[|us| - 1].0 == k then Some(us[|us| - 1].1)
    else LastFor(us[..|us| - 1], k)
  }

  /** Assigning the pairs of `us` to `m` one after another, as `m[k] = v` in a loop or `m.update(us)` does. */
  function Assign(m: Metadata, us: seq<(string, Value)>): (r: Metadata)
  {
    if |us| == 0 then m
    else Assign(m, us[..|us| - 1])[us[|us| - 1].0 := us[|us| - 1].1]
  }

  /** The keys after the assignments: the old keys and every assigned key. */
  lemma {:induction false} AssignKeys(m: Metadata, us: seq<(string, Value)>, k: string)
    ensures k in Assign(m, us) <==> k in m || exists j :: 0 <= j < |us| && us[j].0 == k
  {
    if |us| > 0 {
      var init := us[..|us| - 1];
      AssignKeys(m, init, k);
      assert forall j :: 0 <= j < |init| ==> init[j] == us[j];
      if k in m || exists j :: 0 <= j < |us| && us[j].0 == k {
        if k !in m && us[|us| - 1].0 != k {
          var j :| 0 <= j < |us| && us[j].0 == k;
          assert init[j].0 == k;
        }
      }
    }
  }

  /** The last assignment to a key wins; keys never assigned keep their old value. */
  lemma {:induction false} AssignLastWins(m: Metadata, us: seq<(string, Value)>, k: string)
    requires k in m || LastFor(us, k).Some?
    ensures k in Assign(m, us)
    ensures Assign(m, us)[k] == match LastFor(us, k) case Some(v) => v case None => m[k]
  {
    if |us| > 0 && us[|us| - 1].0 != k {
      AssignLastWins(m, us[..|us| - 1], k);
    }
  }

  /** Every value after the assignments is an old value or one of the assigned ones. */
  lemma {:induction false} AssignValueFrom(m: Metadata, us: seq<(string, Value)>, k: string)
    requires k in Assign(m, us)
    ensures (k in m && Assign(m, us)[k] == m[k]) || exists j :: 0 <= j < |us| && us[j] == (k, Assign(m, us)[k])
  {
    if |us| > 0 && us[|us| - 1].0 != k {
      var init := us[..|us| - 1];
      AssignValueFrom(m, init, k);
      if !(k in m && Assign(m, us)[k] == m[k]) {
        var j :| 0 <= j < |init| && init[j] == (k, Assign(m, init)[k]);
        assert us[j] == init[j];
      }
    }
  }

  lemma AssignSnoc(m: Metadata, us: seq<(string, Value)>, k: string, v: Value)
    ensures Assign(m, us + [(k, v)]) == Assign(m, us)[k := v]
  {
    assert (us + [(k, v)])[..|us|] == us;
  }

  /** The first value stored under `k` in an ordered dict. */
  function Lookup(es: seq<(string, Value)>, k: string): (r: Option<Value>)
    ensures r.None? <==> forall j :: 0 <= j < |es| ==> es[j].0 != k
  {
    if |es| == 0 then None else if es[0].0 == k then Some(es[0].1) else Lookup(es[1..], k)
  }
}
