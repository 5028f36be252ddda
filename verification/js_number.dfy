/**
 * JavaScript values as they reach the application from JSON and GraphQL, the
 * `Number(...)` conversion of a non-string value, `parseInt(s, 10)` and the
 * decimal text of an integer (`String(n)`).
 *
 * A JavaScript number is a `real`: values stay exact, so IEEE-754 rounding
 * of very large integers is not represented.
 */
module JsNumber {
  import opened JsString

  /** The primitive and object values that JSON parsing and GraphQL results produce (arrays are not represented). */
  datatype JsValue =
    | JUndefined
    | JNull
    | JBool(b: bool)
    | JNum(x: real)
    | JStr(s: string)
    | JObject(fields: map<string, JsValue>)

  /** The nullish values that `??` skips and that `== null` accepts. */
  predicate IsNullish(v: JsValue) {
    v.JUndefined? || v.JNull?
  }

  /** The `a ?? b` operator. */
  function Coalesce(a: JsValue, b: JsValue): JsValue {
    if IsNullish(a) then b else a
  }

  /** A number after conversion; only NaN is reachable as a non-finite value here. */
  datatype Number = Finite(value: real) | NaN {
    /** `Number.isFinite` */
    predicate IsFinite() { Finite? }
  }

  /** `Number(v)` for a value that is not a string (the callers send strings to `parseInt` instead). */
  function ToNumber(v: JsValue): (n: Number)
    requires !v.JStr?
    ensures v.JNum? ==> n == Finite(v.x)
    ensures v.JNull? ==> n == Finite(0.0)
    ensures v.JBool? ==> n == Finite(if v.b then 1.0 else 0.0)
    ensures n.NaN? <==> v.JUndefined? || v.JObject?
  {
    match v
    case JUndefined => NaN
    case JNull => Finite(0.0)
    case JBool(b) => Finite(if b then 1.0 else 0.0)
    case JNum(x) => Finite(x)
    case JObject(_) => NaN
  }

  predicate IsDigit(c: char) { '0' <= c <= '9' }

  predicate AllDigits(s: string) {
    forall i :: 0 <= i < |s| ==> IsDigit(s[i])
  }

  function DigitValue(c: char): nat
    requires IsDigit(c)
  {
    c as int - '0' as int
  }

  function DigitChar(d: nat): (c: char)
    requires d < 10
    ensures IsDigit(c) && DigitValue(c) == d
  {
    ('0' as int + d) as char
  }

  /** Length of the longest prefix of decimal digits. */
  function DigitRun(s: string): (n: nat)
    ensures n <= |s| && AllDigits(s[..n])
    ensures n == |s| || !IsDigit(s[n])
  {
    if |s| > 0 && IsDigit(s[0]) then
      var n := 1 + DigitRun(s[1..]);
      assert forall i :: 1 <= i < n ==> s[..n][i] == s[1..][..n - 1][i - 1];
      n
    else 0
  }

  /** The value of a run of decimal digits, most significant first. */
  function DigitsValue(ds: string): nat
    requires AllDigits(ds)
  {
    if |ds| == 0 then 0 else DigitsValue(ds[..|ds| - 1]) * 10 + DigitValue(ds[|ds| - 1])
  }

  /** The text `parseInt` reads digits from: leading white space and one sign removed. */
  function UnsignedPart(t: string): string {
    if |t| > 0 && (t[0] == '+' || t[0] == '-') then t[1..] else t
  }

  /**
   * `parseInt(s, 10)`: skip leading white space, take an optional sign, then
   * the longest run of decimal digits; no digit at all gives NaN. Anything
   * after the digits is ignored.
   */
  function ParseInt(s: string): (r: Number)
    ensures r.Finite? ==> r.value == r.value.Floor as real
  {
    ParseTrimmed(TrimStart(s))
  }

  /** `parseInt` once leading white space is gone. */
  function ParseTrimmed(t: string): (r: Number)
    ensures r.Finite? ==> r.value == r.value.Floor as real
  {
    var body := UnsignedPart(t);
    var n := DigitRun(body);
    if n == 0 then NaN
    else Finite(Signed(|t| > 0 && t[0] == '-', DigitsValue(body[..n])) as real)
  }

  function Signed(negative: bool, m: nat): int {
    if negative then -(m as int) else m
  }

  /** Decimal text of a natural number, without leading zeros. */
  function NatToString(n: nat): (s: string)
    ensures |s| > 0 && AllDigits(s)
    ensures s[0] == '0' ==> n == 0
  {
    if n < 10 then [DigitChar(n)] else NatToString(n / 10) + [DigitChar(n % 10)]
  }

  /** `String(n)` for an integer `n`. */
  function IntToString(i: int): (s: string)
    ensures |s| > 0
    ensures i < 0 <==> s[0] == '-'
    ensures s[0] == '-' || IsDigit(s[0])
  {
    if i < 0 then "-" + NatToString(-i) else NatToString(i)
  }

  /** Reading the decimal text of a natural number back gives that number. */
  lemma {:induction false} DigitsValueOfNatToString(n: nat)
    ensures DigitsValue(NatToString(n)) == n
  {
    var s := NatToString(n);
    if n >= 10 {
      assert s[..|s| - 1] == NatToString(n / 10);
      DigitsValueOfNatToString(n / 10);
    }
  }

  /** A digit run followed by a non-digit (or nothing) is read exactly up to its end. */
  lemma {:induction false} DigitRunStopsAtNonDigit(ds: string, rest: string)
    requires AllDigits(ds)
    requires rest == [] || !IsDigit(rest[0])
    ensures DigitRun(ds + rest) == |ds|
  {
    if |ds| > 0 {
      assert (ds + rest)[1..] == ds[1..] + rest;
      DigitRunStopsAtNonDigit(ds[1..], rest);
    } else {
      assert ds + rest == rest;
    }
  }

  /**
   * `parseInt` prefix semantics: leading white space, then the decimal text
   * of `i`, then anything not starting with a digit, reads back as `i`.
   */
  lemma ParseIntOfDecimalPrefix(ws: string, i: int, rest: string)
    requires AllWhiteSpace(ws)
    requires rest == [] || !IsDigit(rest[0])
    ensures ParseInt(ws + IntToString(i) + rest) == Finite(i as real)
  {
    var u := IntToString(i) + rest;
    assert ws + IntToString(i) + rest == ws + u;
    TrimStartSkips(ws, u);
    var magnitude: nat := if i < 0 then -i else i;
    UnsignedPartOfDecimal(i, rest);
    ParseTrimmedOfSignedDigits(u, i < 0, NatToString(magnitude), rest);
    DigitsValueOfNatToString(magnitude);
  }

  /** Behind the sign of an integer's decimal text lie the digits of its magnitude. */
  lemma UnsignedPartOfDecimal(i: int, rest: string)
    ensures var u := IntToString(i) + rest;
            && UnsignedPart(u) == NatToString(if i < 0 then -i else i) + rest
            && (i < 0 <==> |u| > 0 && u[0] == '-')
  {
    var u := IntToString(i) + rest;
    if i < 0 {
      assert u[1..] == NatToString(-i) + rest;
    }
  }

  /** `parseInt` of a trimmed text made of a sign flag, a digit run and a non-digit tail. */
  lemma ParseTrimmedOfSignedDigits(u: string, negative: bool, digits: string, rest: string)
    requires |digits| > 0 && AllDigits(digits)
    requires rest == [] || !IsDigit(rest[0])
    requires UnsignedPart(u) == digits + rest
    requires negative <==> (|u| > 0 && u[0] == '-')
    ensures ParseTrimmed(u) == Finite(Signed(negative, DigitsValue(digits)) as real)
  {
    DigitRunStopsAtNonDigit(digits, rest);
    assert (digits + rest)[..|digits|] == digits;
  }

  /** Round trip: `parseInt(String(i), 10) === i` for every integer `i`. */
  lemma ParseIntOfIntToString(i: int)
    ensures ParseInt(IntToString(i)) == Finite(i as real)
  {
    ParseIntOfDecimalPrefix("", i, "");
    assert "" + IntToString(i) + "" == IntToString(i);
  }

  /** Distinct integers have distinct decimal texts. */
  lemma IntToStringInjective(i: int, j: int)
    ensures IntToString(i) == IntToString(j) ==> i == j
  {
    ParseIntOfIntToString(i);
    ParseIntOfIntToString(j);
  }

  /** `parseInt` gives NaN exactly when no digit follows the leading white space and optional sign. */
  lemma ParseIntNaNIff(s: string)
    ensures ParseInt(s).NaN? <==> (var b := UnsignedPart(TrimStart(s)); b == [] || !IsDigit(b[0]))
  {
  }
}
