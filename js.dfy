/**
 * The JavaScript semantics the frontend stores rely on: truthiness of the
 * values they test, `parseInt`, template-literal rendering of a possibly
 * missing field, the `a || b` default for error messages, and the shape of
 * an awaited axios call.
 */
module Js {
  import opened Wrappers
  import opened Text

  /** A property read off a JSON object: a string, `null` or absent. */
  datatype JsField = Str(s: string) | Null | Undefined
  {
    /** `${v}` in a template literal. */
    function Render(): string {
      match this
      case Str(s) => s
      case Null => "null"
      case Undefined => "undefined"
    }
  }

  /** `!!x` for a string or null: only a non-empty string is truthy. */
  predicate TruthyString(x: Option<string>) {
    x.Some? && x.value != ""
  }

  /** `!!x` for a number or null: `0` and `null` are falsy. */
  predicate TruthyNumber(x: Option<int>) {
    x.Some? && x.value != 0
  }

  /** `message || fallback`. */
  function OrDefault(message: Option<string>, fallback: string): (r: string)
    ensures TruthyString(message) ==> r == message.value
    ensures !TruthyString(message) ==> r == fallback
  {
    if TruthyString(message) then message.value else fallback
  }

  /**
   * An awaited axios request: the response body, or the rejection with the
   * response's status and `data.message` when there was a response.
   */
  datatype ApiResponse<T> =
    | Ok(data: T)
    | Err(status: Option<int>, message: Option<string>)

  /** The `{ success, post?, message? }` objects the actions return. */
  datatype ActionResult<T> = ActionResult(success: bool, value: Option<T>, message: Option<string>)

  // ---------------------------------------------------------------------
  // parseInt

  /** The characters `parseInt` skips before the number (white space and line terminators). */
  predicate IsJsWhitespace(c: char) {
    ('\U{0009}' <= c <= '\U{000D}') || c == ' ' || c == '\U{00A0}' || c == '\U{1680}'
    || ('\U{2000}' <= c <= '\U{200A}') || c == '\U{2028}' || c == '\U{2029}' || c == '\U{202F}'
    || c == '\U{205F}' || c == '\U{3000}' || c == '\U{FEFF}'
  }

  function TrimStart(s: string): (r: string)
    ensures r == [] || !IsJsWhitespace(r[0])
    ensures exists k :: 0 <= k <= |s| && r == s[k..]
  {
    if s != [] && IsJsWhitespace(s[0]) then
      var r := TrimStart(s[1..]);
      var k :| 0 <= k <= |s[1..]| && r == s[1..][k..];
      assert r == s[k + 1..];
      r
    else
      assert s == s[0..];
      s
  }

  predicate IsDecimalDigit(c: char) {
    '0' <= c <= '9'
  }

  function HexDigitValue(c: char): int {
    if '0' <= c <= '9' then c as int - '0' as int
    else if 'a' <= c <= 'f' then c as int - 'a' as int + 10
    else if 'A' <= c <= 'F' then c as int - 'A' as int + 10
    else -1
  }

  /** The longest prefix of `s` made of digits of the given radix. */
  function DigitPrefix(s: string, hex: bool): (r: string)
    ensures |r| <= |s| && r == s[..|r|]
    ensures forall i | 0 <= i < |r| :: if hex then HexDigitValue(r[i]) >= 0 else IsDecimalDigit(r[i])
    ensures |r| < |s| ==> !(if hex then HexDigitValue(s[|r|]) >= 0 else IsDecimalDigit(s[|r|]))
  {
    if s != [] && (if hex then HexDigitValue(s[0]) >= 0 else IsDecimalDigit(s[0])) then
      var r := [s[0]] + DigitPrefix(s[1..], hex);
      assert s == [s[0]] + s[1..];
      r
    else []
  }

  /** The value of a string of digits, most significant first. */
  function DigitsValue(ds: string, hex: bool): nat {
    if ds == [] then 0
    else
      var d := if hex then HexDigitValue(ds[|ds| - 1]) else ds[|ds| - 1] as int - '0' as int;
      DigitsValue(ds[..|ds| - 1], hex) * (if hex then 16 else 10) + (if d < 0 then 0 else d)
  }

  /**
   * `parseInt(s)` without a radix: leading white space, an optional sign,
   * then hexadecimal after `0x`/`0X` and decimal otherwise, up to the first
   * character that is not a digit. `None` stands for `NaN`, which equals
   * nothing under `===`.
   */
  function ParseInt(s: string): Option<int> {
    ParseSigned(TrimStart(s))
  }

  /** The sign, then the magnitude. */
  function ParseSigned(t: string): Option<int> {
    var negative := t != [] && t[0] == '-';
    var magnitude := if t != [] && (t[0] == '-' || t[0] == '+') then ParseMagnitude(t[1..]) else ParseMagnitude(t);
    match magnitude
    case None => None
    case Some(v) => Some(if negative then -(v as int) else v as int)
  }

  /** Hexadecimal after `0x`/`0X`, decimal otherwise; no digit at all is `NaN`. */
  function ParseMagnitude(rest: string): Option<nat> {
    if HexPrefixed(rest) then ParseDigitRun(rest[2..], true) else ParseDigitRun(rest, false)
  }

  predicate HexPrefixed(s: string) {
    |s| >= 2 && s[0] == '0' && (s[1] == 'x' || s[1] == 'X')
  }

  /** The value of the leading digits of `s`, if there are any. */
  function ParseDigitRun(s: string, hex: bool): Option<nat> {
    var digits := DigitPrefix(s, hex);
    if digits == [] then None else Some(DigitsValue(digits, hex))
  }

  lemma {:induction false} DecimalValue(n: nat)
    ensures DigitsValue(IntToString(n), false) == n
    decreases n
  {
    if n >= 10 {
      DecimalValue(n / 10);
      var s := IntToString(n);
      assert s[..|s| - 1] == IntToString(n / 10);
    }
  }

  /** `parseInt(String(n))` gives back `n`. */
  lemma ParseIntToString(n: int)
    ensures ParseInt(IntToString(n)) == Some(n)
  {
    if n < 0 {
      ParseNegativeToString(n);
    } else {
      DecimalValue(n);
      ParseDigits(IntToString(n));
    }
  }

  lemma ParseNegativeToString(n: int)
    requires n < 0
    ensures ParseInt(IntToString(n)) == Some(n)
  {
    DecimalValue(-n);
    MinusDigits(IntToString(n), IntToString(-n), -n);
  }

  /** A minus sign before digits of value `m` parses to `-m`. */
  lemma MinusDigits(t: string, ds: string, m: nat)
    requires t == "-" + ds && ds != [] && forall i | 0 <= i < |ds| :: IsDecimalDigit(ds[i])
    requires DigitsValue(ds, false) == m
    ensures ParseInt(t) == Some(-(m as int))
  {
    assert t[0] == '-' && t[1..] == ds;
    MagnitudeOfDigits(ds);
    TrimStartNoBlank(t);
    MinusSign(t, m);
  }

  /** A plain run of decimal digits parses to its value. */
  lemma ParseDigits(ds: string)
    requires ds != [] && forall i | 0 <= i < |ds| :: IsDecimalDigit(ds[i])
    ensures ParseInt(ds) == Some(DigitsValue(ds, false) as int)
  {
    MagnitudeOfDigits(ds);
    TrimStartNoBlank(ds);
    NoSign(ds, DigitsValue(ds, false));
  }

  lemma NoSign(t: string, v: nat)
    requires t != [] && t[0] != '-' && t[0] != '+' && ParseMagnitude(t) == Some(v)
    ensures ParseSigned(t) == Some(v as int)
  {
  }

  lemma MinusSign(t: string, v: nat)
    requires t != [] && t[0] == '-' && ParseMagnitude(t[1..]) == Some(v)
    ensures ParseSigned(t) == Some(-(v as int))
  {
  }

  lemma TrimStartNoBlank(s: string)
    requires s != [] && !IsJsWhitespace(s[0])
    ensures TrimStart(s) == s
  {
  }

  lemma MagnitudeOfDigits(ds: string)
    requires ds != [] && forall i | 0 <= i < |ds| :: IsDecimalDigit(ds[i])
    ensures ParseMagnitude(ds) == Some(DigitsValue(ds, false))
  {
    assert !HexPrefixed(ds) by {
      assert |ds| >= 2 ==> IsDecimalDigit(ds[1]);
    }
    DigitPrefixAll(ds);
  }

  lemma {:induction false} DigitPrefixAll(ds: string)
    requires forall i | 0 <= i < |ds| :: IsDecimalDigit(ds[i])
    ensures DigitPrefix(ds, false) == ds
  {
    if ds != [] {
      DigitPrefixAll(ds[1..]);
    }
  }
}
