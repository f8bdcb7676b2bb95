/**
  The slice of PHP's value model the database layer depends on: scalar
  values, `empty()` on strings, the characters `trim()` and PCRE's `\s`
  accept, ASCII case folding, and the integer <-> decimal-text conversions
  that `sprintf('%d', ...)` performs (PHP 5, 64-bit `long`).
 */
module Php {

  newtype byte = b: int | 0 <= b < 256

  datatype Option<+T> = None | Some(value: T)

  /** A PHP scalar as it can reach `prepare()` or `_real_escape()`. */
  datatype Scalar =
    | Null
    | Bool(b: bool)
    | Int(i: int)
    | Float(f: real)
    | Str(s: string)

  /**
    The conversions the model leaves abstract: the driver's
    `mysql_real_escape_string`, PHP's float-to-string conversion, the
    locale-independent fixed-point rendering of `%F`, and PHP's
    string-to-float conversion.
   */
  datatype Runtime = Runtime(
    mysqlEscape: string -> string,
    floatToString: real -> string,
    fixedPoint: real -> string,
    stringToFloat: string -> real)

  const LongMax: int := 0x7FFF_FFFF_FFFF_FFFF
  const LongMin: int := -0x8000_0000_0000_0000

  /** `empty($s)` for a string: true for "" and for "0". */
  predicate EmptyString(s: string) {
    s == "" || s == "0"
  }

  /** Characters matched by PCRE's `\s` (no /u flag). */
  predicate IsSpace(c: char) {
    c == ' ' || c == '\t' || c == '\n' || c == '\U{000B}' || c == '\U{000C}' || c == '\r'
  }

  /** Characters stripped by `trim()` with its default character list. */
  predicate IsTrimmed(c: char) {
    c == ' ' || c == '\t' || c == '\n' || c == '\r' || c == '\0' || c == '\U{000B}'
  }

  predicate IsDigit(c: char) {
    '0' <= c <= '9'
  }

  /** ASCII lower-casing, as PCRE's /i and `strtolower` do in the C locale. */
  function Lower(c: char): char {
    if 'A' <= c <= 'Z' then (c as int + 32) as char else c
  }

  function LowerString(s: string): (r: string)
    ensures |r| == |s|
    ensures forall i :: 0 <= i < |s| ==> r[i] == Lower(s[i])
  {
    seq(|s|, i requires 0 <= i < |s| => Lower(s[i]))
  }

  function Upper(c: char): char {
    if 'a' <= c <= 'z' then (c as int - 32) as char else c
  }

  function UpperString(s: string): (r: string)
    ensures |r| == |s|
    ensures forall i :: 0 <= i < |s| ==> r[i] == Upper(s[i])
  {
    seq(|s|, i requires 0 <= i < |s| => Upper(s[i]))
  }

  /** Drops leading characters satisfying `IsTrimmed`. */
  function TrimLeft(s: string): (r: string)
    ensures |r| <= |s| && r == s[|s| - |r|..]
    ensures |r| > 0 ==> !IsTrimmed(r[0])
    ensures forall i :: 0 <= i < |s| - |r| ==> IsTrimmed(s[i])
  {
    if |s| > 0 && IsTrimmed(s[0]) then TrimLeft(s[1..]) else s
  }

  function TrimRight(s: string): (r: string)
    ensures |r| <= |s| && r == s[..|r|]
    ensures |r| > 0 ==> !IsTrimmed(r[|r| - 1])
    ensures forall i :: |r| <= i < |s| ==> IsTrimmed(s[i])
  {
    if |s| > 0 && IsTrimmed(s[|s| - 1]) then TrimRight(s[..|s| - 1]) else s
  }

  /** `trim($s)`. */
  function Trim(s: string): string {
    TrimRight(TrimLeft(s))
  }

  // ---------------------------------------------------------------------
  // Integers as decimal text

  function DigitChar(d: int): char
    requires 0 <= d < 10
  {
    ('0' as int + d) as char
  }

  function DigitValue(c: char): nat
    requires IsDigit(c)
  {
    c as int - '0' as int
  }

  function NatToDecimal(n: nat): (r: string)
    ensures |r| > 0
    ensures forall i :: 0 <= i < |r| ==> IsDigit(r[i])
    decreases n
  {
    if n < 10 then [DigitChar(n)] else NatToDecimal(n / 10) + [DigitChar(n % 10)]
  }

  /** PHP's string form of an integer. */
  function IntToDecimal(i: int): string {
    if i < 0 then "-" + NatToDecimal(-i) else NatToDecimal(i)
  }

  predicate AllDigits(s: string) {
    forall i :: 0 <= i < |s| ==> IsDigit(s[i])
  }

  /** The value of a run of decimal digits, most significant first. */
  function DigitsValue(s: string): nat
    requires AllDigits(s)
  {
    if |s| == 0 then 0 else 10 * DigitsValue(s[..|s| - 1]) + DigitValue(s[|s| - 1])
  }

  /** The longest prefix of `s` made of decimal digits. */
  function LeadingDigits(s: string): (r: string)
    ensures AllDigits(r) && r <= s
    ensures |r| < |s| ==> !IsDigit(s[|r|])
  {
    if |s| > 0 && IsDigit(s[0]) then [s[0]] + LeadingDigits(s[1..]) else ""
  }

  /** Whitespace as C's `isspace` sees it (what `strtol` skips). */
  predicate IsCSpace(c: char) {
    c == ' ' || c == '\t' || c == '\n' || c == '\U{000B}' || c == '\U{000C}' || c == '\r'
  }

  function SkipCSpace(s: string): (r: string)
    ensures |r| <= |s| && r == s[|s| - |r|..]
    ensures |r| > 0 ==> !IsCSpace(r[0])
  {
    if |s| > 0 && IsCSpace(s[0]) then SkipCSpace(s[1..]) else s
  }

  function Clamp(m: int): int {
    if m > LongMax then LongMax else if m < LongMin then LongMin else m
  }

  /**
    PHP 5's conversion of a string to an integer (`strtol` in base 10):
    leading whitespace, an optional sign, then the longest run of digits,
    saturating at the bounds of a 64-bit `long`.
   */
  function StrToInt(s: string): (r: int)
    ensures LongMin <= r <= LongMax
  {
    var t := SkipCSpace(s);
    if |t| > 0 && t[0] == '-' then Clamp(-(DigitsValue(LeadingDigits(t[1..])) as int))
    else if |t| > 0 && t[0] == '+' then Clamp(DigitsValue(LeadingDigits(t[1..])))
    else Clamp(DigitsValue(LeadingDigits(t)))
  }

  lemma {:induction false} DigitsOfNat(n: nat)
    ensures DigitsValue(NatToDecimal(n)) == n
    decreases n
  {
    var r := NatToDecimal(n);
    if n >= 10 {
      DigitsOfNat(n / 10);
      assert r[..|r| - 1] == NatToDecimal(n / 10);
    }
  }

  lemma {:induction false} LeadingDigitsOfDigits(s: string, rest: string)
    requires AllDigits(s)
    requires |rest| > 0 ==> !IsDigit(rest[0])
    ensures LeadingDigits(s + rest) == s
    decreases |s|
  {
    if |s| > 0 {
      assert (s + rest)[1..] == s[1..] + rest;
      LeadingDigitsOfDigits(s[1..], rest);
    } else {
      assert s + rest == rest;
    }
  }

  /** The digits of a natural number read back as the number. */
  lemma DigitsRoundTrip(n: nat)
    ensures DigitsValue(LeadingDigits(NatToDecimal(n))) == n
  {
    var d := NatToDecimal(n);
    LeadingDigitsOfDigits(d, "");
    assert d + "" == d;
    DigitsOfNat(n);
  }

  /** A string that starts with a digit has no leading whitespace and no sign. */
  lemma DigitLed(s: string)
    requires |s| > 0 && IsDigit(s[0])
    ensures SkipCSpace(s) == s && s[0] != '-' && s[0] != '+'
  {
  }

  lemma NegativeRoundTrip(n: nat)
    requires 0 < n <= -LongMin
    ensures StrToInt("-" + NatToDecimal(n)) == -(n as int)
  {
    var d := NatToDecimal(n);
    var s := "-" + d;
    assert SkipCSpace(s) == s;
    assert s[1..] == d;
    DigitsRoundTrip(n);
  }

  lemma NonNegativeRoundTrip(n: nat)
    requires n <= LongMax
    ensures StrToInt(NatToDecimal(n)) == n
  {
    var d := NatToDecimal(n);
    DigitLed(d);
    DigitsRoundTrip(n);
    assert StrToInt(d) == Clamp(DigitsValue(LeadingDigits(d)));
  }

  /**
    Decimal text read back by PHP 5's integer conversion gives the integer
    again, for every value a 64-bit `long` holds.
   */
  lemma DecimalRoundTrip(i: int)
    requires LongMin <= i <= LongMax
    ensures StrToInt(IntToDecimal(i)) == i
  {
    if i < 0 {
      NegativeRoundTrip(-i);
    } else {
      NonNegativeRoundTrip(i);
    }
  }

  // ---------------------------------------------------------------------
  // Scalars converted to strings, integers and floats

  /** PHP's string conversion of a scalar. */
  function ToString(rt: Runtime, v: Scalar): string {
    match v
    case Null => ""
    case Bool(b) => if b then "1" else ""
    case Int(i) => IntToDecimal(i)
    case Float(f) => rt.floatToString(f)
    case Str(s) => s
  }

  /** Truncation toward zero, PHP's float-to-integer cast within range. */
  function Truncate(f: real): int {
    if f >= 0.0 then f.Floor else -((-f).Floor)
  }

  /** PHP 5's integer conversion of a scalar, as `%d` applies it. */
  function ToInt(v: Scalar): int {
    match v
    case Null => 0
    case Bool(b) => if b then 1 else 0
    case Int(i) => i
    case Float(f) => Truncate(f)
    case Str(s) => StrToInt(s)
  }

  /** PHP's float conversion of a scalar, as `%F` applies it. */
  function ToFloat(rt: Runtime, v: Scalar): real {
    match v
    case Null => 0.0
    case Bool(b) => if b then 1.0 else 0.0
    case Int(i) => i as real
    case Float(f) => f
    case Str(s) => rt.stringToFloat(s)
  }
}
