/**
  `@Type(() => Number)` from class-transformer, which runs before the
  validators: `null` and `undefined` are kept, an array is converted element
  by element, and any other value `v` becomes `Number(v)`.

  `Number` of a string is modelled exactly for the numerals the forms carry
  in practice: a blank string is 0, and an optionally signed run of decimal
  digits whose value is at most 2^53 in magnitude is that integer. The value
  of any other string (a fraction, an exponent, a hexadecimal numeral,
  `Infinity`, or `NaN` for text that is no numeral) is the parameter
  `numeral`.
 */
module NumberConversion {
  import opened JsString
  import opened FormValidation

  predicate IsDigit(c: char) {
    '0' <= c <= '9'
  }

  predicate AllDigits(s: string) {
    forall k :: 0 <= k < |s| ==> IsDigit(s[k])
  }

  /** The value of a run of decimal digits, most significant first. */
  function DigitsValue(s: string): nat
    requires AllDigits(s)
  {
    if s == [] then 0 else DigitsValue(s[..|s| - 1]) * 10 + (s[|s| - 1] as int - '0' as int)
  }

  /** The digits after an optional sign. */
  function Unsigned(t: string): string {
    if t != [] && (t[0] == '-' || t[0] == '+') then t[1..] else t
  }

  /** An optionally signed run of decimal digits. */
  predicate IsDecimalInteger(t: string) {
    Unsigned(t) != [] && AllDigits(Unsigned(t))
  }

  function DecimalValue(t: string): int
    requires IsDecimalInteger(t)
  {
    if t[0] == '-' then -(DigitsValue(t[1..]) as int) else DigitsValue(Unsigned(t))
  }

  /** 2^53: every integer up to it in magnitude is a double exactly. */
  const MaxExact: int := 0x20_0000_0000_0000

  /** `Number(s)`: whitespace around the numeral is ignored, a blank string is 0. */
  function StringToNumber(s: string, numeral: string -> JsNumber): (r: JsNumber)
    ensures AllWhitespace(s) ==> r == IntegerNumber(0)
  {
    var t := Trim(s);
    if t == "" then IntegerNumber(0)
    else if IsDecimalInteger(t) && -MaxExact <= DecimalValue(t) <= MaxExact then IntegerNumber(DecimalValue(t))
    else numeral(t)
  }

  /** `@Type(() => Number)` applied to one value. */
  function ToNumber(v: Value, numeral: string -> JsNumber): (r: Value)
    ensures Skipped(r) <==> Skipped(v)
    ensures r.Array? <==> v.Array?
    ensures r.Array? ==> |r.items| == |v.items|
    ensures !v.Array? && !Skipped(v) ==> r.Num?
    ensures v.Num? ==> r == v
    decreases v
  {
    match v
    case Undefined => v
    case Null => v
    case Num(_) => v
    case Bool(b) => Num(IntegerNumber(if b then 1 else 0))
    case Str(s) => Num(StringToNumber(s, numeral))
    case Object => Num(OtherNumber)
    case Array(items) => Array(seq(|items|, k requires 0 <= k < |items| => ToNumber(items[k], numeral)))
  }

  /** The digits of a natural number read back as that number. */
  lemma {:induction false} DigitsOfNat(n: nat)
    ensures AllDigits(NatToString(n)) && DigitsValue(NatToString(n)) == n
    decreases n
  {
    var s := NatToString(n);
    if n >= 10 {
      DigitsOfNat(n / 10);
      assert s[..|s| - 1] == NatToString(n / 10);
    }
  }

  /** `String(n)` is a decimal numeral of `n`. */
  lemma IntToStringIsDecimal(n: int)
    ensures IsDecimalInteger(IntToString(n)) && DecimalValue(IntToString(n)) == n
  {
    DigitsOfNat(if n < 0 then -n else n);
    if n < 0 {
      assert IntToString(n)[1..] == NatToString(-n);
    }
  }

  /** `Number(String(n)) === n` for every integer a double holds exactly. */
  lemma NumberOfIntToString(n: int, numeral: string -> JsNumber)
    requires -MaxExact <= n <= MaxExact
    ensures StringToNumber(IntToString(n), numeral) == IntegerNumber(n)
  {
    IntToStringIsDecimal(n);
    var s := IntToString(n);
    assert !IsWhitespace(s[0]) && !IsWhitespace(s[|s| - 1]) by {
      DigitsOfNat(if n < 0 then -n else n);
      if n < 0 {
        assert s[|s| - 1] == NatToString(-n)[|NatToString(-n)| - 1];
      }
    }
    TrimOfTrimmed(s);
  }
}
