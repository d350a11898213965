/**
 * Decimal notation of natural numbers and the part of JavaScript's number
 * conversion the chat store relies on: `String(n)` for a natural number `n`,
 * and unary `+s` on a string of decimal digits or "Infinity".
 */
module Decimal {
  import opened Wrappers

  predicate IsDigit(c: char) {
    '0' <= c <= '9'
  }

  function DigitChar(d: nat): (c: char)
    requires d < 10
    ensures IsDigit(c) && c as int - '0' as int == d
  {
    ('0' as int + d) as char
  }

  function DigitValue(c: char): (d: nat)
    requires IsDigit(c)
    ensures d < 10
  {
    c as int - '0' as int
  }

  predicate AllDigits(s: string) {
    forall i :: 0 <= i < |s| ==> IsDigit(s[i])
  }

  /** `String(n)`: the shortest decimal representation of `n`. */
  function NatToString(n: nat): (s: string)
    ensures |s| > 0 && AllDigits(s)
  {
    if n < 10 then [DigitChar(n)] else NatToString(n / 10) + [DigitChar(n % 10)]
  }

  /** The number a string of decimal digits denotes (leading zeros allowed). */
  function DigitsValue(s: string): nat
    requires AllDigits(s)
  {
    if s == [] then 0 else 10 * DigitsValue(s[..|s| - 1]) + DigitValue(s[|s| - 1])
  }

  function Pow10(k: nat): (p: nat)
    ensures p >= 1
  {
    if k == 0 then 1 else 10 * Pow10(k - 1)
  }

  /** Reading back what `String(n)` wrote gives `n`. */
  lemma {:induction false} DigitsValueOfNatToString(n: nat)
    ensures DigitsValue(NatToString(n)) == n
  {
    if n >= 10 {
      var s := NatToString(n);
      DigitsValueOfNatToString(n / 10);
      assert s[..|s| - 1] == NatToString(n / 10);
    }
  }

  /** A number at least 10^k needs more than k digits. */
  lemma {:induction false} NatToStringLength(n: nat, k: nat)
    ensures n >= Pow10(k) ==> |NatToString(n)| > k
  {
    if k > 0 && n >= Pow10(k) {
      assert n >= 10;
      assert n / 10 >= Pow10(k - 1);
      NatToStringLength(n / 10, k - 1);
    }
  }

  /**
   * The values of `+s` this model tells apart. `Unmodelled` is the value of a
   * string the model does not convert: one JavaScript may read as a signed,
   * padded, fractional, exponent or hexadecimal number, or as NaN.
   */
  datatype JsNumber = Finite(value: nat) | Infinity | NaN | Unmodelled

  /**
   * Strings JavaScript surely reads as NaN. After trimming white space, a
   * numeric literal starts with a sign, a digit, '.' or "Infinity", so a
   * string whose first character is an ASCII letter other than 'I' is none.
   */
  predicate NotNumeric(s: string) {
    |s| > 0 && ('a' <= s[0] <= 'z' || 'A' <= s[0] <= 'Z') && s[0] != 'I'
  }

  predicate IsInfinityLiteral(s: string) {
    s == "Infinity" || s == "+Infinity"
  }

  /**
   * Unary `+s`: a string of decimal digits is its value (the empty string is
   * 0), "Infinity" is infinity, a string that cannot start a numeric literal
   * is NaN, and everything else is left unconverted.
   */
  function ToNumber(s: string): (x: JsNumber)
    ensures x.Finite? <==> AllDigits(s)
    ensures AllDigits(s) ==> x == Finite(DigitsValue(s))
    ensures x.Infinity? <==> IsInfinityLiteral(s)
    ensures x.NaN? <==> NotNumeric(s)
  {
    if AllDigits(s) then Finite(DigitsValue(s))
    else if IsInfinityLiteral(s) then Infinity
    else if NotNumeric(s) then NaN
    else Unmodelled
  }

  /**
   * `Math.max(a, b)`: NaN if either argument is NaN; otherwise infinity if
   * either is infinity, unless the other is a value the model does not know.
   */
  function JsMax(a: JsNumber, b: JsNumber): (r: JsNumber)
    ensures r.NaN? <==> a.NaN? || b.NaN?
    ensures r.Unmodelled? <==> !a.NaN? && !b.NaN? && (a.Unmodelled? || b.Unmodelled?)
    ensures r.Infinity? <==> (a.Infinity? || b.Infinity?) && (a.Finite? || a.Infinity?) && (b.Finite? || b.Infinity?)
    ensures r.Finite? <==> a.Finite? && b.Finite?
    ensures r.Finite? ==> r.value >= a.value && r.value >= b.value && (r == a || r == b)
  {
    if a.NaN? || b.NaN? then NaN
    else if a.Unmodelled? || b.Unmodelled? then Unmodelled
    else if a.Infinity? || b.Infinity? then Infinity
    else if a.value >= b.value then a else b
  }

  /** `String(x + 1)`, or nothing when the model does not know `x`. */
  function SuccessorString(x: JsNumber): (s: Option<string>)
    ensures s.None? <==> x.Unmodelled?
    ensures x.NaN? ==> s == Some("NaN")
    ensures x.Infinity? ==> s == Some("Infinity")
    ensures x.Finite? ==> s.Some? && ToNumber(s.value) == Finite(x.value + 1)
  {
    match x
    case NaN => Some("NaN")
    case Infinity => Some("Infinity")
    case Unmodelled => None
    case Finite(n) => DigitsValueOfNatToString(n + 1); Some(NatToString(n + 1))
  }
}
