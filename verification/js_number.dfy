/**
 * JavaScript numbers as the colour converters use them: exact rationals
 * plus NaN, with NaN propagating through arithmetic and making every
 * comparison false; `Math.round`; and `Number(token)` for the tokens the
 * page feeds it.
 */
module JsNumber {
  import opened JsText

  /** A number that is either an exact rational or NaN. */
  datatype Num = Finite(v: real) | NaN

  function Add(a: Num, b: Num): Num {
    if a.Finite? && b.Finite? then Finite(a.v + b.v) else NaN
  }

  function Sub(a: Num, b: Num): Num {
    if a.Finite? && b.Finite? then Finite(a.v - b.v) else NaN
  }

  function Mul(a: Num, b: Num): Num {
    if a.Finite? && b.Finite? then Finite(a.v * b.v) else NaN
  }

  /** Division by a non-zero constant, the only division the converters make on a token. */
  function DivBy(a: Num, c: real): Num
    requires c != 0.0
  {
    if a.Finite? then Finite(a.v / c) else NaN
  }

  /** `a < b`: false whenever either side is NaN. */
  predicate Less(a: Num, b: Num) {
    a.Finite? && b.Finite? && a.v < b.v
  }

  /** `a > b`: false whenever either side is NaN. */
  predicate Greater(a: Num, b: Num) {
    a.Finite? && b.Finite? && a.v > b.v
  }

  /** `a === b`: NaN equals nothing, not even NaN. */
  predicate StrictEquals(a: Num, b: Num) {
    a.Finite? && b.Finite? && a.v == b.v
  }

  /** `Math.round(x)`: the nearest integer, halves rounded up. */
  function Round(x: real): (n: int)
    ensures x - 0.5 < n as real <= x + 0.5
  {
    (x + 0.5).Floor
  }

  /** Rounding keeps a value between two integers between them. */
  lemma RoundWithin(x: real, lo: int, hi: int)
    requires lo as real <= x <= hi as real
    ensures lo <= Round(x) <= hi
  {
  }

  /** White space and line terminators that `Number` trims from a string. */
  predicate IsJsWhiteSpace(c: char) {
    var k := c as int;
    9 <= k <= 13 || k == 0x20 || k == 0xA0 || k == 0x1680 || 0x2000 <= k <= 0x200A
    || k == 0x2028 || k == 0x2029 || k == 0x202F || k == 0x205F || k == 0x3000 || k == 0xFEFF
  }

  /**
   * A character that can occur somewhere in a string `Number` converts to a
   * number: white space, digits, signs, the point, exponent and radix
   * markers, hexadecimal digits and the letters of `Infinity`.
   */
  predicate MayOccurInNumericLiteral(c: char) {
    IsJsWhiteSpace(c) || IsHexDigit(c)
    || c in {'+', '-', '.', 'x', 'X', 'o', 'O', 'b', 'B', 'I', 'n', 'i', 't', 'y'}
  }

  /** A token holding a character no numeric literal contains, such as `%`: `Number` gives NaN. */
  predicate ForcesNaN(t: string) {
    exists i :: 0 <= i < |t| && !MayOccurInNumericLiteral(t[i])
  }

  /** A token of decimal digits only; the empty token converts to 0. */
  predicate PlainNumeral(t: string) {
    AllDecimalDigits(t)
  }

  /** The tokens this model converts: plain numerals and tokens that force NaN. */
  predicate Convertible(t: string) {
    PlainNumeral(t) || ForcesNaN(t)
  }

  /** `Number(t)`. */
  function ToNumber(t: string): (n: Num)
    requires Convertible(t)
    ensures n.Finite? <==> !ForcesNaN(t)
    ensures n.Finite? ==> 0.0 <= n.v && n.v.Floor as real == n.v
  {
    if PlainNumeral(t) then Finite(DecimalValue(t) as real) else NaN
  }

  /** Converting the decimal rendering of a natural number gives that number back. */
  lemma NumberOfDecimal(n: nat)
    ensures Convertible(NatToDecimal(n))
    ensures ToNumber(NatToDecimal(n)) == Finite(n as real)
  {
    DecimalRoundTrip(n);
  }

  /** A token ending in `%` is not a number. */
  lemma NumberOfPercent(t: string)
    ensures Convertible(t + "%") && ToNumber(t + "%") == NaN
  {
    assert !MayOccurInNumericLiteral((t + "%")[|t|]);
  }
}
