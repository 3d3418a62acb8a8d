/**
 * The page's colour utilities: `hexToHsl` turns the colour picker's
 * `#rrggbb` (or `#rgb`) into the stored string `"H S% L%"`, `hslToHex` turns
 * a space-separated HSL string into `#rrggbb` for the picker, and
 * `generateRandomColor` draws a stored string from three random numbers.
 */
module Colour {
  import opened JsText
  import opened JsNumber

  /** An HSL colour as the page stores it: hue in degrees, saturation and lightness in percent. */
  datatype Hsl = Hsl(h: int, s: int, l: int)

  /** The bounds every colour the page produces stays within. */
  predicate InRange(c: Hsl) {
    0 <= c.h <= 360 && 0 <= c.s <= 100 && 0 <= c.l <= 100
  }

  /** The stored colour string, `${h} ${s}% ${l}%`. */
  function FormatHsl(c: Hsl): string {
    IntToDecimal(c.h) + " " + IntToDecimal(c.s) + "% " + IntToDecimal(c.l) + "%"
  }

  /** A string the page can hold as a colour: the format of some in-range triple. */
  ghost predicate IsStoredColour(s: string) {
    exists c :: InRange(c) && s == FormatHsl(c)
  }

  type Byte = x: int | 0 <= x < 256

  datatype Rgb = Rgb(r: Byte, g: Byte, b: Byte)

  // ---------------------------------------------------------------------------
  // hexToHsl
  // ---------------------------------------------------------------------------

  /**
   * The picker strings this model accepts: each character is one UTF-16
   * code unit, so `hex.length` is `|hex|`; a 4- or 7-character string must
   * hold hexadecimal digits after its first character (which is not looked
   * at); every other length is read as black without looking at the digits.
   */
  predicate WellFormedHex(hex: string) {
    && OneUnitEach(hex)
    && ((|hex| == 4 || |hex| == 7) ==> forall i :: 1 <= i < |hex| ==> IsHexDigit(hex[i]))
  }

  /** `parseInt("0x" + a + b)` for two hexadecimal digits. */
  function HexPair(a: char, b: char): Byte
    requires IsHexDigit(a) && IsHexDigit(b)
  {
    16 * HexDigitValue(a) + HexDigitValue(b)
  }

  /** The bytes of a picker string: `#rgb` doubles each digit, other lengths than 4 and 7 give black. */
  function ParseHexRgb(hex: string): Rgb
    requires WellFormedHex(hex)
  {
    if |hex| == 4 then
      Rgb(HexPair(hex[1], hex[1]), HexPair(hex[2], hex[2]), HexPair(hex[3], hex[3]))
    else if |hex| == 7 then
      Rgb(HexPair(hex[1], hex[2]), HexPair(hex[3], hex[4]), HexPair(hex[5], hex[6]))
    else
      Rgb(0, 0, 0)
  }

  /** `Math.max(a, b, c)`. */
  function Max3(a: real, b: real, c: real): (m: real)
    ensures m == a || m == b || m == c
    ensures a <= m && b <= m && c <= m
  {
    if a >= b && a >= c then a else if b >= c then b else c
  }

  /** `Math.min(a, b, c)`. */
  function Min3(a: real, b: real, c: real): (m: real)
    ensures m == a || m == b || m == c
    ensures m <= a && m <= b && m <= c
  {
    if a <= b && a <= c then a else if b <= c then b else c
  }

  /** The `switch (max)` of the hue computation: the hue in sixths of a turn, before `h /= 6`. */
  function HueSector(r: real, g: real, b: real, mx: real, d: real): real
    requires d != 0.0
  {
    if mx == r then (g - b) / d + (if g < b then 6.0 else 0.0)
    else if mx == g then (b - r) / d + 2.0
    else (r - g) / d + 4.0
  }

  /** The HSL triple of a colour, rounded as `hexToHsl` rounds it. */
  function RgbToHsl(c: Rgb): Hsl {
    var r, g, b := c.r as real / 255.0, c.g as real / 255.0, c.b as real / 255.0;
    var mx, mn := Max3(r, g, b), Min3(r, g, b);
    if mx == mn then Hsl(Round(0.0), Round(0.0), Round((mx + mn) / 2.0 * 100.0))
    else ChromaticHsl(r, g, b)
  }

  /** The `else` branch of `hexToHsl`: a colour whose largest and smallest share differ. */
  function ChromaticHsl(r: real, g: real, b: real): Hsl
    requires 0.0 <= r <= 1.0 && 0.0 <= g <= 1.0 && 0.0 <= b <= 1.0
    requires Max3(r, g, b) != Min3(r, g, b)
  {
    var mx, mn := Max3(r, g, b), Min3(r, g, b);
    var l := (mx + mn) / 2.0;
    var d := mx - mn;
    var s := if l > 0.5 then d / (2.0 - mx - mn) else d / (mx + mn);
    var h := HueSector(r, g, b, mx, d) / 6.0;
    Hsl(Round(h * 360.0), Round(s * 100.0), Round(l * 100.0))
  }

  /** `hexToHsl(hex)`. */
  function HexToHsl(hex: string): string
    requires WellFormedHex(hex)
  {
    if hex == "" then "0 0% 100%" else FormatHsl(RgbToHsl(ParseHexRgb(hex)))
  }

  /** The triple `HexToHsl` prints; the empty string stands for white. */
  function HexToHslTriple(hex: string): Hsl
    requires WellFormedHex(hex)
  {
    if hex == "" then Hsl(0, 0, 100) else RgbToHsl(ParseHexRgb(hex))
  }

  // Real-number facts the range proofs use.

  /** Scaling by a positive factor keeps the order of two reals. */
  lemma ScalePreservesOrder(x: real, y: real, d: real)
    requires d > 0.0
    ensures x <= y <==> x * d <= y * d
    ensures x < y <==> x * d < y * d
  {
  }

  /** A product of a non-negative real and a share in [0, 1] lies between 0 and the real. */
  lemma ProductWithin(a: real, k: real)
    requires a >= 0.0 && 0.0 <= k <= 1.0
    ensures 0.0 <= a * k <= a
  {
    if a > 0.0 {
      ScalePreservesOrder(0.0, k, a);
      ScalePreservesOrder(k, 1.0, a);
    }
  }

  lemma QuotientWithin(a: real, d: real)
    requires d > 0.0 && -d <= a <= d
    ensures -1.0 <= a / d <= 1.0
    ensures a >= 0.0 ==> a / d >= 0.0
    ensures a < 0.0 ==> a / d < 0.0
  {
    var q := a / d;
    assert q * d == a;
    ScalePreservesOrder(q, 1.0, d);
    ScalePreservesOrder(-1.0, q, d);
    ScalePreservesOrder(0.0, q, d);
  }

  /** The hue sector of any colour lies in [0, 6]. */
  lemma HueSectorWithin(r: real, g: real, b: real)
    requires Max3(r, g, b) != Min3(r, g, b)
    ensures var d := Max3(r, g, b) - Min3(r, g, b);
            0.0 <= HueSector(r, g, b, Max3(r, g, b), d) <= 6.0
  {
    var mx, mn := Max3(r, g, b), Min3(r, g, b);
    var d := mx - mn;
    if mx == r {
      QuotientWithin(g - b, d);
    } else if mx == g {
      QuotientWithin(b - r, d);
    } else {
      QuotientWithin(r - g, d);
    }
  }

  /** The chromatic branch rounds to a hue in [0, 360] and percentages in [0, 100]. */
  lemma ChromaticHslInRange(r: real, g: real, b: real)
    requires 0.0 <= r <= 1.0 && 0.0 <= g <= 1.0 && 0.0 <= b <= 1.0
    requires Max3(r, g, b) != Min3(r, g, b)
    ensures InRange(ChromaticHsl(r, g, b))
  {
    var mx, mn := Max3(r, g, b), Min3(r, g, b);
    var l := (mx + mn) / 2.0;
    var d := mx - mn;
    RoundWithin(l * 100.0, 0, 100);
    if l > 0.5 {
      QuotientWithin(d, 2.0 - mx - mn);
      RoundWithin(d / (2.0 - mx - mn) * 100.0, 0, 100);
    } else {
      QuotientWithin(d, mx + mn);
      RoundWithin(d / (mx + mn) * 100.0, 0, 100);
    }
    HueSectorWithin(r, g, b);
    RoundWithin(HueSector(r, g, b, mx, d) / 6.0 * 360.0, 0, 360);
  }

  /** Every triple `hexToHsl` prints has a hue in [0, 360] and percentages in [0, 100]. */
  lemma RgbToHslInRange(c: Rgb)
    ensures InRange(RgbToHsl(c))
  {
    var r, g, b := c.r as real / 255.0, c.g as real / 255.0, c.b as real / 255.0;
    var mx, mn := Max3(r, g, b), Min3(r, g, b);
    if mx != mn {
      ChromaticHslInRange(r, g, b);
    } else {
      RoundWithin((mx + mn) / 2.0 * 100.0, 0, 100);
    }
  }

  /** `hexToHsl` always prints a stored colour string of an in-range triple. */
  lemma HexToHslIsStoredColour(hex: string)
    requires WellFormedHex(hex)
    ensures InRange(HexToHslTriple(hex))
    ensures HexToHsl(hex) == FormatHsl(HexToHslTriple(hex))
  {
    if hex == "" {
      assert FormatHsl(Hsl(0, 0, 100)) == "0 0% 100%";
    } else {
      RgbToHslInRange(ParseHexRgb(hex));
    }
  }

  /** `#rgb` reads the same as `#rrggbb` with every digit doubled. */
  lemma ShortHexDoublesDigits(hex: string)
    requires |hex| == 4 && WellFormedHex(hex)
    ensures var long := [hex[0], hex[1], hex[1], hex[2], hex[2], hex[3], hex[3]];
            WellFormedHex(long) && HexToHsl(hex) == HexToHsl(long)
  {
    var long := [hex[0], hex[1], hex[1], hex[2], hex[2], hex[3], hex[3]];
    assert ParseHexRgb(long) == ParseHexRgb(hex);
  }

  /** A non-empty string of any length other than 4 or 7 reads as black. */
  lemma OtherLengthIsBlack(hex: string)
    requires hex != "" && |hex| != 4 && |hex| != 7 && OneUnitEach(hex)
    ensures WellFormedHex(hex) && HexToHsl(hex) == "0 0% 0%"
  {
    assert RgbToHsl(Rgb(0, 0, 0)) == Hsl(0, 0, 0);
    assert FormatHsl(Hsl(0, 0, 0)) == "0 0% 0%";
  }

  /** A grey (equal bytes) has hue and saturation 0 and the byte's share of 255 as lightness. */
  lemma GreyHasNoHue(v: Byte)
    ensures RgbToHsl(Rgb(v, v, v)) == Hsl(0, 0, Round(v as real * 100.0 / 255.0))
  {
    var x := v as real / 255.0;
    assert Max3(x, x, x) == x && Min3(x, x, x) == x;
    assert (x + x) / 2.0 * 100.0 == v as real * 100.0 / 255.0;
  }

  /** The empty picker value is white. */
  lemma HexToHslOfEmpty()
    ensures HexToHsl("") == "0 0% 100%"
  {
  }

  /** `#808080` is a grey of lightness 50. */
  lemma HexToHslOfMidGrey()
    ensures WellFormedHex("#808080") && HexToHsl("#808080") == "0 0% 50%"
  {
    assert ParseHexRgb("#808080") == Rgb(128, 128, 128);
    GreyHasNoHue(128);
    assert Round(128.0 * 100.0 / 255.0) == 50;
    assert FormatHsl(Hsl(0, 0, 50)) == "0 0% 50%";
  }

  /** The hue of pure red nudged towards blue: just under 360 degrees, so rounded up to 360. */
  lemma HueOfNearRed()
    ensures RgbToHsl(Rgb(255, 0, 1)) == Hsl(360, 100, 50)
  {
    var r, g, b := 1.0, 0.0, 1.0 / 255.0;
    assert Max3(r, g, b) == 1.0 && Min3(r, g, b) == 0.0;
    assert RgbToHsl(Rgb(255, 0, 1)) == ChromaticHsl(r, g, b);
    assert HueSector(r, g, b, 1.0, 1.0) == 6.0 - 1.0 / 255.0;
    assert Round((6.0 - 1.0 / 255.0) / 6.0 * 360.0) == 360;
  }

  /** `#ff0001` rounds its hue up to 360 rather than wrapping it to 0. */
  lemma ParseNearRed()
    ensures WellFormedHex("#ff0001") && ParseHexRgb("#ff0001") == Rgb(255, 0, 1)
  {
    assert HexPair('f', 'f') == 255 && HexPair('0', '0') == 0 && HexPair('0', '1') == 1;
  }

  lemma FormatNearRed()
    ensures FormatHsl(Hsl(360, 100, 50)) == "360 100% 50%"
  {
    assert NatToDecimal(36) == "36" && NatToDecimal(360) == "360";
    assert NatToDecimal(10) == "10" && NatToDecimal(100) == "100";
    assert NatToDecimal(50) == "50";
  }

  /** `#ff0001` rounds its hue up to 360 rather than wrapping it to 0. */
  lemma HexToHslOfNearRed()
    ensures WellFormedHex("#ff0001") && HexToHsl("#ff0001") == "360 100% 50%"
  {
    ParseNearRed();
    HueOfNearRed();
    FormatNearRed();
  }

  // ---------------------------------------------------------------------------
  // hslToHex
  // ---------------------------------------------------------------------------

  /** The first three space-separated tokens (those destructured) are ones `Number` is modelled on. */
  predicate ConvertibleTokens(hsl: string) {
    var parts := Split(hsl, ' ');
    forall i :: 0 <= i < 3 && i < |parts| ==> Convertible(parts[i])
  }

  /** Token `i` of the destructuring `[h, s, l]`: a missing one is `undefined`, NaN in arithmetic. */
  function Operand(parts: seq<string>, i: nat): Num
    requires i < |parts| ==> Convertible(parts[i])
  {
    if i < |parts| then ToNumber(parts[i]) else NaN
  }

  /** The two `if`s that open `hue2rgb`: bring `t` back by one turn from either side. */
  function WrapHue(t: Num): Num {
    var t1 := if Less(t, Finite(0.0)) then Add(t, Finite(1.0)) else t;
    if Greater(t1, Finite(1.0)) then Sub(t1, Finite(1.0)) else t1
  }

  /** The piecewise rest of `hue2rgb`: rise from `p` to `q`, hold `q`, fall back to `p`. */
  function HueRamp(p: Num, q: Num, t: Num): Num {
    if Less(t, Finite(1.0 / 6.0)) then Add(p, Mul(Mul(Sub(q, p), Finite(6.0)), t))
    else if Less(t, Finite(0.5)) then q
    else if Less(t, Finite(2.0 / 3.0)) then Add(p, Mul(Mul(Sub(q, p), Sub(Finite(2.0 / 3.0), t)), Finite(6.0)))
    else p
  }

  /** The inner `hue2rgb(p, q, t)`. */
  function HueToRgb(p: Num, q: Num, t: Num): Num {
    HueRamp(p, q, WrapHue(t))
  }

  /** The `q` of `hslToHex`: the largest channel share of a chromatic colour. */
  function UpperShare(nl: Num, ns: Num): Num {
    if Less(nl, Finite(0.5)) then Mul(nl, Add(Finite(1.0), ns)) else Sub(Add(nl, ns), Mul(nl, ns))
  }

  datatype Channels = Channels(r: Num, g: Num, b: Num)

  /** The `else` branch of `hslToHex`, on the normalised hue, saturation and lightness. */
  function ChromaticChannels(nh: Num, ns: Num, nl: Num): Channels {
    var q := UpperShare(nl, ns);
    var p := Sub(Mul(Finite(2.0), nl), q);
    Channels(HueToRgb(p, q, Add(nh, Finite(1.0 / 3.0))), HueToRgb(p, q, nh), HueToRgb(p, q, Sub(nh, Finite(1.0 / 3.0))))
  }

  /** The red, green and blue shares (nominally in [0, 1]) `hslToHex` computes from `h`, `s`, `l`. */
  function HslChannels(h: Num, s: Num, l: Num): Channels {
    var nh, ns, nl := DivBy(h, 360.0), DivBy(s, 100.0), DivBy(l, 100.0);
    if StrictEquals(ns, Finite(0.0)) then Channels(nl, nl, nl) else ChromaticChannels(nh, ns, nl)
  }

  /** The inner `toHex(x)`: `Math.round(x * 255).toString(16)`, padded to two characters when it is one. */
  function ToHex(x: Num): string {
    var hex := match Mul(x, Finite(255.0))
      case NaN => "NaN"
      case Finite(v) => IntToHex(Round(v));
    if |hex| == 1 then "0" + hex else hex
  }

  /** The returned `#${toHex(r)}${toHex(g)}${toHex(b)}`. */
  function ChannelsToHex(c: Channels): string {
    "#" + ToHex(c.r) + ToHex(c.g) + ToHex(c.b)
  }

  /** `hslToHex(hsl)`. */
  function HslToHex(hsl: string): string
    requires ConvertibleTokens(hsl)
  {
    if hsl == "" then "#ffffff"
    else
      var parts := Split(hsl, ' ');
      ChannelsToHex(HslChannels(Operand(parts, 0), Operand(parts, 1), Operand(parts, 2)))
  }

  /** `#` followed by six lower-case hexadecimal digits. */
  predicate IsHexColour(s: string) {
    |s| == 7 && s[0] == '#' && forall i :: 1 <= i < 7 ==> IsLowerHexDigit(s[i])
  }

  /** The value of the byte written at position `k` (0, 1 or 2) of a hex colour. */
  function ByteAt(s: string, k: nat): nat
    requires IsHexColour(s) && k < 3
  {
    assert IsHexDigit(s[1 + 2 * k]) && IsHexDigit(s[2 + 2 * k]);
    HexValue([s[1 + 2 * k], s[2 + 2 * k]])
  }

  /** A share in [0, 1] prints as two lower-case digits whose value is the share scaled to 255 and rounded. */
  lemma ToHexOfShare(x: real)
    requires 0.0 <= x <= 1.0
    ensures var hex := ToHex(Finite(x));
            IsHexPair(hex) && HexValue(hex) == Round(x * 255.0)
  {
    var n := Round(x * 255.0);
    RoundWithin(x * 255.0, 0, 255);
    assert ToHex(Finite(x)) == PadHex(NatToHex(n));
    PaddedByte(n);
  }

  /** Two lower-case hexadecimal digits. */
  predicate IsHexPair(s: string) {
    |s| == 2 && IsLowerHexDigit(s[0]) && IsLowerHexDigit(s[1])
  }

  /** The padding of `toHex`: a lone digit gets a `0` in front. */
  function PadHex(hex: string): string {
    if |hex| == 1 then "0" + hex else hex
  }

  /** A byte prints, padded, as two lower-case digits whose value is the byte. */
  lemma PaddedByte(n: nat)
    requires n < 256
    ensures IsHexPair(PadHex(NatToHex(n))) && HexValue(PadHex(NatToHex(n))) == n
  {
    var digits := NatToHex(n);
    HexRoundTrip(n);
    if |digits| == 1 {
      HexValueLeadingZero(digits);
    }
  }

  /** `p + (q - p) * k` with `k` in [0, 1] stays between `p` and `q`, so in [0, 1]. */
  lemma Interpolate(p: real, q: real, k: real)
    requires 0.0 <= p <= 1.0 && 0.0 <= q <= 1.0 && 0.0 <= k <= 1.0
    ensures 0.0 <= p + (q - p) * k <= 1.0
  {
    var u, w := (1.0 - k) * p, k * q;
    assert p + (q - p) * k == u + w;
    ProductWithin(1.0 - k, p);
    ProductWithin(k, q);
    assert u <= 1.0 - k && w <= k;
  }

  /** A finite hue of at least -1 wraps to a finite, non-negative one. */
  lemma WrapHueNonNegative(t: real)
    requires t >= -1.0
    ensures WrapHue(Finite(t)).Finite? && WrapHue(Finite(t)).v >= 0.0
  {
  }

  /** The ramp between two shares in [0, 1], at a non-negative point, is a share in [0, 1]. */
  lemma HueRampWithin(p: real, q: real, t: real)
    requires 0.0 <= p <= 1.0 && 0.0 <= q <= 1.0 && t >= 0.0
    ensures IsShare(HueRamp(Finite(p), Finite(q), Finite(t)))
  {
    if t < 1.0 / 6.0 {
      var k := 6.0 * t;
      assert (q - p) * 6.0 * t == (q - p) * k;
      Interpolate(p, q, k);
    } else if t < 0.5 {
    } else if t < 2.0 / 3.0 {
      var k := (2.0 / 3.0 - t) * 6.0;
      assert (q - p) * (2.0 / 3.0 - t) * 6.0 == (q - p) * k;
      Interpolate(p, q, k);
    }
  }

  /** `hue2rgb` of two shares in [0, 1] and a finite `t` of at least -1 is a share in [0, 1]. */
  lemma HueToRgbWithin(p: real, q: real, t: real)
    requires 0.0 <= p <= 1.0 && 0.0 <= q <= 1.0 && t >= -1.0
    ensures IsShare(HueToRgb(Finite(p), Finite(q), Finite(t)))
  {
    WrapHueNonNegative(t);
    HueRampWithin(p, q, WrapHue(Finite(t)).v);
  }

  /** `q` raises the lightness towards 1 by the saturation's share of its distance to the nearer end. */
  lemma UpperShareValue(nl: real, ns: real)
    ensures UpperShare(Finite(nl), Finite(ns)) ==
            Finite(if nl < 0.5 then nl + nl * ns else nl + (1.0 - nl) * ns)
  {
    assert nl * (1.0 + ns) == nl + nl * ns;
    assert nl + ns - nl * ns == nl + (1.0 - nl) * ns;
  }

  /** The `q` and `p` of `hslToHex` are shares in [0, 1] when lightness and saturation are. */
  lemma SharesWithin(nl: real, ns: real)
    requires 0.0 <= nl <= 1.0 && 0.0 <= ns <= 1.0
    ensures var q := UpperShare(Finite(nl), Finite(ns));
            q.Finite? && 0.0 <= q.v <= 1.0 && 0.0 <= 2.0 * nl - q.v <= 1.0
  {
    UpperShareValue(nl, ns);
    var room := if nl < 0.5 then nl else 1.0 - nl;
    ProductWithin(room, ns);
    ShareFromRoom(nl, room, room * ns);
  }

  /** Lightness moved by at most the room it has towards 0 or 1 stays a share, and so does its mirror. */
  lemma ShareFromRoom(nl: real, room: real, m: real)
    requires 0.0 <= nl <= 1.0
    requires room == if nl < 0.5 then nl else 1.0 - nl
    requires 0.0 <= m <= room
    ensures 0.0 <= nl + m <= 1.0 && 0.0 <= 2.0 * nl - (nl + m) <= 1.0
  {
  }

  /** A finite share in [0, 1]. */
  predicate IsShare(x: Num) {
    x.Finite? && 0.0 <= x.v <= 1.0
  }

  /** Three channels, each a share in [0, 1]. */
  predicate AllShares(c: Channels) {
    IsShare(c.r) && IsShare(c.g) && IsShare(c.b)
  }

  /** Finite shares give three finite channel shares in [0, 1] in the chromatic branch. */
  lemma ChromaticChannelsWithin(nh: real, ns: real, nl: real)
    requires nh >= 0.0 && 0.0 <= ns <= 1.0 && 0.0 <= nl <= 1.0
    ensures AllShares(ChromaticChannels(Finite(nh), Finite(ns), Finite(nl)))
  {
    var q := UpperShare(Finite(nl), Finite(ns));
    SharesWithin(nl, ns);
    var p := 2.0 * nl - q.v;
    assert Sub(Mul(Finite(2.0), Finite(nl)), q) == Finite(p);
    HueToRgbWithin(p, q.v, nh + 1.0 / 3.0);
    HueToRgbWithin(p, q.v, nh);
    HueToRgbWithin(p, q.v, nh - 1.0 / 3.0);
  }

  /** A non-negative hue with saturation and lightness in [0, 100] gives three shares in [0, 1]. */
  lemma HslChannelsWithin(h: real, s: real, l: real)
    requires h >= 0.0 && 0.0 <= s <= 100.0 && 0.0 <= l <= 100.0
    ensures AllShares(HslChannels(Finite(h), Finite(s), Finite(l)))
  {
    if s != 0.0 {
      ChromaticBranch(h, s, l);
      ChromaticChannelsWithin(h / 360.0, s / 100.0, l / 100.0);
    } else {
      GreyBranch(Finite(h), l);
      var m := Finite(l / 100.0);
      assert HslChannels(Finite(h), Finite(s), Finite(l)) == Channels(m, m, m);
      assert AllShares(Channels(m, m, m));
    }
  }

  /** A zero saturation gives the normalised lightness in every channel. */
  lemma GreyBranch(h: Num, l: real)
    ensures HslChannels(h, Finite(0.0), Finite(l)) == Channels(Finite(l / 100.0), Finite(l / 100.0), Finite(l / 100.0))
  {
    assert StrictEquals(DivBy(Finite(0.0), 100.0), Finite(0.0));
  }

  /** A non-zero saturation takes the chromatic branch on the normalised values. */
  lemma ChromaticBranch(h: real, s: real, l: real)
    requires s != 0.0
    ensures HslChannels(Finite(h), Finite(s), Finite(l)) == ChromaticChannels(Finite(h / 360.0), Finite(s / 100.0), Finite(l / 100.0))
  {
  }

  /** `hue2rgb` of two finite shares is finite for every `t`: a NaN `t` fails every test and gives `p`. */
  lemma HueToRgbFinite(p: real, q: real, t: Num)
    ensures HueToRgb(Finite(p), Finite(q), t).Finite?
    ensures t == NaN ==> HueToRgb(Finite(p), Finite(q), t) == Finite(p)
  {
  }

  /**
   * Finite saturation and lightness give three finite channels for every
   * hue, a NaN hue included; with `ChannelsOfNaN`, a channel is NaN exactly
   * when the saturation or the lightness is.
   */
  lemma FiniteSharesGiveFiniteChannels(h: Num, s: real, l: real)
    ensures var c := HslChannels(h, Finite(s), Finite(l));
            c.r.Finite? && c.g.Finite? && c.b.Finite?
  {
    if s == 0.0 {
      GreyBranch(h, l);
    } else {
      var nh, ns, nl := DivBy(h, 360.0), Finite(s / 100.0), Finite(l / 100.0);
      assert HslChannels(h, Finite(s), Finite(l)) == ChromaticChannels(nh, ns, nl);
      UpperShareValue(l / 100.0, s / 100.0);
      var q := UpperShare(nl, ns);
      var p := Sub(Mul(Finite(2.0), nl), q);
      HueToRgbFinite(p.v, q.v, Add(nh, Finite(1.0 / 3.0)));
      HueToRgbFinite(p.v, q.v, nh);
      HueToRgbFinite(p.v, q.v, Sub(nh, Finite(1.0 / 3.0)));
    }
  }

  /** A NaN hue with a non-zero saturation puts the lower share `p` in all three channels. */
  lemma NaNHueGivesLowerShare(s: real, l: real)
    requires s != 0.0
    ensures var nl := Finite(l / 100.0);
            var p := Sub(Mul(Finite(2.0), nl), UpperShare(nl, Finite(s / 100.0)));
            p.Finite? && HslChannels(NaN, Finite(s), Finite(l)) == Channels(p, p, p)
  {
    var ns, nl := Finite(s / 100.0), Finite(l / 100.0);
    assert HslChannels(NaN, Finite(s), Finite(l)) == ChromaticChannels(NaN, ns, nl);
    UpperShareValue(l / 100.0, s / 100.0);
    var q := UpperShare(nl, ns);
    var p := Sub(Mul(Finite(2.0), nl), q);
    HueToRgbFinite(p.v, q.v, NaN);
  }

  /** Three shares in [0, 1] print as `#` and six lower-case digits, two per rounded byte. */
  lemma ChannelsToHexOfShares(c: Channels)
    requires AllShares(c)
    ensures var hex := ChannelsToHex(c);
            && IsHexColour(hex)
            && ByteAt(hex, 0) == Round(c.r.v * 255.0)
            && ByteAt(hex, 1) == Round(c.g.v * 255.0)
            && ByteAt(hex, 2) == Round(c.b.v * 255.0)
  {
    ToHexOfShare(c.r.v);
    ToHexOfShare(c.g.v);
    ToHexOfShare(c.b.v);
    HexOfPairs(ToHex(c.r), ToHex(c.g), ToHex(c.b));
  }

  /** `#` and three pairs of digits make a hex colour whose bytes are the pairs' values. */
  lemma HexOfPairs(x: string, y: string, z: string)
    requires IsHexPair(x) && IsHexPair(y) && IsHexPair(z)
    ensures var hex := "#" + x + y + z;
            && IsHexColour(hex)
            && ByteAt(hex, 0) == HexValue(x) && ByteAt(hex, 1) == HexValue(y) && ByteAt(hex, 2) == HexValue(z)
  {
    var hex := "#" + x + y + z;
    assert [hex[1], hex[2]] == x && [hex[3], hex[4]] == y && [hex[5], hex[6]] == z;
  }

  /**
   * A non-negative hue with saturation and lightness in [0, 100] prints as `#`
   * and six lower-case hex digits; each byte is its channel share scaled to
   * 255 and rounded, and with saturation 0 all three shares are the lightness.
   */
  lemma PlainHslToHex(h: real, s: real, l: real)
    requires h >= 0.0 && 0.0 <= s <= 100.0 && 0.0 <= l <= 100.0
    ensures var c := HslChannels(Finite(h), Finite(s), Finite(l));
            var hex := ChannelsToHex(c);
            && c.r.Finite? && c.g.Finite? && c.b.Finite?
            && IsHexColour(hex)
            && ByteAt(hex, 0) == Round(c.r.v * 255.0)
            && ByteAt(hex, 1) == Round(c.g.v * 255.0)
            && ByteAt(hex, 2) == Round(c.b.v * 255.0)
            && (s == 0.0 ==> c == Channels(Finite(l / 100.0), Finite(l / 100.0), Finite(l / 100.0)))
  {
    HslChannelsWithin(h, s, l);
    ChannelsToHexOfShares(HslChannels(Finite(h), Finite(s), Finite(l)));
  }

  /**
   * Three plain numeric tokens are read as the decimal numbers they spell, so
   * `hslToHex` computes the channels of those numbers.
   */
  lemma HslToHexOfPlainNumbers(hsl: string)
    requires hsl != ""
    requires var parts := Split(hsl, ' ');
             |parts| >= 3 && PlainNumeral(parts[0]) && PlainNumeral(parts[1]) && PlainNumeral(parts[2])
    ensures ConvertibleTokens(hsl)
    ensures var parts := Split(hsl, ' ');
            HslToHex(hsl) == ChannelsToHex(HslChannels(Finite(DecimalValue(parts[0]) as real),
                                                       Finite(DecimalValue(parts[1]) as real),
                                                       Finite(DecimalValue(parts[2]) as real)))
  {
    var parts := Split(hsl, ' ');
    assert Operand(parts, 0) == Finite(DecimalValue(parts[0]) as real);
    assert Operand(parts, 1) == Finite(DecimalValue(parts[1]) as real);
    assert Operand(parts, 2) == Finite(DecimalValue(parts[2]) as real);
  }

  /**
   * Three plain numeric tokens, saturation and lightness at most 100, give `#`
   * and six lower-case hex digits.
   */
  lemma PlainTokensGiveHexColour(hsl: string)
    requires hsl != ""
    requires var parts := Split(hsl, ' ');
             |parts| >= 3 && PlainNumeral(parts[0]) && PlainNumeral(parts[1]) && PlainNumeral(parts[2])
             && DecimalValue(parts[1]) <= 100 && DecimalValue(parts[2]) <= 100
    ensures ConvertibleTokens(hsl) && IsHexColour(HslToHex(hsl))
  {
    var parts := Split(hsl, ' ');
    HslToHexOfPlainNumbers(hsl);
    PlainHslToHex(DecimalValue(parts[0]) as real, DecimalValue(parts[1]) as real, DecimalValue(parts[2]) as real);
  }

  /** `hue2rgb` of a NaN `p` and `q` is NaN, whatever `t` is. */
  lemma HueToRgbOfNaN(t: Num)
    ensures HueToRgb(NaN, NaN, t) == NaN
  {
  }

  /** A NaN saturation or lightness makes every channel NaN. */
  lemma ChannelsOfNaN(h: Num, s: Num, l: Num)
    requires s == NaN || l == NaN
    ensures HslChannels(h, s, l) == Channels(NaN, NaN, NaN)
  {
    var nh, ns, nl := DivBy(h, 360.0), DivBy(s, 100.0), DivBy(l, 100.0);
    assert UpperShare(nl, ns) == NaN;
    HueToRgbOfNaN(Add(nh, Finite(1.0 / 3.0)));
    HueToRgbOfNaN(nh);
    HueToRgbOfNaN(Sub(nh, Finite(1.0 / 3.0)));
  }

  /** When the saturation or lightness token is missing or not a number, every channel prints `NaN`. */
  lemma HslToHexOfNaN(hsl: string)
    requires hsl != "" && ConvertibleTokens(hsl)
    requires var parts := Split(hsl, ' ');
             |parts| < 3 || ForcesNaN(parts[1]) || ForcesNaN(parts[2])
    ensures HslToHex(hsl) == "#NaNNaNNaN"
  {
    var parts := Split(hsl, ' ');
    ChannelsOfNaN(Operand(parts, 0), Operand(parts, 1), Operand(parts, 2));
    HexOfNaNChannels();
  }

  /** Three NaN channels print `NaN` each. */
  lemma HexOfNaNChannels()
    ensures ChannelsToHex(Channels(NaN, NaN, NaN)) == "#NaNNaNNaN"
  {
    assert ToHex(NaN) == "NaN";
  }

  /** A decimal rendering, with or without a `%` after it, holds no space. */
  lemma NoSpaceInNumeral(i: int)
    ensures ' ' !in IntToDecimal(i) && ' ' !in IntToDecimal(i) + "%"
  {
    var digits := NatToDecimal(if i < 0 then -i else i);
    assert forall k :: 0 <= k < |digits| ==> digits[k] != ' ';
  }

  /** The three tokens of a stored colour string: the hue, then the two percentages. */
  lemma SplitStoredColour(c: Hsl)
    ensures Split(FormatHsl(c), ' ') == [IntToDecimal(c.h), IntToDecimal(c.s) + "%", IntToDecimal(c.l) + "%"]
  {
    var a, b, z := IntToDecimal(c.h), IntToDecimal(c.s) + "%", IntToDecimal(c.l) + "%";
    NoSpaceInNumeral(c.h);
    NoSpaceInNumeral(c.s);
    NoSpaceInNumeral(c.l);
    assert FormatHsl(c) == a + [' '] + (b + [' '] + z);
    SplitAtSeparator(a, ' ', b + [' '] + z);
    SplitAtSeparator(b, ' ', z);
    SplitWithoutSeparator(z, ' ');
  }

  /**
   * Every stored colour string with a non-negative hue converts to
   * `#NaNNaNNaN`: `Number` rejects the `%` of the saturation token.
   */
  lemma StoredColourIsNaN(c: Hsl)
    requires c.h >= 0
    ensures ConvertibleTokens(FormatHsl(c)) && HslToHex(FormatHsl(c)) == "#NaNNaNNaN"
  {
    SplitStoredColour(c);
    NumberOfDecimal(c.h);
    NumberOfPercent(IntToDecimal(c.s));
    NumberOfPercent(IntToDecimal(c.l));
    HslToHexOfNaN(FormatHsl(c));
  }

  /** Whatever colour string the page holds, `hslToHex` turns it into `#NaNNaNNaN`. */
  lemma StoredColourStringIsNaN(s: string)
    requires IsStoredColour(s)
    ensures ConvertibleTokens(s) && HslToHex(s) == "#NaNNaNNaN"
  {
    var c :| InRange(c) && s == FormatHsl(c);
    StoredColourIsNaN(c);
  }

  /** Hex to HSL and back never reproduces a colour: the way back always gives `#NaNNaNNaN`. */
  lemma HexToHslToHexIsNaN(hex: string)
    requires WellFormedHex(hex)
    ensures ConvertibleTokens(HexToHsl(hex)) && HslToHex(HexToHsl(hex)) == "#NaNNaNNaN"
  {
    HexToHslIsStoredColour(hex);
    StoredColourIsNaN(HexToHslTriple(hex));
  }

  /** The empty string is white. */
  lemma HslToHexOfEmpty()
    ensures HslToHex("") == "#ffffff"
  {
  }

  /** Half a share scales and rounds to 128, printed `80`. */
  lemma HexOfHalf()
    ensures ToHex(Finite(0.5)) == "80"
  {
    assert Round(0.5 * 255.0) == 128;
    assert NatToHex(128) == "80";
  }

  lemma SplitPlainGrey()
    ensures Split("0 0 50", ' ') == ["0", "0", "50"]
  {
    SplitAtSeparator("0", ' ', "0 50");
    SplitAtSeparator("0", ' ', "50");
    SplitWithoutSeparator("50", ' ');
  }

  /** Hue 0, saturation 0 and lightness 50 give three halves. */
  lemma GreyChannels()
    ensures HslChannels(Finite(0.0), Finite(0.0), Finite(50.0)) == Channels(Finite(0.5), Finite(0.5), Finite(0.5))
  {
    assert DivBy(Finite(0.0), 100.0) == Finite(0.0) && DivBy(Finite(50.0), 100.0) == Finite(0.5);
  }

  /** Three halves print as `#808080`. */
  lemma HexOfHalves()
    ensures ChannelsToHex(Channels(Finite(0.5), Finite(0.5), Finite(0.5))) == "#808080"
  {
    HexOfHalf();
    assert "#" + "80" + "80" + "80" == "#808080";
  }

  /** A mid grey written with plain numbers: `0 0 50` is `#808080`. */
  lemma HslToHexOfPlainGrey()
    ensures ConvertibleTokens("0 0 50") && HslToHex("0 0 50") == "#808080"
  {
    SplitPlainGrey();
    HslToHexOfPlainNumbers("0 0 50");
    assert DecimalValue("0") == 0 && DecimalValue("50") == 50;
    GreyChannels();
    HexOfHalves();
  }

  /** The same grey as the page stores it, `0 0% 50%`, is `#NaNNaNNaN`. */
  lemma FormatGrey()
    ensures FormatHsl(Hsl(0, 0, 50)) == "0 0% 50%"
  {
    assert NatToDecimal(50) == "50";
  }

  lemma HslToHexOfStoredGrey()
    ensures ConvertibleTokens("0 0% 50%") && HslToHex("0 0% 50%") == "#NaNNaNNaN"
  {
    FormatGrey();
    StoredColourIsNaN(Hsl(0, 0, 50));
  }

  // ---------------------------------------------------------------------------
  // generateRandomColor
  // ---------------------------------------------------------------------------

  /** The triple `generateRandomColor` draws, given three values of `Math.random()`. */
  function RandomHsl(u1: real, u2: real, u3: real): (c: Hsl)
    requires 0.0 <= u1 < 1.0 && 0.0 <= u2 < 1.0 && 0.0 <= u3 < 1.0
    ensures 0 <= c.h <= 359 && 0 <= c.s <= 99 && 0 <= c.l <= 99
  {
    Hsl((u1 * 360.0).Floor, (u2 * 100.0).Floor, (u3 * 100.0).Floor)
  }

  /** `generateRandomColor()`, with its three `Math.random()` draws as parameters. */
  function GenerateRandomColor(u1: real, u2: real, u3: real): string
    requires 0.0 <= u1 < 1.0 && 0.0 <= u2 < 1.0 && 0.0 <= u3 < 1.0
  {
    FormatHsl(RandomHsl(u1, u2, u3))
  }

  /** Every triple with hue below 360 and percentages below 100 is drawn for some random values. */
  lemma RandomHslReachesEveryTriple(c: Hsl)
    requires 0 <= c.h <= 359 && 0 <= c.s <= 99 && 0 <= c.l <= 99
    ensures var u1, u2, u3 := c.h as real / 360.0, c.s as real / 100.0, c.l as real / 100.0;
            0.0 <= u1 < 1.0 && 0.0 <= u2 < 1.0 && 0.0 <= u3 < 1.0
            && RandomHsl(u1, u2, u3) == c
  {
    assert c.h as real / 360.0 * 360.0 == c.h as real;
    assert c.s as real / 100.0 * 100.0 == c.s as real;
    assert c.l as real / 100.0 * 100.0 == c.l as real;
  }
}
