/**
 * Colour encoding and colour harmony (interior-design-backend/utils/colorUtils.js).
 *
 * Colours are written in the `#rrggbb` hex notation of CSS Color Module
 * Level 3, section 4.2.1; the HSL conversion follows section 4.2.4 of the
 * same module. The source computes HSL in IEEE-754 doubles; here the same
 * formulas are evaluated over exact reals.
 */
module ColorUtils {

  /** A colour channel as the image statistics produce it: an integer 0..255. */
  type Byte = x: int | 0 <= x < 256

  // ----- hex digits -------------------------------------------------------

  predicate IsHexDigit(c: char) {
    '0' <= c <= '9' || 'a' <= c <= 'f' || 'A' <= c <= 'F'
  }

  predicate IsLowerHexDigit(c: char) {
    '0' <= c <= '9' || 'a' <= c <= 'f'
  }

  function HexValue(c: char): (v: nat)
    requires IsHexDigit(c)
    ensures v < 16
  {
    if '0' <= c <= '9' then c as int - '0' as int
    else if 'a' <= c <= 'f' then c as int - 'a' as int + 10
    else c as int - 'A' as int + 10
  }

  /** The digit JavaScript prints for `d` in base 16 (always lower case). */
  function HexDigit(d: int): (c: char)
    requires 0 <= d < 16
    ensures IsLowerHexDigit(c) && HexValue(c) == d
  {
    if d < 10 then ('0' as int + d) as char else ('a' as int + d - 10) as char
  }

  lemma DigitOfValue(c: char)
    requires IsLowerHexDigit(c)
    ensures HexDigit(HexValue(c)) == c
  {
  }

  predicate AllHexDigits(s: string) {
    forall i :: 0 <= i < |s| ==> IsHexDigit(s[i])
  }

  /** `Number.prototype.toString(16)` on a non-negative integer: no leading zeros. */
  function NatToHex(n: nat): (s: string)
    ensures 1 <= |s|
    ensures forall i :: 0 <= i < |s| ==> IsLowerHexDigit(s[i])
    ensures n < 16 <==> |s| == 1
    decreases n
  {
    if n < 16 then [HexDigit(n)] else NatToHex(n / 16) + [HexDigit(n % 16)]
  }

  /** `Number.prototype.toString(16)` on an integer: a minus sign, then the digits. */
  function IntToHex(n: int): string {
    if n < 0 then "-" + NatToHex(-n) else NatToHex(n)
  }

  /** `parseInt(s, 16)` on a non-empty string made only of hex digits. */
  function ParseHex(s: string): nat
    requires 1 <= |s| && AllHexDigits(s)
    decreases |s|
  {
    if |s| == 1 then HexValue(s[0])
    else 16 * ParseHex(s[..|s| - 1]) + HexValue(s[|s| - 1])
  }

  /** `parseInt(n.toString(16), 16) == n` for every non-negative integer. */
  lemma {:induction false} ParseHexOfNatToHex(n: nat)
    ensures AllHexDigits(NatToHex(n)) && ParseHex(NatToHex(n)) == n
    decreases n
  {
    if n >= 16 {
      ParseHexOfNatToHex(n / 16);
      var s := NatToHex(n);
      assert s[..|s| - 1] == NatToHex(n / 16);
    }
  }

  /** Appending a digit multiplies by sixteen. */
  lemma NatToHexSnoc(a: nat, d: int)
    requires 1 <= a && 0 <= d < 16
    ensures NatToHex(16 * a + d) == NatToHex(a) + [HexDigit(d)]
  {
    assert (16 * a + d) / 16 == a;
    assert (16 * a + d) % 16 == d;
  }

  // ----- rgbToHex ---------------------------------------------------------

  /** One channel of `rgbToHex`: its hex digits, padded with '0' when there is only one. */
  function ChannelToHex(x: int): string {
    var hex := IntToHex(x);
    if |hex| == 1 then "0" + hex else hex
  }

  function JoinChannels(rgb: seq<int>): string
    decreases |rgb|
  {
    if rgb == [] then "" else ChannelToHex(rgb[0]) + JoinChannels(rgb[1..])
  }

  /** `rgbToHex(rgb)`: '#' and the channels' padded hex digits, joined. */
  function RgbToHex(rgb: seq<int>): string {
    "#" + JoinChannels(rgb)
  }

  /** The two lower-case digits of a byte, high digit first. */
  function HexPair(x: Byte): string {
    [HexDigit(x / 16), HexDigit(x % 16)]
  }

  predicate IsLowerHexColor(s: string) {
    |s| == 7 && s[0] == '#' && forall i :: 1 <= i < 7 ==> IsLowerHexDigit(s[i])
  }

  /** What `generateComplementaryColors` needs of its argument: three hex-digit pairs after the first character. */
  predicate HasHexChannels(s: string) {
    |s| >= 7 && forall i :: 1 <= i < 7 ==> IsHexDigit(s[i])
  }

  lemma ChannelToHexOfByte(x: Byte)
    ensures ChannelToHex(x) == HexPair(x)
  {
    if x >= 16 {
      assert NatToHex(x) == NatToHex(x / 16) + [HexDigit(x % 16)];
    }
  }

  /** A byte triple is encoded as '#' followed by exactly six lower-case digits, two per channel. */
  lemma RgbToHexOfBytes(r: Byte, g: Byte, b: Byte)
    ensures RgbToHex([r, g, b]) == "#" + HexPair(r) + HexPair(g) + HexPair(b)
    ensures IsLowerHexColor(RgbToHex([r, g, b]))
  {
    JoinBytes(r, g, b);
    HexPairsColor(r, g, b);
  }

  /** Joining the channels of a byte triple concatenates their hex pairs. */
  lemma {:induction false} JoinBytes(r: Byte, g: Byte, b: Byte)
    ensures JoinChannels([r, g, b]) == HexPair(r) + HexPair(g) + HexPair(b)
  {
    ChannelToHexOfByte(r);
    ChannelToHexOfByte(g);
    ChannelToHexOfByte(b);
    assert [r, g, b][1..] == [g, b];
    assert [g, b][1..] == [b];
    assert [b][1..] == [];
    assert JoinChannels([b]) == HexPair(b) + "";
    assert JoinChannels([g, b]) == HexPair(g) + HexPair(b);
  }

  lemma ParseHexPair(x: Byte)
    ensures AllHexDigits(HexPair(x)) && ParseHex(HexPair(x)) == x
  {
    var s := HexPair(x);
    assert s[..1] == [s[0]];
  }

  /** Reading a lower-case digit pair and printing it again gives the same two characters. */
  lemma HexPairOfParse(s: string)
    requires |s| == 2 && IsLowerHexDigit(s[0]) && IsLowerHexDigit(s[1])
    ensures AllHexDigits(s) && 0 <= ParseHex(s) < 256 && HexPair(ParseHex(s)) == s
  {
    assert s[..1] == [s[0]];
    var v := ParseHex(s);
    assert v == 16 * HexValue(s[0]) + HexValue(s[1]);
    assert v / 16 == HexValue(s[0]) && v % 16 == HexValue(s[1]);
    DigitOfValue(s[0]);
    DigitOfValue(s[1]);
  }

  /**
   * Round trip: parsing the slices [1,3), [3,5) and [5,7) of the encoding in
   * base 16 gives back the three channels.
   */
  lemma RgbToHexRoundTrip(r: Byte, g: Byte, b: Byte)
    ensures var s := RgbToHex([r, g, b]);
      && IsLowerHexColor(s)
      && AllHexDigits(s[1..3]) && ParseHex(s[1..3]) == r
      && AllHexDigits(s[3..5]) && ParseHex(s[3..5]) == g
      && AllHexDigits(s[5..7]) && ParseHex(s[5..7]) == b
  {
    RgbToHexOfBytes(r, g, b);
    var s := RgbToHex([r, g, b]);
    assert s[1..3] == HexPair(r);
    assert s[3..5] == HexPair(g);
    assert s[5..7] == HexPair(b);
    ParseHexPair(r);
    ParseHexPair(g);
    ParseHexPair(b);
  }

  /** Distinct byte triples have distinct encodings. */
  lemma RgbToHexInjective(r: Byte, g: Byte, b: Byte, r': Byte, g': Byte, b': Byte)
    requires RgbToHex([r, g, b]) == RgbToHex([r', g', b'])
    ensures r == r' && g == g' && b == b'
  {
    RgbToHexRoundTrip(r, g, b);
    RgbToHexRoundTrip(r', g', b');
  }

  // ----- generateComplementaryColors: parsing and the complement ------------

  /** The three channels `generateComplementaryColors` parses out of its argument. */
  function Channels(hex: string): (c: (Byte, Byte, Byte))
    requires HasHexChannels(hex)
  {
    assert AllHexDigits(hex[1..3]) && AllHexDigits(hex[3..5]) && AllHexDigits(hex[5..7]);
    assert hex[1..3][..1] == [hex[1]] && hex[3..5][..1] == [hex[3]] && hex[5..7][..1] == [hex[5]];
    assert ParseHex(hex[1..3]) == 16 * HexValue(hex[1]) + HexValue(hex[2]);
    assert ParseHex(hex[3..5]) == 16 * HexValue(hex[3]) + HexValue(hex[4]);
    assert ParseHex(hex[5..7]) == 16 * HexValue(hex[5]) + HexValue(hex[6]);
    (ParseHex(hex[1..3]), ParseHex(hex[3..5]), ParseHex(hex[5..7]))
  }

  /**
   * The complementary colour, printed with the `(1 << 24)` trick: the packed
   * value gets a leading 1 digit that is then sliced off. The shifts cannot
   * overflow 32 bits, since every channel is at most 255.
   */
  function ComplementHex(r: Byte, g: Byte, b: Byte): string {
    "#" + NatToHex(0x100_0000 + (255 - r) * 0x1_0000 + (255 - g) * 0x100 + (255 - b))[1..]
  }

  /** Appending a byte as two digits multiplies by 256. */
  lemma NatToHexSnocPair(a: nat, x: Byte)
    requires 1 <= a
    ensures NatToHex(256 * a + x) == NatToHex(a) + HexPair(x)
  {
    assert 256 * a + x == 16 * (16 * a + x / 16) + x % 16;
    NatToHexSnoc(16 * a + x / 16, x % 16);
    NatToHexSnoc(a, x / 16);
  }

  /**
   * The `(1 << 24)` trick prints each channel of the complement, 255 minus the
   * input channel, as two zero-padded lower-case digits: it is `rgbToHex` of
   * the inverted channels.
   */
  lemma ComplementIsInversion(r: Byte, g: Byte, b: Byte)
    ensures ComplementHex(r, g, b) == RgbToHex([255 - r, 255 - g, 255 - b])
    ensures IsLowerHexColor(ComplementHex(r, g, b))
  {
    ComplementPairs(r, g, b);
    RgbToHexOfBytes(255 - r, 255 - g, 255 - b);
  }

  /** The complement is `#` and the hex pairs of the three inverted channels. */
  lemma ComplementPairs(r: Byte, g: Byte, b: Byte)
    ensures ComplementHex(r, g, b) == "#" + HexPair(255 - r) + HexPair(255 - g) + HexPair(255 - b)
  {
    var digits := HexPair(255 - r) + HexPair(255 - g) + HexPair(255 - b);
    PackedDigits(255 - r, 255 - g, 255 - b);
    assert ("1" + digits)[1..] == digits;
  }

  /** Appending three bytes as two digits each. */
  lemma NatToHexSnocPairs(a: nat, R: Byte, G: Byte, B: Byte)
    requires 1 <= a
    ensures NatToHex(256 * (256 * (256 * a + R) + G) + B) == NatToHex(a) + HexPair(R) + HexPair(G) + HexPair(B)
  {
    NatToHexSnocPair(a, R);
    NatToHexSnocPair(256 * a + R, G);
    NatToHexSnocPair(256 * (256 * a + R) + G, B);
  }

  /** The packed value `(1 << 24) + (R << 16) + (G << 8) + B` prints as a 1 followed by the three hex pairs. */
  lemma PackedDigits(R: Byte, G: Byte, B: Byte)
    ensures NatToHex(0x100_0000 + R * 0x1_0000 + G * 0x100 + B) == "1" + HexPair(R) + HexPair(G) + HexPair(B)
  {
    NatToHexSnocPairs(1, R, G, B);
    assert 256 * (256 * (256 * 1 + R) + G) + B == 0x100_0000 + R * 0x1_0000 + G * 0x100 + B;
    assert NatToHex(1) == "1";
  }

  // ----- HSL ----------------------------------------------------------------

  datatype Hsl = Hsl(h: real, s: real, l: real)

  /** `Math.max` and `Math.min` of three numbers. */
  function Max3(a: real, b: real, c: real): (m: real)
    ensures m == a || m == b || m == c
    ensures a <= m && b <= m && c <= m
  {
    if a >= b && a >= c then a else if b >= c then b else c
  }

  function Min3(a: real, b: real, c: real): (m: real)
    ensures m == a || m == b || m == c
    ensures m <= a && m <= b && m <= c
  {
    if a <= b && a <= c then a else if b <= c then b else c
  }

  /**
   * `rgbToHsl(r, g, b)`: lightness is the mean of the largest and smallest
   * channel, saturation is split on lightness 0.5, and the hue is chosen by the
   * `switch (max)` whose first matching case is r, then g, then b.
   */
  function RgbToHsl(r: Byte, g: Byte, b: Byte): Hsl {
    var r', g', b' := r as real / 255.0, g as real / 255.0, b as real / 255.0;
    var max := Max3(r', g', b');
    var min := Min3(r', g', b');
    var l := (max + min) / 2.0;
    if max == min then Hsl(0.0, 0.0, l)
    else
      var d := max - min;
      var s := if l > 0.5 then d / (2.0 - max - min) else d / (max + min);
      var h :=
        if max == r' then (g' - b') / d + (if g' < b' then 6.0 else 0.0)
        else if max == g' then (b' - r') / d + 2.0
        else (r' - g') / d + 4.0;
      Hsl(h * 60.0, s, l)
  }

  /** `Math.round`: rounds half-way values up. */
  function Round(x: real): int {
    (x + 0.5).Floor
  }

  /** The `hue2rgb` helper of `hslToHex`: first wraps `t` into [0, 1] once in each direction. */
  function Hue2Rgb(p: real, q: real, t: real): real {
    var t1 := if t < 0.0 then t + 1.0 else t;
    var t2 := if t1 > 1.0 then t1 - 1.0 else t1;
    Hue2RgbWrapped(p, q, t2)
  }

  function Hue2RgbWrapped(p: real, q: real, t: real): real {
    if t < 1.0 / 6.0 then p + (q - p) * 6.0 * t
    else if t < 1.0 / 2.0 then q
    else if t < 2.0 / 3.0 then p + (q - p) * (2.0 / 3.0 - t) * 6.0
    else p
  }

  /** The larger intermediate value `q` of `hslToHex`. */
  function HslQ(s: real, l: real): real {
    if l < 0.5 then l * (1.0 + s) else l + s - l * s
  }

  /** The `toHex` helper of `hslToHex`: scale to 0..255, round, print padded. */
  function UnitToHex(x: real): string {
    ChannelToHex(Round(x * 255.0))
  }

  /** `hslToHex(h, s, l)`; a saturation of exactly 0 makes all three channels the lightness. */
  function HslToHex(h: real, s: real, l: real): string {
    if s == 0.0 then
      "#" + UnitToHex(l) + UnitToHex(l) + UnitToHex(l)
    else
      var q := HslQ(s, l);
      var p := 2.0 * l - q;
      "#" + UnitToHex(Hue2Rgb(p, q, h / 360.0 + 1.0 / 3.0))
          + UnitToHex(Hue2Rgb(p, q, h / 360.0))
          + UnitToHex(Hue2Rgb(p, q, h / 360.0 - 1.0 / 3.0))
  }

  /** JavaScript's `%` on numbers: the remainder of division truncated toward zero. */
  function Remainder(x: real, m: real): real
    requires m > 0.0
  {
    var q := x / m;
    var t := if q >= 0.0 then q.Floor else -((-q).Floor);
    x - m * t as real
  }

  /** Hue `h` turned by `offset` degrees, as `(h + offset) % 360`. */
  function Rotate(h: real, offset: real): real {
    Remainder(h + offset, 360.0)
  }

  // ----- generateComplementaryColors ----------------------------------------

  /**
   * `generateComplementaryColors(hexColor)`: the input unchanged, its
   * complement, the two analogous hues (+30 and +330 degrees) and the two
   * triadic hues (+120 and +240 degrees), with saturation and lightness kept.
   */
  function GenerateComplementaryColors(hexColor: string): (colors: seq<string>)
    requires HasHexChannels(hexColor)
    ensures |colors| == 6 && colors[0] == hexColor
  {
    var (r, g, b) := Channels(hexColor);
    var hsl := RgbToHsl(r, g, b);
    [ hexColor,
      ComplementHex(r, g, b),
      HslToHex(Rotate(hsl.h, 30.0), hsl.s, hsl.l),
      HslToHex(Rotate(hsl.h, 330.0), hsl.s, hsl.l),
      HslToHex(Rotate(hsl.h, 120.0), hsl.s, hsl.l),
      HslToHex(Rotate(hsl.h, 240.0), hsl.s, hsl.l) ]
  }

  // ----- properties of the harmony set ---------------------------------------

  /** Division of a number by a positive bound on its magnitude stays in [-1, 1]. */
  lemma DivWithin(x: real, d: real)
    requires d > 0.0 && -d <= x <= d
    ensures -1.0 <= x / d <= 1.0
    ensures x < 0.0 ==> x / d < 0.0
  {
    assert x / d * d == x;
  }

  lemma DivPositive(x: real, d: real)
    requires x > 0.0 && d > 0.0
    ensures x / d > 0.0
  {
    assert x / d * d == x;
  }

  /** The saturation of a non-grey colour lies in (0, 1]. */
  lemma SaturationRange(max: real, min: real)
    requires 0.0 <= min < max <= 1.0
    ensures var d, l := max - min, (max + min) / 2.0;
      var s := if l > 0.5 then d / (2.0 - max - min) else d / (max + min);
      0.0 < s <= 1.0
  {
    var d, l := max - min, (max + min) / 2.0;
    if l > 0.5 {
      DivWithin(d, 2.0 - max - min);
      DivPositive(d, 2.0 - max - min);
    } else {
      DivWithin(d, max + min);
      DivPositive(d, max + min);
    }
  }

  /** The hue of a non-grey colour, in sixths of the colour wheel, lies in [0, 6). */
  lemma HueRange(r': real, g': real, b': real)
    requires 0.0 <= r' <= 1.0 && 0.0 <= g' <= 1.0 && 0.0 <= b' <= 1.0
    requires Max3(r', g', b') != Min3(r', g', b')
    ensures var max, min := Max3(r', g', b'), Min3(r', g', b');
      var d := max - min;
      var h :=
        if max == r' then (g' - b') / d + (if g' < b' then 6.0 else 0.0)
        else if max == g' then (b' - r') / d + 2.0
        else (r' - g') / d + 4.0;
      0.0 <= h * 60.0 < 360.0
  {
    var max, min := Max3(r', g', b'), Min3(r', g', b');
    var d := max - min;
    if max == r' {
      DivWithin(g' - b', d);
      if g' >= b' && (g' - b') / d == 1.0 {
        assert g' - b' == d;
      }
    } else if max == g' {
      DivWithin(b' - r', d);
    } else {
      DivWithin(r' - g', d);
    }
  }

  /**
   * For byte channels the HSL triple lies in range (hue in [0, 360),
   * saturation and lightness in [0, 1]) and the colour is grey exactly
   * when the saturation is 0.
   */
  lemma HslRange(r: Byte, g: Byte, b: Byte)
    ensures var c := RgbToHsl(r, g, b);
      && 0.0 <= c.h < 360.0 && 0.0 <= c.s <= 1.0 && 0.0 <= c.l <= 1.0
      && (c.s == 0.0 <==> r == g == b)
  {
    var r', g', b' := r as real / 255.0, g as real / 255.0, b as real / 255.0;
    var max := Max3(r', g', b');
    var min := Min3(r', g', b');
    assert 0.0 <= min <= max <= 1.0;
    if max != min {
      SaturationRange(max, min);
      HueRange(r', g', b');
      assert r' != g' || g' != b';
    } else {
      assert r' == g' == b';
    }
  }

  /** A grey colour has hue 0, saturation 0 and lightness equal to its channel. */
  lemma GreyHsl(x: Byte)
    ensures RgbToHsl(x, x, x) == Hsl(0.0, 0.0, x as real / 255.0)
  {
  }

  /** Turning a hue in [0, 360) by an offset in [0, 360) gives a hue in [0, 360). */
  lemma RotateRange(h: real, offset: real)
    requires 0.0 <= h < 360.0 && 0.0 <= offset < 360.0
    ensures 0.0 <= Rotate(h, offset) < 360.0
    ensures Rotate(h, offset) == if h + offset < 360.0 then h + offset else h + offset - 360.0
  {
    var x := h + offset;
    var q := x / 360.0;
    assert q * 360.0 == x;
    if x < 360.0 {
      assert 0.0 <= q < 1.0;
      assert q.Floor == 0;
    } else {
      assert 1.0 <= q < 2.0;
      assert q.Floor == 1;
    }
  }

  lemma RoundUnit(x: real)
    requires 0.0 <= x <= 1.0
    ensures 0 <= Round(x * 255.0) < 256
  {
  }

  lemma UnitToHexOfUnit(x: real)
    requires 0.0 <= x <= 1.0
    ensures 0 <= Round(x * 255.0) < 256 && UnitToHex(x) == HexPair(Round(x * 255.0))
  {
    RoundUnit(x);
    ChannelToHexOfByte(Round(x * 255.0));
  }

  lemma MulAtMost(a: real, b: real)
    requires 0.0 <= a && 0.0 <= b <= 1.0
    ensures 0.0 <= a * b <= a
  {
  }

  /** `hue2rgb` stays between its two bounds for a hue parameter in [-1/3, 4/3). */
  lemma Hue2RgbRange(p: real, q: real, t: real)
    requires 0.0 <= p <= q <= 1.0 && -1.0 / 3.0 <= t < 4.0 / 3.0
    ensures p <= Hue2Rgb(p, q, t) <= q
  {
    var t1 := if t < 0.0 then t + 1.0 else t;
    var t2 := if t1 > 1.0 then t1 - 1.0 else t1;
    Hue2RgbWrappedRange(p, q, t2);
  }

  lemma Hue2RgbWrappedRange(p: real, q: real, t: real)
    requires 0.0 <= p <= q <= 1.0 && 0.0 <= t <= 1.0
    ensures p <= Hue2RgbWrapped(p, q, t) <= q
  {
    if t < 1.0 / 6.0 {
      MulAtMost(q - p, 6.0 * t);
      assert (q - p) * 6.0 * t == (q - p) * (6.0 * t);
    } else if t < 1.0 / 2.0 {
    } else if t < 2.0 / 3.0 {
      MulAtMost(q - p, (2.0 / 3.0 - t) * 6.0);
    }
  }

  lemma Distribute(a: real, b: real, c: real)
    ensures a * (b + c) == a * b + a * c
  {
  }

  /** The two intermediate values of `hslToHex` satisfy 0 <= p <= q <= 1. */
  lemma HslBounds(s: real, l: real)
    requires 0.0 <= s <= 1.0 && 0.0 <= l <= 1.0
    ensures 0.0 <= 2.0 * l - HslQ(s, l) <= HslQ(s, l) <= 1.0
  {
    if l < 0.5 {
      HslBoundsDark(s, l);
    } else {
      HslBoundsLight(s, l);
    }
  }

  lemma HslBoundsDark(s: real, l: real)
    requires 0.0 <= s <= 1.0 && 0.0 <= l < 0.5
    ensures 0.0 <= 2.0 * l - HslQ(s, l) <= HslQ(s, l) <= 1.0
  {
    MulAtMost(l, s);
    Distribute(l, 1.0, s);
    assert l * 1.0 == l;
  }

  lemma HslBoundsLight(s: real, l: real)
    requires 0.0 <= s <= 1.0 && 0.5 <= l <= 1.0
    ensures 0.0 <= 2.0 * l - HslQ(s, l) <= HslQ(s, l) <= 1.0
  {
    MulAtMost(1.0 - l, s);
    assert (1.0 - l) * s == s - l * s;
  }

  lemma HexPairsColor(a: Byte, b: Byte, c: Byte)
    ensures IsLowerHexColor("#" + HexPair(a) + HexPair(b) + HexPair(c))
  {
  }

  /** A `hue2rgb` value for a hue parameter in [-1/3, 4/3) is a unit value. */
  lemma ChromaticChannel(s: real, l: real, t: real)
    requires 0.0 <= s <= 1.0 && 0.0 <= l <= 1.0 && -1.0 / 3.0 <= t < 4.0 / 3.0
    ensures 0.0 <= Hue2Rgb(2.0 * l - HslQ(s, l), HslQ(s, l), t) <= 1.0
  {
    HslBounds(s, l);
    Hue2RgbRange(2.0 * l - HslQ(s, l), HslQ(s, l), t);
  }

  /** Three unit values print, through `toHex`, as a lower-case `#rrggbb` colour. */
  lemma UnitsColor(x1: real, x2: real, x3: real)
    requires 0.0 <= x1 <= 1.0 && 0.0 <= x2 <= 1.0 && 0.0 <= x3 <= 1.0
    ensures IsLowerHexColor("#" + UnitToHex(x1) + UnitToHex(x2) + UnitToHex(x3))
  {
    UnitToHexOfUnit(x1);
    UnitToHexOfUnit(x2);
    UnitToHexOfUnit(x3);
    HexPairsColor(Round(x1 * 255.0), Round(x2 * 255.0), Round(x3 * 255.0));
  }

  /** For a hue in [0, 360) and saturation and lightness in [0, 1], `hslToHex` prints a lower-case `#rrggbb` colour. */
  lemma HslToHexIsColor(h: real, s: real, l: real)
    requires 0.0 <= h < 360.0 && 0.0 <= s <= 1.0 && 0.0 <= l <= 1.0
    ensures IsLowerHexColor(HslToHex(h, s, l))
  {
    if s == 0.0 {
      UnitsColor(l, l, l);
    } else {
      var q := HslQ(s, l);
      var p := 2.0 * l - q;
      var t := h / 360.0;
      assert 0.0 <= t < 1.0;
      ChromaticChannel(s, l, t + 1.0 / 3.0);
      ChromaticChannel(s, l, t);
      ChromaticChannel(s, l, t - 1.0 / 3.0);
      UnitsColor(Hue2Rgb(p, q, t + 1.0 / 3.0), Hue2Rgb(p, q, t), Hue2Rgb(p, q, t - 1.0 / 3.0));
    }
  }

  /** With saturation 0, `hslToHex` gives a colour whose three channels are equal: the lightness, scaled back to a byte. */
  lemma GreyHslToHex(h: real, x: Byte)
    ensures HslToHex(h, 0.0, x as real / 255.0) == RgbToHex([x, x, x])
  {
    assert (x as real / 255.0) * 255.0 == x as real;
    assert Round(x as real) == x;
    ChannelToHexOfByte(x);
    RgbToHexOfBytes(x, x, x);
  }

  /**
   * Every derived entry of the harmony set (complement, analogous and
   * triadic colours) is a lower-case `#rrggbb` colour.
   */
  lemma HarmonyWellFormed(hexColor: string)
    requires HasHexChannels(hexColor)
    ensures var colors := GenerateComplementaryColors(hexColor);
      forall i :: 1 <= i < 6 ==> IsLowerHexColor(colors[i])
  {
    var (r, g, b) := Channels(hexColor);
    ComplementEntry(hexColor);
    ComplementIsInversion(r, g, b);
    RotatedEntries(hexColor);
  }

  /** Entries 2..5 of the harmony set, the rotated hues, are lower-case `#rrggbb` colours. */
  lemma RotatedEntries(hexColor: string)
    requires HasHexChannels(hexColor)
    ensures var colors := GenerateComplementaryColors(hexColor);
      forall i :: 2 <= i < 6 ==> IsLowerHexColor(colors[i])
  {
    var (r, g, b) := Channels(hexColor);
    HslRange(r, g, b);
    RotationsOf(RgbToHsl(r, g, b));
  }

  /** The four rotations the harmony set uses, of an in-range HSL triple, print as lower-case `#rrggbb` colours. */
  lemma RotationsOf(hsl: Hsl)
    requires 0.0 <= hsl.h < 360.0 && 0.0 <= hsl.s <= 1.0 && 0.0 <= hsl.l <= 1.0
    ensures IsLowerHexColor(HslToHex(Rotate(hsl.h, 30.0), hsl.s, hsl.l))
    ensures IsLowerHexColor(HslToHex(Rotate(hsl.h, 330.0), hsl.s, hsl.l))
    ensures IsLowerHexColor(HslToHex(Rotate(hsl.h, 120.0), hsl.s, hsl.l))
    ensures IsLowerHexColor(HslToHex(Rotate(hsl.h, 240.0), hsl.s, hsl.l))
  {
    RotatedColor(hsl, 30.0);
    RotatedColor(hsl, 330.0);
    RotatedColor(hsl, 120.0);
    RotatedColor(hsl, 240.0);
  }

  /** Rotating the hue of an in-range HSL triple and printing it gives a lower-case `#rrggbb` colour. */
  lemma RotatedColor(hsl: Hsl, offset: real)
    requires 0.0 <= hsl.h < 360.0 && 0.0 <= hsl.s <= 1.0 && 0.0 <= hsl.l <= 1.0 && 0.0 <= offset < 360.0
    ensures IsLowerHexColor(HslToHex(Rotate(hsl.h, offset), hsl.s, hsl.l))
  {
    RotateRange(hsl.h, offset);
    HslToHexIsColor(Rotate(hsl.h, offset), hsl.s, hsl.l);
  }

  /** Printing the parsed channels of a lower-case colour gives the colour back. */
  lemma RgbToHexOfChannels(hexColor: string)
    requires IsLowerHexColor(hexColor)
    ensures var (r, g, b) := Channels(hexColor); RgbToHex([r, g, b]) == hexColor
  {
    var (r, g, b) := Channels(hexColor);
    HexPairOfParse(hexColor[1..3]);
    HexPairOfParse(hexColor[3..5]);
    HexPairOfParse(hexColor[5..7]);
    RgbToHexOfBytes(r, g, b);
    assert hexColor == "#" + hexColor[1..3] + hexColor[3..5] + hexColor[5..7];
  }

  /**
   * A grey base colour (r = g = b) has hue and saturation 0, so the four
   * rotated entries all print the base colour's own channels; for a
   * lower-case base they equal the base string.
   */
  lemma GreyHarmony(hexColor: string)
    requires HasHexChannels(hexColor)
    requires Channels(hexColor).0 == Channels(hexColor).1 == Channels(hexColor).2
    ensures var colors := GenerateComplementaryColors(hexColor);
      var x := Channels(hexColor).0;
      forall i :: 2 <= i < 6 ==> colors[i] == RgbToHex([x, x, x])
    ensures IsLowerHexColor(hexColor) ==>
      forall i :: 2 <= i < 6 ==> GenerateComplementaryColors(hexColor)[i] == hexColor
  {
    var x := Channels(hexColor).0;
    GreyHsl(x);
    GreyHslToHex(30.0, x);
    GreyHslToHex(330.0, x);
    GreyHslToHex(120.0, x);
    GreyHslToHex(240.0, x);
    assert Rotate(0.0, 30.0) == 30.0 && Rotate(0.0, 330.0) == 330.0 by {
      RotateRange(0.0, 30.0);
      RotateRange(0.0, 330.0);
    }
    assert Rotate(0.0, 120.0) == 120.0 && Rotate(0.0, 240.0) == 240.0 by {
      RotateRange(0.0, 120.0);
      RotateRange(0.0, 240.0);
    }
    if IsLowerHexColor(hexColor) {
      RgbToHexOfChannels(hexColor);
    }
  }

  /**
   * The complement is an involution on lower-case `#rrggbb` colours:
   * complementing the complement gives back the original string.
   */
  lemma ComplementInvolution(hexColor: string)
    requires IsLowerHexColor(hexColor)
    ensures var c := GenerateComplementaryColors(hexColor)[1];
      HasHexChannels(c) && GenerateComplementaryColors(c)[1] == hexColor
  {
    var (r, g, b) := Channels(hexColor);
    var c := ComplementHex(r, g, b);
    ComplementEntry(hexColor);
    ChannelsOfComplement(r, g, b);
    ComplementEntry(c);
    ComplementIsInversion(255 - r, 255 - g, 255 - b);
    RgbToHexOfChannels(hexColor);
  }

  lemma ComplementEntry(hexColor: string)
    requires HasHexChannels(hexColor)
    ensures var (r, g, b) := Channels(hexColor);
      GenerateComplementaryColors(hexColor)[1] == ComplementHex(r, g, b)
  {
  }

  /** Parsing the encoding of a byte triple gives the triple. */
  lemma ChannelsOfRgbToHex(r: Byte, g: Byte, b: Byte)
    ensures HasHexChannels(RgbToHex([r, g, b]))
    ensures Channels(RgbToHex([r, g, b])) == (r, g, b)
  {
    RgbToHexRoundTrip(r, g, b);
  }

  lemma ChannelsOfComplement(r: Byte, g: Byte, b: Byte)
    ensures HasHexChannels(ComplementHex(r, g, b))
    ensures Channels(ComplementHex(r, g, b)) == (255 - r, 255 - g, 255 - b)
  {
    ComplementIsInversion(r, g, b);
    RgbToHexRoundTrip(255 - r, 255 - g, 255 - b);
  }
}
