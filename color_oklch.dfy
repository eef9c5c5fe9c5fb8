/**
 * The string front end of the hex-to-OKLCH conversion (scripts/color_oklch.py): the hex
 * string is read into three 8-bit channels and scaled to [0, 1], then handed to the
 * numeric stages. The gamma power, the Oklab matrices with their cube roots, and the
 * polar conversion are floating-point work and are parameters here.
 */
module ColorOklch {
  import opened Common
  import opened PyText
  import ColorHex

  /** The error `_hex_to_linear_rgb` raises when the digits are not six characters long. */
  const FormatError: Exception := ValueError("hex_str must be in RRGGBB format")

  /** A float triple: linear RGB, Oklab `(L, a, b)` or OKLCH `(L, C, h)`. */
  datatype Triple = Triple(x: real, y: real, z: real)

  /**
   * What `_hex_to_linear_rgb` parses: the stripped input with one leading `#` removed
   * when there is one (a second `#` stays).
   */
  function DigitsPart(hexStr: string): (s: string)
    ensures Strip(hexStr) == s || Strip(hexStr) == "#" + s
    ensures Strip(hexStr) == s ==> s == [] || s[0] != '#'
  {
    var t := Strip(hexStr);
    if |t| > 0 && t[0] == '#' then
      assert t == "#" + t[1..];
      t[1..]
    else t
  }

  /** The error of a failed `int(t, 16)` is never the format error. */
  lemma IntLiteralIsNotFormatError(t: string)
    ensures IntLiteralError(t) != FormatError
  {
    assert IntLiteralError(t).message[0] == 'i';
  }

  /**
   * `r8, g8, b8` of `_hex_to_linear_rgb`: digits that are not six characters long raise
   * the format error; otherwise `int(s[0:2], 16)`, `int(s[2:4], 16)` and `int(s[4:6], 16)`
   * are taken in that order, and the first of them that raises ends the call.
   */
  function HexToChannels(hexStr: string): (r: Result<ColorHex.Channels>)
    ensures r == Failure(FormatError) <==> |DigitsPart(hexStr)| != 6
    ensures |DigitsPart(hexStr)| == 6 && r.Failure? ==>
      exists t :: r.error == IntLiteralError(t)
  {
    var s := DigitsPart(hexStr);
    if |s| != 6 then Failure(FormatError)
    else
      IntLiteralIsNotFormatError(Slice(s, 0, 2));
      IntLiteralIsNotFormatError(Slice(s, 2, 4));
      IntLiteralIsNotFormatError(Slice(s, 4, 6));
      ColorHex.ParsePairs(s)
  }

  /** Every component lies in [0, 1]. */
  predicate InUnitCube(u: Triple) {
    0.0 <= u.x <= 1.0 && 0.0 <= u.y <= 1.0 && 0.0 <= u.z <= 1.0
  }

  /** `(r8 / 255.0, g8 / 255.0, b8 / 255.0)`. */
  function Scaled(c: ColorHex.Channels): (u: Triple)
    ensures ColorHex.InByteRange(c) ==> InUnitCube(u)
    ensures u.x * 255.0 == c.r as real && u.y * 255.0 == c.g as real && u.z * 255.0 == c.b as real
  {
    Triple(c.r as real / 255.0, c.g as real / 255.0, c.b as real / 255.0)
  }

  /**
   * `_srgb_channel_to_linear`: the linear segment up to 0.04045, and above it the power
   * `((c + 0.055) / 1.055) ** 2.4`, which `pow24` stands for.
   */
  function SrgbToLinear(c: real, pow24: real -> real): (l: real)
    ensures 0.0 <= c <= 0.04045 ==> 0.0 <= l <= c
  {
    if c <= 0.04045 then c / 12.92 else pow24((c + 0.055) / 1.055)
  }

  /** The channel conversion applied to each component. */
  function Linearise(u: Triple, pow24: real -> real): Triple {
    Triple(SrgbToLinear(u.x, pow24), SrgbToLinear(u.y, pow24), SrgbToLinear(u.z, pow24))
  }

  /** `_hex_to_linear_rgb`: parse, scale each channel to [0, 1], then linearise it. */
  function HexToLinearRgb(hexStr: string, pow24: real -> real): (r: Result<Triple>)
    ensures r.Failure? <==> HexToChannels(hexStr).Failure?
    ensures r.Failure? ==> r.error == HexToChannels(hexStr).error
  {
    match HexToChannels(hexStr)
    case Failure(e) => Failure(e)
    case Success(c) => Success(Linearise(Scaled(c), pow24))
  }

  /**
   * `hex_to_oklch`: the linear RGB triple goes through `_linear_rgb_to_oklab` and then
   * `oklab_to_oklch`, both passed in.
   */
  function HexToOklch(hexStr: string, pow24: real -> real,
                      toOklab: Triple -> Triple, toOklch: Triple -> Triple): Result<Triple>
  {
    match HexToLinearRgb(hexStr, pow24)
    case Failure(e) => Failure(e)
    case Success(lin) => Success(toOklch(toOklab(lin)))
  }

  /**
   * The string is parsed before any numeric stage runs: a malformed string fails with the
   * parse error whatever the stages are, and a well-formed one reaches them.
   */
  lemma HexToOklchParsesFirst(hexStr: string, pow24: real -> real,
                              toOklab: Triple -> Triple, toOklch: Triple -> Triple)
    ensures HexToChannels(hexStr).Failure? ==>
      HexToOklch(hexStr, pow24, toOklab, toOklch) == Failure(HexToChannels(hexStr).error)
    ensures HexToChannels(hexStr).Success? ==>
      HexToOklch(hexStr, pow24, toOklab, toOklch) ==
        Success(toOklch(toOklab(Linearise(Scaled(HexToChannels(hexStr).value), pow24))))
  {
  }

  /** A string whose ends are not whitespace is its own `strip()`. */
  lemma PartOfUnpadded(s: string)
    requires s != [] && !IsSpace(s[0]) && !IsSpace(s[|s| - 1])
    ensures Strip(s) == s
  {
    StripOfStripped(s);
  }

  /** A `#` in front of digits that start with a hex digit is removed. */
  lemma DigitsPartOfHashed(w: string)
    requires w != [] && IsHexDigit(w[0]) && IsHexDigit(w[|w| - 1])
    ensures DigitsPart("#" + w) == w
    ensures DigitsPart(w) == w
  {
    var h := "#" + w;
    assert h[0] == '#' && h[|h| - 1] == w[|w| - 1];
    PartOfUnpadded(h);
    assert h[1..] == w;
    PartOfUnpadded(w);
  }

  /** Only one `#` is removed: the second of two stays part of the digits. */
  lemma DigitsPartKeepsSecondHash(w: string)
    requires w != [] && IsHexDigit(w[|w| - 1])
    ensures DigitsPart("##" + w) == "#" + w
  {
    var h := "##" + w;
    assert h[0] == '#' && h[|h| - 1] == w[|w| - 1];
    PartOfUnpadded(h);
    assert h[1..] == "#" + w;
  }

  /**
   * Six hex digits, with or without one `#`, give the base-16 values of their three pairs,
   * each in [0, 255].
   */
  lemma HexToChannelsOfSix(hexStr: string)
    requires |DigitsPart(hexStr)| == 6 && AllHexDigits(DigitsPart(hexStr))
    ensures var v := DigitsPart(hexStr);
      HexToChannels(hexStr) == Success(ColorHex.Channels(
        16 * HexValue(v[0]) + HexValue(v[1]),
        16 * HexValue(v[2]) + HexValue(v[3]),
        16 * HexValue(v[4]) + HexValue(v[5])))
    ensures ColorHex.InByteRange(HexToChannels(hexStr).value)
  {
    ColorHex.ParseSix(DigitsPart(hexStr));
  }

  /** Digits without a sign in them parse, when they parse, to channels in [0, 255]. */
  lemma HexToChannelsInByteRange(hexStr: string)
    requires HexToChannels(hexStr).Success? && Signless(DigitsPart(hexStr))
    ensures ColorHex.InByteRange(HexToChannels(hexStr).value)
  {
    var v := DigitsPart(hexStr);
    SliceSignless(v, 0, 2);
    SliceSignless(v, 2, 4);
    SliceSignless(v, 4, 6);
    PyInt16Bounded(Slice(v, 0, 2));
    PyInt16Bounded(Slice(v, 2, 4));
    PyInt16Bounded(Slice(v, 4, 6));
  }

  /**
   * For digits without a sign, every value handed to `_srgb_channel_to_linear` lies in
   * [0, 1] and is the channel divided by 255.
   */
  lemma HexToLinearRgbInUnit(hexStr: string, pow24: real -> real)
    requires HexToLinearRgb(hexStr, pow24).Success? && Signless(DigitsPart(hexStr))
    ensures var u := Scaled(HexToChannels(hexStr).value);
      InUnitCube(u) && HexToLinearRgb(hexStr, pow24).value == Linearise(u, pow24)
  {
    HexToChannelsInByteRange(hexStr);
  }

  /** Three hex digits are too short here, although normalize_hex accepts them. */
  lemma ShorthandRejected(d: string)
    requires |d| == 3 && AllHexDigits(d)
    ensures HexToChannels("#" + d) == Failure(FormatError)
    ensures HexToChannels(d) == Failure(FormatError)
    ensures ColorHex.IsValidHex("#" + d) && ColorHex.IsValidHex(d)
  {
    DigitsPartOfHashed(d);
    var h := "#" + d;
    assert h[1..] == d;
  }

  /** `#`s in front of digits that end in a hex digit are removed by `lstrip("#")`. */
  lemma TwoHashesRemoved(w: string)
    requires w != [] && IsHexDigit(w[0]) && IsHexDigit(w[|w| - 1])
    ensures LStripChar(Strip("##" + w), '#') == w
  {
    var h := "##" + w;
    assert h[0] == '#' && h[|h| - 1] == w[|w| - 1];
    PartOfUnpadded(h);
    ColorHex.HashesRemoved(2, w);
    assert seq(2, _ => '#') + w == h;
  }

  /**
   * Two `#`s in front of six digits leave seven characters, so the string is rejected,
   * while normalize_hex removes both and accepts it.
   */
  lemma SecondHashRejected(w: string)
    requires |w| == 6 && AllHexDigits(w)
    ensures HexToChannels("##" + w) == Failure(FormatError)
    ensures ColorHex.NormalizeHex("##" + w).Success?
  {
    DigitsPartKeepsSecondHash(w);
    TwoHashesRemoved(w);
    PartOfUnpadded(w);
  }

  /** `int("-" + c, 16)` of one hex digit `c` is its negated value. */
  lemma PyInt16OfNegativeDigit(c: char)
    requires IsHexDigit(c)
    ensures PyInt16(['-', c]) == Success(-(HexValue(c) as int))
  {
    var t := ['-', c];
    PartOfUnpadded(t);
    assert t[1..] == [c];
    DigitsValueShort([c]);
  }

  /** The first pair of a string that starts with `-` and a hex digit. */
  lemma NegativeFirstPair(v: string)
    requires |v| == 6 && v[0] == '-' && IsHexDigit(v[1])
    ensures PyInt16(Slice(v, 0, 2)) == Success(-(HexValue(v[1]) as int))
  {
    assert Slice(v, 0, 2) == ['-', v[1]];
    PyInt16OfNegativeDigit(v[1]);
  }

  /**
   * The sign that `int(t, 16)` accepts slips through: `-` and five hex digits parse, with
   * a negative first channel, and its scaled value lies below 0.
   */
  lemma NegativeChannelAccepted(v: string)
    requires |v| == 6 && v[0] == '-' && AllHexDigits(v[1..])
    ensures HexToChannels(v) == Success(ColorHex.Channels(
      -(HexValue(v[1]) as int),
      16 * HexValue(v[2]) + HexValue(v[3]),
      16 * HexValue(v[4]) + HexValue(v[5])))
    ensures HexToChannels(v).value.r < 0 ==> Scaled(HexToChannels(v).value).x < 0.0
  {
    assert IsHexDigit(v[1..][0]) && IsHexDigit(v[1..][4]);
    assert v[5] == v[1..][4];
    PartOfUnpadded(v);
    assert DigitsPart(v) == v;
    NegativeFirstPair(v);
    assert IsHexDigit(v[1..][1]) && IsHexDigit(v[1..][2]) && IsHexDigit(v[1..][3]);
    ColorHex.PairTwo(v);
    ColorHex.PairFour(v);
  }

  /** The characters of the sample `"-a1b2c"` and the values they spell. */
  lemma NegativeDigits()
    ensures var v := "-a1b2c";
      |v| == 6 && v[0] == '-' && AllHexDigits(v[1..]) &&
      -(HexValue(v[1]) as int) == -10 &&
      16 * HexValue(v[2]) + HexValue(v[3]) == 27 &&
      16 * HexValue(v[4]) + HexValue(v[5]) == 44
  {
    assert "-a1b2c"[1..] == "a1b2c";
  }

  /** `"-a1b2c"` reads as the channels (-10, 27, 44). */
  lemma NegativeChannelSample()
    ensures HexToChannels("-a1b2c") == Success(ColorHex.Channels(-10, 27, 44))
  {
    NegativeDigits();
    NegativeChannelAccepted("-a1b2c");
  }

  /** Six hex digits after one `#` give the values of their three pairs. */
  lemma HashedSixDigits(h: string, w: string)
    requires |w| == 6 && AllHexDigits(w) && h == "#" + w
    ensures HexToChannels(h) == Success(ColorHex.Channels(
      16 * HexValue(w[0]) + HexValue(w[1]),
      16 * HexValue(w[2]) + HexValue(w[3]),
      16 * HexValue(w[4]) + HexValue(w[5])))
  {
    DigitsPartOfHashed(w);
    HexToChannelsOfSix(h);
  }

  /** The digits of the sample `"#929cf9"` and the values of their pairs. */
  lemma LavenderDigits()
    ensures var w := "929cf9";
      |w| == 6 && AllHexDigits(w) && "#929cf9" == "#" + w &&
      16 * HexValue(w[0]) + HexValue(w[1]) == 146 &&
      16 * HexValue(w[2]) + HexValue(w[3]) == 156 &&
      16 * HexValue(w[4]) + HexValue(w[5]) == 249
  {
  }

  /** The sample `"#929cf9"` reads as (146, 156, 249). */
  lemma LavenderSample()
    ensures HexToChannels("#929cf9") == Success(ColorHex.Channels(146, 156, 249))
  {
    LavenderDigits();
    HashedSixDigits("#929cf9", "929cf9");
  }

  /** The digits of the sample `"#000000"` and the values of their pairs. */
  lemma BlackDigits()
    ensures var w := "000000";
      |w| == 6 && AllHexDigits(w) && "#000000" == "#" + w &&
      16 * HexValue(w[0]) + HexValue(w[1]) == 0 &&
      16 * HexValue(w[2]) + HexValue(w[3]) == 0 &&
      16 * HexValue(w[4]) + HexValue(w[5]) == 0
  {
  }

  /** The sample `"#000000"` reads as (0, 0, 0). */
  lemma BlackChannels()
    ensures HexToChannels("#000000") == Success(ColorHex.Channels(0, 0, 0))
  {
    BlackDigits();
    HashedSixDigits("#000000", "000000");
  }

  /** The sample `"#000000"` is black: every linear channel is exactly 0, whatever the power. */
  lemma BlackSample(pow24: real -> real)
    ensures HexToLinearRgb("#000000", pow24) == Success(Triple(0.0, 0.0, 0.0))
  {
    BlackChannels();
    assert Scaled(ColorHex.Channels(0, 0, 0)) == Triple(0.0, 0.0, 0.0);
  }
}
