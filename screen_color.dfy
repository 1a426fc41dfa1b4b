/**
 * The screen picker's colour encoder `rgbToHex` (main.js): each channel is
 * written with `toString(16)`, a single digit is padded with a leading '0',
 * the three are joined and the digits upper-cased behind a '#'.
 */
module ScreenColor {
  import opened Wrappers
  import opened HexText

  /** One channel as the `map` callback writes it: `toString(16)`, padded with '0' when one digit long. */
  function PadChannel(x: nat): (p: seq<char>)
    ensures |p| >= 2
    ensures p[0] == '0' <==> x < 16
    ensures p[|p| - 1] == LowerDigit(x % 16)
  {
    var hex := ToHexString(x);
    ToHexStringDenotes(x);
    ToHexStringLast(x);
    if |hex| == 1 then ['0'] + hex else hex
  }

  /** `rgbToHex(r, g, b)`: '#' followed by the upper-cased join of the three padded channels. */
  function RgbToHex(r: Byte, g: Byte, b: Byte): (h: seq<char>)
    ensures |h| == 7 && h[0] == '#'
  {
    PadChannelIsTwoDigits(r);
    PadChannelIsTwoDigits(g);
    PadChannelIsTwoDigits(b);
    "#" + ToUpper(PadChannel(r) + PadChannel(g) + PadChannel(b))
  }

  /**
   * For a byte, the padded channel is exactly the two-digit numeral, and it
   * begins with the padding '0' exactly when the byte is below 16.
   */
  lemma PadChannelIsTwoDigits(x: Byte)
    ensures PadChannel(x) == TwoDigits(x)
    ensures |PadChannel(x)| == 2
    ensures PadChannel(x)[0] == '0' <==> x < 16
  {
    var hex := ToHexString(x);
    if x < 16 {
      assert hex == [LowerDigit(x)];
    } else {
      assert hex == ToHexString(x / 16) + [LowerDigit(x % 16)];
      assert ToHexString(x / 16) == [LowerDigit(x / 16)];
    }
  }

  /** The two upper-case digits of a byte. */
  function UpperPair(x: Byte): (s: seq<char>)
    ensures |s| == 2 && IsUpperHexDigit(s[0]) && IsUpperHexDigit(s[1])
    ensures ParseByte(s[0], s[1]) == Some(x)
  {
    [UpperDigit(x / 16), UpperDigit(x % 16)]
  }

  lemma UpperTwoDigits(x: Byte)
    ensures ToUpper(TwoDigits(x)) == UpperPair(x)
  {
    assert UpperChar(LowerDigit(x / 16)) == UpperDigit(x / 16);
    assert UpperChar(LowerDigit(x % 16)) == UpperDigit(x % 16);
  }

  lemma ToUpperConcat(a: seq<char>, b: seq<char>)
    ensures ToUpper(a + b) == ToUpper(a) + ToUpper(b)
  {
  }

  /** `rgbToHex` as the upper-case two-digit numerals of the three channels behind '#'. */
  lemma RgbToHexDigits(r: Byte, g: Byte, b: Byte)
    ensures RgbToHex(r, g, b) == "#" + UpperPair(r) + UpperPair(g) + UpperPair(b)
  {
    PadChannelIsTwoDigits(r);
    PadChannelIsTwoDigits(g);
    PadChannelIsTwoDigits(b);
    ToUpperConcat(TwoDigits(r) + TwoDigits(g), TwoDigits(b));
    ToUpperConcat(TwoDigits(r), TwoDigits(g));
    UpperTwoDigits(r);
    UpperTwoDigits(g);
    UpperTwoDigits(b);
  }

  /**
   * The shape of every `rgbToHex` result: seven characters, '#' first, then
   * six upper-case hexadecimal digits and no lower-case letter.
   */
  lemma RgbToHexShape(r: Byte, g: Byte, b: Byte)
    ensures |RgbToHex(r, g, b)| == 7
    ensures RgbToHex(r, g, b)[0] == '#'
    ensures forall i | 1 <= i < 7 :: IsUpperHexDigit(RgbToHex(r, g, b)[i])
    ensures forall i | 0 <= i < 7 :: !('a' <= RgbToHex(r, g, b)[i] <= 'z')
  {
    RgbToHexDigits(r, g, b);
    FormChars(UpperPair(r), UpperPair(g), UpperPair(b));
  }

  /** Each channel contributes two characters, the first of them '0' exactly when the channel is below 16. */
  lemma RgbToHexPadding(r: Byte, g: Byte, b: Byte)
    ensures RgbToHex(r, g, b)[1] == '0' <==> r < 16
    ensures RgbToHex(r, g, b)[3] == '0' <==> g < 16
    ensures RgbToHex(r, g, b)[5] == '0' <==> b < 16
  {
    RgbToHexDigits(r, g, b);
  }

  /** Reading the hex string back yields the channels it was made from. */
  lemma RgbToHexRoundTrip(r: Byte, g: Byte, b: Byte)
    ensures ParseHexColor(RgbToHex(r, g, b)) == Some(Rgb(r, g, b))
  {
    RgbToHexDigits(r, g, b);
    ParseForm(UpperPair(r), UpperPair(g), UpperPair(b), r, g, b);
  }

  /** An upper-case (or decimal) digit is the `UpperDigit` of its own value. */
  lemma UpperDigitOfValue(c: char)
    requires DigitValue(c).Some?
    requires !('a' <= c <= 'z')
    ensures UpperDigit(DigitValue(c).value) == c
  {
  }

  /** A pair of upper-case digits is the `UpperPair` of the byte it reads as. */
  lemma UpperPairOfParse(hi: char, lo: char)
    requires ParseByte(hi, lo).Some?
    requires !('a' <= hi <= 'z') && !('a' <= lo <= 'z')
    ensures UpperPair(ParseByte(hi, lo).value) == [hi, lo]
  {
    var h, l := DigitValue(hi).value, DigitValue(lo).value;
    UpperDigitOfValue(hi);
    UpperDigitOfValue(lo);
    assert ParseByte(hi, lo).value == h * 16 + l;
    assert (h * 16 + l) / 16 == h && (h * 16 + l) % 16 == l;
  }

  /**
   * The converse: every `#RRGGBB` string with upper-case digits is the
   * `rgbToHex` of the colour it reads as, so the encoder reaches exactly the
   * canonical upper-case strings.
   */
  lemma ParseThenRgbToHex(s: seq<char>)
    requires ParseHexColor(s).Some?
    requires forall i | 0 <= i < |s| :: !('a' <= s[i] <= 'z')
    ensures RgbToHex(ParseHexColor(s).value.r, ParseHexColor(s).value.g, ParseHexColor(s).value.b) == s
  {
    var c := ParseHexColor(s).value;
    assert |s| == 7;
    var r, g, b := ParseByte(s[1], s[2]), ParseByte(s[3], s[4]), ParseByte(s[5], s[6]);
    assert r.Some? && g.Some? && b.Some? && c == Rgb(r.value, g.value, b.value);
    assert !('a' <= s[1] <= 'z') && !('a' <= s[2] <= 'z');
    assert !('a' <= s[3] <= 'z') && !('a' <= s[4] <= 'z');
    assert !('a' <= s[5] <= 'z') && !('a' <= s[6] <= 'z');
    UpperPairOfParse(s[1], s[2]);
    UpperPairOfParse(s[3], s[4]);
    UpperPairOfParse(s[5], s[6]);
    assert UpperPair(c.r) == [s[1], s[2]];
    assert UpperPair(c.g) == [s[3], s[4]];
    assert UpperPair(c.b) == [s[5], s[6]];
    RgbToHexDigits(c.r, c.g, c.b);
    FormChars([s[1], s[2]], [s[3], s[4]], [s[5], s[6]]);
    assert s == ['#', s[1], s[2], s[3], s[4], s[5], s[6]];
  }
}
