/**
 * The image picker (script.js): a loaded image is scaled to fit a box, and
 * moving the mouse over the canvas shows the colour of the pixel beneath,
 * written as `#rrggbb` with `('0' + v.toString(16)).slice(-2)` per channel.
 */
module ImagePicker {
  import opened Wrappers
  import opened HexText
  import opened Canvas
  import ScreenColor

  /** The scale factor and the resulting size of the drawn image. */
  datatype Fit = Fit(ratio: real, width: real, height: real)

  /**
   * The image scaled by `min(maxWidth / width, maxHeight / height)`: it fits
   * the box, touches it on at least one axis and keeps its aspect ratio.
   */
  function FitToBox(imageWidth: nat, imageHeight: nat, maxWidth: int, maxHeight: int): (f: Fit)
    requires imageWidth > 0 && imageHeight > 0
    ensures f.width == imageWidth as real * f.ratio && f.height == imageHeight as real * f.ratio
    ensures f.width <= maxWidth as real && f.height <= maxHeight as real
    ensures f.width == maxWidth as real || f.height == maxHeight as real
    ensures f.width * imageHeight as real == f.height * imageWidth as real
    ensures maxWidth >= 0 && maxHeight >= 0 ==> f.width >= 0.0 && f.height >= 0.0
  {
    var iw, ih := imageWidth as real, imageHeight as real;
    var ratio := Min(maxWidth as real / iw, maxHeight as real / ih);
    assert iw * (maxWidth as real / iw) == maxWidth as real;
    assert ih * (maxHeight as real / ih) == maxHeight as real;
    Fit(ratio, iw * ratio, ih * ratio)
  }

  /** No larger scale factor keeps the image inside the box. */
  lemma FitToBoxIsLargest(imageWidth: nat, imageHeight: nat, maxWidth: int, maxHeight: int, k: real)
    requires imageWidth > 0 && imageHeight > 0
    requires imageWidth as real * k <= maxWidth as real && imageHeight as real * k <= maxHeight as real
    ensures k <= FitToBox(imageWidth, imageHeight, maxWidth, maxHeight).ratio
  {
    var iw, ih := imageWidth as real, imageHeight as real;
    assert k <= maxWidth as real / iw by {
      assert iw * k / iw == k;
    }
    assert k <= maxHeight as real / ih by {
      assert ih * k / ih == k;
    }
  }

  /**
   * The guard before the pixel read: the mouse position (x, y) inside the
   * canvas selects a pixel, `getImageData` truncating the coordinates;
   * outside it nothing is read.
   */
  function PixelUnderCursor(x: real, y: real, width: nat, height: nat): (p: Option<Point>)
    ensures p.Some? <==> 0.0 <= x < width as real && 0.0 <= y < height as real
    ensures p.Some? ==> p.value.x < width && p.value.y < height
    ensures p.Some? ==> p.value.x as real <= x < p.value.x as real + 1.0
    ensures p.Some? ==> p.value.y as real <= y < p.value.y as real + 1.0
  {
    if x >= 0.0 && x < width as real && y >= 0.0 && y < height as real then
      Some(Point(x.Floor, y.Floor))
    else None
  }

  /** `s.slice(-2)`: the last two characters, or all of a shorter string. */
  function SliceLast2(s: seq<char>): (t: seq<char>)
    ensures |t| == (if |s| >= 2 then 2 else |s|)
    ensures s == s[..|s| - |t|] + t
  {
    s[if |s| >= 2 then |s| - 2 else 0..]
  }

  /** One channel as script.js writes it: `('0' + v.toString(16)).slice(-2)`. */
  function ScriptChannel(v: nat): (c: seq<char>)
    ensures |c| == 2
    ensures c[1] == LowerDigit(v % 16)
    ensures v < 16 ==> c[0] == '0'
  {
    ToHexStringLast(v);
    SliceLast2(['0'] + ToHexString(v))
  }

  /**
   * The padding trick yields the two-digit numeral of the value's low byte,
   * for every non-negative value, hence the two-digit numeral itself for a
   * byte.
   */
  lemma ScriptChannelTwoDigits(v: nat)
    ensures ScriptChannel(v) == TwoDigits(v % 256)
  {
    var t := ToHexString(v);
    var s := ['0'] + t;
    if v < 16 {
      assert t == [LowerDigit(v)];
      assert s == [LowerDigit(0), LowerDigit(v)];
    } else {
      var hi := ToHexString(v / 16);
      assert t == hi + [LowerDigit(v % 16)];
      ToHexStringLast(v / 16);
      assert s[|s| - 2..] == [hi[|hi| - 1], LowerDigit(v % 16)];
      LowByteDigits(v);
    }
  }

  /** The two lowest hexadecimal digits of v are those of its low byte. */
  lemma LowByteDigits(v: nat)
    ensures (v / 16) % 16 == (v % 256) / 16
    ensures v % 16 == (v % 256) % 16
  {
    var q, m := v / 256, v % 256;
    assert v == 256 * q + m;
    assert v / 16 == 16 * q + m / 16;
    assert v % 16 == m % 16;
  }

  /** The colour value script.js shows: '#' and the three padded lower-case channels. */
  function ColorValue(r: Byte, g: Byte, b: Byte): (v: seq<char>)
    ensures |v| == 7 && v[0] == '#'
  {
    "#" + ScriptChannel(r) + ScriptChannel(g) + ScriptChannel(b)
  }

  lemma ColorValueDigits(r: Byte, g: Byte, b: Byte)
    ensures ColorValue(r, g, b) == "#" + TwoDigits(r) + TwoDigits(g) + TwoDigits(b)
  {
    ChannelOfByte(r);
    ChannelOfByte(g);
    ChannelOfByte(b);
  }

  lemma ChannelOfByte(x: Byte)
    ensures ScriptChannel(x) == TwoDigits(x)
  {
    assert x % 256 == x;
    ScriptChannelTwoDigits(x);
  }

  /** '#' followed by exactly six lower-case hexadecimal digits. */
  lemma ColorValueShape(r: Byte, g: Byte, b: Byte)
    ensures |ColorValue(r, g, b)| == 7 && ColorValue(r, g, b)[0] == '#'
    ensures forall i | 1 <= i < 7 :: IsLowerHexDigit(ColorValue(r, g, b)[i])
  {
    ColorValueDigits(r, g, b);
    LowerFormShape(TwoDigits(r), TwoDigits(g), TwoDigits(b));
  }

  lemma LowerFormShape(a: seq<char>, b: seq<char>, c: seq<char>)
    requires |a| == 2 && IsLowerHexDigit(a[0]) && IsLowerHexDigit(a[1])
    requires |b| == 2 && IsLowerHexDigit(b[0]) && IsLowerHexDigit(b[1])
    requires |c| == 2 && IsLowerHexDigit(c[0]) && IsLowerHexDigit(c[1])
    ensures var s := "#" + a + b + c;
      |s| == 7 && s[0] == '#' && forall i | 1 <= i < 7 :: IsLowerHexDigit(s[i])
  {
    var s := "#" + a + b + c;
    assert s == ['#', a[0], a[1], b[0], b[1], c[0], c[1]];
  }

  /** Reading the colour value back yields the channels. */
  lemma ColorValueRoundTrip(r: Byte, g: Byte, b: Byte)
    ensures ParseHexColor(ColorValue(r, g, b)) == Some(Rgb(r, g, b))
  {
    ColorValueDigits(r, g, b);
    ParseForm(TwoDigits(r), TwoDigits(g), TwoDigits(b), r, g, b);
  }

  /** The two pickers write the same colour, differing only in letter case. */
  lemma ColorValueIsLowerRgbToHex(r: Byte, g: Byte, b: Byte)
    ensures ToUpper(ColorValue(r, g, b)) == ScreenColor.RgbToHex(r, g, b)
    ensures ToLower(ScreenColor.RgbToHex(r, g, b)) == ColorValue(r, g, b)
  {
    ColorValueDigits(r, g, b);
    ScreenColor.RgbToHexDigits(r, g, b);
    CaseOfForm(TwoDigits(r), TwoDigits(g), TwoDigits(b));
    CaseOfForm(ScreenColor.UpperPair(r), ScreenColor.UpperPair(g), ScreenColor.UpperPair(b));
    LowerUpperDigit(r);
    LowerUpperDigit(g);
    LowerUpperDigit(b);
  }

  lemma LowerUpperDigit(x: Byte)
    ensures ToLower(ScreenColor.UpperPair(x)) == TwoDigits(x)
    ensures ToUpper(TwoDigits(x)) == ScreenColor.UpperPair(x)
  {
    ScreenColor.UpperTwoDigits(x);
    assert LowerChar(UpperDigit(x / 16)) == LowerDigit(x / 16);
    assert LowerChar(UpperDigit(x % 16)) == LowerDigit(x % 16);
  }

  /**
   * The mouse-move handler: inside the canvas, the colour value of the pixel
   * beneath the cursor (which reads back as that pixel's colour); outside, or
   * when the read fails, nothing is shown.
   */
  function HoverColorValue(width: nat, height: nat, read: PixelRead, x: real, y: real): (s: Option<seq<char>>)
    ensures s.Some? <==> PixelUnderCursor(x, y, width, height).Some? && read(x.Floor, y.Floor).Some?
    ensures s.Some? ==> 0.0 <= x < width as real && 0.0 <= y < height as real
    ensures s.Some? ==>
      var c := read(x.Floor, y.Floor).value;
      s.value == ColorValue(c.r, c.g, c.b)
    ensures s.Some? ==> |s.value| == 7 && s.value[0] == '#'
    ensures s.Some? ==> ParseHexColor(s.value) == read(x.Floor, y.Floor)
  {
    match PixelUnderCursor(x, y, width, height)
    case None => None
    case Some(p) =>
      match read(p.x, p.y)
      case None => None
      case Some(c) =>
        ColorValueShape(c.r, c.g, c.b);
        ColorValueRoundTrip(c.r, c.g, c.b);
        Some(ColorValue(c.r, c.g, c.b))
  }

  /**
   * The converse: every `#rrggbb` string without upper-case letters is the
   * colour value of the colour it reads as, so script.js reaches exactly the
   * canonical lower-case strings.
   */
  lemma ParseThenColorValue(s: seq<char>)
    requires ParseHexColor(s).Some?
    requires forall i | 0 <= i < |s| :: !('A' <= s[i] <= 'Z')
    ensures ColorValue(ParseHexColor(s).value.r, ParseHexColor(s).value.g, ParseHexColor(s).value.b) == s
  {
    var c := ParseHexColor(s).value;
    assert |s| == 7;
    var r, g, b := ParseByte(s[1], s[2]), ParseByte(s[3], s[4]), ParseByte(s[5], s[6]);
    assert r.Some? && g.Some? && b.Some? && c == Rgb(r.value, g.value, b.value);
    assert !('A' <= s[1] <= 'Z') && !('A' <= s[2] <= 'Z');
    assert !('A' <= s[3] <= 'Z') && !('A' <= s[4] <= 'Z');
    assert !('A' <= s[5] <= 'Z') && !('A' <= s[6] <= 'Z');
    TwoDigitsOfParse(s[1], s[2]);
    TwoDigitsOfParse(s[3], s[4]);
    TwoDigitsOfParse(s[5], s[6]);
    assert TwoDigits(c.r) == [s[1], s[2]];
    assert TwoDigits(c.g) == [s[3], s[4]];
    assert TwoDigits(c.b) == [s[5], s[6]];
    ColorValueDigits(c.r, c.g, c.b);
    assert ColorValue(c.r, c.g, c.b) == "#" + [s[1], s[2]] + [s[3], s[4]] + [s[5], s[6]];
    FormChars([s[1], s[2]], [s[3], s[4]], [s[5], s[6]]);
    assert s == ['#', s[1], s[2], s[3], s[4], s[5], s[6]];
  }
}
