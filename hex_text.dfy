/**
 * Hexadecimal text as the colour picker produces it: the digits that
 * JavaScript's `Number.prototype.toString(16)` writes for a non-negative
 * integer, ASCII case mapping, and a reader for `#RRGGBB` strings that serves
 * as the inverse of both encoders.
 */
module HexText {
  import opened Wrappers

  /** One 8-bit colour channel, as a canvas's pixel data holds it. */
  type Byte = x: int | 0 <= x < 256

  /** A sampled colour: three 8-bit channel intensities. */
  datatype Rgb = Rgb(r: Byte, g: Byte, b: Byte)

  predicate IsLowerHexDigit(c: char) {
    '0' <= c <= '9' || 'a' <= c <= 'f'
  }

  predicate IsUpperHexDigit(c: char) {
    '0' <= c <= '9' || 'A' <= c <= 'F'
  }

  /** The value of a hexadecimal digit of either case; None for any other character. */
  function DigitValue(c: char): (v: Option<nat>)
    ensures v.Some? <==> IsLowerHexDigit(c) || IsUpperHexDigit(c)
    ensures v.Some? ==> v.value < 16
  {
    if '0' <= c <= '9' then Some(c as int - '0' as int)
    else if 'a' <= c <= 'f' then Some(c as int - 'a' as int + 10)
    else if 'A' <= c <= 'F' then Some(c as int - 'A' as int + 10)
    else None
  }

  /** The digit `toString(16)` writes for d (lower case). */
  function LowerDigit(d: nat): (c: char)
    requires d < 16
    ensures IsLowerHexDigit(c)
    ensures DigitValue(c) == Some(d)
  {
    if d < 10 then ('0' as int + d) as char else ('a' as int + d - 10) as char
  }

  /** The upper-case digit for d. */
  function UpperDigit(d: nat): (c: char)
    requires d < 16
    ensures IsUpperHexDigit(c)
    ensures DigitValue(c) == Some(d)
  {
    if d < 10 then ('0' as int + d) as char else ('A' as int + d - 10) as char
  }

  /** The number a string of hexadecimal digits denotes (most significant first). */
  function HexValue(s: seq<char>): nat
    requires forall i | 0 <= i < |s| :: DigitValue(s[i]).Some?
  {
    if s == [] then 0
    else HexValue(s[..|s| - 1]) * 16 + DigitValue(s[|s| - 1]).value
  }

  /**
   * `x.toString(16)` for a non-negative integer x: the shortest lower-case
   * hexadecimal numeral of x, "0" for zero.
   */
  function ToHexString(x: nat): (s: seq<char>)
    ensures |s| >= 1
    ensures |s| == 1 <==> x < 16
    decreases x
  {
    if x < 16 then [LowerDigit(x)] else ToHexString(x / 16) + [LowerDigit(x % 16)]
  }

  /**
   * `toString(16)` is a numeral for x: lower-case hexadecimal digits, no
   * leading zero unless x is zero, denoting x.
   */
  lemma {:induction false} ToHexStringDenotes(x: nat)
    ensures forall i | 0 <= i < |ToHexString(x)| :: IsLowerHexDigit(ToHexString(x)[i])
    ensures HexValue(ToHexString(x)) == x
    ensures ToHexString(x)[0] != '0' || x == 0
    decreases x
  {
    if x >= 16 {
      ToHexStringDenotes(x / 16);
      var s := ToHexString(x);
      assert s[..|s| - 1] == ToHexString(x / 16);
    }
  }

  /** The last digit of `toString(16)` is the lowest hexadecimal digit. */
  lemma ToHexStringLast(x: nat)
    ensures ToHexString(x)[|ToHexString(x)| - 1] == LowerDigit(x % 16)
  {
  }

  /** A lower-case (or decimal) digit is the `LowerDigit` of its own value. */
  lemma LowerDigitOfValue(c: char)
    requires DigitValue(c).Some?
    requires !('A' <= c <= 'Z')
    ensures LowerDigit(DigitValue(c).value) == c
  {
  }

  /** The two-digit zero-padded lower-case numeral of a byte: the reference encoding of one channel. */
  function TwoDigits(x: Byte): (s: seq<char>)
    ensures |s| == 2 && IsLowerHexDigit(s[0]) && IsLowerHexDigit(s[1])
    ensures ParseByte(s[0], s[1]) == Some(x)
  {
    [LowerDigit(x / 16), LowerDigit(x % 16)]
  }

  /** A pair of lower-case digits is the `TwoDigits` of the byte it reads as. */
  lemma TwoDigitsOfParse(hi: char, lo: char)
    requires ParseByte(hi, lo).Some?
    requires !('A' <= hi <= 'Z') && !('A' <= lo <= 'Z')
    ensures TwoDigits(ParseByte(hi, lo).value) == [hi, lo]
  {
    var h, l := DigitValue(hi).value, DigitValue(lo).value;
    LowerDigitOfValue(hi);
    LowerDigitOfValue(lo);
    assert ParseByte(hi, lo).value == h * 16 + l;
    assert (h * 16 + l) / 16 == h && (h * 16 + l) % 16 == l;
  }

  /** `String.prototype.toUpperCase` on one character, for the ASCII range. */
  function UpperChar(c: char): char {
    if 'a' <= c <= 'z' then (c as int - 32) as char else c
  }

  /** `String.prototype.toLowerCase` on one character, for the ASCII range. */
  function LowerChar(c: char): char {
    if 'A' <= c <= 'Z' then (c as int + 32) as char else c
  }

  function ToUpper(s: seq<char>): (u: seq<char>)
    ensures |u| == |s|
    ensures forall i | 0 <= i < |s| :: u[i] == UpperChar(s[i])
  {
    seq(|s|, i requires 0 <= i < |s| => UpperChar(s[i]))
  }

  function ToLower(s: seq<char>): (u: seq<char>)
    ensures |u| == |s|
    ensures forall i | 0 <= i < |s| :: u[i] == LowerChar(s[i])
  {
    seq(|s|, i requires 0 <= i < |s| => LowerChar(s[i]))
  }

  /** The byte a pair of hexadecimal digits of either case denotes. */
  function ParseByte(hi: char, lo: char): (v: Option<Byte>)
    ensures v.Some? <==> DigitValue(hi).Some? && DigitValue(lo).Some?
  {
    match (DigitValue(hi), DigitValue(lo))
    case (Some(h), Some(l)) => Some(h * 16 + l)
    case _ => None
  }

  /**
   * Reads a `#RRGGBB` colour string, digits of either case. It is the
   * inverse against which both encoders of the picker are checked.
   */
  function ParseHexColor(s: seq<char>): (c: Option<Rgb>)
    ensures c.Some? ==> |s| == 7 && s[0] == '#'
  {
    if |s| != 7 || s[0] != '#' then None
    else match (ParseByte(s[1], s[2]), ParseByte(s[3], s[4]), ParseByte(s[5], s[6]))
      case (Some(r), Some(g), Some(b)) => Some(Rgb(r, g, b))
      case _ => None
  }

  /** The characters of a '#' followed by three pairs. */
  lemma FormChars(a: seq<char>, b: seq<char>, c: seq<char>)
    requires |a| == 2 && |b| == 2 && |c| == 2
    ensures "#" + a + b + c == ['#', a[0], a[1], b[0], b[1], c[0], c[1]]
  {
  }

  /** A '#' and three readable digit pairs read as the colour of those pairs. */
  lemma ParseForm(a: seq<char>, b: seq<char>, c: seq<char>, x: Byte, y: Byte, z: Byte)
    requires |a| == 2 && ParseByte(a[0], a[1]) == Some(x)
    requires |b| == 2 && ParseByte(b[0], b[1]) == Some(y)
    requires |c| == 2 && ParseByte(c[0], c[1]) == Some(z)
    ensures ParseHexColor("#" + a + b + c) == Some(Rgb(x, y, z))
  {
    var s := "#" + a + b + c;
    assert s == ['#', a[0], a[1], b[0], b[1], c[0], c[1]];
  }

  /** Case mapping works character by character, so it distributes over the colour form. */
  lemma CaseOfForm(a: seq<char>, b: seq<char>, c: seq<char>)
    ensures ToUpper("#" + a + b + c) == "#" + ToUpper(a) + ToUpper(b) + ToUpper(c)
    ensures ToLower("#" + a + b + c) == "#" + ToLower(a) + ToLower(b) + ToLower(c)
  {
  }
}
