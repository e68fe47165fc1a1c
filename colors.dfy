/**
 * The colour record reported by the extractor and its `#RRGGBB` rendering,
 * together with a decoder that inverts the rendering.
 */
module Colors {

  /** An 8-bit unsigned channel value. */
  type Byte = x: int | 0 <= x < 256

  datatype Option<T> = None | Some(value: T)

  /**
   * A 32-bit float as the extractor produces it: a quotient of non-negative
   * values, computed exactly over the reals; dividing a positive value by zero
   * gives infinity and zero by zero gives NaN.
   */
  datatype Float = Finite(value: real) | Infinity | NaN

  /** A dominant colour: its three channels and the share of pixels it covers, in percent. */
  datatype Color = Color(r: Byte, g: Byte, b: Byte, percentage: Float)

  predicate IsUpperHexDigit(ch: char) {
    '0' <= ch <= '9' || 'A' <= ch <= 'F'
  }

  /** The upper-case hexadecimal digit for a nibble. */
  function HexDigit(n: nat): (ch: char)
    requires n < 16
    ensures IsUpperHexDigit(ch)
    ensures n < 10 <==> '0' <= ch <= '9'
  {
    if n < 10 then ('0' as int + n) as char else ('A' as int + n - 10) as char
  }

  /** The nibble an upper-case hexadecimal digit stands for; None for any other character. */
  function DigitValue(ch: char): (v: Option<nat>)
    ensures v.Some? <==> IsUpperHexDigit(ch)
    ensures v.Some? ==> v.value < 16 && HexDigit(v.value) == ch
  {
    if '0' <= ch <= '9' then Some(ch as int - '0' as int)
    else if 'A' <= ch <= 'F' then Some(ch as int - 'A' as int + 10)
    else None
  }

  lemma DigitValueOfHexDigit(n: nat)
    requires n < 16
    ensures DigitValue(HexDigit(n)) == Some(n)
  {
  }

  /** A byte as two zero-padded upper-case hexadecimal digits, high nibble first. */
  function ByteHex(x: Byte): (s: string)
    ensures |s| == 2 && IsUpperHexDigit(s[0]) && IsUpperHexDigit(s[1])
  {
    [HexDigit(x / 16), HexDigit(x % 16)]
  }

  /** `#RRGGBB`: the colour's channels in upper-case, zero-padded hexadecimal. */
  function ToHex(c: Color): (s: string)
    ensures |s| == 7 && s[0] == '#'
    ensures forall i :: 1 <= i < 7 ==> IsUpperHexDigit(s[i])
  {
    "#" + ByteHex(c.r) + ByteHex(c.g) + ByteHex(c.b)
  }

  /** The byte named by a high and a low upper-case hexadecimal digit. */
  function DecodeByte(hi: char, lo: char): (x: Option<Byte>)
    ensures x.Some? <==> IsUpperHexDigit(hi) && IsUpperHexDigit(lo)
  {
    match (DigitValue(hi), DigitValue(lo))
    case (Some(h), Some(l)) => Some(h * 16 + l)
    case _ => None
  }

  /** Reads back the channels of a `#RRGGBB` string; None for anything else. */
  function DecodeHex(s: string): (t: Option<(Byte, Byte, Byte)>)
    ensures t.Some? <==> |s| == 7 && s[0] == '#' && forall i :: 1 <= i < 7 ==> IsUpperHexDigit(s[i])
  {
    if |s| != 7 || s[0] != '#' then None
    else
      match (DecodeByte(s[1], s[2]), DecodeByte(s[3], s[4]), DecodeByte(s[5], s[6]))
      case (Some(r), Some(g), Some(b)) => Some((r, g, b))
      case _ => None
  }

  lemma DecodeByteHex(x: Byte)
    ensures DecodeByte(ByteHex(x)[0], ByteHex(x)[1]) == Some(x)
  {
    DigitValueOfHexDigit(x / 16);
    DigitValueOfHexDigit(x % 16);
  }

  /** Decoding the rendering gives back exactly the three channels. */
  lemma {:induction false} DecodeToHex(c: Color)
    ensures DecodeHex(ToHex(c)) == Some((c.r, c.g, c.b))
  {
    var s := ToHex(c);
    assert s[1..3] == ByteHex(c.r) && s[3..5] == ByteHex(c.g) && s[5..7] == ByteHex(c.b);
    DecodeByteHex(c.r);
    DecodeByteHex(c.g);
    DecodeByteHex(c.b);
  }

  lemma EncodeDecodedByte(hi: char, lo: char)
    requires DecodeByte(hi, lo).Some?
    ensures ByteHex(DecodeByte(hi, lo).value) == [hi, lo]
  {
    var h, l := DigitValue(hi).value, DigitValue(lo).value;
    assert (h * 16 + l) / 16 == h && (h * 16 + l) % 16 == l;
  }

  /** Every string the decoder accepts is the rendering of the channels it reads. */
  lemma {:induction false} ToHexOfDecoded(s: string, percentage: Float)
    requires DecodeHex(s).Some?
    ensures ToHex(Color(DecodeHex(s).value.0, DecodeHex(s).value.1, DecodeHex(s).value.2, percentage)) == s
  {
    EncodeDecodedByte(s[1], s[2]);
    EncodeDecodedByte(s[3], s[4]);
    EncodeDecodedByte(s[5], s[6]);
    assert s == [s[0]] + [s[1], s[2]] + [s[3], s[4]] + [s[5], s[6]];
  }

  /** Two colours render alike exactly when their channels agree; the percentage plays no part. */
  lemma {:induction false} ToHexInjective(a: Color, b: Color)
    ensures ToHex(a) == ToHex(b) <==> (a.r == b.r && a.g == b.g && a.b == b.b)
  {
    DecodeToHex(a);
    DecodeToHex(b);
  }

  /** The renderings the extractor's tests expect for pure red and pure blue. */
  lemma HexOfRedAndBlue(p: Float)
    ensures ToHex(Color(255, 0, 0, p)) == "#FF0000"
    ensures ToHex(Color(0, 0, 255, p)) == "#0000FF"
  {
  }
}
