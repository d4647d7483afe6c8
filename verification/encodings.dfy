/** How the node writes integers and bytes into what it hashes, each with the reading that gets them back. */
module Encodings {
  import opened Base

  function Pow256(k: nat): nat {
    if k == 0 then 1 else 256 * Pow256(k - 1)
  }

  lemma WordsHold()
    ensures Pow256(4) == U32_LIMIT && Pow256(8) == U64_LIMIT
  {
    assert Pow256(4) == U32_LIMIT;
  }

  /** The `width` low bytes of `value`, most significant first. */
  function BigEndian(value: nat, width: nat): (bytes: Bytes)
    ensures |bytes| == width
  {
    if width == 0 then [] else BigEndian(value / 256, width - 1) + [value % 256]
  }

  /** The number these bytes stand for, most significant first. */
  function ReadBigEndian(bytes: Bytes): nat {
    if bytes == [] then 0 else 256 * ReadBigEndian(bytes[..|bytes| - 1]) + bytes[|bytes| - 1]
  }

  lemma {:induction false} BigEndianRead(value: nat, width: nat)
    requires value < Pow256(width)
    ensures ReadBigEndian(BigEndian(value, width)) == value
  {
    if width > 0 {
      BigEndianRead(value / 256, width - 1);
      var bytes := BigEndian(value, width);
      assert bytes[..width - 1] == BigEndian(value / 256, width - 1);
    }
  }

  /** The `width` low bytes of `value`, least significant first. */
  function LittleEndian(value: nat, width: nat): (bytes: Bytes)
    ensures |bytes| == width
  {
    if width == 0 then [] else [value % 256] + LittleEndian(value / 256, width - 1)
  }

  /** The number these bytes stand for, least significant first. */
  function ReadLittleEndian(bytes: Bytes): nat {
    if bytes == [] then 0 else bytes[0] + 256 * ReadLittleEndian(bytes[1..])
  }

  lemma {:induction false} LittleEndianRead(value: nat, width: nat)
    requires value < Pow256(width)
    ensures ReadLittleEndian(LittleEndian(value, width)) == value
  {
    if width > 0 {
      LittleEndianRead(value / 256, width - 1);
      assert LittleEndian(value, width)[1..] == LittleEndian(value / 256, width - 1);
    }
  }

  lemma LittleEndianInjective(x: nat, y: nat, width: nat)
    requires x < Pow256(width) && y < Pow256(width)
    ensures LittleEndian(x, width) == LittleEndian(y, width) <==> x == y
  {
    LittleEndianRead(x, width);
    LittleEndianRead(y, width);
  }

  // ---------------------------------------------------------------- hexadecimal text

  function HexDigit(d: nat): Byte
    requires d < 16
  {
    if d < 10 then 48 + d else 87 + d
  }

  function HexEncode(bytes: Bytes): Bytes {
    if bytes == [] then [] else [HexDigit(bytes[0] / 16), HexDigit(bytes[0] % 16)] + HexEncode(bytes[1..])
  }

  /** What the characters `0` to `9` and `a` to `f` stand for. */
  function HexValue(c: Byte): Option<nat> {
    if '0' as int <= c <= '9' as int then Some(c - '0' as int)
    else if 'a' as int <= c <= 'f' as int then Some(10 + c - 'a' as int)
    else None
  }

  function HexDecode(text: Bytes): Option<Bytes> {
    if text == [] then Some([])
    else if |text| == 1 then None
    else
      match (HexValue(text[0]), HexValue(text[1]), HexDecode(text[2..]))
      case (Some(high), Some(low), Some(rest)) =>
        if high < 16 && low < 16 then Some([16 * high + low] + rest) else None
      case _ => None
  }

  lemma HexDigitRead(d: nat)
    requires d < 16
    ensures HexValue(HexDigit(d)) == Some(d)
  {
  }

  lemma {:induction false} HexRoundTrip(bytes: Bytes)
    ensures HexDecode(HexEncode(bytes)) == Some(bytes)
    decreases |bytes|
  {
    if bytes != [] {
      var text := HexEncode(bytes);
      HexRoundTrip(bytes[1..]);
      HexDigitRead(bytes[0] / 16);
      HexDigitRead(bytes[0] % 16);
      assert text[0] == HexDigit(bytes[0] / 16) && text[1] == HexDigit(bytes[0] % 16);
      assert text[2..] == HexEncode(bytes[1..]);
      assert [bytes[0]] + bytes[1..] == bytes;
    }
  }

  lemma HexInjective(a: Bytes, b: Bytes)
    ensures HexEncode(a) == HexEncode(b) <==> a == b
  {
    HexRoundTrip(a);
    HexRoundTrip(b);
  }
}
