/**
  Byte streams: numbers are written with the most significant byte first, and a symbol as a length byte followed by
  its characters.
 */
module Streams {
  import opened ObjectGraph

  function Power(width: nat): (p: nat)
    ensures p > 0
  {
    if width == 0 then 1 else 256 * Power(width - 1)
  }

  function BigEndian(width: nat, v: nat): (bytes: seq<Byte>)
    ensures |bytes| == width
  {
    if width == 0 then [] else BigEndian(width - 1, v / 256) + [v % 256]
  }

  function FromBigEndian(bytes: seq<Byte>): (v: nat)
    ensures v < Power(|bytes|)
  {
    if bytes == [] then 0 else FromBigEndian(bytes[..|bytes| - 1]) * 256 + bytes[|bytes| - 1]
  }

  /** Reading takes back what was written, as long as it fits. */
  lemma {:induction false} NumberSurvives(width: nat, v: nat)
    ensures FromBigEndian(BigEndian(width, v)) == v <==> v < Power(width)
  {
    if width > 0 {
      NumberSurvives(width - 1, v / 256);
      assert BigEndian(width, v)[..width - 1] == BigEndian(width - 1, v / 256);
    }
  }

  const INT_LIMIT := 0x8000_0000

  predicate IsInt32(v: int) { -INT_LIMIT <= v < INT_LIMIT }

  /** The word with the same bits as a signed 32-bit number, and back. */
  function Unsigned(v: int): (w: nat)
    requires IsInt32(v)
    ensures w < 2 * INT_LIMIT
  {
    if v < 0 then v + 2 * INT_LIMIT else v
  }

  function Signed(w: nat): (v: int)
    requires w < 2 * INT_LIMIT
    ensures IsInt32(v) && Unsigned(v) == w
  {
    if w < INT_LIMIT then w else w - 2 * INT_LIMIT
  }

  function Int32Bytes(v: int): (bytes: seq<Byte>)
    requires IsInt32(v)
    ensures |bytes| == 4
  {
    BigEndian(4, Unsigned(v))
  }

  /** The length is cut to a byte, the characters are not. */
  function SymbolBytes(name: Name): (bytes: seq<Byte>)
    ensures |bytes| == |name| + 1
  {
    [|name| % 256] + name
  }

  /** What reading a symbol takes off the front of some bytes. */
  function FrontSymbol(bytes: seq<Byte>): Name
    requires |bytes| > 0 && |bytes| > bytes[0]
  {
    bytes[1..bytes[0] + 1]
  }

  /** A symbol is read back just when its length fits the length byte. */
  lemma SymbolSurvives(name: Name, rest: seq<Byte>)
    ensures FrontSymbol(SymbolBytes(name) + rest) == name <==> |name| < 256
  {
    var bytes := SymbolBytes(name) + rest;
    assert bytes[1..] == name + rest;
    if |name| < 256 {
      assert bytes[1..|name| + 1] == name;
    } else {
      assert |FrontSymbol(bytes)| < |name|;
    }
  }

  // ---- concatenation ----

  function Flat(parts: seq<seq<Byte>>): seq<Byte> {
    if parts == [] then [] else parts[0] + Flat(parts[1..])
  }

  lemma {:induction false} FlatSplit(left: seq<seq<Byte>>, right: seq<seq<Byte>>)
    ensures Flat(left + right) == Flat(left) + Flat(right)
  {
    if left == [] {
      assert left + right == right;
    } else {
      FlatSplit(left[1..], right);
      assert (left + right)[1..] == left[1..] + right;
      assert Flat(left + right) == left[0] + Flat(left[1..] + right);
    }
  }

  /** One part more from the front, or one less from the back. */
  lemma FlatStep(parts: seq<seq<Byte>>, i: nat)
    requires i < |parts|
    ensures Flat(parts[..i + 1]) == Flat(parts[..i]) + parts[i]
    ensures Flat(parts[i..]) == parts[i] + Flat(parts[i + 1..])
  {
    FlatSplit(parts[..i], [parts[i]]);
    assert parts[..i + 1] == parts[..i] + [parts[i]];
    assert Flat([parts[i]]) == parts[i];
    assert parts[i..][1..] == parts[i + 1..];
  }

  lemma FlatEnds(parts: seq<seq<Byte>>)
    ensures Flat(parts[..0]) == [] && Flat(parts[..|parts|]) == Flat(parts)
    ensures Flat(parts[0..]) == Flat(parts) && Flat(parts[|parts|..]) == []
  {
    assert parts[..|parts|] == parts && parts[0..] == parts;
  }

  /** What has been written, and what is left to read. */
  class ByteStream {
    var written: seq<Byte>
    var left: seq<Byte>

    constructor (left: seq<Byte>)
      ensures written == [] && this.left == left
    {
      written := [];
      this.left := left;
    }

    method WriteUInt8(b: Byte)
      modifies `written
      ensures written == old(written) + [b]
    {
      written := written + [b];
    }

    method WriteData(data: seq<Byte>)
      modifies `written
      ensures written == old(written) + data
    {
      written := written + data;
    }

    method WriteInt16(v: nat)
      modifies `written
      ensures written == old(written) + BigEndian(2, v)
    {
      WriteUInt8(v / 0x100 % 0x100);
      WriteUInt8(v % 0x100);
      assert BigEndian(2, v) == BigEndian(1, v / 0x100) + [v % 0x100];
      assert BigEndian(1, v / 0x100) == BigEndian(0, v / 0x100 / 0x100) + [v / 0x100 % 0x100];
    }

    method WriteWord32(v: nat)
      modifies `written
      ensures written == old(written) + BigEndian(4, v)
    {
      WriteUInt8(v / 0x100_0000 % 0x100);
      WriteUInt8(v / 0x1_0000 % 0x100);
      WriteUInt8(v / 0x100 % 0x100);
      WriteUInt8(v % 0x100);
      FourBytes(v);
    }

    method WriteInt32(v: int)
      requires IsInt32(v)
      modifies `written
      ensures written == old(written) + Int32Bytes(v)
    {
      WriteWord32(Unsigned(v));
    }

    /** The bytes of a double, most significant first. */
    method WriteDouble(bits: nat)
      modifies `written
      ensures written == old(written) + BigEndian(8, bits)
    {
      var c := BigEndian(8, bits);
      var i := 0;
      while i < 8
        invariant 0 <= i <= 8
        invariant written == old(written) + c[..i]
      {
        WriteUInt8(c[i]);
        i := i + 1;
      }
    }

    method WriteSymbol(name: Name)
      modifies `written
      ensures written == old(written) + SymbolBytes(name)
    {
      WriteUInt8(|name| % 256);
      WriteData(name);
    }

    method ReadUInt8() returns (b: Byte)
      requires |left| > 0
      modifies `left
      ensures b == old(left)[0] && left == old(left)[1..]
    {
      b := left[0];
      left := left[1..];
    }

    method ReadData(size: nat) returns (data: seq<Byte>)
      requires |left| >= size
      modifies `left
      ensures data == old(left)[..size] && left == old(left)[size..]
    {
      data := left[..size];
      left := left[size..];
    }

    method ReadInt16() returns (v: nat)
      requires |left| >= 2
      modifies `left
      ensures |old(left)| == |left| + 2 && v < Power(2)
      ensures v == FromBigEndian(old(left)[..2]) && left == old(left)[2..]
    {
      var a: int := ReadUInt8();
      var b: int := ReadUInt8();
      v := a * 0x100 + b;
      assert old(left)[..2] == [a, b];
      assert [a, b][..1] == [a] && [a][..0] == [];
      assert FromBigEndian([a]) == a;
    }

    method ReadWord32() returns (v: nat)
      requires |left| >= 4
      modifies `left
      ensures v < 2 * INT_LIMIT && v == FromBigEndian(old(left)[..4]) && left == old(left)[4..]
    {
      var a: int := ReadUInt8();
      var b: int := ReadUInt8();
      var c: int := ReadUInt8();
      var d: int := ReadUInt8();
      v := a * 0x100_0000 + b * 0x1_0000 + c * 0x100 + d;
      assert old(left)[..4] == [a, b, c, d];
      FromFourBytes(a, b, c, d);
    }

    method ReadInt32() returns (v: int)
      requires |left| >= 4
      modifies `left
      ensures IsInt32(v) && Unsigned(v) == FromBigEndian(old(left)[..4]) && left == old(left)[4..]
    {
      var w := ReadWord32();
      v := Signed(w);
    }

    method ReadDouble() returns (bits: nat)
      requires |left| >= 8
      modifies `left
      ensures bits == FromBigEndian(old(left)[..8]) && left == old(left)[8..]
    {
      bits := 0;
      var i := 0;
      while i < 8
        invariant 0 <= i <= 8
        invariant left == old(left)[i..]
        invariant bits == FromBigEndian(old(left)[..i])
      {
        var b := ReadUInt8();
        assert old(left)[..i + 1][..i] == old(left)[..i];
        bits := bits * 0x100 + b;
        i := i + 1;
      }
    }

    method ReadSymbol() returns (name: Name)
      requires |left| > 0 && |left| > left[0]
      modifies `left
      ensures name == FrontSymbol(old(left)) && left == old(left)[|name| + 1..]
    {
      var length := ReadUInt8();
      name := ReadData(length);
    }
  }

  lemma FourBytes(v: nat)
    ensures BigEndian(4, v) == [v / 0x100_0000 % 0x100, v / 0x1_0000 % 0x100, v / 0x100 % 0x100, v % 0x100]
  {
    var a, b, c := v / 0x100, v / 0x1_0000, v / 0x100_0000;
    assert a / 0x100 == b && b / 0x100 == c;
    assert BigEndian(4, v) == BigEndian(3, a) + [v % 0x100];
    assert BigEndian(3, a) == BigEndian(2, b) + [a % 0x100];
    assert BigEndian(2, b) == BigEndian(1, c) + [b % 0x100];
    assert BigEndian(1, c) == BigEndian(0, c / 0x100) + [c % 0x100];
  }

  lemma FromFourBytes(a: Byte, b: Byte, c: Byte, d: Byte)
    ensures FromBigEndian([a, b, c, d]) == a * 0x100_0000 + b * 0x1_0000 + c * 0x100 + d < 2 * INT_LIMIT
  {
    assert [a, b, c, d][..3] == [a, b, c] && [a, b, c][..2] == [a, b] && [a, b][..1] == [a] && [a][..0] == [];
    assert FromBigEndian([a]) == a;
    assert FromBigEndian([a, b]) == a * 0x100 + b;
  }

  lemma TwoBytesOff(v: int)
    ensures v / 0x100 / 0x100 == v / 0x1_0000
  {
  }

  lemma ThreeBytesOff(v: int)
    ensures v / 0x1_0000 / 0x100 == v / 0x100_0000
  {
  }

  lemma FourBytesOff(v: int)
    ensures v / 0x100_0000 / 0x100 == v / 0x1_0000_0000
  {
  }

  /** Going round once does not show in the four bytes. */
  lemma RoundDoesNotShow(v: int)
    ensures (v + 0x1_0000_0000) % 0x100 == v % 0x100
    ensures (v + 0x1_0000_0000) / 0x100 == v / 0x100 + 0x100_0000
  {
  }

  /** The four bytes of a signed number in two's complement. */
  lemma Int32Literally(v: int)
    requires IsInt32(v)
    ensures Int32Bytes(v) == [v / 0x100_0000 % 0x100, v / 0x1_0000 % 0x100, v / 0x100 % 0x100, v % 0x100]
  {
    hide BigEndian;
    var u := Unsigned(v);
    FourBytes(u);
    TwoBytesOff(u);
    TwoBytesOff(v);
    ThreeBytesOff(u);
    ThreeBytesOff(v);
    RoundDoesNotShow(v);
    HigherBytes(v / 0x100);
  }

  lemma HigherBytes(a: int)
    ensures (a + 0x100_0000) % 0x100 == a % 0x100
    ensures (a + 0x100_0000) / 0x100 % 0x100 == a / 0x100 % 0x100
    ensures (a + 0x100_0000) / 0x100 / 0x100 % 0x100 == a / 0x100 / 0x100 % 0x100
  {
    assert (a + 0x100_0000) / 0x100 == a / 0x100 + 0x1_0000;
    assert (a / 0x100 + 0x1_0000) / 0x100 == a / 0x100 / 0x100 + 0x100;
  }

  lemma EightBytes(v: nat)
    ensures var w := v / 0x1_0000_0000;
            BigEndian(8, v) == [w / 0x100_0000 % 0x100, w / 0x1_0000 % 0x100, w / 0x100 % 0x100, w % 0x100,
                                v / 0x100_0000 % 0x100, v / 0x1_0000 % 0x100, v / 0x100 % 0x100, v % 0x100]
  {
    hide BigEndian;
    var w := v / 0x1_0000_0000;
    FourBytes(w);
    TwoBytesOff(v);
    ThreeBytesOff(v);
    FourBytesOff(v);
    LastFour(v, w);
  }

  lemma LastFour(v: nat, w: nat)
    requires v / 0x100 / 0x100 / 0x100 / 0x100 == w
    ensures BigEndian(8, v)
         == BigEndian(4, w)
            + [v / 0x100 / 0x100 / 0x100 % 0x100, v / 0x100 / 0x100 % 0x100, v / 0x100 % 0x100, v % 0x100]
  {
    var a := v / 0x100;
    var b := a / 0x100;
    var c := b / 0x100;
    assert BigEndian(8, v) == BigEndian(7, a) + [v % 0x100];
    assert BigEndian(7, a) == BigEndian(6, b) + [a % 0x100];
    assert BigEndian(6, b) == BigEndian(5, c) + [b % 0x100];
    assert BigEndian(5, c) == BigEndian(4, w) + [c % 0x100];
  }

  // ---- the front of a stream ----

  lemma FrontWord(width: nat, v: nat, rest: seq<Byte>)
    requires v < Power(width)
    ensures |BigEndian(width, v) + rest| >= width
    ensures FromBigEndian((BigEndian(width, v) + rest)[..width]) == v
    ensures (BigEndian(width, v) + rest)[width..] == rest
  {
    NumberSurvives(width, v);
    assert (BigEndian(width, v) + rest)[..width] == BigEndian(width, v);
  }

  lemma FrontInt32(v: int, rest: seq<Byte>)
    requires IsInt32(v)
    ensures |Int32Bytes(v) + rest| >= 4
    ensures forall u :: IsInt32(u) && Unsigned(u) == FromBigEndian((Int32Bytes(v) + rest)[..4]) ==> u == v
    ensures (Int32Bytes(v) + rest)[4..] == rest
  {
    assert Power(4) == 256 * (256 * (256 * (256 * Power(0))));
    FrontWord(4, Unsigned(v), rest);
  }

  lemma FrontName(name: Name, rest: seq<Byte>)
    requires |name| < 256
    ensures var bytes := SymbolBytes(name) + rest;
            |bytes| > bytes[0] && FrontSymbol(bytes) == name && bytes[|name| + 1..] == rest
  {
    SymbolSurvives(name, rest);
  }

  lemma OneByte(b: Byte)
    ensures FromBigEndian([b]) == b
  {
    assert [b][..0] == [];
  }
}
