/**
  Reading binary DXF byte by byte (examples/compare_dxfb.py:89-196): what the
  bytes of each type of record mean, spelled out, and what becomes of files that
  end too early.
 */
module DxfWire {
  import opened Numbers
  import opened DxfRecords
  import opened DxfFormat
  import DxfStream
  import opened DxfRoundTrip

  // ---- little-endian two's complement, spelled out -------------------------

  function Two(x: int): seq<byte> {
    [x % 256, x / 256 % 256]
  }

  function Four(x: int): seq<byte> {
    Two(x) + Two(x / 0x1_0000)
  }

  function Eight(x: int): seq<byte> {
    Four(x) + Four(x / 0x1_0000_0000)
  }

  lemma BytesOfTwo(y: nat, n: nat)
    ensures LeBytes(y, n + 2) == Two(y) + LeBytes(y / 0x1_0000, n)
  {
    assert LeBytes(y, n + 2) == [y % 256] + LeBytes(y / 256, n + 1);
    assert LeBytes(y / 256, n + 1) == [y / 256 % 256] + LeBytes(y / 256 / 256, n);
    assert y / 256 / 256 == y / 0x1_0000;
  }

  lemma BytesOfFour(y: nat, n: nat)
    ensures LeBytes(y, n + 4) == Four(y) + LeBytes(y / 0x1_0000_0000, n)
  {
    BytesOfTwo(y, n + 2);
    BytesOfTwo(y / 0x1_0000, n);
    assert y / 0x1_0000 / 0x1_0000 == y / 0x1_0000_0000;
  }

  lemma ByteShift(x: int, k: int)
    ensures (x + 256 * k) / 256 == x / 256 + k && (x + 256 * k) % 256 == x % 256
  {
  }

  /** What two's complement adds is not seen in the lower bytes. */
  lemma TwoWraps(x: int, k: int)
    ensures Two(x + 0x1_0000 * k) == Two(x) && (x + 0x1_0000 * k) / 0x1_0000 == x / 0x1_0000 + k
  {
    var y := x + 0x1_0000 * k;
    assert y == x + 256 * (256 * k);
    ByteShift(x, 256 * k);
    ByteShift(x / 256, k);
    assert y / 0x1_0000 == y / 256 / 256 && x / 0x1_0000 == x / 256 / 256;
  }

  lemma FourWraps(x: int, k: int)
    ensures Four(x + 0x1_0000_0000 * k) == Four(x) && (x + 0x1_0000_0000 * k) / 0x1_0000_0000 == x / 0x1_0000_0000 + k
  {
    TwoWraps(x, 0x1_0000 * k);
    TwoWraps(x / 0x1_0000, k);
  }

  lemma PackTwo(x: int)
    requires -0x8000 <= x < 0x8000
    ensures 0 <= x + Pow256(2) && Pack(x, 2) == Two(x)
  {
    Pow256Values();
    BytesOfTwo(if x < 0 then x + 0x1_0000 else x, 0);
    TwoWraps(x, 1);
  }

  lemma PackFour(x: int)
    requires -0x8000_0000 <= x < 0x8000_0000
    ensures 0 <= x + Pow256(4) && Pack(x, 4) == Four(x)
  {
    Pow256Values();
    BytesOfFour(if x < 0 then x + 0x1_0000_0000 else x, 0);
    FourWraps(x, 1);
  }

  lemma PackEight(x: int)
    requires -0x8000_0000_0000_0000 <= x < 0x8000_0000_0000_0000
    ensures 0 <= x + Pow256(8) && Pack(x, 8) == Eight(x)
  {
    Pow256Values();
    var y := if x < 0 then x + 0x1_0000_0000_0000_0000 else x;
    BytesOfFour(y, 4);
    BytesOfFour(y / 0x1_0000_0000, 0);
    FourWraps(x, 0x1_0000_0000);
    FourWraps(x / 0x1_0000_0000, 1);
  }

  // ---- numbers -------------------------------------------------------------

  lemma EncodeIs(item: Writable, value: seq<byte>)
    requires ValueBytes(item) == value
    ensures Encode(item) == Two(item.code) + value
  {
    PackTwo(item.code);
  }

  lemma ReadsInt16(code: i16, x: int, rest: seq<byte>)
    requires Int16Code(code) && -0x8000 <= x < 0x8000
    ensures ReadRecord(Two(code) + Two(x) + rest) == Got(code, Int(x), 4, rest)
  {
    PackTwo(x);
    EncodeIs(NumberItem(code, x), Two(x));
    ReadBack(NumberItem(code, x), rest);
  }

  lemma ReadsInt32(code: i16, x: int, rest: seq<byte>)
    requires Int32Code(code) && -0x8000_0000 <= x < 0x8000_0000
    ensures ReadRecord(Two(code) + Four(x) + rest) == Got(code, Int(x), 6, rest)
  {
    PackFour(x);
    EncodeIs(NumberItem(code, x), Four(x));
    ReadBack(NumberItem(code, x), rest);
  }

  lemma ReadsInt64(code: i16, x: int, rest: seq<byte>)
    requires Int64Code(code) && -0x8000_0000_0000_0000 <= x < 0x8000_0000_0000_0000
    ensures ReadRecord(Two(code) + Eight(x) + rest) == Got(code, Int(x), 10, rest)
  {
    PackEight(x);
    EncodeIs(NumberItem(code, x), Eight(x));
    ReadBack(NumberItem(code, x), rest);
  }

  lemma ReadsBool(code: i16, b: byte, rest: seq<byte>)
    requires BoolCode(code)
    ensures ReadRecord(Two(code) + [b] + rest) == Got(code, Int(b), 3, rest)
  {
    Pow256Values();
    assert Pack(b, 1) == [b];
    EncodeIs(NumberItem(code, b), [b]);
    ReadBack(NumberItem(code, b), rest);
  }

  lemma ReadsFloat(code: i16, bits: seq<byte>, rest: seq<byte>)
    requires FloatCode(code) && |bits| == 8
    ensures ReadRecord(Two(code) + bits + rest) == Got(code, Float(bits), 10, rest)
  {
    EncodeIs(FloatItem(code, bits), bits);
    ReadBack(FloatItem(code, bits), rest);
  }

  // ---- texts and binary values ---------------------------------------------

  lemma ReadsText(code: i16, text: seq<byte>, rest: seq<byte>)
    requires TextCode(code) && forall b :: b in text ==> b != 0
    ensures ReadRecord(Two(code) + (text + [0]) + rest) == Got(code, Str(text), |text| + 3, rest)
  {
    EncodeIs(TextItem(code, text), text + [0]);
    ReadBack(TextItem(code, text), rest);
  }

  /** A short chunk ends a binary value; a full one does if another code or nothing follows. */
  lemma ReadsLastChunk(code: i16, c: chunk, rest: seq<byte>)
    requires BinaryCode(code)
    requires |c| < 127 || rest == [] || (|rest| >= 2 && forall r: seq<byte> :: rest != Two(code) + r)
    ensures ReadRecord(Two(code) + ([|c|] + c) + rest) == Got(code, Bin(c), |c| + 3, rest)
  {
    var item: Writable := ChunkItem(code, [c]);
    EncodeIs(item, [|c|] + c);
    assert Flatten([c]) == c + [] == c;
    if |c| >= 127 && rest != [] {
      OtherCode(code, rest);
    }
    ReadBack(item, rest);
  }

  lemma LeIntOfTwo(a: byte, b: byte)
    ensures LeInt([a, b]) == if b < 128 then a + 256 * b else a + 256 * b - 0x1_0000
  {
    Pow256Values();
    assert [a, b][1..] == [b] && [b][1..] == [];
    assert LeNat([b]) == b + 256 * LeNat([]) && LeNat([a, b]) == a + 256 * LeNat([b]);
  }

  lemma TwoTells(code: i16, a: byte, b: byte)
    ensures Two(code) == [a, b] <==> code == if b < 128 then a + 256 * b else a + 256 * b - 0x1_0000
  {
    assert Two(code)[0] == code % 256 && Two(code)[1] == code / 256 % 256;
  }

  /** Two bytes are the code if and only if they read as it. */
  lemma OtherCode(code: i16, rest: seq<byte>)
    requires |rest| >= 2
    ensures LeInt(rest[..2]) == code <==> rest == Two(code) + rest[2..]
  {
    hide LeInt;
    var a, b := rest[0], rest[1];
    LeIntOfTwo(a, b);
    TwoTells(code, a, b);
    assert rest[..2] == [a, b] && rest == [a, b] + rest[2..];
    assert rest == Two(code) + rest[2..] ==> rest[..2] == Two(code);
  }

  /** What is read behind a full chunk, as part of the same value. */
  function Continued(c: chunk, r: Read): Read {
    match r
    case Got(code, Bin(more), nbytes, rest) => Got(code, Bin(c + more), |c| + 3 + nbytes, rest)
    case _ => r
  }

  /** Behind a full chunk the same code again goes on with the value, whatever comes then. */
  lemma ReadsFullChunk(code: i16, c: chunk, tail: seq<byte>)
    requires BinaryCode(code) && |c| >= 127
    ensures ReadRecord(Two(code) + ([|c|] + c) + (Two(code) + tail)) == Continued(c, ReadRecord(Two(code) + tail))
  {
    PackTwo(code);
    KindsAgree(code);
    FullChunk(code, c, tail);
    CodeAhead(code, tail);
    var s := ([|c|] + c) + (Two(code) + tail);
    CodeAhead(code, s);
    assert Two(code) + ([|c|] + c) + (Two(code) + tail) == Two(code) + s;
  }

  // ---- files that end too early --------------------------------------------

  /** A number that is not all there is not read, and neither is half a code. */
  lemma ReadsNoPart(code: i16, part: seq<byte>)
    requires !TextCode(code) && !BinaryCode(code) && |part| < if FloatCode(code) then 8 else Width(code)
    ensures ReadRecord(Two(code) + part) == Eof && ReadRecord(Two(code)[..1]) == Eof && ReadRecord([]) == Eof
  {
    PackTwo(code);
    KindsAgree(code);
    CodeAhead(code, part);
  }

  /** A text is read to the end of the file, and counts one more byte than there is. */
  lemma ReadsOpenText(code: i16, text: seq<byte>)
    requires TextCode(code) && forall b :: b in text ==> b != 0
    ensures ReadRecord(Two(code) + text) == Got(code, Str(text), |text| + 3, [])
  {
    PackTwo(code);
    KindsAgree(code);
    CodeAhead(code, text);
    OpenText(text);
  }

  lemma {:induction false} OpenText(text: seq<byte>)
    requires forall b :: b in text ==> b != 0
    ensures ReadText(text) == (text, [])
  {
    if text != [] {
      assert text[0] in text && forall b :: b in text[1..] ==> b in text;
      OpenText(text[1..]);
      assert text == [text[0]] + text[1..];
    }
  }

  /** A chunk is read as far as it goes, and counts as if it were all there; and a lone byte behind a full one is lost. */
  lemma ReadsCutChunk(code: i16, n: byte, c: seq<byte>, lone: byte)
    requires BinaryCode(code) && |c| <= n
    ensures ReadRecord(Two(code)) == Got(code, Bin([]), 2, [])
    ensures ReadRecord(Two(code) + ([n] + c)) == Got(code, Bin(c), n + 3, [])
    ensures |c| == n >= 127 ==> ReadRecord(Two(code) + ([n] + c + [lone])) == Got(code, Bin(c), n + 3, [])
  {
    PackTwo(code);
    KindsAgree(code);
    CodeAhead(code, []);
    assert Two(code) + [] == Two(code);
    var s := [n] + c;
    CodeAhead(code, s);
    CutChunk(n, c, []);
    assert s + [] == s;
    CodeAhead(code, s + [lone]);
    if |c| == n {
      CutChunk(n, c, [lone]);
    }
  }

  lemma CutChunk(n: byte, c: seq<byte>, behind: seq<byte>)
    requires |c| == n || (|c| < n && behind == [])
    ensures SplitChunk([n] + c + behind) == (c, behind)
  {
    var s := [n] + c + behind;
    assert s[1..1 + |c|] == c && s[1 + |c|..] == behind;
  }

  // ---- the first bytes -----------------------------------------------------

  /** The header is passed over exactly where a file begins with it, and otherwise the file is read from its first byte. */
  lemma HeaderExactly(data: seq<byte>)
    ensures var header := Ascii("AutoCAD Binary DXF") + [13, 10, 26, 0];
      HeaderSize(data) == if header <= data then |header| else 0
  {
    assert Sentinel() == SENTINEL;
    if |data| >= 22 {
      assert SENTINEL <= data <==> data[..22] == SENTINEL;
    }
  }

  /** No record has the code of a section's name and anything but a text as its value. */
  lemma NamesAreTexts(s: seq<byte>)
    ensures var r := ReadRecord(s); r.Got? && TextCode(r.code) ==> r.value.Str?
  {
    if |s| >= 2 {
      KindsAgree(LeInt(s[..2]));
    }
  }
}
