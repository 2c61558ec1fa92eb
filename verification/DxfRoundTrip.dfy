/**
  Writing binary DXF records and reading them back (examples/compare_dxfb.py:89-196).
  A binary value is written as chunks, each behind the group code and its count;
  the reader goes on to a further chunk only behind one of 127 bytes or more.
 */
module DxfRoundTrip {
  import opened Numbers
  import Sequences
  import opened DxfRecords
  import opened DxfFormat
  import opened DxfStream

  /** A 16-bit group code. */
  type i16 = x: int | -0x8000 <= x < 0x8000

  /** What one count byte can say. */
  type chunk = c: seq<byte> | |c| < 256

  /** A record as it is written. */
  datatype Item =
    | TextItem(code: i16, text: seq<byte>)
    | NumberItem(code: i16, number: int)
    | FloatItem(code: i16, bits: seq<byte>)
    | ChunkItem(code: i16, chunks: seq<chunk>)

  /** The value fits the type of its group code. */
  predicate ItemOk(item: Item) {
    match item
    case TextItem(code, text) => TextCode(code) && forall b :: b in text ==> b != 0
    case NumberItem(code, number) => NumberFits(code, number)
    case FloatItem(code, bits) => FloatCode(code) && |bits| == 8
    case ChunkItem(code, chunks) => BinaryCode(code) && chunks != [] && ChunksOk(chunks)
  }

  type Writable = item: Item | ItemOk(item) witness TextItem(0, [])

  /** Full chunks, ended by one of any length. */
  predicate ChunksOk(chunks: seq<chunk>) {
    |chunks| > 1 ==> |chunks[0]| >= 127 && ChunksOk(chunks[1..])
  }

  /** The last chunk does not say that it is the last. */
  predicate Open(item: Item) {
    item.ChunkItem? && item.chunks != [] && |item.chunks[|item.chunks| - 1]| >= 127
  }

  // ---- writing -------------------------------------------------------------

  function LeBytes(x: nat, n: nat): (bs: seq<byte>)
    ensures |bs| == n
  {
    if n == 0 then [] else [x % 256] + LeBytes(x / 256, n - 1)
  }

  /** Two's complement in n bytes (struct.pack). */
  function Pack(x: int, n: nat): (bs: seq<byte>)
    requires 0 <= x + Pow256(n)
    ensures |bs| == n
  {
    LeBytes(if x < 0 then x + Pow256(n) else x, n)
  }

  function CodeBytes(code: i16): (bs: seq<byte>)
    ensures |bs| == 2
  {
    Pow256Values(); Pack(code, 2)
  }

  function Flatten(chunks: seq<chunk>): seq<byte> {
    if chunks == [] then [] else chunks[0] + Flatten(chunks[1..])
  }

  /** Chunks with their counts, and the group code again between them. */
  function ChunkBytes(code: i16, chunks: seq<chunk>): seq<byte> {
    if chunks == [] then []
    else if |chunks| == 1 then [|chunks[0]|] + chunks[0]
    else [|chunks[0]|] + chunks[0] + (CodeBytes(code) + ChunkBytes(code, chunks[1..]))
  }

  /** What follows the first group code. */
  function ValueBytes(item: Writable): seq<byte> {
    match item
    case TextItem(_, text) => text + [0]
    case NumberItem(code, number) => Pow256Values(); Pack(number, Width(code))
    case FloatItem(_, bits) => bits
    case ChunkItem(code, chunks) => ChunkBytes(code, chunks)
  }

  function Encode(item: Writable): seq<byte> {
    CodeBytes(item.code) + ValueBytes(item)
  }

  function EncodeAll(items: seq<Writable>): seq<byte> {
    if items == [] then [] else Encode(items[0]) + EncodeAll(items[1..])
  }

  function ValueOf(item: Item): Value {
    match item
    case TextItem(_, text) => Str(text)
    case NumberItem(_, number) => Int(number)
    case FloatItem(_, bits) => Float(bits)
    case ChunkItem(_, chunks) => Bin(Flatten(chunks))
  }

  /** Bytes, and what they are to read back as. */
  datatype Part = Part(bytes: seq<byte>, code: int, value: Value)

  function PartOf(item: Writable): Part {
    Part(Encode(item), item.code, ValueOf(item))
  }

  function Parts(items: seq<Writable>): (parts: seq<Part>)
    ensures |parts| == |items|
  {
    if items == [] then [] else [PartOf(items[0])] + Parts(items[1..])
  }

  function Bytes(parts: seq<Part>): seq<byte> {
    if parts == [] then [] else parts[0].bytes + Bytes(parts[1..])
  }

  function PartRecords(parts: seq<Part>, at: nat): (rs: seq<Record>)
    ensures |rs| == |parts|
  {
    if parts == [] then []
    else [Record(at, parts[0].code, parts[0].value)] + PartRecords(parts[1..], at + |parts[0].bytes|)
  }

  /** The records one would like to read back, each with its file position. */
  function Records(items: seq<Writable>, at: nat): (rs: seq<Record>)
    ensures |rs| == |items|
  {
    PartRecords(Parts(items), at)
  }

  // ---- numbers -------------------------------------------------------------

  lemma {:induction false} LeBytesBack(x: nat, n: nat)
    requires x < Pow256(n)
    ensures LeNat(LeBytes(x, n)) == x
  {
    if n > 0 {
      LeBytesBack(x / 256, n - 1);
      assert LeBytes(x, n)[1..] == LeBytes(x / 256, n - 1);
    }
  }

  lemma PackBack(x: int, n: nat)
    requires 0 <= 2 * x + Pow256(n) < 2 * Pow256(n)
    ensures LeInt(Pack(x, n)) == x
  {
    LeBytesBack(if x < 0 then x + Pow256(n) else x, n);
  }

  lemma CodeBack(code: i16)
    ensures LeInt(CodeBytes(code)) == code
  {
    Pow256Values();
    PackBack(code, 2);
  }

  // ---- reading one record back ---------------------------------------------

  lemma {:induction false} TextBack(text: seq<byte>, rest: seq<byte>)
    requires forall b :: b in text ==> b != 0
    ensures ReadText(text + [0] + rest) == (text, rest)
  {
    var s := text + [0] + rest;
    if text != [] {
      assert forall b :: b in text[1..] ==> b in text;
      TextBack(text[1..], rest);
      assert s[1..] == text[1..] + [0] + rest && s[0] == text[0] && text[0] in text;
      assert text == [text[0]] + text[1..];
    } else {
      assert s == [0] + rest && s[1..] == rest;
    }
  }

  lemma SplitBack(c: chunk, tail: seq<byte>)
    ensures ([|c|] + c) + tail != [] && (([|c|] + c) + tail)[0] == |c|
    ensures SplitChunk(([|c|] + c) + tail) == (c, tail)
  {
    var s := ([|c|] + c) + tail;
    assert s[1..1 + |c|] == c && s[1 + |c|..] == tail;
  }

  lemma CodeAhead(code: i16, tail: seq<byte>)
    ensures var s := CodeBytes(code) + tail; |s| >= 2 && LeInt(s[..2]) == code && s[2..] == tail
  {
    CodeBack(code);
    assert (CodeBytes(code) + tail)[..2] == CodeBytes(code);
  }

  /** A chunk and what is read behind it. */
  function Joined(c: seq<byte>, r: (seq<byte>, nat, seq<byte>)): (seq<byte>, nat, seq<byte>) {
    (c + r.0, 3 + |c| + r.1, r.2)
  }

  lemma ReadOn(s: seq<byte>, code: int, c: chunk, behind: seq<byte>, tail: seq<byte>)
    requires s != [] && s[0] == |c| && SplitChunk(s) == (c, behind) && GoesOn(s[0], behind, code) && behind[2..] == tail
    ensures ReadChunks(s, code) == Joined(c, ReadChunks(tail, code))
  {
  }

  lemma FullChunk(code: i16, c: chunk, tail: seq<byte>)
    requires |c| >= 127
    ensures ReadChunks(([|c|] + c) + (CodeBytes(code) + tail), code) == Joined(c, ReadChunks(tail, code))
  {
    var behind := CodeBytes(code) + tail;
    SplitBack(c, behind);
    CodeAhead(code, tail);
    ReadOn(([|c|] + c) + behind, code, c, behind, tail);
  }

  lemma LastChunk(code: i16, c: chunk, rest: seq<byte>)
    requires |c| >= 127 ==> rest == [] || (|rest| >= 2 && LeInt(rest[..2]) != code)
    ensures ReadChunks(([|c|] + c) + rest, code) == (c, 1 + |c|, rest)
  {
    SplitBack(c, rest);
  }

  lemma ChunksApart(code: i16, chunks: seq<chunk>, rest: seq<byte>)
    requires |chunks| > 1
    ensures ChunkBytes(code, chunks) + rest
         == ([|chunks[0]|] + chunks[0]) + (CodeBytes(code) + (ChunkBytes(code, chunks[1..]) + rest))
  {
    Sequences.Assoc([|chunks[0]|] + chunks[0], CodeBytes(code) + ChunkBytes(code, chunks[1..]), rest);
    Sequences.Assoc(CodeBytes(code), ChunkBytes(code, chunks[1..]), rest);
  }

  /** What a binary value is to read back as, in front of the rest. */
  function WholeValue(code: i16, chunks: seq<chunk>, rest: seq<byte>): (seq<byte>, nat, seq<byte>) {
    (Flatten(chunks), |ChunkBytes(code, chunks)|, rest)
  }

  lemma WholeStep(code: i16, chunks: seq<chunk>, rest: seq<byte>)
    requires |chunks| > 1
    ensures WholeValue(code, chunks, rest) == Joined(chunks[0], WholeValue(code, chunks[1..], rest))
  {
  }

  /** A binary value is read to its end if its last chunk says so, or if another code or nothing follows. */
  lemma {:induction false} ChunksBack(code: i16, chunks: seq<chunk>, rest: seq<byte>)
    requires chunks != [] && ChunksOk(chunks)
    requires |chunks[|chunks| - 1]| >= 127 ==> rest == [] || (|rest| >= 2 && LeInt(rest[..2]) != code)
    ensures ReadChunks(ChunkBytes(code, chunks) + rest, code) == WholeValue(code, chunks, rest)
    decreases |chunks|
  {
    if |chunks| == 1 {
      LastChunk(code, chunks[0], rest);
      assert Flatten(chunks) == chunks[0] + [] == chunks[0];
    } else {
      assert chunks[1..][|chunks| - 2] == chunks[|chunks| - 1];
      ChunksBack(code, chunks[1..], rest);
      ChunksApart(code, chunks, rest);
      FullChunk(code, chunks[0], ChunkBytes(code, chunks[1..]) + rest);
      WholeStep(code, chunks, rest);
    }
  }

  lemma FixedBack(code: i16, kind: Kind, bits: seq<byte>, rest: seq<byte>)
    requires !kind.StrKind? && !kind.BinKind? && |bits| == Size(kind)
    ensures ReadValue(code, kind, bits + rest)
         == Got(code, if kind.FloatKind? then Float(bits) else if kind.BoolKind? then Int(bits[0]) else Int(LeInt(bits)),
                2 + |bits|, rest)
  {
    assert (bits + rest)[..|bits|] == bits && (bits + rest)[|bits|..] == rest;
  }

  /** What follows a record cannot be taken for more of it. */
  predicate Ends(item: Item, rest: seq<byte>) {
    Open(item) ==> rest == [] || (|rest| >= 2 && LeInt(rest[..2]) != item.code)
  }

  lemma NumberBack(code: i16, number: int, rest: seq<byte>)
    requires ItemOk(NumberItem(code, number))
    ensures var bits := ValueBytes(NumberItem(code, number));
      ReadValue(code, ValueKind(code), bits + rest) == Got(code, Int(number), 2 + |bits|, rest)
  {
    var kind, bits := ValueKind(code), ValueBytes(NumberItem(code, number));
    KindsAgree(code);
    Pow256Values();
    FixedBack(code, kind, bits, rest);
    if !kind.BoolKind? {
      PackBack(number, Size(kind));
    }
  }

  lemma ValueBack(item: Writable, rest: seq<byte>)
    requires Ends(item, rest)
    ensures ReadValue(item.code, ValueKind(item.code), ValueBytes(item) + rest)
         == Got(item.code, ValueOf(item), 2 + |ValueBytes(item)|, rest)
  {
    KindsAgree(item.code);
    match item
    case TextItem(_, text) => TextBack(text, rest);
    case ChunkItem(code, chunks) => ChunksBack(code, chunks, rest);
    case FloatItem(code, bits) => FixedBack(code, FloatKind, bits, rest);
    case NumberItem(code, number) => NumberBack(code, number, rest);
  }

  /** Reading what was written, in front of something that cannot be taken for more of it. */
  lemma ReadBack(item: Writable, rest: seq<byte>)
    requires Ends(item, rest)
    ensures ReadRecord(Encode(item) + rest) == Got(item.code, ValueOf(item), |Encode(item)|, rest)
  {
    Sequences.Assoc(CodeBytes(item.code), ValueBytes(item), rest);
    CodeAhead(item.code, ValueBytes(item) + rest);
    ValueBack(item, rest);
  }

  // ---- the round trip ------------------------------------------------------

  /** No open binary value is followed by a record with the same code. */
  predicate NoMerge(items: seq<Writable>) {
    |items| > 1 ==> (Open(items[0]) ==> items[1].code != items[0].code) && NoMerge(items[1..])
  }

  lemma StartsWithCode(item: Writable)
    ensures |Encode(item)| >= 2 && LeInt(Encode(item)[..2]) == item.code
  {
    CodeBack(item.code);
    assert Encode(item)[..2] == CodeBytes(item.code);
  }

  lemma FirstEnds(items: seq<Writable>)
    requires items != [] && NoMerge(items)
    ensures Ends(items[0], EncodeAll(items[1..]))
  {
    if |items| > 1 {
      StartsWithCode(items[1]);
      assert EncodeAll(items[1..])[..2] == Encode(items[1])[..2];
    }
  }

  lemma {:induction false} SameParts(items: seq<Writable>)
    ensures EncodeAll(items) == Bytes(Parts(items))
  {
    if items != [] {
      SameParts(items[1..]);
    }
  }

  /** The reader gets back each part, in front of all those behind it. */
  ghost predicate ReadsParts(rd: Reader, parts: seq<Part>) {
    parts != [] ==>
      var p, rest := parts[0], Bytes(parts[1..]);
      rd(p.bytes + rest) == Got(p.code, p.value, |p.bytes|, rest) && ReadsParts(rd, parts[1..])
  }

  lemma {:induction false} DxfReadsParts(items: seq<Writable>)
    requires NoMerge(items)
    ensures ReadsParts(DxfReader(), Parts(items))
  {
    if items != [] {
      FirstEnds(items);
      ReadBack(items[0], EncodeAll(items[1..]));
      SameParts(items[1..]);
      DxfReadsParts(items[1..]);
    }
  }

  lemma {:induction false} ParseParts(rd: Reader, parts: seq<Part>, at: nat)
    requires ReadsParts(rd, parts)
    ensures Parse(rd, Bytes(parts), at) == PartRecords(parts, at)
    decreases |parts|
  {
    if parts == [] {
      assert Advances([], rd([]));
    } else {
      ParseParts(rd, parts[1..], at + |parts[0].bytes|);
    }
  }

  lemma ParseBack(items: seq<Writable>, at: nat)
    requires NoMerge(items)
    ensures Parse(DxfReader(), EncodeAll(items), at) == Records(items, at)
  {
    SameParts(items);
    DxfReadsParts(items);
    ParseParts(DxfReader(), Parts(items), at);
  }

  // ---- what becomes of adjacent open values --------------------------------

  predicate Merges(a: Writable, b: Writable) {
    Open(a) && b.code == a.code
  }

  lemma {:induction false} AppendOk(a: seq<chunk>, b: seq<chunk>)
    requires a != [] && b != [] && ChunksOk(a) && ChunksOk(b) && |a[|a| - 1]| >= 127
    ensures ChunksOk(a + b)
  {
    if |a| > 1 {
      AppendOk(a[1..], b);
      assert (a + b)[1..] == a[1..] + b;
    } else {
      assert (a + b)[1..] == b;
    }
  }

  /** One record with the chunks of both. */
  function Merged(a: Writable, b: Writable): Writable
    requires Merges(a, b)
  {
    AppendOk(a.chunks, b.chunks);
    ChunkItem(a.code, a.chunks + b.chunks)
  }

  lemma Apart(c: seq<byte>, code: seq<byte>, more: seq<byte>, x: seq<byte>)
    ensures c + (code + (more + x)) == (c + (code + more)) + x
  {
  }

  lemma ChunkBytesFirst(code: i16, c: chunk, more: seq<chunk>)
    requires more != []
    ensures ChunkBytes(code, [c] + more) == ([|c|] + c) + (CodeBytes(code) + ChunkBytes(code, more))
  {
    assert ([c] + more)[1..] == more;
  }

  lemma {:induction false} ChunkBytesAppend(code: i16, a: seq<chunk>, b: seq<chunk>)
    requires a != [] && b != []
    ensures ChunkBytes(code, a + b) == ChunkBytes(code, a) + (CodeBytes(code) + ChunkBytes(code, b))
    decreases |a|
  {
    var c, more := a[0], a[1..];
    if more == [] {
      assert a == [c];
      ChunkBytesFirst(code, c, b);
    } else {
      assert a == [c] + more;
      Sequences.Assoc([c], more, b);
      ChunkBytesFirst(code, c, more + b);
      ChunkBytesAppend(code, more, b);
      ChunkBytesFirst(code, c, more);
      Apart([|c|] + c, CodeBytes(code), ChunkBytes(code, more), CodeBytes(code) + ChunkBytes(code, b));
    }
  }

  /** Written down, two records that merge cannot be told from the merged one. */
  lemma SameBytes(a: Writable, b: Writable)
    requires Merges(a, b)
    ensures Encode(Merged(a, b)) == Encode(a) + Encode(b)
  {
    ChunkBytesAppend(a.code, a.chunks, b.chunks);
    Sequences.Assoc(CodeBytes(a.code), ChunkBytes(a.code, a.chunks), Encode(b));
  }

  /** All merging done. */
  function Normal(items: seq<Writable>): (r: seq<Writable>)
    ensures r == [] <==> items == []
    ensures items != [] ==> r[0].code == items[0].code
  {
    if |items| <= 1 then items
    else
      var rest := Normal(items[1..]);
      if Merges(items[0], rest[0]) then [Merged(items[0], rest[0])] + rest[1..] else [items[0]] + rest
  }

  lemma {:induction false} NormalKeepsBytes(items: seq<Writable>)
    ensures EncodeAll(Normal(items)) == EncodeAll(items)
  {
    if |items| > 1 {
      var first, rest := items[0], Normal(items[1..]);
      NormalKeepsBytes(items[1..]);
      if Merges(first, rest[0]) {
        SameBytes(first, rest[0]);
        Sequences.Assoc(Encode(first), Encode(rest[0]), EncodeAll(rest[1..]));
        assert Normal(items)[1..] == rest[1..];
      } else {
        assert Normal(items)[1..] == rest;
      }
    }
  }

  lemma MergedOpen(a: Writable, b: Writable)
    requires Merges(a, b) && b.ChunkItem?
    ensures Merged(a, b).code == b.code && Open(Merged(a, b)) == Open(b)
  {
    var m := Merged(a, b);
    assert m.chunks[|m.chunks| - 1] == b.chunks[|b.chunks| - 1];
  }

  lemma NoMergeFirst(x: Writable, rest: seq<Writable>)
    ensures NoMerge([x] + rest) <==> (rest == [] || !Merges(x, rest[0])) && NoMerge(rest)
  {
    assert ([x] + rest)[1..] == rest;
  }

  lemma SameCodeSameForm(a: Writable, b: Writable)
    requires Merges(a, b)
    ensures b.ChunkItem?
  {
  }

  /** Normal is normal, step by step. */
  lemma NormalStep(first: Writable, rest: seq<Writable>, r: seq<Writable>)
    requires rest != [] && NoMerge(rest)
    requires r == if Merges(first, rest[0]) then [Merged(first, rest[0])] + rest[1..] else [first] + rest
    ensures NoMerge(r)
  {
    if Merges(first, rest[0]) {
      SameCodeSameForm(first, rest[0]);
      MergedOpen(first, rest[0]);
      assert rest == [rest[0]] + rest[1..];
      NoMergeFirst(rest[0], rest[1..]);
      NoMergeFirst(Merged(first, rest[0]), rest[1..]);
    } else {
      NoMergeFirst(first, rest);
    }
  }

  lemma {:induction false} NormalIsNormal(items: seq<Writable>)
    ensures NoMerge(Normal(items))
    ensures NoMerge(items) <==> Normal(items) == items
    ensures |Normal(items)| <= |items| && (|Normal(items)| == |items| ==> NoMerge(items))
    decreases |items|
  {
    if |items| > 1 {
      var first, rest := items[0], Normal(items[1..]);
      assert items == [first] + items[1..];
      NormalIsNormal(items[1..]);
      NormalStep(first, rest, Normal(items));
      NoMergeFirst(first, items[1..]);
      NoMergeFirst(first, rest);
    }
  }

  /** The first bytes of a binary DXF file. */
  function Sentinel(): seq<byte> {
    Ascii("AutoCAD Binary DXF") + [13, 10, 26, 0]
  }

  /** A binary DXF file with these records. */
  function FileBytes(items: seq<Writable>): seq<byte> {
    Sentinel() + EncodeAll(items)
  }

  /** Every file that was written reads back as its records with adjacent open values merged. */
  lemma FileBack(items: seq<Writable>)
    ensures ParseFile(FileBytes(items)) == Records(Normal(items), 22)
  {
    var data := FileBytes(items);
    assert Sentinel() == SENTINEL && data[..22] == SENTINEL && data[22..] == EncodeAll(items);
    NormalKeepsBytes(items);
    NormalIsNormal(items);
    ParseBack(Normal(items), 22);
  }

  /**
    The round trip, exactly: a list of records is read back, with its file
    positions, if and only if no binary value without a short last chunk is
    followed by a record with the same code.
   */
  lemma RoundTrip(items: seq<Writable>)
    ensures ParseFile(FileBytes(items)) == Records(items, 22) <==> NoMerge(items)
  {
    FileBack(items);
    NormalIsNormal(items);
  }
}
