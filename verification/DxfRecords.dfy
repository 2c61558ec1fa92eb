/**
  Binary DXF records (examples/compare_dxfb.py:20-196): what reading the
  remaining bytes of a file yields, as functions.
 */
module DxfRecords {
  import opened Numbers

  type byte = u8

  /** A record's value; a float64 stays its eight bytes. */
  datatype Value =
    | Str(text: seq<byte>)
    | Bin(bytes: seq<byte>)
    | Float(bits: seq<byte>)
    | Int(i: int)

  datatype Record = Record(offset: nat, code: int, value: Value)

  datatype Kind = StrKind | BinKind | FloatKind | Int16Kind | Int32Kind | Int64Kind | BoolKind

  /** dxf_value_type */
  function ValueKind(code: int): Kind {
    if 0 <= code <= 9 then StrKind
    else if 10 <= code <= 59 then FloatKind
    else if 60 <= code <= 79 then Int16Kind
    else if 80 <= code <= 99 then Int32Kind
    else if 100 <= code <= 109 then StrKind
    else if 110 <= code <= 149 then FloatKind
    else if 160 <= code <= 169 then Int64Kind
    else if 170 <= code <= 179 then Int16Kind
    else if 210 <= code <= 239 then FloatKind
    else if 270 <= code <= 279 then Int16Kind
    else if 280 <= code <= 289 then Int16Kind
    else if 290 <= code <= 299 then BoolKind
    else if 300 <= code <= 309 then StrKind
    else if 310 <= code <= 319 then BinKind
    else if 320 <= code <= 369 then StrKind
    else if 370 <= code <= 389 then Int16Kind
    else if 390 <= code <= 399 then StrKind
    else if 400 <= code <= 409 then Int16Kind
    else if 410 <= code <= 419 then StrKind
    else if 420 <= code <= 429 then Int32Kind
    else if 430 <= code <= 439 then StrKind
    else if 440 <= code <= 449 then Int32Kind
    else if 450 <= code <= 459 then Int32Kind
    else if 460 <= code <= 469 then FloatKind
    else if 470 <= code <= 479 then StrKind
    else if 480 <= code <= 489 then StrKind
    else if code == 999 then StrKind
    else if 1000 <= code <= 1009 then StrKind
    else if 1010 <= code <= 1049 then FloatKind
    else if 1060 <= code <= 1070 then Int16Kind
    else if code == 1071 then Int32Kind
    else StrKind
  }

  // ---- little-endian integers (struct.unpack) ------------------------------

  function LeNat(bs: seq<byte>): (x: nat)
    ensures x < Pow256(|bs|)
  {
    if bs == [] then 0 else bs[0] + 256 * LeNat(bs[1..])
  }

  /** Two's complement. */
  function LeInt(bs: seq<byte>): int {
    var x := LeNat(bs);
    if 2 * x < Pow256(|bs|) then x else x - Pow256(|bs|)
  }

  // ---- reading -------------------------------------------------------------

  /** Up to the first NUL, which is used up, or to the end of the file. */
  function ReadText(s: seq<byte>): (seq<byte>, seq<byte>) {
    if s == [] then ([], [])
    else if s[0] == 0 then ([], s[1..])
    else var (text, rest) := ReadText(s[1..]); ([s[0]] + text, rest)
  }

  function Min(a: nat, b: nat): nat {
    if a < b then a else b
  }

  /** A count byte and as many of its bytes as there are; and what is left. */
  function SplitChunk(s: seq<byte>): (r: (seq<byte>, seq<byte>))
    requires s != []
    ensures |r.1| < |s|
  {
    var end := Min(1 + s[0] as int, |s|);
    (s[1..end], s[end..])
  }

  /** Behind a full chunk the same group code again announces one more. */
  predicate GoesOn(cnt: byte, rest: seq<byte>, code: int) {
    cnt >= 127 && |rest| >= 2 && LeInt(rest[..2]) == code
  }

  /**
    A binary value behind its group code: counted chunks, where a count of 127
    or more goes on if the same code follows.  The second result is what the
    source adds up as the number of bytes.
   */
  function ReadChunks(s: seq<byte>, code: int): (seq<byte>, nat, seq<byte>)
    decreases |s|
  {
    if s == [] then ([], 0, [])
    else
      var (chunk, rest) := SplitChunk(s);
      if !GoesOn(s[0], rest, code) then
        (chunk, 1 + s[0] as int, if s[0] >= 127 && |rest| < 2 then [] else rest)
      else
        var (more, total, after) := ReadChunks(rest[2..], code);
        (chunk + more, 3 + s[0] as int + total, after)
  }

  /** One call of read_record: None at the end of the file, or a record, its nbytes, and what is left to read. */
  datatype Read = Eof | Got(code: int, value: Value, nbytes: nat, rest: seq<byte>)

  /** The bytes of a value of fixed size. */
  function Size(kind: Kind): (n: nat)
    ensures n > 0
  {
    match kind
    case Int16Kind => 2
    case Int32Kind => 4
    case FloatKind => 8
    case Int64Kind => 8
    case _ => 1
  }

  function ReadFixed(code: int, kind: Kind, s: seq<byte>): Read {
    var size := Size(kind);
    if |s| < size then Eof
    else
      var value :=
        if kind.FloatKind? then Float(s[..size]) else if kind.BoolKind? then Int(s[0]) else Int(LeInt(s[..size]));
      Got(code, value, 2 + size, s[size..])
  }

  function ReadValue(code: int, kind: Kind, s: seq<byte>): Read {
    match kind
    case StrKind => var (text, rest) := ReadText(s); Got(code, Str(text), 2 + |text| + 1, rest)
    case BinKind => var (bytes, total, rest) := ReadChunks(s, code); Got(code, Bin(bytes), 2 + total, rest)
    case _ => ReadFixed(code, kind, s)
  }

  function ReadRecord(s: seq<byte>): Read {
    if |s| < 2 then Eof else var code := LeInt(s[..2]); ReadValue(code, ValueKind(code), s[2..])
  }

  /** A read that makes progress, and that took everything where it did not take what it claims. */
  predicate Advances(s: seq<byte>, r: Read) {
    r.Got? ==>
      && |r.rest| + 2 <= |s| && r.rest == s[|s| - |r.rest|..]
      && (|s| - |r.rest| == r.nbytes || r.rest == [])
  }

  lemma {:induction false} TextAdvances(s: seq<byte>)
    ensures var (text, rest) := ReadText(s);
      && |rest| <= |s| && rest == s[|s| - |rest|..]
      && (|s| - |rest| == |text| + 1 || (|s| == |text| && rest == []))
  {
    if s != [] && s[0] != 0 {
      TextAdvances(s[1..]);
    }
  }

  lemma {:induction false} ChunksAdvance(s: seq<byte>, code: int)
    ensures var (_, total, rest) := ReadChunks(s, code);
      && |rest| <= |s| && rest == s[|s| - |rest|..] && (|s| - |rest| == total || rest == [])
    decreases |s|
  {
    if s != [] {
      var rest := SplitChunk(s).1;
      if GoesOn(s[0], rest, code) {
        ChunksAdvance(rest[2..], code);
      }
    }
  }

  /** Reading takes at least the code; where it takes other than nbytes, it took everything. */
  lemma ReadAdvances(s: seq<byte>)
    ensures Advances(s, ReadRecord(s))
  {
    hide ReadText, ReadChunks, ValueKind;
    if |s| >= 2 {
      TextAdvances(s[2..]);
      ChunksAdvance(s[2..], LeInt(s[..2]));
    }
  }

  /** The 22 bytes of the binary DXF sentinel. */
  const SENTINEL: seq<byte> :=
    [65, 117, 116, 111, 67, 65, 68, 32, 66, 105, 110, 97, 114, 121, 32, 68, 88, 70, 13, 10, 26, 0]

  function HeaderSize(data: seq<byte>): (n: nat)
    ensures n <= |data|
  {
    if |data| >= 22 && data[..22] == SENTINEL then 22 else 0
  }
}
