/** The binary DXF reader as the source has it: a file position that reading moves on (examples/compare_dxfb.py:89-196). */
module DxfFile {
  import opened Options
  import Sequences
  import opened DxfRecords
  import opened DxfStream

  /** A file opened for reading bytes. */
  class ByteFile {
    const data: seq<byte>
    var pos: nat

    ghost predicate Valid()
      reads this
    {
      pos <= |data|
    }

    /** What is left to read. */
    ghost function Rest(): seq<byte>
      requires Valid()
      reads this
    {
      data[pos..]
    }

    constructor (data: seq<byte>)
      ensures Valid() && this.data == data && pos == 0
    {
      this.data := data;
      pos := 0;
    }

    /** f.read(n): fewer bytes at the end of the file. */
    method Read(n: nat) returns (bytes: seq<byte>)
      requires Valid()
      modifies this`pos
      ensures Valid() && |bytes| == Min(n, |old(Rest())|)
      ensures bytes == old(Rest())[..|bytes|] && Rest() == old(Rest())[|bytes|..]
    {
      var end := Min(pos + n, |data|);
      bytes := data[pos..end];
      pos := end;
    }

    /** f.seek(-n, 1) */
    method SeekBack(n: nat)
      requires Valid() && n <= pos
      modifies this`pos
      ensures Valid() && pos == old(pos) - n
    {
      pos := pos - n;
    }

    /** f.seek(0) */
    method Rewind()
      modifies this`pos
      ensures Valid() && pos == 0
    {
      pos := 0;
    }
  }

  /** The string loop of read_record. */
  method ReadString(f: ByteFile) returns (buf: seq<byte>)
    requires f.Valid()
    modifies f`pos
    ensures f.Valid() && (buf, f.Rest()) == ReadText(old(f.Rest()))
  {
    ghost var whole := ReadText(f.Rest());
    buf := [];
    assert [] + whole.0 == whole.0;
    while true
      invariant f.Valid() && TextLeft(whole, buf, f.Rest())
      decreases |f.Rest()|
    {
      ghost var before := f.Rest();
      var b := f.Read(1);
      TextStep(whole, buf, before);
      if |b| == 0 {
        assert before == [] == f.Rest();
        return;
      }
      assert f.Rest() == before[1..] && b == [before[0]];
      if b[0] == 0 {
        return;
      }
      buf := buf + b;
    }
  }

  /** With buf read and s left, the string as a whole will be as given. */
  ghost predicate TextLeft(whole: (seq<byte>, seq<byte>), buf: seq<byte>, s: seq<byte>) {
    whole == (buf + ReadText(s).0, ReadText(s).1)
  }

  lemma TextStep(whole: (seq<byte>, seq<byte>), buf: seq<byte>, s: seq<byte>)
    requires TextLeft(whole, buf, s)
    ensures s == [] ==> whole == (buf, [])
    ensures s != [] && s[0] == 0 ==> whole == (buf, s[1..])
    ensures s != [] && s[0] != 0 ==> TextLeft(whole, buf + [s[0]], s[1..])
  {
    if s == [] || s[0] == 0 {
      assert ReadText(s).0 == [] && buf + [] == buf;
    } else {
      assert (buf + [s[0]]) + ReadText(s[1..]).0 == buf + ([s[0]] + ReadText(s[1..]).0);
    }
  }

  /** The same for a binary value and its count of bytes. */
  ghost predicate ChunksLeft(whole: (seq<byte>, nat, seq<byte>), value: seq<byte>, total: nat, s: seq<byte>, code: int) {
    var (more, n, rest) := ReadChunks(s, code);
    whole == (value + more, total + n, rest)
  }

  lemma ChunksBegin(s: seq<byte>, code: int)
    ensures ChunksLeft(ReadChunks(s, code), [], 0, s, code)
  {
    var more := ReadChunks(s, code).0;
    assert [] + more == more;
  }

  lemma ChunksEnd(whole: (seq<byte>, nat, seq<byte>), value: seq<byte>, total: nat, code: int)
    requires ChunksLeft(whole, value, total, [], code)
    ensures whole == (value, total, [])
  {
    assert value + [] == value;
  }

  /** One chunk: its bytes, how many bytes were read for it, whether another one follows, and what is left. */
  datatype Round = Round(data: seq<byte>, count: nat, again: bool, rest: seq<byte>)

  function RoundOf(s: seq<byte>, code: int): Round
    requires s != []
  {
    var (data, behind) := SplitChunk(s);
    if GoesOn(s[0], behind, code) then Round(data, 3 + s[0] as int, true, behind[2..])
    else Round(data, 1 + s[0] as int, false, if s[0] >= 127 && |behind| < 2 then [] else behind)
  }

  lemma RoundShrinks(s: seq<byte>, code: int)
    requires s != []
    ensures |RoundOf(s, code).rest| < |s|
  {
  }

  lemma ChunksAre(s: seq<byte>, code: int)
    requires s != []
    ensures var r := RoundOf(s, code);
      ReadChunks(s, code)
        == if r.again then var (more, n, rest) := ReadChunks(r.rest, code); (r.data + more, r.count + n, rest)
           else (r.data, r.count, r.rest)
  {
  }

  lemma ChunkStep(whole: (seq<byte>, nat, seq<byte>), value: seq<byte>, total: nat, s: seq<byte>, code: int, r: Round)
    requires s != [] && ChunksLeft(whole, value, total, s, code) && r == RoundOf(s, code)
    ensures if r.again then ChunksLeft(whole, value + r.data, total + r.count, r.rest, code)
            else whole == (value + r.data, total + r.count, r.rest)
  {
    ChunksAre(s, code);
    if r.again {
      Sequences.Assoc(value, r.data, ReadChunks(r.rest, code).0);
    }
  }

  /** Two bytes on, if they are the group code again; else back (lines 124-131). */
  method ReadCodeAgain(f: ByteFile, code: int) returns (again: bool)
    requires f.Valid()
    modifies f`pos
    ensures f.Valid() && again == GoesOn(255, old(f.Rest()), code)
    ensures f.Rest() == if again then old(f.Rest())[2..] else if |old(f.Rest())| < 2 then [] else old(f.Rest())
  {
    ghost var before := f.Rest();
    var code2 := f.Read(2);
    if |code2| < 2 {
      assert f.Rest() == [];
      return false;
    }
    assert code2 == before[..2];
    if LeInt(code2) != code {
      f.SeekBack(2);
      assert f.Rest() == before;
      return false;
    }
    return true;
  }

  /** A count and its bytes (lines 112-120), or None at the end of the file. */
  method ReadCounted(f: ByteFile) returns (cnt: Option<byte>, data: seq<byte>)
    requires f.Valid()
    modifies f`pos
    ensures f.Valid() && |f.Rest()| <= |old(f.Rest())|
    ensures cnt == if old(f.Rest()) == [] then None else Some(old(f.Rest())[0])
    ensures if cnt.Some? then (data, f.Rest()) == SplitChunk(old(f.Rest())) else f.Rest() == data == []
  {
    ghost var s := f.Rest();
    var cntByte := f.Read(1);
    if |cntByte| == 0 {
      assert f.Rest() == [];
      return None, [];
    }
    cnt := Some(cntByte[0]);
    data := f.Read(cntByte[0]);
    ghost var end := Min(1 + s[0] as int, |s|);
    assert s[1..end] == data && s[end..] == f.Rest();
  }

  /** One round of the chunk loop, or None at the end of the file. */
  method ReadRound(f: ByteFile, code: int) returns (r: Option<(seq<byte>, nat, bool)>)
    requires f.Valid()
    modifies f`pos
    ensures f.Valid()
    ensures if old(f.Rest()) == [] then r == None && f.Rest() == []
            else var e := RoundOf(old(f.Rest()), code); r == Some((e.data, e.count, e.again)) && f.Rest() == e.rest
  {
    var cnt, data := ReadCounted(f);
    if cnt == None {
      return None;
    }
    if cnt.value < 127 {
      return Some((data, 1 + cnt.value as int, false));
    }
    var again := ReadCodeAgain(f, code);
    return Some((data, if again then 3 + cnt.value as int else 1 + cnt.value as int, again));
  }

  /** The chunk loop of read_record. */
  method ChunkLoop(f: ByteFile, code: int, ghost whole: (seq<byte>, nat, seq<byte>)) returns (value: seq<byte>, total: nat)
    requires f.Valid() && ChunksLeft(whole, [], 0, f.Rest(), code)
    modifies f`pos
    ensures f.Valid() && whole == (value, total, f.Rest())
  {
    value, total := [], 0;
    while true
      invariant f.Valid() && ChunksLeft(whole, value, total, f.Rest(), code)
      decreases |f.Rest()|
    {
      ghost var s := f.Rest();
      var r := ReadRound(f, code);
      if r == None {
        ChunksEnd(whole, value, total, code);
        return;
      }
      ghost var e := RoundOf(s, code);
      ChunkStep(whole, value, total, s, code, e);
      RoundShrinks(s, code);
      value, total := value + r.value.0, total + r.value.1;
      if !r.value.2 {
        return;
      }
    }
  }

  method ReadBinary(f: ByteFile, code: int) returns (value: seq<byte>, total: nat)
    requires f.Valid()
    modifies f`pos
    ensures f.Valid() && (value, total, f.Rest()) == ReadChunks(old(f.Rest()), code)
  {
    ChunksBegin(f.Rest(), code);
    value, total := ChunkLoop(f, code, ReadChunks(f.Rest(), code));
  }

  /** The branches of read_record for values of fixed size (lines 135-164). */
  method ReadSized(f: ByteFile, code: int, kind: Kind) returns (r: Option<(int, Value, nat)>)
    requires f.Valid()
    modifies f`pos
    ensures f.Valid()
    ensures match ReadFixed(code, kind, old(f.Rest()))
            case Eof => r == None
            case Got(c, value, nbytes, rest) => r == Some((c, value, nbytes)) && f.Rest() == rest
  {
    var data := f.Read(Size(kind));
    if |data| < Size(kind) {
      return None;
    }
    var value :=
      if kind == FloatKind then Float(data) else if kind == BoolKind then Int(data[0]) else Int(LeInt(data));
    return Some((code, value, 2 + Size(kind)));
  }

  /** The branches of read_record, behind the group code. */
  method ReadTyped(f: ByteFile, code: int) returns (r: Option<(int, Value, nat)>)
    requires f.Valid()
    modifies f`pos
    ensures f.Valid()
    ensures match ReadValue(code, ValueKind(code), old(f.Rest()))
            case Eof => r == None
            case Got(c, value, nbytes, rest) => r == Some((c, value, nbytes)) && f.Rest() == rest
  {
    var kind := ValueKind(code);
    if kind == StrKind {
      var buf := ReadString(f);
      return Some((code, Str(buf), 2 + |buf| + 1));
    } else if kind == BinKind {
      var value, total := ReadBinary(f, code);
      return Some((code, Bin(value), 2 + total));
    }
    r := ReadSized(f, code, kind);
  }

  /** read_record: the record and the number of bytes it claims to have read, or None at the end of the file. */
  method ReadOne(f: ByteFile) returns (r: Option<(int, Value, nat)>)
    requires f.Valid()
    modifies f`pos
    ensures f.Valid()
    ensures match ReadRecord(old(f.Rest()))
            case Eof => r == None
            case Got(code, value, nbytes, rest) => r == Some((code, value, nbytes)) && f.Rest() == rest
  {
    var codeBytes := f.Read(2);
    if |codeBytes| < 2 {
      return None;
    }
    r := ReadTyped(f, LeInt(codeBytes));
  }

  /** With these records read and s left, the file as a whole will be as expected. */
  ghost predicate RecordsLeft(rd: Reader, all: seq<Record>, records: seq<Record>, s: seq<byte>, offset: nat) {
    all == records + Parse(rd, s, offset)
  }

  lemma ParseStep(rd: Reader, all: seq<Record>, records: seq<Record>, s: seq<byte>, offset: nat)
    requires RecordsLeft(rd, all, records, s, offset)
    ensures var r := rd(s);
      && (r.Eof? ==> all == records)
      && (r.Got? ==>
        |r.rest| < |s| && RecordsLeft(rd, all, records + [Record(offset, r.code, r.value)], r.rest, offset + r.nbytes))
  {
    var r := rd(s);
    assert Advances(s, r);
    if r.Eof? {
      assert records + [] == records;
    } else {
      var one, more := [Record(offset, r.code, r.value)], Parse(rd, r.rest, offset + r.nbytes);
      assert (records + one) + more == records + (one + more);
    }
  }

  /** The sentinel, or back to the start (lines 181-185). */
  method SkipHeader(f: ByteFile)
    requires f.Valid() && f.pos == 0
    modifies f`pos
    ensures f.Valid() && f.pos == HeaderSize(f.data)
  {
    var header := f.Read(22);
    if header != SENTINEL {
      f.Rewind();
    }
  }

  /** rd is what read_record computes. */
  ghost predicate Reads(rd: Reader) {
    forall s {:trigger ReadRecord(s)} :: rd(s) == ReadRecord(s)
  }

  method ReadNext(f: ByteFile, ghost rd: Reader) returns (r: Option<(int, Value, nat)>)
    requires f.Valid() && Reads(rd)
    modifies f`pos
    ensures f.Valid()
    ensures match rd(old(f.Rest()))
            case Eof => r == None
            case Got(code, value, nbytes, rest) => r == Some((code, value, nbytes)) && f.Rest() == rest
  {
    r := ReadOne(f);
  }

  /** The loop of parse_dxfb (lines 187-194). */
  method ParseLoop(f: ByteFile, start: nat, ghost rd: Reader) returns (records: seq<Record>)
    requires f.Valid() && Reads(rd)
    modifies f`pos
    ensures records == Parse(rd, old(f.Rest()), start)
  {
    var offset := start;
    records := [];
    ghost var all := Parse(rd, f.Rest(), offset);
    assert [] + all == all;
    while true
      invariant f.Valid() && RecordsLeft(rd, all, records, f.Rest(), offset)
      decreases |f.Rest()|
    {
      ParseStep(rd, all, records, f.Rest(), offset);
      var rec := ReadNext(f, rd);
      if rec.None? {
        return;
      }
      var (code, value, nbytes) := rec.value;
      records := records + [Record(offset, code, value)];
      offset := offset + nbytes;
    }
  }

  /** parse_dxfb */
  method ParseDxfb(f: ByteFile) returns (records: seq<Record>)
    requires f.Valid() && f.pos == 0
    modifies f`pos
    ensures records == ParseFile(f.data)
  {
    SkipHeader(f);
    records := ParseLoop(f, f.pos, DxfReader());
  }
}
