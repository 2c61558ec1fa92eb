/**
  Reading record after record, as parse_dxfb does (examples/compare_dxfb.py:177-196).
  The loop adds up the byte counts that the record reader claims; what is proved
  here is that they lead to the true file positions.  Only one thing about the
  reader matters for that, so the reader is a parameter.
 */
module DxfStream {
  import opened DxfRecords

  type Reader = rd: seq<byte> -> Read | forall s :: Advances(s, rd(s)) witness s => Eof

  /** read_record as such a reader. */
  function DxfReader(): Reader {
    assert forall s :: Advances(s, ReadRecord(s)) by {
      forall s: seq<byte> ensures Advances(s, ReadRecord(s)) {
        ReadAdvances(s);
      }
    }
    ReadRecord
  }

  /** The loop of parse_dxfb, with s left to read, at a file position that it takes to be offset. */
  function Parse(rd: Reader, s: seq<byte>, offset: nat): seq<Record>
    decreases |s|
  {
    var r := rd(s);
    assert Advances(s, r);
    if r.Eof? then [] else [Record(offset, r.code, r.value)] + Parse(rd, r.rest, offset + r.nbytes)
  }

  /** parse_dxfb on the contents of a file. */
  function ParseFile(data: seq<byte>): seq<Record> {
    Parse(DxfReader(), data[HeaderSize(data)..], HeaderSize(data))
  }

  /** rs are the records read one after the other from s, which stands at file position at, each with its own position. */
  ghost predicate Chain(rd: Reader, s: seq<byte>, at: nat, rs: seq<Record>)
    decreases |rs|
  {
    var r := rd(s);
    if rs == [] then r.Eof?
    else r.Got? && rs[0] == Record(at, r.code, r.value) && |r.rest| <= |s| && Chain(rd, r.rest, at + |s| - |r.rest|, rs[1..])
  }

  /** The offsets are the true file positions, on every byte string, and records are at most half as many as bytes. */
  lemma {:induction false} ExactOffsets(rd: Reader, s: seq<byte>, at: nat)
    ensures Chain(rd, s, at, Parse(rd, s, at))
    ensures |Parse(rd, s, at)| <= |s| / 2
    decreases |s|
  {
    var r := rd(s);
    assert Advances(s, r);
    if r.Got? {
      if r.rest == [] {
        assert Advances([], rd([]));
        ExactOffsets(rd, [], at + r.nbytes);
      } else {
        ExactOffsets(rd, r.rest, at + r.nbytes);
      }
    }
  }

  lemma ChainStep(rd: Reader, data: seq<byte>, at: nat, rs: seq<Record>)
    requires at <= |data| && Chain(rd, data[at..], at, rs) && rs != []
    ensures var r := rd(data[at..]);
      && r.Got? && Record(at, r.code, r.value) == rs[0]
      && at + 2 <= |data| - |r.rest| && r.rest == data[|data| - |r.rest|..]
      && Chain(rd, r.rest, |data| - |r.rest|, rs[1..])
  {
    assert Advances(data[at..], rd(data[at..]));
  }

  /** Seen from one record: reading the file at its offset gives that record, and then the next one. */
  lemma {:induction false} RecordAtOffset(rd: Reader, data: seq<byte>, at: nat, rs: seq<Record>, i: nat)
    requires at <= |data| && Chain(rd, data[at..], at, rs) && i < |rs|
    ensures rs[i].offset <= |data|
    ensures var r := rd(data[rs[i].offset..]);
      && r.Got? && r.code == rs[i].code && r.value == rs[i].value
      && if i + 1 < |rs| then rs[i].offset < rs[i + 1].offset == |data| - |r.rest| else rd(r.rest) == Eof
    decreases i
  {
    ChainStep(rd, data, at, rs);
    var next := |data| - |rd(data[at..]).rest|;
    if i > 0 {
      RecordAtOffset(rd, data, next, rs[1..], i - 1);
    } else if |rs| > 1 {
      ChainStep(rd, data, next, rs[1..]);
    }
  }

  /** Reading the file at the offset of record i gives that record, and ends where the next one starts. */
  ghost predicate Stands(data: seq<byte>, rs: seq<Record>, i: nat)
    requires i < |rs|
  {
    && rs[i].offset <= |data|
    && var r := ReadRecord(data[rs[i].offset..]);
    && r.Got? && r.code == rs[i].code && r.value == rs[i].value
    && if i + 1 < |rs| then rs[i].offset < rs[i + 1].offset == |data| - |r.rest| else ReadRecord(r.rest) == Eof
  }

  /** The same, said of parse_dxfb: every offset of every file is where its record starts. */
  lemma FileOffsets(data: seq<byte>)
    ensures var rs := ParseFile(data);
      && |rs| <= |data| / 2
      && (if rs == [] then ReadRecord(data[HeaderSize(data)..]) == Eof else rs[0].offset == HeaderSize(data))
      && forall i :: 0 <= i < |rs| ==> Stands(data, rs, i)
  {
    var rd, at, rs := DxfReader(), HeaderSize(data), ParseFile(data);
    ExactOffsets(rd, data[at..], at);
    forall i | 0 <= i < |rs| ensures Stands(data, rs, i) {
      RecordAtOffset(rd, data, at, rs, i);
    }
  }
}
