/**
  Binary DXF as a format: which type of value each group code has, and how wide
  its numbers are (examples/compare_dxfb.py:6-15, 22-86).  The writer goes by this.
 */
module DxfFormat {
  import opened DxfRecords

  predicate Int16Code(code: int) {
    60 <= code < 80 || 170 <= code < 180 || 270 <= code < 290 || 370 <= code < 390 || 400 <= code < 410 || 1060 <= code <= 1070
  }

  predicate Int32Code(code: int) {
    80 <= code < 100 || 420 <= code < 430 || 440 <= code < 460 || code == 1071
  }

  predicate Int64Code(code: int) {
    160 <= code < 170
  }

  predicate BoolCode(code: int) {
    290 <= code < 300
  }

  predicate FloatCode(code: int) {
    10 <= code < 60 || 110 <= code < 150 || 210 <= code < 240 || 460 <= code < 470 || 1010 <= code < 1050
  }

  predicate BinaryCode(code: int) {
    310 <= code < 320
  }

  /** All the others, those that no range names included. */
  predicate TextCode(code: int) {
    !Int16Code(code) && !Int32Code(code) && !Int64Code(code) && !BoolCode(code) && !FloatCode(code) && !BinaryCode(code)
  }

  /** The bytes of a number. */
  function Width(code: int): nat {
    if Int16Code(code) then 2 else if Int32Code(code) then 4 else if Int64Code(code) then 8 else 1
  }

  predicate NumberFits(code: int, number: int) {
    || (Int16Code(code) && -0x8000 <= number < 0x8000)
    || (Int32Code(code) && -0x8000_0000 <= number < 0x8000_0000)
    || (Int64Code(code) && -0x8000_0000_0000_0000 <= number < 0x8000_0000_0000_0000)
    || (BoolCode(code) && 0 <= number < 256)
  }

  /** The reader's table says the same, for every code. */
  lemma KindsAgree(code: int)
    ensures ValueKind(code)
         == if Int16Code(code) then Int16Kind else if Int32Code(code) then Int32Kind
            else if Int64Code(code) then Int64Kind else if BoolCode(code) then BoolKind
            else if FloatCode(code) then FloatKind else if BinaryCode(code) then BinKind else StrKind
  {
  }

  /** Characters as bytes. */
  function Ascii(s: string): (bs: seq<byte>)
    requires forall i :: 0 <= i < |s| ==> s[i] as int < 256
    ensures |bs| == |s|
  {
    seq(|s|, i requires 0 <= i < |s| => var b: byte := s[i] as int; b)
  }
}
