/**
  Relative handle references: how the field solver writes a handle out
  (examples/unknown.c:346-429, 997-1031) and how the library reads it back
  (src/dwg.c:1253-1299).
 */
module Handles {
  import opened Numbers

  const TWO32: int := 0x1_0000_0000
  const TWO64: int := 0x1_0000_0000_0000_0000

  datatype Handle = Handle(code: nat, size: nat, value: u64)

  /** The number of value bytes bits_handle and handle_string choose. */
  function SizeOf(value: u64): nat {
    if value == 0 then 0
    else if value < 0xff then 1
    else if value < 0xffff then 2
    else if value < 0xffffff then 3
    else 4
  }

  /** bits_handle: the value stored for a handle under a code, next to the object `ref`. */
  function Encode(code: nat, handle: u64, ref: u32): Handle {
    var value: u64 :=
      if code == 6 || code == 8 then 0
      else if code == 0xA then (handle - ref) % TWO64
      else if code == 0xC then (ref - handle) % TWO64
      else handle;
    Handle(code, SizeOf(value), value)
  }

  /** dwg_resolve_handleref: the absolute handle a stored one stands for. */
  function Resolve(h: Handle, ref: u32): u64 {
    if h.code == 6 then (ref + 1) % TWO64
    else if h.code == 8 then (ref - 1) % TWO64
    else if h.code == 0xA then (ref + h.value) % TWO64
    else if h.code == 0xC then (ref - h.value) % TWO64
    else h.value
  }

  const CODES: seq<nat> := [2, 3, 4, 5, 6, 8, 0xA, 0xC]

  /** The guards on the candidate codes (lines 1006-1019), in unsigned int arithmetic. */
  predicate Passes(code: nat, handle: u32, ref: u32) {
    && (code == 6 ==> handle == (ref + 1) % TWO32)
    && (code == 8 ==> handle == (ref - 1) % TWO32)
    && (code == 0xA ==> handle >= ref)
    && (code == 0xC ==> handle <= ref)
  }

  /** The codes the solver tries in turn; a 330 group starts with the relative ones. */
  method Candidates(group: int, current: nat, handle: u32, ref: u32) returns (tried: seq<nat>)
    ensures forall c :: c in tried <==>
      && c != current && (group == 330 ==> c >= 6)
      && (c in {2, 3, 4, 5} || (c == 6 && handle == (ref + 1) % TWO32) || (c == 8 && handle == (ref - 1) % TWO32)
          || (c == 0xA && handle >= ref) || (c == 0xC && handle <= ref))
    ensures forall i, j :: 0 <= i < j < |tried| ==> tried[i] < tried[j]
  {
    tried := [];
    var c := if group == 330 then 4 else 0;
    while c < 8
      invariant (if group == 330 then 4 else 0) <= c <= 8
      invariant forall x :: x in tried <==>
        x in CODES[..c] && (group == 330 ==> x >= 6) && x != current && Passes(x, handle, ref)
      invariant forall i, j :: 0 <= i < j < |tried| ==> tried[i] < tried[j]
    {
      assert CODES[..c + 1] == CODES[..c] + [CODES[c]];
      assert forall x :: x in CODES[..c] ==> x < CODES[c];
      assert forall i :: 0 <= i < |tried| ==> tried[i] in tried;
      if CODES[c] != current && Passes(CODES[c], handle, ref) {
        tried := tried + [CODES[c]];
      }
      c := c + 1;
    }
    assert CODES[..8] == CODES;
    assert forall x :: x in CODES <==> x in {2, 3, 4, 5, 6, 8, 0xA, 0xC};
  }

  /**
    Reading back a candidate gives the handle, except where ref + 1 or ref - 1
    wraps around 32 bits in the guard but not in the reader.
   */
  lemma CandidateResolves(code: nat, handle: u32, ref: u32)
    requires code in CODES && Passes(code, handle, ref)
    ensures Resolve(Encode(code, handle, ref), ref) == handle
       <==> !(code == 6 && ref == TWO32 - 1) && !(code == 8 && ref == 0)
  {
    if code == 0xA || code == 0xC {
      OffsetResolves(code, handle, ref);
    }
  }

  /** Offsets resolve for every handle, also when the stored difference wraps around. */
  lemma OffsetResolves(code: nat, handle: u64, ref: u32)
    requires code in CODES && code != 6 && code != 8
    ensures Resolve(Encode(code, handle, ref), ref) == handle
  {
    if code == 0xA {
      assert (handle - ref) % TWO64 == if handle >= ref then handle - ref else handle - ref + TWO64;
    } else if code == 0xC {
      assert (ref - handle) % TWO64 == if handle <= ref then ref - handle else ref - handle + TWO64;
    }
  }

  /** A number fits into this many bytes. */
  predicate Holds(size: nat, value: nat) {
    value < Pow256(size)
  }

  /** The size of a candidate is large enough, and one too many exactly at three values. */
  lemma SizeHoldsValue(code: nat, handle: u32, ref: u32)
    requires code in CODES && Passes(code, handle, ref)
    ensures var h := Encode(code, handle, ref);
      && Holds(h.size, h.value)
      && ((exists s: nat :: s < h.size && Holds(s, h.value)) <==> h.value in {0xff, 0xffff, 0xffffff})
  {
    var h := Encode(code, handle, ref);
    Pow256Values();
    if h.value in {0xff, 0xffff, 0xffffff} {
      assert Holds(h.size - 1, h.value);
    }
    forall s: nat | s < h.size && Holds(s, h.value) ensures h.value in {0xff, 0xffff, 0xffffff} {
      assert s == 0 || s == 1 || s == 2 || s == 3;
    }
  }

  /** Some offset candidate always passes, so a handle is never out of the solver's reach. */
  lemma SomeOffsetPasses(handle: u32, ref: u32)
    ensures Passes(0xA, handle, ref) || Passes(0xC, handle, ref)
    ensures Passes(0xA, handle, ref) && Passes(0xC, handle, ref) <==> handle == ref
    ensures Encode(0xA, handle, ref).value < TWO32 <==> Passes(0xA, handle, ref)
    ensures Encode(0xC, handle, ref).value < TWO32 <==> Passes(0xC, handle, ref)
  {
  }
}
