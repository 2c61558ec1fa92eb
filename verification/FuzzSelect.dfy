/**
  Choosing what the fuzzer writes (examples/llvmfuzz.c:41-109): an FNV-1a hash
  (section 2 of draft-eastlake-fnv) of the first 4096 bytes of the input.
 */
module FuzzSelect {
  import opened Numbers

  const BASIS: u32 := 2166136261
  const LIMIT := 4096

  function Pow2(n: nat): (p: nat)
    ensures p > 0
  {
    if n == 0 then 1 else 2 * Pow2(n - 1)
  }

  lemma Twice(p: nat, q: nat)
    ensures (2 * p) * q == 2 * (p * q)
  {
  }

  lemma {:induction false} Pow2Add(a: nat, b: nat)
    ensures Pow2(a + b) == Pow2(a) * Pow2(b)
    decreases a
  {
    if a > 0 {
      Pow2Add(a - 1, b);
      Twice(Pow2(a - 1), Pow2(b));
    }
  }

  lemma Pow32()
    ensures Pow2(32) == 0x1_0000_0000
  {
    assert Pow2(1) == 2 && Pow2(2) == 4;
    Pow2Add(2, 2);
    Pow2Add(4, 4);
    Pow2Add(8, 8);
    Pow2Add(16, 16);
  }

  /** Exclusive or of the n low bits. */
  function Xor(a: nat, b: nat, n: nat): (x: nat)
    ensures x < Pow2(n)
  {
    if n == 0 then 0 else (if a % 2 == b % 2 then 0 else 1) + 2 * Xor(a / 2, b / 2, n - 1)
  }

  /** Bit k of a number. */
  predicate BitOf(x: nat, k: nat) {
    if k == 0 then x % 2 == 1 else BitOf(x / 2, k - 1)
  }

  /** Each bit of the result is set if and only if it is in exactly one of the two numbers. */
  lemma {:induction false} XorBits(a: nat, b: nat, n: nat, k: nat)
    requires k < n
    ensures BitOf(Xor(a, b, n), k) <==> BitOf(a, k) != BitOf(b, k)
    decreases k
  {
    var x := Xor(a, b, n);
    assert x / 2 == Xor(a / 2, b / 2, n - 1);
    if k > 0 {
      XorBits(a / 2, b / 2, n - 1, k - 1);
    }
  }

  function XorByte(h: u32, d: u8): u32 {
    Pow32();
    Xor(h, d, 32)
  }

  function TimesPrime(h: u32): u32 {
    h * 16777619 % 0x1_0000_0000
  }

  /** One byte of FNV-1a. */
  function Mix(h: u32, d: u8): u32 {
    TimesPrime(XorByte(h, d))
  }

  /** FNV-1a from state h on. */
  function Hash(h: u32, data: seq<u8>): u32
    decreases |data|
  {
    if data == [] then h else Hash(Mix(h, data[0]), data[1..])
  }

  /** What is hashed of an input. */
  function Hashed(data: seq<u8>): seq<u8> {
    if |data| > LIMIT then data[..LIMIT] else data
  }

  /** Going back one byte, and all bytes. */
  function OverPrime(h: u32): u32 {
    h * 899433627 % 0x1_0000_0000
  }

  function Unmix(h: u32, d: u8): u32 {
    XorByte(OverPrime(h), d)
  }

  function Unhash(h: u32, data: seq<u8>): u32 {
    if data == [] then h else Unmix(Unhash(h, data[1..]), data[0])
  }

  /** The globals out and ver. */
  class Selection {
    var out: int
    var ver: int

    constructor ()
      ensures out == 0 && ver == 0
    {
      out, ver := 0, 0;
    }

    /** The prologue of LLVMFuzzerTestOneInput; outputs is LLVMFUZZ_NUM_OUTPUTS. */
    method Select(data: seq<u8>, outputs: nat) returns (h: u32)
      requires outputs in {1, 3, 5}
      modifies this
      ensures h == Hash(BASIS, Hashed(data))
      ensures if data == [] then out == ver == 0
              else out == h % outputs && ver == h / 256 % 20
      ensures 0 <= out < outputs && 0 <= ver < 20
    {
      out, ver := 0, 0;
      h := BASIS;
      if |data| != 0 {
        var n := if |data| > LIMIT then LIMIT else |data|;
        var i := 0;
        while i < n
          invariant 0 <= i <= n
          invariant Hash(h, data[i..n]) == Hash(BASIS, data[..n])
        {
          assert data[i..n][1..] == data[i + 1..n];
          h := Mix(h, data[i]);
          i := i + 1;
        }
        assert data[..n] == Hashed(data);
        out := h % outputs;
        ver := h / 256 % 20;
      }
    }
  }

  /** A remainder is settled by any quotient that fits. */
  lemma RemainderIs(x: int, k: int, h: u32)
    requires x == h + 0x1_0000_0000 * k
    ensures x % 0x1_0000_0000 == h
  {
  }

  /** The two factors are inverse to each other modulo 2 to the 32nd. */
  lemma PrimeBack(h: u32)
    ensures OverPrime(TimesPrime(h)) == h
  {
    var q, r := h * 16777619 / 0x1_0000_0000, TimesPrime(h);
    assert h * 16777619 == 0x1_0000_0000 * q + r;
    RemainderIs(r * 899433627, 3513497 * h - q * 899433627, h);
  }

  lemma PrimeForth(h: u32)
    ensures TimesPrime(OverPrime(h)) == h
  {
    var q, r := h * 899433627 / 0x1_0000_0000, OverPrime(h);
    assert h * 899433627 == 0x1_0000_0000 * q + r;
    RemainderIs(r * 16777619, 3513497 * h - q * 16777619, h);
  }

  lemma {:induction false} XorTwice(a: nat, b: nat, n: nat)
    requires a < Pow2(n)
    ensures Xor(Xor(a, b, n), b, n) == a
  {
    if n > 0 {
      XorTwice(a / 2, b / 2, n - 1);
      var x := Xor(a, b, n);
      assert x / 2 == Xor(a / 2, b / 2, n - 1);
    }
  }

  lemma {:induction false} XorTells(a: nat, b: nat, c: nat, n: nat)
    requires b < Pow2(n) && c < Pow2(n) && Xor(a, b, n) == Xor(a, c, n)
    ensures b == c
  {
    if n > 0 {
      assert Xor(a, b, n) / 2 == Xor(a / 2, b / 2, n - 1) && Xor(a, c, n) / 2 == Xor(a / 2, c / 2, n - 1);
      XorTells(a / 2, b / 2, c / 2, n - 1);
    }
  }

  /** Each byte permutes the states ... */
  lemma MixBack(h: u32, d: u8)
    ensures Unmix(Mix(h, d), d) == h && Mix(Unmix(h, d), d) == h
  {
    Pow32();
    PrimeBack(XorByte(h, d));
    PrimeForth(h);
    XorTwice(h, d, 32);
    XorTwice(OverPrime(h), d, 32);
  }

  /** ... and what a byte does to a state tells the byte. */
  lemma MixTells(h: u32, d: u8, e: u8)
    requires Mix(h, d) == Mix(h, e)
    ensures d == e
  {
    PrimeBack(XorByte(h, d));
    PrimeBack(XorByte(h, e));
    Pow32();
    XorTells(h, d, e, 32);
  }

  /** Hashing any input permutes the states. */
  lemma {:induction false} HashBack(h: u32, data: seq<u8>)
    ensures Unhash(Hash(h, data), data) == h && Hash(Unhash(h, data), data) == h
    decreases |data|
  {
    if data != [] {
      HashBack(Mix(h, data[0]), data[1..]);
      HashBack(h, data[1..]);
      MixBack(h, data[0]);
      MixBack(Unhash(h, data[1..]), data[0]);
    }
  }

  lemma {:induction false} HashAppend(h: u32, a: seq<u8>, b: seq<u8>)
    ensures Hash(h, a + b) == Hash(Hash(h, a), b)
    decreases |a|
  {
    if a == [] {
      assert a + b == b;
    } else {
      assert (a + b)[1..] == a[1..] + b;
      HashAppend(Mix(h, a[0]), a[1..], b);
    }
  }

  /** Inputs that differ in exactly one of the bytes that are looked at never share a hash. */
  lemma OneByteMatters(data: seq<u8>, other: seq<u8>, i: nat)
    requires |data| == |other| && i < |data| && i < 4096
    requires data[i] != other[i] && forall k :: 0 <= k < |data| && k != i ==> data[k] == other[k]
    ensures Hash(BASIS, Hashed(data)) != Hash(BASIS, Hashed(other))
  {
    var a, b := Hashed(data), Hashed(other);
    var pre, post := a[..i], a[i + 1..];
    assert a == pre + ([a[i]] + post) && b == pre + ([b[i]] + post);
    var h := Hash(BASIS, pre);
    HashAppend(BASIS, pre, [a[i]] + post);
    HashAppend(BASIS, pre, [b[i]] + post);
    assert ([a[i]] + post)[1..] == post && ([b[i]] + post)[1..] == post;
    HashBack(Mix(h, a[i]), post);
    HashBack(Mix(h, b[i]), post);
    if Mix(h, a[i]) == Mix(h, b[i]) {
      MixTells(h, a[i], b[i]);
    }
  }

  /** Bytes past the limit never matter. */
  lemma RestIgnored(data: seq<u8>, more: seq<u8>, other: seq<u8>)
    requires |data| == 4096
    ensures Hashed(data + more) == Hashed(data + other) == data
  {
  }

  lemma {:induction false} XorNothing(a: nat, n: nat)
    requires a < Pow2(n)
    ensures Xor(a, 0, n) == a
  {
    if n > 0 {
      XorNothing(a / 2, n - 1);
    }
  }

  function Differs(a: nat, b: nat): nat {
    if a % 2 == b % 2 then 0 else 1
  }

  lemma XorOne(a: nat, b: nat, n: nat)
    ensures Xor(a, b, n + 1) == Differs(a, b) + 2 * Xor(a / 2, b / 2, n)
  {
  }

  lemma XorFour(a: nat, b: nat, n: nat)
    ensures Xor(a, b, n + 4)
         == Differs(a, b) + 2 * Differs(a / 2, b / 2) + 4 * Differs(a / 4, b / 4) + 8 * Differs(a / 8, b / 8)
            + 16 * Xor(a / 16, b / 16, n)
  {
    hide Xor;
    XorOne(a, b, n + 3);
    XorOne(a / 2, b / 2, n + 2);
    XorOne(a / 4, b / 4, n + 1);
    XorOne(a / 8, b / 8, n);
    assert a / 2 / 2 == a / 4 && a / 4 / 2 == a / 8 && a / 8 / 2 == a / 16;
    assert b / 2 / 2 == b / 4 && b / 4 / 2 == b / 8 && b / 8 / 2 == b / 16;
  }

  /** The low byte written out bit by bit; the others stay. */
  lemma XorByteIs(h: u32, d: u8)
    ensures XorByte(h, d)
         == Differs(h, d) + 2 * Differs(h / 2, d / 2) + 4 * Differs(h / 4, d / 4) + 8 * Differs(h / 8, d / 8)
            + 16 * Differs(h / 16, d / 16) + 32 * Differs(h / 32, d / 32) + 64 * Differs(h / 64, d / 64)
            + 128 * Differs(h / 128, d / 128) + 256 * (h / 256)
  {
    Pow32();
    Pow24();
    hide Xor, Pow2, Differs;
    XorFour(h, d, 28);
    XorFour(h / 16, d / 16, 24);
    assert h / 16 / 2 == h / 32 && h / 16 / 4 == h / 64 && h / 16 / 8 == h / 128 && h / 16 / 16 == h / 256;
    assert d / 16 / 2 == d / 32 && d / 16 / 4 == d / 64 && d / 16 / 8 == d / 128 && d / 16 / 16 == 0;
    XorNothing(h / 256, 24);
  }

  lemma Pow24()
    ensures Pow2(24) == 0x100_0000
  {
    assert Pow2(1) == 2 && Pow2(2) == 4;
    Pow2Add(2, 2);
    Pow2Add(4, 4);
    Pow2Add(8, 8);
    Pow2Add(16, 8);
  }

  lemma HashMore(h: u32, d: u8, rest: seq<u8>)
    ensures Hash(h, [d] + rest) == Hash(Mix(h, d), rest)
  {
    assert ([d] + rest)[1..] == rest;
  }

  /** A step with its numbers. */
  lemma MixIs(h: u32, d: u8, x: u32, next: u32)
    requires x == Differs(h, d) + 2 * Differs(h / 2, d / 2) + 4 * Differs(h / 4, d / 4) + 8 * Differs(h / 8, d / 8)
                  + 16 * Differs(h / 16, d / 16) + 32 * Differs(h / 32, d / 32) + 64 * Differs(h / 64, d / 64)
                  + 128 * Differs(h / 128, d / 128) + 256 * (h / 256)
    requires x * 16777619 % 0x1_0000_0000 == next
    ensures forall rest :: Hash(h, [d] + rest) == Hash(next, rest)
  {
    hide Differs;
    XorByteIs(h, d);
    forall rest ensures Hash(h, [d] + rest) == Hash(next, rest) {
      HashMore(h, d, rest);
    }
  }

  lemma HashNothing()
    ensures forall h :: Hash(h, []) == h
  {
  }

  /** The values that the FNV draft lists for the empty input and for "a". */
  lemma DraftValues()
    ensures Hash(BASIS, []) == 0x811c9dc5
    ensures Hash(BASIS, [0x61]) == 0xe40c292c
  {
    hide Mix, Hash;
    HashNothing();
    MixIs(0x811c9dc5, 0x61, 0x811c9da4, 0xe40c292c);
    assert [0x61] == [0x61] + [];
  }
}
