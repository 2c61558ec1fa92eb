/**
  Searching a bit string inside another one at arbitrary bit offsets
  (examples/unknown.c:675-704).

  A byte string denotes the sequence of its bits, most significant bit of each
  byte first.  `Find` is ordinary first-occurrence search on such sequences and
  `Occurrences` is the list of all occurrences, overlapping ones included.  The
  byte-level loops below are proved against these two.
 */
module BitSearch {

  /** Mask one bit of a byte and shift it down. */
  function MaskBit(v: bv8, k: nat): bv8
    requires k < 8
  {
    (v & ((0x80 as bv8) >> k)) >> (7 - k)
  }

  /** The BIT macro. */
  function Bit(b: seq<bv8>, i: nat): bv8
    requires i < 8 * |b|
  {
    MaskBit(b[i / 8], i % 8)
  }

  // ---- what a byte string denotes -----------------------------------------

  /** The bits of one byte: bit i is what is on top after shifting i bits out. */
  function ByteBits(v: bv8): (bits: seq<bool>)
    ensures |bits| == 8
  {
    [v >= 0x80, v << 1 >= 0x80, v << 2 >= 0x80, v << 3 >= 0x80,
     v << 4 >= 0x80, v << 5 >= 0x80, v << 6 >= 0x80, v << 7 >= 0x80]
  }

  function Bits(b: seq<bv8>): (bits: seq<bool>)
    ensures |bits| == 8 * |b|
  {
    if b == [] then [] else ByteBits(b[0]) + Bits(b[1..])
  }

  /** The first n bits of a byte string. */
  function Prefix(b: seq<bv8>, n: nat): (bits: seq<bool>)
    requires n <= 8 * |b|
    ensures |bits| == n
  {
    Bits(b)[..n]
  }

  /** These bits are the byte's binary digits, from the highest one down. */
  lemma ByteValue(v: bv8)
    ensures var w, bits := [128, 64, 32, 16, 8, 4, 2, 1], ByteBits(v);
      v as int == Weight(bits[0], w[0]) + Weight(bits[1], w[1]) + Weight(bits[2], w[2]) + Weight(bits[3], w[3])
                + Weight(bits[4], w[4]) + Weight(bits[5], w[5]) + Weight(bits[6], w[6]) + Weight(bits[7], w[7])
  {
  }

  function Weight(bit: bool, w: nat): nat {
    if bit then w else 0
  }

  lemma ByteBitsAt(v: bv8, i: nat)
    requires i < 8
    ensures ByteBits(v)[i] == (MaskBit(v, i) == 1)
    ensures MaskBit(v, i) <= 1
  {
    if
    case i == 0 => assert (v & 0x80) >> 7 == 1 <==> v >= 0x80;
    case i == 1 => assert (v & 0x40) >> 6 == 1 <==> v << 1 >= 0x80;
    case i == 2 => assert (v & 0x20) >> 5 == 1 <==> v << 2 >= 0x80;
    case i == 3 => assert (v & 0x10) >> 4 == 1 <==> v << 3 >= 0x80;
    case i == 4 => assert (v & 0x08) >> 3 == 1 <==> v << 4 >= 0x80;
    case i == 5 => assert (v & 0x04) >> 2 == 1 <==> v << 5 >= 0x80;
    case i == 6 => assert (v & 0x02) >> 1 == 1 <==> v << 6 >= 0x80;
    case i == 7 => assert (v & 0x01) >> 0 == 1 <==> v << 7 >= 0x80;
  }

  lemma {:induction false} BitsAt(b: seq<bv8>, i: nat, j: nat, k: nat)
    requires j < |b| && k < 8 && i == 8 * j + k
    ensures Bits(b)[i] == ByteBits(b[j])[k]
  {
    if j > 0 {
      BitsAt(b[1..], i - 8, j - 1, k);
    }
  }

  /** The BIT macro reads the denoted sequence. */
  lemma BitDenotes(b: seq<bv8>, i: nat)
    requires i < 8 * |b|
    ensures Bits(b)[i] == (Bit(b, i) == 1)
    ensures Bit(b, i) <= 1
  {
    var j, k := i / 8, i % 8;
    BitsAt(b, i, j, k);
    ByteBitsAt(b[j], k);
  }

  // ---- first occurrence ----------------------------------------------------

  ghost predicate OccursAt(h: seq<bool>, n: seq<bool>, p: int) {
    0 <= p <= |h| - |n| && h[p..p + |n|] == n
  }

  /** Ordinary substring search: the least occurrence at or after from, or -1. */
  function Find(h: seq<bool>, n: seq<bool>, from: nat): (p: int)
    ensures p == -1 || from <= p <= |h| - |n|
    decreases |h| - from
  {
    if from + |n| > |h| then -1
    else if h[from..from + |n|] == n then from
    else Find(h, n, from + 1)
  }

  /** What first occurrence means. */
  lemma {:induction false} FindLeast(h: seq<bool>, n: seq<bool>, from: nat)
    ensures var p := Find(h, n, from);
      && (p != -1 ==> from <= p && OccursAt(h, n, p))
      && forall q :: from <= q && (p == -1 || q < p) ==> !OccursAt(h, n, q)
    decreases |h| - from
  {
    if from + |n| <= |h| && h[from..from + |n|] != n {
      FindLeast(h, n, from + 1);
    }
  }

  /** The first i bits of the needle are there. */
  ghost predicate Agree(h: seq<bool>, n: seq<bool>, pos: nat, i: nat) {
    i <= |n| && pos + i <= |h| && forall j :: pos <= j < pos + i ==> h[j] == n[j - pos]
  }

  /** Comparing bit by bit up to the first difference decides whether to stop here. */
  lemma FindHere(h: seq<bool>, n: seq<bool>, pos: nat, i: nat)
    requires Agree(h, n, pos, i) && pos + |n| <= |h|
    requires i < |n| ==> !Agree(h, n, pos, i + 1)
    ensures Find(h, n, pos) == if i == |n| then pos else Find(h, n, pos + 1)
  {
    if i < |n| {
      assert h[pos..pos + |n|][i] == h[pos + i] != n[i];
    }
  }

  /** The bits membits may match in: it never looks at an occurrence that ends on the last bit. */
  function Searched(big: seq<bv8>, bigsize: nat): seq<bool>
    requires bigsize <= 8 * |big|
  {
    Prefix(big, if bigsize == 0 then 0 else bigsize - 1)
  }

  lemma PrefixAt(b: seq<bv8>, n: nat, i: nat)
    requires i < n <= 8 * |b|
    ensures Prefix(b, n)[i] == (Bit(b, i) == 1) && Bit(b, i) <= 1
  {
    BitDenotes(b, i);
  }

  lemma SameBit(x: bv8, y: bv8)
    requires x <= 1 && y <= 1
    ensures x == y <==> ((x == 1) == (y == 1))
  {
  }

  lemma AgreeStep(h: seq<bool>, n: seq<bool>, pos: nat, i: nat)
    requires Agree(h, n, pos, i) && i < |n| && pos + i < |h|
    ensures h[pos + i] == n[i] <==> Agree(h, n, pos, i + 1)
  {
  }

  lemma NextBit(big: seq<bv8>, bigsize: nat, small: seq<bv8>, smallsize: nat, pos: nat, i: nat)
    requires pos + smallsize < bigsize <= 8 * |big| && i < smallsize <= 8 * |small|
    requires Agree(Searched(big, bigsize), Prefix(small, smallsize), pos, i)
    ensures Bit(big, pos + i) == Bit(small, i)
       <==> Agree(Searched(big, bigsize), Prefix(small, smallsize), pos, i + 1)
  {
    PrefixAt(big, bigsize - 1, pos + i);
    PrefixAt(small, smallsize, i);
    SameBit(Bit(big, pos + i), Bit(small, i));
    AgreeStep(Searched(big, bigsize), Prefix(small, smallsize), pos, i);
  }

  /**
    membits: ordinary search, but in the haystack without its last bit, and
    nothing at all in an empty one.
   */
  method Membits(big: seq<bv8>, bigsize: nat, small: seq<bv8>, smallsize: nat, offset: nat) returns (r: int)
    requires bigsize <= 8 * |big| && smallsize <= 8 * |small|
    ensures r == if bigsize == 0 then -1 else Find(Searched(big, bigsize), Prefix(small, smallsize), offset)
  {
    var pos := offset;
    if smallsize > bigsize {
      return -1;
    }
    ghost var h, n := Searched(big, bigsize), Prefix(small, smallsize);
    while pos + smallsize < bigsize
      invariant bigsize > 0 ==> Find(h, n, offset) == Find(h, n, pos)
      decreases bigsize - pos
    {
      var i := 0;
      while i < smallsize
        invariant 0 <= i <= smallsize
        invariant Agree(h, n, pos, i)
      {
        NextBit(big, bigsize, small, smallsize, pos, i);
        if Bit(big, pos + i) != Bit(small, i) {
          break;
        }
        i := i + 1;
      }
      FindHere(h, n, pos, i);
      if i == smallsize {
        return pos;
      }
      pos := pos + 1;
    }
    return -1;
  }

  /** Leaving out the last bit matters only when the first occurrence ends on it. */
  lemma {:induction false} LastBitLost(h: seq<bool>, n: seq<bool>, from: nat)
    requires h != []
    ensures Find(h[..|h| - 1], n, from) == if Find(h, n, from) == |h| - |n| then -1 else Find(h, n, from)
  {
    var g := h[..|h| - 1];
    forall q ensures OccursAt(g, n, q) <==> OccursAt(h, n, q) && q != |h| - |n| {
      if 0 <= q < |h| - |n| {
        assert g[q..q + |n|] == h[q..q + |n|];
      }
    }
    var p, r := Find(h, n, from), Find(g, n, from);
    FindLeast(h, n, from);
    FindLeast(g, n, from);
    if p == -1 || p == |h| - |n| {
      assert r == -1;
    } else {
      assert OccursAt(g, n, p);
      assert r == p;
    }
  }

  /**
    The strict bound, exactly: what membits computes is textbook search if and
    only if the haystack does not end in the needle, or the needle is there
    before.  Padding the haystack by one bit makes the search textbook search.
   */
  lemma StrictBound(h: seq<bool>, n: seq<bool>, from: nat, pad: bool)
    requires h != []
    ensures Find(h[..|h| - 1], n, from) == Find(h, n, from)
       <==> !(from <= |h| - |n| && n == h[|h| - |n|..] && forall q :: from <= q < |h| - |n| ==> !OccursAt(h, n, q))
    ensures Find((h + [pad])[..|h|], n, from) == Find(h, n, from)
  {
    LastBitLost(h, n, from);
    FindLeast(h, n, from);
    assert (h + [pad])[..|h|] == h;
    if from <= |h| - |n| {
      assert h[|h| - |n|..] == h[|h| - |n|..|h| - |n| + |n|];
      assert OccursAt(h, n, |h| - |n|) <==> n == h[|h| - |n|..];
    }
  }

  // ---- all occurrences -----------------------------------------------------

  /** Every occurrence at or after from, in increasing order, overlapping ones included. */
  function Occurrences(h: seq<bool>, n: seq<bool>, from: nat): seq<nat>
    decreases |h| - from
  {
    if from + |n| > |h| then []
    else if h[from..from + |n|] == n then [from] + Occurrences(h, n, from + 1)
    else Occurrences(h, n, from + 1)
  }

  lemma {:induction false} OccurrencesSound(h: seq<bool>, n: seq<bool>, from: nat, i: nat)
    requires i < |Occurrences(h, n, from)|
    ensures from <= Occurrences(h, n, from)[i] && OccursAt(h, n, Occurrences(h, n, from)[i])
    decreases |h| - from
  {
    var here := h[from..from + |n|] == n;
    if !here || i > 0 {
      OccurrencesSound(h, n, from + 1, if here then i - 1 else i);
    }
  }

  lemma {:induction false} OccurrencesComplete(h: seq<bool>, n: seq<bool>, from: nat, p: nat)
    requires from <= p && OccursAt(h, n, p)
    ensures p in Occurrences(h, n, from)
    decreases |h| - from
  {
    if from < p {
      OccurrencesComplete(h, n, from + 1, p);
    }
  }

  lemma {:induction false} OccurrencesSorted(h: seq<bool>, n: seq<bool>, from: nat, i: nat, j: nat)
    requires i < j < |Occurrences(h, n, from)|
    ensures Occurrences(h, n, from)[i] < Occurrences(h, n, from)[j]
    decreases |h| - from
  {
    if h[from..from + |n|] != n {
      OccurrencesSorted(h, n, from + 1, i, j);
    } else if i > 0 {
      OccurrencesSorted(h, n, from + 1, i - 1, j - 1);
    } else {
      OccurrencesSound(h, n, from + 1, j - 1);
    }
  }

  /** Nothing missing, nothing invented, nothing twice. */
  lemma OccurrencesExact(h: seq<bool>, n: seq<bool>, from: nat)
    ensures forall p: nat :: p in Occurrences(h, n, from) <==> from <= p && OccursAt(h, n, p)
    ensures forall i, j :: 0 <= i < j < |Occurrences(h, n, from)| ==>
      Occurrences(h, n, from)[i] < Occurrences(h, n, from)[j]
  {
    var ps := Occurrences(h, n, from);
    forall p: nat ensures p in ps <==> from <= p && OccursAt(h, n, p) {
      if p in ps {
        var i :| 0 <= i < |ps| && ps[i] == p;
        OccurrencesSound(h, n, from, i);
      } else if from <= p && OccursAt(h, n, p) {
        OccurrencesComplete(h, n, from, p);
      }
    }
    forall i, j | 0 <= i < j < |ps| ensures ps[i] < ps[j] {
      OccurrencesSorted(h, n, from, i, j);
    }
  }

  /** The list is what repeated first-occurrence search produces. */
  lemma {:induction false} NextOccurrence(h: seq<bool>, n: seq<bool>, from: nat)
    ensures var p := Find(h, n, from);
      Occurrences(h, n, from) == if p == -1 then [] else [p] + Occurrences(h, n, p + 1)
    decreases |h| - from
  {
    if from + |n| <= |h| {
      if h[from..from + |n|] != n {
        NextOccurrence(h, n, from + 1);
        assert Find(h, n, from) == Find(h, n, from + 1);
        assert Occurrences(h, n, from) == Occurrences(h, n, from + 1);
      } else {
        assert Find(h, n, from) == from;
      }
    }
  }

  /** With the first m of all occurrences found, the next search finds the next one, or there is none left. */
  lemma OneFurther(h: seq<bool>, n: seq<bool>, all: seq<nat>, m: nat, from: nat)
    requires m <= |all| && all[m..] == Occurrences(h, n, from)
    ensures var p := Find(h, n, from);
      if p == -1 then m == |all|
      else m < |all| && all[m] == p && p + |n| <= |h| && all[m + 1..] == Occurrences(h, n, p + 1)
  {
    NextOccurrence(h, n, from);
    if Find(h, n, from) != -1 {
      assert all[m] == all[m..][0] && all[m + 1..] == all[m..][1..];
    }
  }
}
