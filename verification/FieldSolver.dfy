/** The coverage counters of the field solver, and one search (examples/unknown.c:599-742). */
module FieldSolver {
  import opened Numbers
  import opened BitSearch

  /** A field value written out as bits; typ 0 means that no format was chosen. */
  datatype RawEncoding = Encoding(typ: nat, bytes: seq<bv8>, numBits: nat)
  type Encoding = e: RawEncoding | e.numBits <= 8 * |e.bytes| witness Encoding(0, [], 0)

  /** The dumped object: the bits to explain (struct _unknown_dxf). */
  datatype RawDump = Dump(bytes: seq<bv8>, numBits: nat)
  type Dump = d: RawDump | d.numBits <= 8 * |d.bytes| witness Dump([], 0)

  datatype Range = Range(pos: int, len: nat)

  /** A field under search (struct _unknown_field). */
  class Field {
    const code: int        // the group code
    const num: nat         // how many fields of the object have this code and value
    const pos: array<int>  // the first five offsets found
    var enc: Encoding

    ghost predicate Valid() {
      pos.Length == 5
    }

    /** Where entry i of the positions puts the field. */
    function At(i: nat): Range
      requires Valid() && i < 5
      reads this, pos
    {
      Range(pos[i], enc.numBits)
    }

    constructor (code: int, num: nat, enc: Encoding)
      ensures this.code == code && this.num == num && this.enc == enc && pos.Length == 5 && fresh(pos)
    {
      this.code := code;
      this.num := num;
      this.enc := enc;
      pos := new int[5];
    }
  }

  /** The helper companion of a dump (struct _dxf). */
  class Coverage {
    const found: array<u8>
    const possible: array<u8>
    const numBits: nat
    var numFilled: nat

    ghost predicate Valid() {
      found.Length == possible.Length == numBits && found != possible
    }

    /** main allocates one counter more than the dump has bits (lines 935-937). */
    constructor (d: Dump)
      ensures Valid() && numBits == d.numBits + 1 && numFilled == 0 && fresh(found) && fresh(possible)
      ensures forall k :: 0 <= k < numBits ==> found[k] == 0 && possible[k] == 0
    {
      numBits := d.numBits + 1;
      found := new u8[d.numBits + 1](_ => 0);
      possible := new u8[d.numBits + 1](_ => 0);
      numFilled := 0;
    }
  }

  /** What ++ does to an unsigned char. */
  function Inc(x: u8): u8 {
    (x as int + 1) % 256
  }

  // ---- counting how often a bit is covered ---------------------------------

  predicate Covers(r: Range, k: int) {
    r.pos <= k < r.pos + r.len
  }

  /** How many of the ranges cover bit k. */
  function Cover(rs: seq<Range>, k: int): nat {
    if rs == [] then 0
    else Cover(rs[..|rs| - 1], k) + if Covers(rs[|rs| - 1], k) then 1 else 0
  }

  lemma {:induction false} CoverAppend(a: seq<Range>, b: seq<Range>, k: int)
    ensures Cover(a + b, k) == Cover(a, k) + Cover(b, k)
  {
    if b == [] {
      assert a + b == a;
    } else {
      assert (a + b)[..|a + b| - 1] == a + b[..|b| - 1];
      CoverAppend(a, b[..|b| - 1], k);
    }
  }

  /** Counter k of `to` is counter k of `from` plus the ranges covering bit k, modulo 256. */
  ghost predicate Raised(from: seq<u8>, rs: seq<Range>, to: seq<u8>) {
    && |from| == |to|
    && forall k :: 0 <= k < |to| ==> to[k] == (from[k] + Cover(rs, k)) % 256
  }

  lemma WrapTwice(x: nat, a: nat, b: nat)
    ensures ((x + a) % 256 + b) % 256 == (x + (a + b)) % 256
  {
  }

  lemma RaisedAt(a: seq<u8>, rs: seq<Range>, b: seq<u8>, ss: seq<Range>, c: seq<u8>, k: nat)
    requires Raised(a, rs, b) && Raised(b, ss, c) && k < |c|
    ensures c[k] == (a[k] + Cover(rs + ss, k)) % 256
  {
    CoverAppend(rs, ss, k);
    WrapTwice(a[k], Cover(rs, k), Cover(ss, k));
  }

  lemma RaisedTwice(a: seq<u8>, rs: seq<Range>, b: seq<u8>, ss: seq<Range>, c: seq<u8>)
    requires Raised(a, rs, b) && Raised(b, ss, c)
    ensures Raised(a, rs + ss, c)
  {
    forall k | 0 <= k < |c| ensures c[k] == (a[k] + Cover(rs + ss, k)) % 256 {
      RaisedAt(a, rs, b, ss, c, k);
    }
  }

  function RangesOf(ps: seq<nat>, len: nat): (rs: seq<Range>)
    ensures |rs| == |ps|
  {
    seq(|ps|, i requires 0 <= i < |ps| => Range(ps[i], len))
  }

  // ---- raising the counters ------------------------------------------------

  /** set_possible_pos: possible[k]++ for every bit of one occurrence. */
  method SetPossiblePos(cov: Coverage, g: Field, pos: nat)
    requires cov.Valid()
    modifies cov.possible
    ensures if g.enc.numBits + pos > cov.numBits then cov.possible[..] == old(cov.possible[..])
            else Raised(old(cov.possible[..]), [Range(pos, g.enc.numBits)], cov.possible[..])
  {
    if g.enc.numBits + pos > cov.numBits {
      return;
    }
    var k := pos;
    while k < g.enc.numBits + pos
      invariant pos <= k <= g.enc.numBits + pos
      invariant forall j :: 0 <= j < cov.numBits ==>
        cov.possible[j] == if pos <= j < k then Inc(old(cov.possible[j])) else old(cov.possible[j])
    {
      cov.possible[k] := Inc(cov.possible[k]);
      k := k + 1;
    }
  }

  /** Some bit of the range below `below` was found before. */
  ghost predicate Overlaps(found: seq<u8>, r: Range, below: int) {
    exists k :: r.pos <= k < r.pos + r.len && 0 <= k < |found| && k < below && found[k] != 0
  }

  /** set_found (lines 599-620): reports an overlap only at bits below the field's own length. */
  method SetFound(cov: Coverage, g: Field) returns (overlap: bool)
    requires cov.Valid() && g.Valid() && 0 <= g.pos[0]
    modifies cov.found
    ensures var r := g.At(0);
      if r.pos + r.len > cov.numBits then overlap && cov.found[..] == old(cov.found[..])
      else overlap == Overlaps(old(cov.found[..]), r, r.len) && Raised(old(cov.found[..]), [r], cov.found[..])
  {
    overlap := false;
    if g.enc.numBits + g.pos[0] > cov.numBits {
      return true;
    }
    var k := g.pos[0];
    while k < g.enc.numBits + g.pos[0]
      invariant g.pos[0] <= k <= g.enc.numBits + g.pos[0]
      invariant forall j :: 0 <= j < cov.numBits ==>
        cov.found[j] == if g.pos[0] <= j < k then Inc(old(cov.found[j])) else old(cov.found[j])
      invariant overlap <==> exists j :: g.pos[0] <= j < k && j < g.enc.numBits && old(cov.found[..])[j] != 0
    {
      if cov.found[k] != 0 && !overlap && k < g.enc.numBits {
        overlap := true;
      }
      cov.found[k] := Inc(cov.found[k]);
      k := k + 1;
    }
  }

  /** set_found_i (lines 622-643): reports every overlap. */
  method SetFoundI(cov: Coverage, g: Field, i: nat) returns (overlap: bool)
    requires cov.Valid() && g.Valid() && i < 5 && 0 <= g.pos[i]
    modifies cov.found
    ensures var r := g.At(i);
      if r.pos + r.len > cov.numBits then overlap && cov.found[..] == old(cov.found[..])
      else overlap == Overlaps(old(cov.found[..]), r, r.pos + r.len) && Raised(old(cov.found[..]), [r], cov.found[..])
  {
    overlap := false;
    if g.enc.numBits + g.pos[i] > cov.numBits {
      return true;
    }
    var k := g.pos[i];
    while k < g.enc.numBits + g.pos[i]
      invariant g.pos[i] <= k <= g.enc.numBits + g.pos[i]
      invariant forall j :: 0 <= j < cov.numBits ==>
        cov.found[j] == if g.pos[i] <= j < k then Inc(old(cov.found[j])) else old(cov.found[j])
      invariant overlap <==> exists j :: g.pos[i] <= j < k && old(cov.found[..])[j] != 0
    {
      if cov.found[k] != 0 && !overlap {
        overlap := true;
      }
      cov.found[k] := Inc(cov.found[k]);
      k := k + 1;
    }
  }

  /**
    The extra test in set_found, exactly: it reports what set_found_i would
    report on every state of the counters if and only if the field starts at
    bit 0 or is empty.  A field placed past its own length is never reported.
   */
  lemma SetFoundMisses(r: Range, size: nat)
    requires 0 <= r.pos && r.pos + r.len <= size
    ensures (forall found: seq<u8> | |found| == size :: Overlaps(found, r, r.len) == Overlaps(found, r, r.pos + r.len))
       <==> r.pos == 0 || r.len == 0
    ensures r.pos >= r.len ==> forall found: seq<u8> :: !Overlaps(found, r, r.len)
  {
    if r.pos != 0 && r.len != 0 {
      var last := r.pos + r.len - 1;
      var found: seq<u8> := seq(size, k => if k == last then 1 else 0);
      assert found[last] != 0;
      assert Overlaps(found, r, r.pos + r.len) && !Overlaps(found, r, r.len);
    }
  }

  // ---- search_bits ---------------------------------------------------------

  /** The tests of search_bits before it searches (lines 717-722). */
  predicate Accepts(d: Dump, e: Encoding) {
    var dumpSize := d.numBits / 8;
    var size := e.numBits / 8 + if e.numBits % 8 != 0 then 1 else 0;
    && e.typ != 0 && e.numBits != 0 && dumpSize != 0
    && size <= dumpSize + if dumpSize % 8 != 0 then 1 else 0
  }

  function Value(e: Encoding): seq<bool> {
    Prefix(e.bytes, e.numBits)
  }

  /** Where search_bits is to report the field: at every occurrence except one ending on the last bit. */
  function Hits(d: Dump, e: Encoding, from: nat): seq<nat> {
    if Accepts(d, e) then Occurrences(Searched(d.bytes, d.numBits), Value(e), from) else []
  }

  lemma HitsFit(d: Dump, e: Encoding, from: nat, i: nat)
    requires i < |Hits(d, e, from)|
    ensures from <= Hits(d, e, from)[i]
    ensures Hits(d, e, from)[i] + e.numBits < d.numBits
  {
    OccurrencesSound(Searched(d.bytes, d.numBits), Value(e), from, i);
  }

  /** An occurrence, bit by bit. */
  ghost predicate BitsAgree(d: Dump, e: Encoding, p: nat)
    requires p + e.numBits <= d.numBits
  {
    forall i :: 0 <= i < e.numBits ==> Bit(d.bytes, p + i) == Bit(e.bytes, i)
  }

  lemma SameBitThere(d: Dump, e: Encoding, p: nat, i: nat)
    requires p + e.numBits < d.numBits && i < e.numBits
    ensures Searched(d.bytes, d.numBits)[p + i] == Value(e)[i] <==> Bit(d.bytes, p + i) == Bit(e.bytes, i)
  {
    PrefixAt(d.bytes, d.numBits - 1, p + i);
    PrefixAt(e.bytes, e.numBits, i);
    SameBit(Bit(d.bytes, p + i), Bit(e.bytes, i));
  }

  /** The field occurs if and only if all its bits are there. */
  lemma OccursBitwise(d: Dump, e: Encoding, p: nat)
    requires p + e.numBits < d.numBits
    ensures OccursAt(Searched(d.bytes, d.numBits), Value(e), p) <==> BitsAgree(d, e, p)
  {
    var h, n := Searched(d.bytes, d.numBits), Value(e);
    hide Searched, Value, Bit;
    forall i | 0 <= i < e.numBits ensures h[p + i] == n[i] <==> Bit(d.bytes, p + i) == Bit(e.bytes, i) {
      SameBitThere(d, e, p, i);
    }
    SliceIs(h, n, p);
  }

  lemma SliceIs(h: seq<bool>, n: seq<bool>, p: nat)
    requires p + |n| <= |h|
    ensures OccursAt(h, n, p) <==> forall i :: 0 <= i < |n| ==> h[p + i] == n[i]
  {
    var there := h[p..p + |n|];
    assert forall i :: 0 <= i < |n| ==> there[i] == h[p + i];
  }

  /**
    What search_bits finds, exactly: a field with a format and with bits, in a dump
    of a whole byte at least, is found wherever all its bits are and do not reach
    the last one; unless the dump's whole bytes come in a multiple of eight and
    the field is longer than they are.
   */
  lemma HitsExactly(d: Dump, e: Encoding, from: nat, p: nat)
    ensures p in Hits(d, e, from) <==>
      && e.typ != 0 && e.numBits > 0 && d.numBits >= 8 && from <= p
      && p + e.numBits < d.numBits && BitsAgree(d, e, p)
      && !((d.numBits / 8) % 8 == 0 && e.numBits > 8 * (d.numBits / 8))
  {
    hide Occurrences, BitsAgree;
    OccurrencesExact(Searched(d.bytes, d.numBits), Value(e), from);
    if p + e.numBits < d.numBits {
      OccursBitwise(d, e, p);
    }
  }

  /** The first m of the hits are found, and the others are those from here on. */
  ghost predicate HitsLeft(d: Dump, e: Encoding, hits: seq<nat>, m: nat, from: nat) {
    m <= |hits| && hits[m..] == Hits(d, e, from)
  }

  /** One more call of membits finds the next hit, or there is none left. */
  lemma NextHit(d: Dump, e: Encoding, hits: seq<nat>, m: nat, from: nat)
    requires Accepts(d, e) && HitsLeft(d, e, hits, m, from)
    ensures var p := Find(Searched(d.bytes, d.numBits), Value(e), from);
      if p == -1 then m == |hits|
      else m < |hits| && p >= 0 && hits[m] == p && p + e.numBits < d.numBits && HitsLeft(d, e, hits, m + 1, p + 1)
  {
    OneFurther(Searched(d.bytes, d.numBits), Value(e), hits, m, from);
  }

  /** What NextHit says of the search result is true of what membits returns. */
  lemma NextIs(d: Dump, e: Encoding, hits: seq<nat>, m: nat, from: nat, p: int)
    requires Accepts(d, e) && HitsLeft(d, e, hits, m, from)
    requires p == if d.numBits == 0 then -1 else Find(Searched(d.bytes, d.numBits), Prefix(e.bytes, e.numBits), from)
    ensures if p == -1 then m == |hits|
            else m < |hits| && p >= 0 && hits[m] == p && p + e.numBits < d.numBits && HitsLeft(d, e, hits, m + 1, p + 1)
  {
    AcceptsSome(d, e);
    NextHit(d, e, hits, m, from);
  }

  lemma AcceptsSome(d: Dump, e: Encoding)
    requires Accepts(d, e)
    ensures d.numBits > 0
  {
  }

  lemma OneMore(a: seq<u8>, ps: seq<nat>, m: nat, len: nat, b: seq<u8>, c: seq<u8>)
    requires m < |ps| && Raised(a, RangesOf(ps[..m], len), b) && Raised(b, [Range(ps[m], len)], c)
    ensures Raised(a, RangesOf(ps[..m + 1], len), c)
  {
    RaisedTwice(a, RangesOf(ps[..m], len), b, [Range(ps[m], len)], c);
    assert RangesOf(ps[..m + 1], len) == RangesOf(ps[..m], len) + [Range(ps[m], len)];
  }

  /** The first m positions, but no more than there is room for, went into the list of positions. */
  ghost predicate Recorded(from: seq<int>, ps: seq<nat>, m: nat, to: seq<int>) {
    && |from| == |to| && m <= |ps|
    && forall j :: 0 <= j < |to| ==> to[j] == if j < m then ps[j] else from[j]
  }

  /** The first m hits went into the list of positions and into the counters. */
  ghost predicate Counted(pos0: seq<int>, possible0: seq<u8>, hits: seq<nat>, len: nat, m: nat,
                          pos: seq<int>, possible: seq<u8>) {
    Recorded(pos0, hits, m, pos) && Raised(possible0, RangesOf(hits[..m], len), possible)
  }

  lemma CountedNone(pos: seq<int>, possible: seq<u8>, hits: seq<nat>, len: nat)
    ensures Counted(pos, possible, hits, len, 0, pos, possible)
  {
    assert RangesOf(hits[..0], len) == [];
  }

  lemma CountedAll(pos0: seq<int>, possible0: seq<u8>, hits: seq<nat>, len: nat, pos: seq<int>, possible: seq<u8>)
    requires Counted(pos0, possible0, hits, len, |hits|, pos, possible)
    ensures Recorded(pos0, hits, |hits|, pos) && Raised(possible0, RangesOf(hits, len), possible)
  {
    assert hits[..|hits|] == hits;
  }

  /** One hit of search_bits (lines 731-735): remember it if it is among the first five, and count its bits. */
  method KeepHit(g: Field, cov: Coverage, numFound: nat, p: nat, ghost hits: seq<nat>, ghost pos0: seq<int>,
                 ghost possible0: seq<u8>)
    requires g.Valid() && cov.Valid() && p + g.enc.numBits <= cov.numBits
    requires numFound < |hits| && hits[numFound] == p
    requires Counted(pos0, possible0, hits, g.enc.numBits, numFound, g.pos[..], cov.possible[..])
    modifies g.pos, cov.possible
    ensures Counted(pos0, possible0, hits, g.enc.numBits, numFound + 1, g.pos[..], cov.possible[..])
  {
    if numFound < 5 {
      g.pos[numFound] := p;
    }
    ghost var before := cov.possible[..];
    SetPossiblePos(cov, g, p);
    OneMore(possible0, hits, numFound, g.enc.numBits, before, cov.possible[..]);
  }

  /** The loop condition of search_bits (lines 727-730): the next hit, or -1. */
  method NextMatch(d: Dump, e: Encoding, from: nat, ghost hits: seq<nat>, ghost m: nat) returns (p: int)
    requires Accepts(d, e) && HitsLeft(d, e, hits, m, from)
    ensures if p == -1 then m == |hits|
            else m < |hits| && p >= 0 && hits[m] == p && p + e.numBits < d.numBits && HitsLeft(d, e, hits, m + 1, p + 1)
  {
    p := Membits(d.bytes, d.numBits, e.bytes, e.numBits, from);
    NextIs(d, e, hits, m, from, p);
  }

  /** The loop of search_bits (lines 727-739). */
  method EnumerateHits(g: Field, d: Dump, cov: Coverage, offset: nat) returns (numFound: nat)
    requires g.Valid() && cov.Valid() && cov.numBits == d.numBits + 1 && Accepts(d, g.enc)
    modifies g.pos, cov.possible
    ensures numFound == |Hits(d, g.enc, offset)|
    ensures Recorded(old(g.pos[..]), Hits(d, g.enc, offset), numFound, g.pos[..])
    ensures Raised(old(cov.possible[..]), RangesOf(Hits(d, g.enc, offset), g.enc.numBits), cov.possible[..])
  {
    numFound := 0;
    var enc := g.enc;
    ghost var hits, pos0, possible0 := Hits(d, enc, offset), g.pos[..], cov.possible[..];
    var from: nat := offset;
    CountedNone(pos0, possible0, hits, enc.numBits);
    assert hits[0..] == hits;
    while true
      invariant HitsLeft(d, enc, hits, numFound, from)
      invariant Counted(pos0, possible0, hits, enc.numBits, numFound, g.pos[..], cov.possible[..])
      decreases |hits| - numFound
    {
      var p := NextMatch(d, enc, from, hits, numFound);
      if p == -1 {
        CountedAll(pos0, possible0, hits, enc.numBits, g.pos[..], cov.possible[..]);
        return;
      }
      KeepHit(g, cov, numFound, p, hits, pos0, possible0);
      numFound := numFound + 1;
      from := p + 1;
    }
  }

  /**
    search_bits: counts every hit at or after offset, leaves the first five of
    them in pos, and raises possible by the hits covering each bit.  The
    overflow test of set_possible_pos never fires here.
   */
  method SearchBits(g: Field, d: Dump, cov: Coverage, offset: nat) returns (numFound: nat)
    requires g.Valid() && cov.Valid() && cov.numBits == d.numBits + 1
    modifies g.pos, cov.possible
    ensures numFound == |Hits(d, g.enc, offset)|
    ensures Recorded(old(g.pos[..]), Hits(d, g.enc, offset), numFound, g.pos[..])
    ensures Raised(old(cov.possible[..]), RangesOf(Hits(d, g.enc, offset), g.enc.numBits), cov.possible[..])
  {
    var dxfSize := d.numBits / 8;
    if g.enc.typ == 0 || g.enc.numBits == 0 || dxfSize == 0 {
      return 0;
    }
    var size := g.enc.numBits / 8 + if g.enc.numBits % 8 != 0 then 1 else 0;
    dxfSize := dxfSize + if dxfSize % 8 != 0 then 1 else 0;
    if size > dxfSize {
      return 0;
    }
    numFound := EnumerateHits(g, d, cov, offset);
  }

  /**
    The size test, exactly: a field short enough to occur at all is turned away
    if and only if the dump's whole bytes come in a multiple of eight and the
    field is longer than those bytes.  (The round-up looks at the byte count
    where the bit count was meant.)
   */
  lemma SizeTest(d: Dump, e: Encoding)
    requires e.typ != 0 && 0 < e.numBits < d.numBits && d.numBits >= 8
    ensures Accepts(d, e) <==> !((d.numBits / 8) % 8 == 0 && e.numBits > 8 * (d.numBits / 8))
  {
  }

  /** An occurrence that the size test hides: 65 zero bits in 66. */
  lemma SizeTestHides() returns (d: Dump, e: Encoding)
    ensures OccursAt(Searched(d.bytes, d.numBits), Value(e), 0) && Hits(d, e, 0) == []
  {
    var zeros: seq<bv8> := [0, 0, 0, 0, 0, 0, 0, 0, 0];
    d, e := Dump(zeros, 66), Encoding(1, zeros, 65);
    assert Searched(zeros, 66) == Bits(zeros)[..65] == Value(e);
  }
}
