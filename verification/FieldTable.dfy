/** The field solver on an object: all fields of its table, on fresh counters (examples/unknown.c:935-1526). */
module FieldTable {
  import opened Numbers
  import opened FieldSolver
  import opened FieldLoop
  import opened FieldLoopProofs

  /** Group codes that are never searched for (lines 966-983). */
  predicate Skipped(code: int) {
    code == 102 || code == 100 || code >= 1000
  }

  ghost function Zeros(n: nat): (z: seq<u8>)
    ensures |z| == n && forall k :: 0 <= k < n ==> z[k] == 0
  {
    seq(n, _ => 0)
  }

  /** A field of the table: its group code, how often the object has it, and how it is written out at first. */
  datatype Spec = Spec(code: int, num: nat, enc: Encoding)

  /** For each field, the alternates of each visit to SEARCH. */
  type Alternates = nat -> (nat -> seq<Encoding>)

  /** The search for field j, on the counters as the fields before it left them. */
  ghost function SolutionAt(d: Dump, specs: seq<Spec>, alternates: Alternates, j: nat): Solution
    requires j < |specs|
    decreases j, 1
  {
    Solve(d, specs[j].enc, specs[j].num, alternates(j), 0, 0, Marked(Zeros(d.numBits + 1), MarksUpto(d, specs, alternates, j)))
  }

  /** All that the first n fields marked ... */
  ghost function MarksUpto(d: Dump, specs: seq<Spec>, alternates: Alternates, n: nat): seq<Mark>
    requires n <= |specs|
    decreases n, 0
  {
    if n == 0 then []
    else if Skipped(specs[n - 1].code) then MarksUpto(d, specs, alternates, n - 1)
    else
      var s := SolutionAt(d, specs, alternates, n - 1);
      MarksUpto(d, specs, alternates, n - 1) + (s.restarts + s.final)
  }

  /** ... all that was seen of them ... */
  ghost function SeenUpto(d: Dump, specs: seq<Spec>, alternates: Alternates, n: nat): seq<Mark>
    requires n <= |specs|
  {
    if n == 0 then []
    else if Skipped(specs[n - 1].code) then SeenUpto(d, specs, alternates, n - 1)
    else SeenUpto(d, specs, alternates, n - 1) + SeenBy(d, SolutionAt(d, specs, alternates, n - 1))
  }

  /** ... and how many bits they filled. */
  ghost function FilledUpto(d: Dump, specs: seq<Spec>, alternates: Alternates, n: nat): nat
    requires n <= |specs|
  {
    if n == 0 then 0
    else if Skipped(specs[n - 1].code) then FilledUpto(d, specs, alternates, n - 1)
    else
      FilledUpto(d, specs, alternates, n - 1) + FilledBy(d, SolutionAt(d, specs, alternates, n - 1), specs[n - 1].num)
  }

  /** The counters behind the first n fields. */
  ghost predicate CountedUpto(d: Dump, specs: seq<Spec>, alternates: Alternates, n: nat,
                              found: seq<u8>, possible: seq<u8>, filled: nat)
    requires n <= |specs|
  {
    && found == Marked(Zeros(d.numBits + 1), MarksUpto(d, specs, alternates, n))
    && possible == Marked(Zeros(d.numBits + 1), SeenUpto(d, specs, alternates, n))
    && filled == FilledUpto(d, specs, alternates, n)
  }

  lemma CountedFirst(d: Dump, specs: seq<Spec>, alternates: Alternates, found: seq<u8>, possible: seq<u8>)
    requires |found| == |possible| == d.numBits + 1
    requires forall k :: 0 <= k <= d.numBits ==> found[k] == 0 && possible[k] == 0
    ensures CountedUpto(d, specs, alternates, 0, found, possible, 0)
  {
    MarkedNothing(Zeros(d.numBits + 1));
    assert found == Zeros(d.numBits + 1) == possible;
  }

  lemma CountedSkip(d: Dump, specs: seq<Spec>, alternates: Alternates, n: nat, found: seq<u8>, possible: seq<u8>, filled: nat)
    requires n < |specs| && Skipped(specs[n].code) && CountedUpto(d, specs, alternates, n, found, possible, filled)
    ensures CountedUpto(d, specs, alternates, n + 1, found, possible, filled)
  {
  }

  lemma CountedMore(d: Dump, specs: seq<Spec>, alternates: Alternates, n: nat,
                    found: seq<u8>, possible: seq<u8>, filled: nat, found': seq<u8>, possible': seq<u8>, filled': nat,
                    enc: Encoding, pos: seq<int>)
    requires n < |specs| && !Skipped(specs[n].code) && CountedUpto(d, specs, alternates, n, found, possible, filled)
    requires var s := SolutionAt(d, specs, alternates, n);
      Solved(d, s, enc, pos, found, found', possible, possible') && filled' == filled + FilledBy(d, s, specs[n].num)
    ensures CountedUpto(d, specs, alternates, n + 1, found', possible', filled')
  {
    var zeros, s := Zeros(d.numBits + 1), SolutionAt(d, specs, alternates, n);
    MarkedTwice(zeros, MarksUpto(d, specs, alternates, n), s.restarts + s.final);
    MarkedTwice(zeros, SeenUpto(d, specs, alternates, n), SeenBy(d, s));
  }

  lemma SolutionIs(d: Dump, specs: seq<Spec>, alternates: Alternates, n: nat, found: seq<u8>, possible: seq<u8>, filled: nat)
    requires n < |specs| && CountedUpto(d, specs, alternates, n, found, possible, filled)
    ensures SolutionAt(d, specs, alternates, n) == Solve(d, specs[n].enc, specs[n].num, alternates(n), 0, 0, found)
  {
  }

  ghost function SpecOf(g: Field): Spec
    reads g
  {
    Spec(g.code, g.num, g.enc)
  }

  ghost function SpecsOf(fields: seq<Field>): (specs: seq<Spec>)
    reads fields
    ensures |specs| == |fields|
  {
    seq(|fields|, i requires 0 <= i < |fields| reads fields => SpecOf(fields[i]))
  }

  /** The elements of a table. */
  ghost predicate Table(fields: seq<Field>) {
    && (forall g :: g in fields ==> g.Valid())
    && forall i, j :: 0 <= i < j < |fields| ==> fields[i] != fields[j] && fields[i].pos != fields[j].pos
  }

  /** How field j stands at the end. */
  ghost predicate FieldSolved(d: Dump, specs: seq<Spec>, alternates: Alternates, j: nat, enc: Encoding, pos: seq<int>)
    requires j < |specs|
  {
    if specs[j].code in {100, 102} || specs[j].code >= 1000 then enc == specs[j].enc
    else
      var s := SolutionAt(d, specs, alternates, j);
      enc == s.enc && Listed(pos, LastHits(d, s))
  }

  /** One more field: it is passed over, or searched for. */
  method SolveNext(g: Field, d: Dump, cov: Coverage, ghost specs: seq<Spec>, alternates: Alternates, j: nat)
    requires g.Valid() && cov.Valid() && cov.numBits == d.numBits + 1
    requires j < |specs| && SpecOf(g) == specs[j]
    requires CountedUpto(d, specs, alternates, j, cov.found[..], cov.possible[..], cov.numFilled)
    modifies g`enc, g.pos, cov.found, cov.possible, cov`numFilled
    ensures CountedUpto(d, specs, alternates, j + 1, cov.found[..], cov.possible[..], cov.numFilled)
    ensures FieldSolved(d, specs, alternates, j, g.enc, g.pos[..])
  {
    ghost var found, possible, filled := cov.found[..], cov.possible[..], cov.numFilled;
    if Skipped(g.code) {
      CountedSkip(d, specs, alternates, j, found, possible, filled);
    } else {
      SolutionIs(d, specs, alternates, j, found, possible, filled);
      var numFound := SolveField(g, d, cov, alternates(j));
      CountedMore(d, specs, alternates, j, found, possible, filled, cov.found[..], cov.possible[..], cov.numFilled,
        g.enc, g.pos[..]);
    }
  }

  lemma TableAt(fields: seq<Field>, j: nat)
    requires Table(fields) && j < |fields|
    ensures fields[j].Valid() && fields[j] in fields
    ensures forall i :: 0 <= i < |fields| && i != j ==> fields[i] != fields[j] && fields[i].pos != fields[j].pos
  {
  }

  /** The fields before j are solved, the others as they were. */
  ghost predicate SolvedUpto(fields: seq<Field>, d: Dump, specs: seq<Spec>, alternates: Alternates, j: nat)
    requires j <= |fields| == |specs|
    reads fields, set g | g in fields :: g.pos
  {
    && (forall i :: 0 <= i < j ==> FieldSolved(d, specs, alternates, i, fields[i].enc, fields[i].pos[..]))
    && forall i :: j <= i < |fields| ==> SpecOf(fields[i]) == specs[i]
  }

  /**
    The loop over the fields of an object (lines 961-1526), on fresh counters:
    each field is searched for as Solve says, on what the fields before it left;
    `found`, `possible` and `numFilled` add up over all of them.
   */
  method SolveObject(fields: seq<Field>, d: Dump, alternates: Alternates) returns (cov: Coverage)
    requires Table(fields)
    modifies fields, set g | g in fields :: g.pos
    ensures fresh(cov) && cov.Valid() && cov.numBits == d.numBits + 1
    ensures CountedUpto(d, old(SpecsOf(fields)), alternates, |fields|, cov.found[..], cov.possible[..], cov.numFilled)
    ensures forall j :: 0 <= j < |fields| ==>
      FieldSolved(d, old(SpecsOf(fields)), alternates, j, fields[j].enc, fields[j].pos[..])
  {
    hide FieldSolved, CountedUpto, Table;
    ghost var specs := SpecsOf(fields);
    cov := new Coverage(d);
    CountedFirst(d, specs, alternates, cov.found[..], cov.possible[..]);
    var j := 0;
    while j < |fields|
      invariant 0 <= j <= |fields|
      invariant cov.Valid() && cov.numBits == d.numBits + 1 && fresh(cov) && fresh(cov.found) && fresh(cov.possible)
      invariant CountedUpto(d, specs, alternates, j, cov.found[..], cov.possible[..], cov.numFilled)
      invariant SolvedUpto(fields, d, specs, alternates, j)
    {
      TableAt(fields, j);
      SolveNext(fields[j], d, cov, specs, alternates, j);
      j := j + 1;
    }
  }

  /** Mark m is a real occurrence of one of the first n fields, written out in one of its own ways. */
  ghost predicate OfField(d: Dump, specs: seq<Spec>, alternates: Alternates, n: nat, m: Mark)
    requires n <= |specs|
  {
    && Genuine(d, m)
    && exists j :: 0 <= j < n && specs[j].code < 1000 && specs[j].code !in {100, 102} && Own(specs[j].enc, alternates(j), m.enc)
  }

  lemma OfMore(d: Dump, specs: seq<Spec>, alternates: Alternates, n: nat, m: Mark)
    requires n < |specs| && OfField(d, specs, alternates, n, m)
    ensures OfField(d, specs, alternates, n + 1, m)
  {
  }

  lemma OfThis(d: Dump, specs: seq<Spec>, alternates: Alternates, n: nat, m: Mark)
    requires n < |specs| && !Skipped(specs[n].code) && Genuine(d, m) && Own(specs[n].enc, alternates(n), m.enc)
    ensures OfField(d, specs, alternates, n + 1, m)
  {
  }

  /** A mark that the first n - 1 fields have not is one of field n - 1. */
  lemma NewMark(d: Dump, specs: seq<Spec>, alternates: Alternates, n: nat, m: Mark)
    requires 0 < n <= |specs|
    requires m !in MarksUpto(d, specs, alternates, n - 1) && m !in SeenUpto(d, specs, alternates, n - 1)
    requires m in MarksUpto(d, specs, alternates, n) || m in SeenUpto(d, specs, alternates, n)
    ensures !Skipped(specs[n - 1].code)
    ensures var s := SolutionAt(d, specs, alternates, n - 1); m in s.restarts + s.final || m in SeenBy(d, s)
  {
  }

  lemma OwnAt(d: Dump, specs: seq<Spec>, alternates: Alternates, j: nat, m: Mark)
    requires j < |specs|
    requires var s := SolutionAt(d, specs, alternates, j); m in s.restarts + s.final || m in SeenBy(d, s)
    ensures Genuine(d, m) && Own(specs[j].enc, alternates(j), m.enc)
  {
    SolveOwn(d, specs[j].enc, specs[j].num, alternates(j), specs[j].enc, 0, 0,
      Marked(Zeros(d.numBits + 1), MarksUpto(d, specs, alternates, j)));
  }

  lemma NoMark(d: Dump, specs: seq<Spec>, alternates: Alternates, m: Mark)
    ensures m !in MarksUpto(d, specs, alternates, 0) && m !in SeenUpto(d, specs, alternates, 0)
  {
  }

  /** Over the whole run both arrays count nothing but real occurrences of the fields' own values. */
  lemma {:induction false} ObjectMeans(d: Dump, specs: seq<Spec>, alternates: Alternates, n: nat, m: Mark)
    requires n <= |specs|
    requires m in MarksUpto(d, specs, alternates, n) || m in SeenUpto(d, specs, alternates, n)
    ensures OfField(d, specs, alternates, n, m)
    decreases n
  {
    hide *;
    NoMark(d, specs, alternates, m);
    if m in MarksUpto(d, specs, alternates, n - 1) || m in SeenUpto(d, specs, alternates, n - 1) {
      ObjectMeans(d, specs, alternates, n - 1, m);
      OfMore(d, specs, alternates, n - 1, m);
    } else {
      NewMark(d, specs, alternates, n, m);
      OwnAt(d, specs, alternates, n - 1, m);
      OfThis(d, specs, alternates, n - 1, m);
    }
  }

  lemma {:induction false} GenuineUncovered(d: Dump, ms: seq<Mark>, k: int)
    requires (forall m :: m in ms ==> Genuine(d, m)) && k >= d.numBits - 1
    ensures Cover(MarkRanges(ms), k) == 0
    decreases |ms|
  {
    if ms != [] {
      var m := |ms| - 1;
      assert MarkRanges(ms)[..m] == MarkRanges(ms[..m]);
      assert ms[m] in ms && forall x :: x in ms[..m] ==> x in ms;
      GenuineUncovered(d, ms[..m], k);
    }
  }

  /** A counter that has wrapped around shows nothing: it is 0 exactly if its bit was marked a multiple of 256 times. */
  lemma OverlapsExactly(n: nat, ms: seq<Mark>, r: Range, below: int)
    ensures Overlaps(Marked(Zeros(n), ms), r, below)
       <==> exists k :: Covers(r, k) && 0 <= k < n && k < below && Cover(MarkRanges(ms), k) % 256 != 0
  {
    var found := Marked(Zeros(n), ms);
    forall k | 0 <= k < n ensures found[k] != 0 <==> Cover(MarkRanges(ms), k) % 256 != 0 {
      assert found[k] == (Zeros(n)[k] + Cover(MarkRanges(ms), k)) % 256;
    }
    if k :| Covers(r, k) && 0 <= k < n && k < below && Cover(MarkRanges(ms), k) % 256 != 0 {
      assert found[k] != 0;
    }
  }

  lemma {:induction false} CoverOften(m: Mark, n: nat, k: int)
    ensures Cover(MarkRanges(seq(n, _ => m)), k) == if Covers(MarkRange(m), k) then n else 0
    decreases n
  {
    if n > 0 {
      CoverOften(m, n - 1, k);
      assert MarkRanges(seq(n, _ => m))[..n - 1] == MarkRanges(seq(n - 1, _ => m));
    }
  }

  /** Bits marked 256 times are reported to be free. */
  lemma WrapHides(n: nat, m: Mark, below: int)
    ensures !Overlaps(Marked(Zeros(n), seq(256, _ => m)), MarkRange(m), below)
  {
    var ms := seq(256, _ => m);
    OverlapsExactly(n, ms, MarkRange(m), below);
    forall k ensures Cover(MarkRanges(ms), k) % 256 == 0 {
      CoverOften(m, 256, k);
    }
  }

  /** The counters of the last bit of the dump, and the extra one, are never raised. */
  lemma LastBitsUncovered(d: Dump, specs: seq<Spec>, alternates: Alternates, found: seq<u8>, possible: seq<u8>, filled: nat,
                          k: nat)
    requires CountedUpto(d, specs, alternates, |specs|, found, possible, filled)
    requires d.numBits - 1 <= k <= d.numBits
    ensures found[k] == 0 && possible[k] == 0
  {
    forall m | m in MarksUpto(d, specs, alternates, |specs|) || m in SeenUpto(d, specs, alternates, |specs|)
      ensures Genuine(d, m)
    {
      ObjectMeans(d, specs, alternates, |specs|, m);
    }
    GenuineUncovered(d, MarksUpto(d, specs, alternates, |specs|), k);
    GenuineUncovered(d, SeenUpto(d, specs, alternates, |specs|), k);
  }
}
