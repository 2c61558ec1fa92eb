/** What the search for a field means: its restarts one by one, its end, and that all marks are real. */
module FieldLoopProofs {
  import opened Numbers
  import BitSearch
  import opened FieldSolver
  import opened FieldLoop

  /** How the field was written out, and where the search began, in front of visit k. */
  function EncodingBefore(enc: Encoding, restarts: seq<Mark>, k: nat): Encoding
    requires k <= |restarts|
  {
    if k == 0 then enc else restarts[k - 1].enc
  }

  function OffsetBefore(offset: nat, restarts: seq<Mark>, k: nat): int
    requires k <= |restarts|
  {
    if k == 0 then offset else restarts[k - 1].pos + 1
  }

  /**
    Restart k: the encoding is the first one that hits, of the one before it and
    the alternates of this visit; it hits once from here on, and that hit is
    reported as an overlap on the counters as the earlier restarts left them.
   */
  ghost predicate RestartAt(d: Dump, enc: Encoding, alternates: nat -> seq<Encoding>, visit: nat, offset: nat,
                            found: seq<u8>, restarts: seq<Mark>, k: nat)
    requires k < |restarts|
  {
    var m, from := restarts[k], OffsetBefore(offset, restarts, k);
    && 0 <= from <= m.pos < d.numBits
    && m.enc == Pick(d, [EncodingBefore(enc, restarts, k)] + alternates(visit + k), from)
    && Hits(d, m.enc, from) == [m.pos]
    && Overlaps(Marked(found, restarts[..k]), MarkRange(m), m.enc.numBits)
  }

  /**
    What a search finally marks of these hits: the only one; or the first five, if
    there are as many as equal fields, and no less than two; or else nothing.
   */
  ghost predicate MarksOf(hits: seq<nat>, num: nat, enc: Encoding, final: seq<Mark>) {
    && (|hits| == 1 ==> final == [Mark(hits[0], enc)])
    && (2 <= |hits| == num ==>
      && |final| == (if num <= 5 then num else 5)
      && forall i :: 0 <= i < |final| ==> final[i] == Mark(hits[i], enc))
    && (|hits| != 1 && !(2 <= |hits| == num) ==> final == [])
  }

  /** A field counts as filled where it is settled: no equal field can claim its only hit, or there is a hit for each. */
  lemma FillsWhenSettled(d: Dump, s: Solution, num: nat)
    ensures var n := |LastHits(d, s)|;
      FilledBy(d, s, num) == if (n == 1 && num <= 1) || 2 <= n == num then s.enc.numBits else 0
  {
  }

  /** The last visit likewise, except that the hit, if it is the only one, is not reported. */
  ghost predicate EndsWith(d: Dump, enc: Encoding, num: nat, alternates: nat -> seq<Encoding>, visit: nat, offset: nat,
                           found: seq<u8>, s: Solution)
  {
    var n, hits := |s.restarts|, LastHits(d, s);
    && s.offset == OffsetBefore(offset, s.restarts, n)
    && s.enc == Pick(d, [EncodingBefore(enc, s.restarts, n)] + alternates(visit + n), s.offset)
    && MarksOf(hits, num, s.enc, s.final)
    && (|hits| == 1 ==> !Overlaps(Marked(found, s.restarts), Range(hits[0], s.enc.numBits), s.enc.numBits))
  }

  lemma RestartFirst(d: Dump, enc: Encoding, alternates: nat -> seq<Encoding>, visit: nat, offset: nat,
                     found: seq<u8>, m: Mark, more: seq<Mark>)
    requires var e := Pick(d, [enc] + alternates(visit), offset);
      Restarts(d, e, offset, found) && m == RestartMark(d, e, offset, found)
    ensures RestartAt(d, enc, alternates, visit, offset, found, [m] + more, 0)
  {
    assert ([m] + more)[..0] == [];
    MarkedNothing(found);
    assert m == MarksAt(Hits(d, m.enc, offset), m.enc)[0];
  }

  lemma RestartLater(d: Dump, enc: Encoding, alternates: nat -> seq<Encoding>, visit: nat, offset: nat,
                     found: seq<u8>, m: Mark, more: seq<Mark>, k: nat)
    requires k < |more| && m.pos >= 0
    requires RestartAt(d, m.enc, alternates, visit + 1, m.pos + 1, Marked(found, [m]), more, k)
    ensures RestartAt(d, enc, alternates, visit, offset, found, [m] + more, k + 1)
  {
    var all := [m] + more;
    assert all[..k + 1] == [m] + more[..k];
    MarkedTwice(found, [m], more[..k]);
    assert OffsetBefore(offset, all, k + 1) == OffsetBefore(m.pos + 1, more, k);
    assert EncodingBefore(enc, all, k + 1) == EncodingBefore(m.enc, more, k);
    assert visit + (k + 1) == visit + 1 + k;
  }

  lemma NoRestarts(d: Dump, e: Encoding, num: nat, offset: nat)
    ensures LastVisit(d, e, num, offset).restarts == []
  {
  }

  lemma RestartsOf(m: Mark, s: Solution)
    ensures Before(m, s).restarts == [m] + s.restarts
  {
  }

  lemma {:induction false} SolveRestarts(d: Dump, enc: Encoding, num: nat, alternates: nat -> seq<Encoding>, visit: nat,
                                         offset: nat, found: seq<u8>, k: nat)
    requires k < |Solve(d, enc, num, alternates, visit, offset, found).restarts|
    ensures RestartAt(d, enc, alternates, visit, offset, found,
              Solve(d, enc, num, alternates, visit, offset, found).restarts, k)
    decreases d.numBits - offset
  {
    hide *;
    var e := Pick(d, [enc] + alternates(visit), offset);
    SolveIs(d, enc, num, alternates, visit, offset, found, e);
    NoRestarts(d, e, num, offset);
    var m := RestartMark(d, e, offset, found);
    var next := Solve(d, e, num, alternates, visit + 1, m.pos + 1, Marked(found, [m]));
    RestartsOf(m, next);
    MarkIsPicked(d, e, offset, found);
    if k == 0 {
      RestartFirst(d, enc, alternates, visit, offset, found, m, next.restarts);
    } else {
      SolveRestarts(d, e, num, alternates, visit + 1, m.pos + 1, Marked(found, [m]), k - 1);
      RestartLater(d, enc, alternates, visit, offset, found, m, next.restarts, k - 1);
    }
  }

  lemma EndsLater(d: Dump, enc: Encoding, num: nat, alternates: nat -> seq<Encoding>, visit: nat, offset: nat,
                  found: seq<u8>, m: Mark, s: Solution)
    requires m.pos >= 0 && EndsWith(d, m.enc, num, alternates, visit + 1, m.pos + 1, Marked(found, [m]), s)
    ensures EndsWith(d, enc, num, alternates, visit, offset, found, Before(m, s))
  {
    var all, n := [m] + s.restarts, |s.restarts|;
    MarkedTwice(found, [m], s.restarts);
    assert OffsetBefore(offset, all, n + 1) == OffsetBefore(m.pos + 1, s.restarts, n);
    assert EncodingBefore(enc, all, n + 1) == EncodingBefore(m.enc, s.restarts, n);
    assert visit + (n + 1) == visit + 1 + n;
  }

  lemma EndsNow(d: Dump, enc: Encoding, num: nat, alternates: nat -> seq<Encoding>, visit: nat, offset: nat,
                found: seq<u8>, e: Encoding)
    requires e == Pick(d, [enc] + alternates(visit), offset) && !Restarts(d, e, offset, found)
    ensures EndsWith(d, enc, num, alternates, visit, offset, found, LastVisit(d, e, num, offset))
  {
    MarkedNothing(found);
  }

  lemma {:induction false} SolveEnds(d: Dump, enc: Encoding, num: nat, alternates: nat -> seq<Encoding>, visit: nat,
                                     offset: nat, found: seq<u8>)
    ensures var s := Solve(d, enc, num, alternates, visit, offset, found);
      var n := |LastHits(d, s)|;
      && EndsWith(d, enc, num, alternates, visit, offset, found, s)
      && FilledBy(d, s, num) == if (n == 1 && num <= 1) || 2 <= n == num then s.enc.numBits else 0
    decreases d.numBits - offset
  {
    hide *;
    var e := Pick(d, [enc] + alternates(visit), offset);
    SolveIs(d, enc, num, alternates, visit, offset, found, e);
    FillsWhenSettled(d, Solve(d, enc, num, alternates, visit, offset, found), num);
    if Restarts(d, e, offset, found) {
      var m := RestartMark(d, e, offset, found);
      var next := Solve(d, e, num, alternates, visit + 1, m.pos + 1, Marked(found, [m]));
      MarkIsPicked(d, e, offset, found);
      SolveEnds(d, e, num, alternates, visit + 1, m.pos + 1, Marked(found, [m]));
      EndsLater(d, enc, num, alternates, visit, offset, found, m, next);
    } else {
      EndsNow(d, enc, num, alternates, visit, offset, found, e);
    }
  }

  lemma MarkIsPicked(d: Dump, e: Encoding, offset: nat, found: seq<u8>)
    requires Restarts(d, e, offset, found)
    ensures RestartMark(d, e, offset, found).enc == e
    ensures RestartMark(d, e, offset, found) in MarksAt(Hits(d, e, offset), e)
  {
    var marks := MarksAt(Hits(d, e, offset), e);
    assert marks[0] == RestartMark(d, e, offset, found);
  }

  lemma BeforeMore(m: Mark, s: Solution)
    ensures |Before(m, s).restarts| == |s.restarts| + 1 && Before(m, s).offset == s.offset
  {
  }

  /** Restarts move strictly to the right, so there are no more of them than the dump has bits. */
  lemma {:induction false} SolveMovesRight(d: Dump, enc: Encoding, num: nat, alternates: nat -> seq<Encoding>, visit: nat,
                                           offset: nat, found: seq<u8>)
    requires offset <= d.numBits
    ensures var s := Solve(d, enc, num, alternates, visit, offset, found);
      offset + |s.restarts| <= s.offset <= d.numBits
    decreases d.numBits - offset
  {
    hide *;
    var e := Pick(d, [enc] + alternates(visit), offset);
    SolveIs(d, enc, num, alternates, visit, offset, found, e);
    if Restarts(d, e, offset, found) {
      var m := RestartMark(d, e, offset, found);
      SolveMovesRight(d, e, num, alternates, visit + 1, m.pos + 1, Marked(found, [m]));
      BeforeMore(m, Solve(d, e, num, alternates, visit + 1, m.pos + 1, Marked(found, [m])));
    } else {
      LastVisitHere(d, e, num, offset);
    }
  }

  lemma LastVisitHere(d: Dump, e: Encoding, num: nat, offset: nat)
    ensures LastVisit(d, e, num, offset).restarts == [] && LastVisit(d, e, num, offset).offset == offset
  {
  }

  // ---- real occurrences of the field's own values --------------------------

  /** The field really is in the dump where the mark says. */
  ghost predicate Genuine(d: Dump, m: Mark) {
    m.pos + m.enc.numBits < d.numBits && BitSearch.OccursAt(BitSearch.Searched(d.bytes, d.numBits), Value(m.enc), m.pos)
  }

  /** One of the ways to write the field out. */
  ghost predicate Own(enc: Encoding, alternates: nat -> seq<Encoding>, e: Encoding) {
    e == enc || exists v: nat :: e in alternates(v)
  }

  /** Real occurrences of the field, written out in one of its ways. */
  ghost predicate AllOwn(d: Dump, enc: Encoding, alternates: nat -> seq<Encoding>, ms: seq<Mark>) {
    forall m :: m in ms ==> Genuine(d, m) && Own(enc, alternates, m.enc)
  }

  lemma HitsOwn(d: Dump, enc: Encoding, alternates: nat -> seq<Encoding>, e: Encoding, from: nat)
    requires Own(enc, alternates, e)
    ensures AllOwn(d, enc, alternates, MarksAt(Hits(d, e, from), e))
  {
    var hs := Hits(d, e, from);
    forall i | 0 <= i < |hs| ensures Genuine(d, MarksAt(hs, e)[i]) {
      HitsFit(d, e, from, i);
      BitSearch.OccurrencesSound(BitSearch.Searched(d.bytes, d.numBits), Value(e), from, i);
    }
  }

  lemma PickOwn(d: Dump, enc: Encoding, alternates: nat -> seq<Encoding>, e: Encoding, visit: nat, from: nat)
    requires Own(enc, alternates, e)
    ensures Own(enc, alternates, Pick(d, [e] + alternates(visit), from))
  {
    var i := PickMeans(d, [e] + alternates(visit), from);
    if i > 0 {
      assert ([e] + alternates(visit))[i] == alternates(visit)[i - 1];
    }
  }

  /** What a solution marked and saw. */
  ghost predicate SolutionOwn(d: Dump, enc: Encoding, alternates: nat -> seq<Encoding>, s: Solution) {
    AllOwn(d, enc, alternates, s.restarts + s.final) && AllOwn(d, enc, alternates, SeenBy(d, s))
  }

  lemma LastOwn(d: Dump, enc: Encoding, num: nat, alternates: nat -> seq<Encoding>, e: Encoding, offset: nat)
    requires Own(enc, alternates, e)
    ensures SolutionOwn(d, enc, alternates, LastVisit(d, e, num, offset))
  {
    HitsOwn(d, enc, alternates, e, offset);
  }

  lemma BeforeOwn(d: Dump, enc: Encoding, alternates: nat -> seq<Encoding>, m: Mark, s: Solution)
    requires Genuine(d, m) && Own(enc, alternates, m.enc) && SolutionOwn(d, enc, alternates, s)
    ensures SolutionOwn(d, enc, alternates, Before(m, s))
  {
    var t := Before(m, s);
    assert t.restarts + t.final == [m] + (s.restarts + s.final);
    assert SeenBy(d, t) == [m] + SeenBy(d, s);
  }

  lemma RestartOwn(d: Dump, enc: Encoding, alternates: nat -> seq<Encoding>, e: Encoding, offset: nat, found: seq<u8>)
    requires Own(enc, alternates, e) && Restarts(d, e, offset, found)
    ensures var m := RestartMark(d, e, offset, found); m.enc == e && Genuine(d, m)
  {
    MarkIsPicked(d, e, offset, found);
    HitsOwn(d, enc, alternates, e, offset);
  }

  lemma {:induction false} SolveOwn(d: Dump, enc: Encoding, num: nat, alternates: nat -> seq<Encoding>, e: Encoding,
                                    visit: nat, offset: nat, found: seq<u8>)
    requires Own(enc, alternates, e)
    ensures SolutionOwn(d, enc, alternates, Solve(d, e, num, alternates, visit, offset, found))
    decreases d.numBits - offset
  {
    hide *;
    var picked := Pick(d, [e] + alternates(visit), offset);
    SolveIs(d, e, num, alternates, visit, offset, found, picked);
    PickOwn(d, enc, alternates, e, visit, offset);
    if Restarts(d, picked, offset, found) {
      var m := RestartMark(d, picked, offset, found);
      RestartOwn(d, enc, alternates, picked, offset, found);
      SolveOwn(d, enc, num, alternates, picked, visit + 1, m.pos + 1, Marked(found, [m]));
      BeforeOwn(d, enc, alternates, m, Solve(d, picked, num, alternates, visit + 1, m.pos + 1, Marked(found, [m])));
    } else {
      LastOwn(d, enc, num, alternates, picked, offset);
    }
  }
}
