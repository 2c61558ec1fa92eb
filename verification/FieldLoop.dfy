/**
  The SEARCH/FOUND loop of the field solver (examples/unknown.c:986-1515): the
  search for one field as a function, and the loop proved to compute it.
 */
module FieldLoop {
  import opened Numbers
  import opened FieldSolver

  /** A field marked as found: where, and written out how. */
  datatype Mark = Mark(pos: int, enc: Encoding)

  function MarkRange(m: Mark): Range {
    Range(m.pos, m.enc.numBits)
  }

  function MarkRanges(ms: seq<Mark>): (rs: seq<Range>)
    ensures |rs| == |ms|
  {
    seq(|ms|, i requires 0 <= i < |ms| => MarkRange(ms[i]))
  }

  function MarksAt(ps: seq<nat>, enc: Encoding): (ms: seq<Mark>)
    ensures |ms| == |ps|
  {
    seq(|ps|, i requires 0 <= i < |ps| => Mark(ps[i], enc))
  }

  // ---- counters and marks --------------------------------------------------

  /** The counters after these marks: each one modulo 256. */
  function Marked(c: seq<u8>, ms: seq<Mark>): (t: seq<u8>)
    ensures |t| == |c|
  {
    seq(|c|, k requires 0 <= k < |c| => (c[k] + Cover(MarkRanges(ms), k)) % 256)
  }

  lemma MarkedIs(c: seq<u8>, ms: seq<Mark>, t: seq<u8>)
    requires Raised(c, MarkRanges(ms), t)
    ensures t == Marked(c, ms)
  {
  }

  lemma MarkedNothing(c: seq<u8>)
    ensures Marked(c, []) == c
  {
    assert MarkRanges([]) == [];
  }

  lemma MarkedTwice(c: seq<u8>, a: seq<Mark>, b: seq<Mark>)
    ensures Marked(Marked(c, a), b) == Marked(c, a + b)
  {
    assert MarkRanges(a + b) == MarkRanges(a) + MarkRanges(b);
    assert Raised(c, MarkRanges(a), Marked(c, a));
    assert Raised(Marked(c, a), MarkRanges(b), Marked(Marked(c, a), b));
    RaisedTwice(c, MarkRanges(a), Marked(c, a), MarkRanges(b), Marked(Marked(c, a), b));
    MarkedIs(c, a + b, Marked(Marked(c, a), b));
  }

  lemma RangesAre(ps: seq<nat>, enc: Encoding)
    ensures RangesOf(ps, enc.numBits) == MarkRanges(MarksAt(ps, enc))
  {
  }

  // ---- one visit to SEARCH -------------------------------------------------

  /** The first of the encodings that hits anything, or the last one. */
  function Pick(d: Dump, es: seq<Encoding>, from: nat): Encoding
    requires es != []
  {
    if |es| == 1 || Hits(d, es[0], from) != [] then es[0] else Pick(d, es[1..], from)
  }

  /** Pick takes one of them; those in front of it hit nothing, and it hits something unless none does. */
  lemma {:induction false} PickMeans(d: Dump, es: seq<Encoding>, from: nat) returns (i: nat)
    requires es != []
    ensures i < |es| && Pick(d, es, from) == es[i]
    ensures forall j :: 0 <= j < i ==> Hits(d, es[j], from) == []
    ensures Hits(d, es[i], from) != [] || i == |es| - 1
    decreases |es|
  {
    if |es| == 1 || Hits(d, es[0], from) != [] {
      i := 0;
    } else {
      i := PickMeans(d, es[1..], from);
      i := i + 1;
    }
  }

  lemma PickNext(d: Dump, e: Encoding, es: seq<Encoding>, from: nat)
    requires es != [] && Hits(d, e, from) == []
    ensures Pick(d, [e] + es, from) == Pick(d, es, from)
  {
    assert ([e] + es)[1..] == es;
  }

  /** As many of the hits as there is room for are in the list of positions. */
  predicate Listed(pos: seq<int>, hits: seq<nat>) {
    forall j :: 0 <= j < |pos| && j < |hits| ==> pos[j] == hits[j]
  }

  /** search_bits for the field as it is written out now, on marks. */
  method SearchOnce(g: Field, d: Dump, cov: Coverage, offset: nat) returns (numFound: nat)
    requires g.Valid() && cov.Valid() && cov.numBits == d.numBits + 1
    modifies g.pos, cov.possible
    ensures numFound == |Hits(d, g.enc, offset)| && Listed(g.pos[..], Hits(d, g.enc, offset))
    ensures numFound == 0 ==> g.pos[..] == old(g.pos[..])
    ensures cov.possible[..] == Marked(old(cov.possible[..]), MarksAt(Hits(d, g.enc, offset), g.enc))
  {
    numFound := SearchBits(g, d, cov, offset);
    RangesAre(Hits(d, g.enc, offset), g.enc);
    MarkedIs(old(cov.possible[..]), MarksAt(Hits(d, g.enc, offset), g.enc), cov.possible[..]);
  }

  /** What is left of the alternates decides, as long as nothing was found. */
  ghost predicate PickLeft(d: Dump, picked: Encoding, e: Encoding, es: seq<Encoding>, from: nat) {
    picked == Pick(d, [e] + es, from)
  }

  lemma PickStep(d: Dump, picked: Encoding, e: Encoding, es: seq<Encoding>, from: nat)
    requires PickLeft(d, picked, e, es, from)
    ensures Hits(d, e, from) != [] || es == [] ==> picked == e
    ensures Hits(d, e, from) == [] && es != [] ==> PickLeft(d, picked, es[0], es[1..], from)
  {
    if Hits(d, e, from) == [] && es != [] {
      PickNext(d, e, es, from);
      assert [es[0]] + es[1..] == es;
    } else if es == [] {
      assert [e] + es == [e];
    }
  }

  /**
    SEARCH with its alternates (lines 986-1344): search for the field as it is
    written out now; if it does not occur, try the other ways to write it out
    until one does.  The last one tried stays, and only it can have hits, so its
    hits are all that `possible` comes to count.
   */
  method SearchAndRetry(g: Field, d: Dump, cov: Coverage, alternates: seq<Encoding>, offset: nat) returns (numFound: nat)
    requires g.Valid() && cov.Valid() && cov.numBits == d.numBits + 1
    modifies g`enc, g.pos, cov.possible
    ensures g.enc == Pick(d, [old(g.enc)] + alternates, offset)
    ensures numFound == |Hits(d, g.enc, offset)| && Listed(g.pos[..], Hits(d, g.enc, offset))
    ensures numFound == 0 ==> g.pos[..] == old(g.pos[..])
    ensures cov.possible[..] == Marked(old(cov.possible[..]), MarksAt(Hits(d, g.enc, offset), g.enc))
  {
    ghost var picked, possible0 := Pick(d, [g.enc] + alternates, offset), cov.possible[..];
    numFound := SearchOnce(g, d, cov, offset);
    assert alternates[0..] == alternates;
    var c := 0;
    while c < |alternates| && numFound == 0
      invariant 0 <= c <= |alternates|
      invariant numFound == |Hits(d, g.enc, offset)| && Listed(g.pos[..], Hits(d, g.enc, offset))
      invariant numFound == 0 ==> g.pos[..] == old(g.pos[..])
      invariant PickLeft(d, picked, g.enc, alternates[c..], offset)
      invariant cov.possible[..] == Marked(possible0, MarksAt(Hits(d, g.enc, offset), g.enc))
    {
      PickStep(d, picked, g.enc, alternates[c..], offset);
      assert MarksAt(Hits(d, g.enc, offset), g.enc) == [];
      MarkedNothing(possible0);
      g.enc := alternates[c];
      numFound := SearchOnce(g, d, cov, offset);
      c := c + 1;
    }
    PickStep(d, picked, g.enc, alternates[c..], offset);
  }

  // ---- the marks of a visit ------------------------------------------------

  /** How many of the hits are marked when the search is over (lines 1378-1515). */
  function NumMarked(numFound: nat, num: nat): (n: nat)
    ensures n <= numFound && n <= 5
  {
    if numFound == 1 then 1
    else if numFound >= 2 && numFound == num then if numFound < 5 then numFound else 5
    else 0
  }

  predicate Fills(numFound: nat, num: nat) {
    if numFound == 1 then num <= 1 else numFound >= 2 && numFound == num
  }

  /** One position more is marked. */
  lemma MarkOne(c0: seq<u8>, ms: seq<Mark>, c: seq<u8>, m: Mark, t: seq<u8>)
    requires c == Marked(c0, ms) && Raised(c, [MarkRange(m)], t)
    ensures t == Marked(c0, ms + [m])
  {
    assert MarkRanges([m]) == [MarkRange(m)];
    MarkedIs(c, [m], t);
    MarkedTwice(c0, ms, [m]);
  }

  lemma OneMark(c: seq<u8>, m: Mark, t: seq<u8>)
    requires Raised(c, [MarkRange(m)], t)
    ensures t == Marked(c, [m])
  {
    assert MarkRanges([m]) == [MarkRange(m)];
    MarkedIs(c, [m], t);
  }

  /** The end of a search with any other number of hits than one (lines 1395-1515). */
  method MarkHits(g: Field, cov: Coverage, numFound: nat, ghost hits: seq<nat>)
    requires g.Valid() && cov.Valid() && numFound != 1 && numFound == |hits| && Listed(g.pos[..], hits)
    requires forall j :: 0 <= j < numFound ==> hits[j] + g.enc.numBits < cov.numBits
    modifies cov.found, cov`numFilled
    ensures if 2 <= numFound == g.num then
              && cov.found[..] == Marked(old(cov.found[..]), MarksAt(hits, g.enc)[..if numFound <= 5 then numFound else 5])
              && cov.numFilled == old(cov.numFilled) + g.enc.numBits
            else
              cov.found[..] == old(cov.found[..]) && cov.numFilled == old(cov.numFilled)
  {
    ghost var found0, all := cov.found[..], MarksAt(hits, g.enc);
    MarkedNothing(found0);
    assert all[..0] == [];
    if numFound < 2 || numFound != g.num {
      return;
    }
    assert g.pos[..][0] == hits[0];
    var overlap := SetFound(cov, g);
    assert MarkRange(all[0]) == g.At(0) && all[..1] == [all[0]];
    OneMark(found0, all[0], cov.found[..]);
    var i := 1;
    while i < numFound && i < 5
      invariant 1 <= i <= numFound && i <= 5
      invariant cov.found[..] == Marked(found0, all[..i]) && cov.numFilled == old(cov.numFilled)
    {
      ghost var before := cov.found[..];
      assert g.pos[..][i] == hits[i];
      overlap := SetFoundI(cov, g, i);
      assert MarkRange(all[i]) == g.At(i) && all[..i + 1] == all[..i] + [all[i]];
      MarkOne(found0, all[..i], before, all[i], cov.found[..]);
      i := i + 1;
    }
    cov.numFilled := cov.numFilled + g.enc.numBits;
  }

  /** The end of a search with one hit, or the reason to search again (lines 1378-1394). */
  method MarkSingle(g: Field, cov: Coverage) returns (overlap: bool)
    requires g.Valid() && cov.Valid() && 0 <= g.pos[0] && g.pos[0] + g.enc.numBits < cov.numBits
    modifies cov.found, cov`numFilled
    ensures overlap == Overlaps(old(cov.found[..]), g.At(0), g.enc.numBits)
    ensures cov.found[..] == Marked(old(cov.found[..]), [Mark(g.pos[0], g.enc)])
    ensures cov.numFilled == old(cov.numFilled) + if !overlap && g.num <= 1 then g.enc.numBits else 0
  {
    overlap := SetFound(cov, g);
    OneMark(old(cov.found[..]), Mark(g.pos[0], g.enc), cov.found[..]);
    if !overlap && g.num <= 1 {
      cov.numFilled := cov.numFilled + g.enc.numBits;
    }
  }

  // ---- the whole search for one field --------------------------------------

  /** The marks of the restarts, and how the last visit went: the encoding, where it began, what it marked. */
  datatype Solution = Solution(restarts: seq<Mark>, enc: Encoding, offset: nat, final: seq<Mark>)

  /** The hits of the last visit. */
  function LastHits(d: Dump, s: Solution): seq<nat> {
    Hits(d, s.enc, s.offset)
  }

  /** What search_bits saw on all visits: a restart's only hit is its mark. */
  function SeenBy(d: Dump, s: Solution): seq<Mark> {
    s.restarts + MarksAt(LastHits(d, s), s.enc)
  }

  function FilledBy(d: Dump, s: Solution, num: nat): nat {
    if Fills(|LastHits(d, s)|, num) then s.enc.numBits else 0
  }

  /** A visit ends the search, unless its only hit is reported as an overlap. */
  ghost predicate Restarts(d: Dump, e: Encoding, offset: nat, found: seq<u8>) {
    var hits := Hits(d, e, offset);
    |hits| == 1 && Overlaps(found, Range(hits[0], e.numBits), e.numBits)
  }

  /** The only hit of a visit that is not the last one. */
  ghost function RestartMark(d: Dump, e: Encoding, offset: nat, found: seq<u8>): (m: Mark)
    requires Restarts(d, e, offset, found)
    ensures offset <= m.pos < d.numBits && MarksAt(Hits(d, e, offset), e) == [m]
  {
    HitsFit(d, e, offset, 0);
    Mark(Hits(d, e, offset)[0], e)
  }

  function LastVisit(d: Dump, e: Encoding, num: nat, offset: nat): Solution {
    var marks := MarksAt(Hits(d, e, offset), e);
    Solution([], e, offset, marks[..NumMarked(|marks|, num)])
  }

  function Before(m: Mark, s: Solution): Solution {
    s.(restarts := [m] + s.restarts)
  }

  /** SEARCH and FOUND, from this visit on. */
  ghost function Solve(d: Dump, enc: Encoding, num: nat, alternates: nat -> seq<Encoding>, visit: nat, offset: nat,
                       found: seq<u8>): Solution
    decreases d.numBits - offset
  {
    var e := Pick(d, [enc] + alternates(visit), offset);
    if !Restarts(d, e, offset, found) then LastVisit(d, e, num, offset)
    else
      var m := RestartMark(d, e, offset, found);
      Before(m, Solve(d, e, num, alternates, visit + 1, m.pos + 1, Marked(found, [m])))
  }

  /** The definition of Solve, for proofs that look no further into it. */
  lemma SolveIs(d: Dump, enc: Encoding, num: nat, alternates: nat -> seq<Encoding>, visit: nat, offset: nat, found: seq<u8>,
                e: Encoding)
    requires e == Pick(d, [enc] + alternates(visit), offset)
    ensures Solve(d, enc, num, alternates, visit, offset, found)
         == if !Restarts(d, e, offset, found) then LastVisit(d, e, num, offset)
            else
              var m := RestartMark(d, e, offset, found);
              Before(m, Solve(d, e, num, alternates, visit + 1, m.pos + 1, Marked(found, [m])))
  {
  }

  /** With these restarts made, the search as a whole comes to what the rest of it comes to. */
  ghost predicate SolveLeft(whole: Solution, restarts: seq<Mark>, left: Solution) {
    whole == left.(restarts := restarts + left.restarts)
  }

  lemma LeftMore(whole: Solution, restarts: seq<Mark>, m: Mark, next: Solution)
    requires SolveLeft(whole, restarts, Before(m, next))
    ensures SolveLeft(whole, restarts + [m], next)
  {
    assert restarts + ([m] + next.restarts) == (restarts + [m]) + next.restarts;
  }

  lemma LeftOver(whole: Solution, restarts: seq<Mark>, left: Solution)
    requires SolveLeft(whole, restarts, left) && left.restarts == []
    ensures whole == left.(restarts := restarts)
  {
    assert restarts + [] == restarts;
  }

  /** FOUND: mark, and say whether to search again (lines 1378-1515). */
  method Found(g: Field, cov: Coverage, numFound: nat, offset: nat, ghost d: Dump) returns (again: bool)
    requires g.Valid() && cov.Valid() && cov.numBits == d.numBits + 1
    requires numFound == |Hits(d, g.enc, offset)| && Listed(g.pos[..], Hits(d, g.enc, offset))
    modifies cov.found, cov`numFilled
    ensures again == Restarts(d, g.enc, offset, old(cov.found[..]))
    ensures again ==> offset <= g.pos[0] < d.numBits && MarksAt(Hits(d, g.enc, offset), g.enc) == [Mark(g.pos[0], g.enc)]
    ensures var marks := MarksAt(Hits(d, g.enc, offset), g.enc);
      cov.found[..] == Marked(old(cov.found[..]), if again then marks else marks[..NumMarked(numFound, g.num)])
    ensures cov.numFilled == old(cov.numFilled) + if !again && Fills(numFound, g.num) then g.enc.numBits else 0
  {
    ghost var hits := Hits(d, g.enc, offset);
    forall j | 0 <= j < numFound ensures hits[j] + g.enc.numBits < d.numBits {
      HitsFit(d, g.enc, offset, j);
    }
    if numFound != 1 {
      MarkedNothing(cov.found[..]);
      assert MarksAt(hits, g.enc)[..0] == [];
      MarkHits(g, cov, numFound, hits);
      return false;
    }
    HitsFit(d, g.enc, offset, 0);
    assert g.pos[..][0] == hits[0];
    again := MarkSingle(g, cov);
    assert MarksAt(hits, g.enc) == [Mark(g.pos[0], g.enc)] == MarksAt(hits, g.enc)[..1];
  }

  /** The variables of the search, in front of a visit. */
  ghost predicate Searching(d: Dump, num: nat, alternates: nat -> seq<Encoding>, whole: Solution, restarts: seq<Mark>,
                            enc: Encoding, visit: nat, offset: nat, found0: seq<u8>, found: seq<u8>,
                            possible0: seq<u8>, possible: seq<u8>) {
    && SolveLeft(whole, restarts, Solve(d, enc, num, alternates, visit, offset, found))
    && found == Marked(found0, restarts) && possible == Marked(possible0, restarts)
  }

  lemma SearchingFirst(d: Dump, num: nat, alternates: nat -> seq<Encoding>, enc: Encoding, found: seq<u8>, possible: seq<u8>)
    ensures Searching(d, num, alternates, Solve(d, enc, num, alternates, 0, 0, found), [], enc, 0, 0, found, found,
      possible, possible)
  {
    var whole := Solve(d, enc, num, alternates, 0, 0, found);
    assert [] + whole.restarts == whole.restarts;
    MarkedNothing(found);
    MarkedNothing(possible);
  }

  lemma SearchingOn(d: Dump, num: nat, alternates: nat -> seq<Encoding>, whole: Solution, restarts: seq<Mark>,
                    enc: Encoding, visit: nat, offset: nat, found0: seq<u8>, found: seq<u8>,
                    possible0: seq<u8>, possible: seq<u8>, e: Encoding, m: Mark)
    requires Searching(d, num, alternates, whole, restarts, enc, visit, offset, found0, found, possible0, possible)
    requires e == Pick(d, [enc] + alternates(visit), offset) && Restarts(d, e, offset, found)
    requires m == RestartMark(d, e, offset, found)
    ensures Searching(d, num, alternates, whole, restarts + [m], e, visit + 1, m.pos + 1, found0, Marked(found, [m]),
      possible0, Marked(possible, [m]))
  {
    LeftMore(whole, restarts, m, Solve(d, e, num, alternates, visit + 1, m.pos + 1, Marked(found, [m])));
    MarkedTwice(found0, restarts, [m]);
    MarkedTwice(possible0, restarts, [m]);
  }

  /** What the search of a field makes of it and of the counters. */
  ghost predicate Solved(d: Dump, s: Solution, enc: Encoding, pos: seq<int>, found0: seq<u8>, found: seq<u8>,
                         possible0: seq<u8>, possible: seq<u8>) {
    && enc == s.enc && Listed(pos, LastHits(d, s))
    && found == Marked(found0, s.restarts + s.final) && possible == Marked(possible0, SeenBy(d, s))
  }

  lemma SearchingOver(d: Dump, num: nat, alternates: nat -> seq<Encoding>, whole: Solution, restarts: seq<Mark>,
                      enc: Encoding, visit: nat, offset: nat, found0: seq<u8>, found: seq<u8>,
                      possible0: seq<u8>, possible: seq<u8>, e: Encoding, marks: seq<Mark>, pos: seq<int>)
    requires Searching(d, num, alternates, whole, restarts, enc, visit, offset, found0, found, possible0, possible)
    requires e == Pick(d, [enc] + alternates(visit), offset) && !Restarts(d, e, offset, found)
    requires marks == MarksAt(Hits(d, e, offset), e) && Listed(pos, Hits(d, e, offset))
    ensures |LastHits(d, whole)| == |marks|
    ensures FilledBy(d, whole, num) == if Fills(|marks|, num) then e.numBits else 0
    ensures Solved(d, whole, e, pos, found0, Marked(found, marks[..NumMarked(|marks|, num)]),
              possible0, Marked(possible, marks))
  {
    LeftOver(whole, restarts, LastVisit(d, e, num, offset));
    MarkedTwice(found0, restarts, whole.final);
    MarkedTwice(possible0, restarts, marks);
  }

  lemma ValidShape(g: Field, cov: Coverage)
    requires g.Valid() && cov.Valid()
    ensures g.pos.Length == 5 && cov.found != cov.possible
  {
  }

  /** One visit to SEARCH and what FOUND does behind it. */
  method Round(g: Field, d: Dump, cov: Coverage, alternates: nat -> seq<Encoding>, visit: nat, offset: nat,
               ghost whole: Solution, ghost restarts: seq<Mark>, ghost found0: seq<u8>, ghost possible0: seq<u8>)
    returns (numFound: nat, again: bool)
    requires g.Valid() && cov.Valid() && cov.numBits == d.numBits + 1
    requires Searching(d, g.num, alternates, whole, restarts, g.enc, visit, offset, found0, cov.found[..],
               possible0, cov.possible[..])
    modifies g`enc, g.pos, cov.found, cov.possible, cov`numFilled
    ensures again ==> offset <= g.pos[0] < d.numBits && cov.numFilled == old(cov.numFilled)
    ensures again ==>
      Searching(d, g.num, alternates, whole, restarts + [Mark(g.pos[0], g.enc)], g.enc, visit + 1, g.pos[0] + 1,
        found0, cov.found[..], possible0, cov.possible[..])
    ensures !again ==>
      && numFound == |LastHits(d, whole)|
      && Solved(d, whole, g.enc, g.pos[..], found0, cov.found[..], possible0, cov.possible[..])
      && cov.numFilled == old(cov.numFilled) + FilledBy(d, whole, g.num)
  {
    hide *;
    ValidShape(g, cov);
    ghost var enc, found, possible := g.enc, cov.found[..], cov.possible[..];
    numFound := SearchAndRetry(g, d, cov, alternates(visit), offset);
    ghost var e, marks := g.enc, MarksAt(Hits(d, g.enc, offset), g.enc);
    again := Found(g, cov, numFound, offset, d);
    if again {
      SearchingOn(d, g.num, alternates, whole, restarts, enc, visit, offset, found0, found, possible0, possible, e,
        Mark(g.pos[0], e));
    } else {
      SearchingOver(d, g.num, alternates, whole, restarts, enc, visit, offset, found0, found, possible0, possible, e,
        marks, g.pos[..]);
    }
  }

  /**
    The whole search for one field: it computes Solve, whatever the alternate
    encodings (one list per visit to SEARCH) are.  In particular it terminates.
   */
  method SolveField(g: Field, d: Dump, cov: Coverage, alternates: nat -> seq<Encoding>) returns (numFound: nat)
    requires g.Valid() && cov.Valid() && cov.numBits == d.numBits + 1
    modifies g`enc, g.pos, cov.found, cov.possible, cov`numFilled
    ensures var s := Solve(d, old(g.enc), g.num, alternates, 0, 0, old(cov.found[..]));
      && numFound == |LastHits(d, s)|
      && Solved(d, s, g.enc, g.pos[..], old(cov.found[..]), cov.found[..], old(cov.possible[..]), cov.possible[..])
      && cov.numFilled == old(cov.numFilled) + FilledBy(d, s, g.num)
  {
    hide *;
    ValidShape(g, cov);
    ghost var found0, possible0 := cov.found[..], cov.possible[..];
    ghost var whole, restarts := Solve(d, g.enc, g.num, alternates, 0, 0, found0), [];
    var offset: nat, visit: nat := 0, 0;
    SearchingFirst(d, g.num, alternates, g.enc, found0, possible0);
    while true
      invariant Searching(d, g.num, alternates, whole, restarts, g.enc, visit, offset, found0, cov.found[..],
                  possible0, cov.possible[..])
      invariant cov.numFilled == old(cov.numFilled)
      decreases d.numBits - offset
    {
      var again;
      numFound, again := Round(g, d, cov, alternates, visit, offset, whole, restarts, found0, possible0);
      if !again {
        return;
      }
      restarts := restarts + [Mark(g.pos[0], g.enc)];
      offset, visit := g.pos[0] + 1, visit + 1;
    }
  }
}
