/** Splitting records into sections (examples/compare_dxfb.py:199-225). */
module DxfSections {
  import opened Options
  import opened DxfRecords

  const SECTION: Value := Str([83, 69, 67, 84, 73, 79, 78])
  const ENDSEC: Value := Str([69, 78, 68, 83, 69, 67])
  const TAIL: Value := Str([95, 95, 116, 97, 105, 108, 95, 95])

  predicate IsSection(r: Record) {
    r.code == 0 && r.value == SECTION
  }

  predicate IsEndsec(r: Record) {
    r.code == 0 && r.value == ENDSEC
  }

  /** What Python takes for true. */
  predicate Truthy(v: Value) {
    match v
    case Str(text) => text != []
    case Bin(bytes) => bytes != []
    case Int(i) => i != 0
    case Float(bits) => !(|bits| == 8 && (forall k :: 0 <= k < 7 ==> bits[k] == 0) && bits[7] in {0, 128})
  }

  type Sections = map<Value, seq<Record>>

  /** The variables of split_sections. */
  datatype State = State(sections: Sections, name: Option<Value>, current: seq<Record>)

  predicate Active(name: Option<Value>) {
    name.Some? && Truthy(name.value)
  }

  /** A record that does not start a section. */
  function Step(st: State, r: Record): State {
    if IsSection(r) then st
    else if IsEndsec(r) then
      if Active(st.name) then State(st.sections[st.name.value := st.current + [r]], None, []) else st
    else if Active(st.name) then st.(current := st.current + [r])
    else st
  }

  /** A SECTION record and, behind it, one with code 2. */
  predicate Starts(a: Record, b: Record) {
    IsSection(a) && b.code == 2
  }

  /** The variables after these records. */
  function Fold(rs: seq<Record>): State {
    var n := |rs|;
    if n == 0 then State(map[], None, [])
    else if n >= 2 && Starts(rs[n - 2], rs[n - 1]) then
      State(Fold(rs[..n - 2]).sections, Some(rs[n - 1].value), [rs[n - 2], rs[n - 1]])
    else Step(Fold(rs[..n - 1]), rs[n - 1])
  }

  function Finish(st: State): Sections {
    if st.current != [] then st.sections[TAIL := st.current] else st.sections
  }

  function Split(rs: seq<Record>): Sections {
    Finish(Fold(rs))
  }

  /** split_sections */
  method SplitSections(records: seq<Record>) returns (sections: Sections)
    ensures sections == Split(records)
  {
    sections := map[];
    var currentName: Option<Value>, current: seq<Record>, i := None, [], 0;
    while i < |records|
      invariant 0 <= i <= |records|
      invariant 0 < i < |records| ==> !Starts(records[i - 1], records[i])
      invariant Fold(records[..i]) == State(sections, currentName, current)
    {
      var r := records[i];
      assert records[..i + 1][..i] == records[..i];
      if IsSection(r) {
        if i + 1 < |records| && records[i + 1].code == 2 {
          assert records[..i + 2][..i] == records[..i];
          currentName := Some(records[i + 1].value);
          current := [r, records[i + 1]];
          i := i + 2;
          continue;
        }
      } else if IsEndsec(r) {
        if Active(currentName) {
          current := current + [r];
          sections := sections[currentName.value := current];
          currentName := None;
          current := [];
        }
      } else if Active(currentName) {
        current := current + [r];
      }
      i := i + 1;
    }
    assert records[..i] == records;
    if current != [] {
      sections := sections[TAIL := current];
    }
  }

  // ---- what a section is, on every input -----------------------------------

  /** Names that count as none: Python takes nothing and zeros for false. */
  const NO_NAMES: set<Value> :=
    {Str([]), Bin([]), Int(0), Float([0, 0, 0, 0, 0, 0, 0, 0]), Float([0, 0, 0, 0, 0, 0, 0, 128])}

  lemma TruthyMeans(v: Value)
    ensures Truthy(v) <==> v !in NO_NAMES
  {
    if v.Float? && !Truthy(v) {
      assert v.bits == [0, 0, 0, 0, 0, 0, 0, v.bits[7]];
    }
  }

  predicate StartAt(rs: seq<Record>, s: int) {
    0 <= s && s + 1 < |rs| && Starts(rs[s], rs[s + 1])
  }

  /** A section starts at s, and it is neither ended nor restarted before j. */
  ghost predicate OpenSince(rs: seq<Record>, s: int, j: int) {
    && StartAt(rs, s) && s + 2 <= j <= |rs| && rs[s + 1].value !in NO_NAMES
    && forall k :: s + 2 <= k < j ==> !IsEndsec(rs[k]) && !StartAt(rs[..j], k)
  }

  /** A section from s to its ENDSEC at j. */
  ghost predicate Span(rs: seq<Record>, s: int, j: int) {
    j < |rs| && OpenSince(rs, s, j) && IsEndsec(rs[j])
  }

  /** The records without stray SECTION ones. */
  function Kept(rs: seq<Record>): seq<Record> {
    if rs == [] then []
    else Kept(rs[..|rs| - 1]) + if IsSection(rs[|rs| - 1]) then [] else [rs[|rs| - 1]]
  }

  function Content(rs: seq<Record>, s: nat, j: nat): seq<Record>
    requires s + 2 <= j < |rs|
  {
    [rs[s], rs[s + 1]] + Kept(rs[s + 2..j]) + [rs[j]]
  }

  ghost predicate Named(rs: seq<Record>, name: Value, s: int, j: int) {
    Span(rs, s, j) && rs[s + 1].value == name
  }

  /** The last section with this name. */
  ghost predicate LastSpan(rs: seq<Record>, name: Value, s: int, j: int) {
    Named(rs, name, s, j) && forall s', j' :: Named(rs, name, s', j') ==> j' <= j
  }

  /** The sections are the last ones of each name, without the stray SECTION records in them. */
  ghost predicate SectionsOf(rs: seq<Record>, sections: Sections) {
    && (forall name, s, j :: LastSpan(rs, name, s, j) ==> name in sections && sections[name] == Content(rs, s, j))
    && (forall name :: name in sections ==> exists s, j :: LastSpan(rs, name, s, j))
  }

  /** The section in progress, if any. */
  ghost predicate PendingOf(rs: seq<Record>, st: State) {
    && (Active(st.name) ==> exists s :: OpenSince(rs, s, |rs|))
    && (forall s :: OpenSince(rs, s, |rs|) ==>
      st.name == Some(rs[s + 1].value) && st.current == [rs[s], rs[s + 1]] + Kept(rs[s + 2..]))
  }

  lemma OpenPrefix(rs: seq<Record>, m: nat, s: int, j: int)
    requires j <= m <= |rs|
    ensures OpenSince(rs, s, j) <==> OpenSince(rs[..m], s, j)
    ensures j < m ==> (Span(rs, s, j) <==> Span(rs[..m], s, j))
  {
    if 0 <= j {
      assert rs[..m][..j] == rs[..j];
    }
  }

  /** A further record that starts nothing leaves a section open unless it ends it. */
  lemma OpenStep(rs: seq<Record>, s: int)
    requires rs != [] && !StartAt(rs, |rs| - 2)
    ensures OpenSince(rs, s, |rs|) <==> OpenSince(rs[..|rs| - 1], s, |rs| - 1) && !IsEndsec(rs[|rs| - 1])
  {
    var n := |rs|;
    var p := rs[..n - 1];
    assert rs[..n] == rs && p[..n - 1] == p;
    assert forall k :: StartAt(rs, k) <==> StartAt(p, k);
  }

  /** A start leaves nothing else open. */
  lemma OpenStart(rs: seq<Record>, s: int)
    requires StartAt(rs, |rs| - 2)
    ensures OpenSince(rs, s, |rs|) <==> s == |rs| - 2 && rs[|rs| - 1].value !in NO_NAMES
  {
    assert rs[..|rs|] == rs;
    assert s == |rs| - 3 ==> !StartAt(rs, s);
  }

  lemma SpanContent(rs: seq<Record>, m: nat, s: int, j: int)
    requires m <= |rs| && Span(rs[..m], s, j)
    ensures Span(rs, s, j) && Content(rs, s, j) == Content(rs[..m], s, j)
  {
    OpenPrefix(rs, m, s, j);
    assert rs[..m][s + 2..j] == rs[s + 2..j];
  }

  lemma LastPrefix(rs: seq<Record>, m: nat, name: Value, s: int, j: int)
    requires m <= |rs| && forall s', j' :: Named(rs, name, s', j') ==> j' < m
    ensures LastSpan(rs, name, s, j) <==> LastSpan(rs[..m], name, s, j)
  {
    forall s', j' ensures Named(rs, name, s', j') <==> Named(rs[..m], name, s', j') {
      if j' < m {
        OpenPrefix(rs, m, s', j');
      }
    }
  }

  /** Records that end nothing add no section. */
  lemma SameSpans(rs: seq<Record>, m: nat, sections: Sections)
    requires m <= |rs| && SectionsOf(rs[..m], sections)
    requires forall s, j :: Span(rs, s, j) ==> j < m
    ensures SectionsOf(rs, sections)
  {
    forall name, s, j ensures LastSpan(rs, name, s, j) <==> LastSpan(rs[..m], name, s, j) {
      LastPrefix(rs, m, name, s, j);
    }
    forall name, s, j | LastSpan(rs, name, s, j) ensures name in sections && sections[name] == Content(rs, s, j) {
      assert LastSpan(rs[..m], name, s, j);
      SpanContent(rs, m, s, j);
    }
    forall name | name in sections ensures exists s, j :: LastSpan(rs, name, s, j) {
      var s, j :| LastSpan(rs[..m], name, s, j);
      assert LastSpan(rs, name, s, j);
    }
  }

  /** What an ENDSEC that ends a section adds is the last one of its name ... */
  lemma AddedIsLast(rs: seq<Record>, m: nat, name: Value, s: int, j: int, t: int)
    requires |rs| == m + 1 && Named(rs, name, t, m) && LastSpan(rs, name, s, j)
    ensures j == m
  {
  }

  /** ... and those of other names stay. */
  lemma OthersStay(rs: seq<Record>, m: nat, name: Value, other: Value, s: int, j: int)
    requires |rs| == m + 1 && other != name && forall s :: Span(rs, s, m) ==> rs[s + 1].value == name
    ensures LastSpan(rs, other, s, j) <==> LastSpan(rs[..m], other, s, j)
  {
    LastPrefix(rs, m, other, s, j);
  }

  /** An ENDSEC that ends a section adds it, or replaces an earlier one of its name. */
  lemma AddSpan(rs: seq<Record>, m: nat, sections: Sections, t: int, name: Value, content: seq<Record>)
    requires |rs| == m + 1 && SectionsOf(rs[..m], sections) && Span(rs, t, m)
    requires forall s :: Span(rs, s, m) ==> rs[s + 1].value == name && Content(rs, s, m) == content
    ensures SectionsOf(rs, sections[name := content])
  {
    assert Named(rs, name, t, m);
    var updated := sections[name := content];
    forall other, s, j | LastSpan(rs, other, s, j) ensures other in updated && updated[other] == Content(rs, s, j) {
      if other == name {
        AddedIsLast(rs, m, name, s, j, t);
      } else {
        OthersStay(rs, m, name, other, s, j);
        SpanContent(rs, m, s, j);
      }
    }
    forall other | other in updated ensures exists s, j :: LastSpan(rs, other, s, j) {
      if other == name {
        assert LastSpan(rs, name, t, m);
      } else {
        var s, j :| LastSpan(rs[..m], other, s, j);
        OthersStay(rs, m, name, other, s, j);
      }
    }
  }

  lemma SpanStep(rs: seq<Record>, s: int)
    requires rs != []
    ensures var m := |rs| - 1; Span(rs, s, m) <==> OpenSince(rs[..m], s, m) && IsEndsec(rs[m])
  {
    OpenPrefix(rs, |rs| - 1, s, |rs| - 1);
  }

  /** What a further record that starts nothing does to the sections: an ENDSEC may add one ... */
  lemma EndSections(rs: seq<Record>, before: State)
    requires rs != [] && IsEndsec(rs[|rs| - 1]) && Active(before.name)
    requires var p := rs[..|rs| - 1]; SectionsOf(p, before.sections) && PendingOf(p, before)
    ensures SectionsOf(rs, before.sections[before.name.value := before.current + [rs[|rs| - 1]]])
  {
    var m := |rs| - 1;
    var p := rs[..m];
    var t :| OpenSince(p, t, m);
    SpanStep(rs, t);
    forall s | Span(rs, s, m)
      ensures rs[s + 1].value == before.name.value && Content(rs, s, m) == before.current + [rs[m]]
    {
      SpanStep(rs, s);
      assert rs[s + 2..m] == p[s + 2..];
    }
    AddSpan(rs, m, before.sections, t, before.name.value, before.current + [rs[m]]);
  }

  lemma StepSections(rs: seq<Record>, before: State)
    requires rs != [] && !StartAt(rs, |rs| - 2)
    requires var p := rs[..|rs| - 1]; SectionsOf(p, before.sections) && PendingOf(p, before)
    ensures SectionsOf(rs, Step(before, rs[|rs| - 1]).sections)
  {
    var m, r := |rs| - 1, rs[|rs| - 1];
    if IsEndsec(r) && Active(before.name) {
      EndSections(rs, before);
    } else {
      forall s, j | Span(rs, s, j) ensures j < m {
        SpanStep(rs, s);
        TruthyMeans(rs[s + 1].value);
      }
      SameSpans(rs, m, before.sections);
    }
  }

  lemma StepCurrent(rs: seq<Record>, before: State, s: int)
    requires rs != [] && !StartAt(rs, |rs| - 2) && OpenSince(rs, s, |rs|)
    requires PendingOf(rs[..|rs| - 1], before)
    ensures var t := Step(before, rs[|rs| - 1]);
      t.name == Some(rs[s + 1].value) && t.current == [rs[s], rs[s + 1]] + Kept(rs[s + 2..])
  {
    OpenStep(rs, s);
    TruthyMeans(rs[s + 1].value);
    KeptStep(rs, s + 2);
  }

  /** ... and to the one in progress. */
  lemma StepPending(rs: seq<Record>, before: State)
    requires rs != [] && !StartAt(rs, |rs| - 2)
    requires PendingOf(rs[..|rs| - 1], before)
    ensures PendingOf(rs, Step(before, rs[|rs| - 1]))
  {
    var t := Step(before, rs[|rs| - 1]);
    forall s | OpenSince(rs, s, |rs|)
      ensures t.name == Some(rs[s + 1].value) && t.current == [rs[s], rs[s + 1]] + Kept(rs[s + 2..])
    {
      StepCurrent(rs, before, s);
    }
    if Active(t.name) {
      var s :| OpenSince(rs[..|rs| - 1], s, |rs| - 1);
      OpenStep(rs, s);
      assert OpenSince(rs, s, |rs|);
    }
  }

  lemma KeptStep(rs: seq<Record>, k: nat)
    requires k < |rs|
    ensures var r := rs[|rs| - 1];
      Kept(rs[k..]) == Kept(rs[..|rs| - 1][k..]) + if IsSection(r) then [] else [r]
  {
    assert rs[k..][..|rs| - 1 - k] == rs[..|rs| - 1][k..];
  }

  /** A start begins a new section in progress. */
  lemma StartPending(rs: seq<Record>, sections: Sections)
    requires StartAt(rs, |rs| - 2)
    ensures PendingOf(rs, State(sections, Some(rs[|rs| - 1].value), [rs[|rs| - 2], rs[|rs| - 1]]))
  {
    var n := |rs|;
    forall s ensures OpenSince(rs, s, n) <==> s == n - 2 && rs[n - 1].value !in NO_NAMES {
      OpenStart(rs, s);
    }
    TruthyMeans(rs[n - 1].value);
    assert Truthy(rs[n - 1].value) ==> OpenSince(rs, n - 2, n);
    assert [rs[n - 2], rs[n - 1]] + Kept(rs[n..]) == [rs[n - 2], rs[n - 1]];
  }

  lemma StartSections(rs: seq<Record>, sections: Sections)
    requires StartAt(rs, |rs| - 2) && SectionsOf(rs[..|rs| - 2], sections)
    ensures SectionsOf(rs, sections)
  {
    SameSpans(rs, |rs| - 2, sections);
  }

  /** What the variables of split_sections mean behind these records. */
  ghost predicate MeantBy(rs: seq<Record>, st: State) {
    SectionsOf(rs, st.sections) && PendingOf(rs, st)
  }

  lemma MeantAtFirst(rs: seq<Record>)
    requires rs == []
    ensures MeantBy(rs, Fold(rs))
  {
  }

  lemma MeantBehindStart(rs: seq<Record>)
    requires StartAt(rs, |rs| - 2) && MeantBy(rs[..|rs| - 2], Fold(rs[..|rs| - 2]))
    ensures MeantBy(rs, Fold(rs))
  {
    var before := Fold(rs[..|rs| - 2]);
    StartSections(rs, before.sections);
    StartPending(rs, before.sections);
    assert Fold(rs) == State(before.sections, Some(rs[|rs| - 1].value), [rs[|rs| - 2], rs[|rs| - 1]]);
  }

  lemma MeantBehindStep(rs: seq<Record>)
    requires rs != [] && !StartAt(rs, |rs| - 2) && MeantBy(rs[..|rs| - 1], Fold(rs[..|rs| - 1]))
    ensures MeantBy(rs, Fold(rs))
  {
    var before := Fold(rs[..|rs| - 1]);
    StepSections(rs, before);
    StepPending(rs, before);
    assert Fold(rs) == Step(before, rs[|rs| - 1]);
  }

  /** What the loop of split_sections knows, on every input. */
  lemma {:induction false} FoldMeans(rs: seq<Record>)
    ensures MeantBy(rs, Fold(rs))
    decreases |rs|
  {
    if rs == [] {
      MeantAtFirst(rs);
    } else if StartAt(rs, |rs| - 2) {
      FoldMeans(rs[..|rs| - 2]);
      MeantBehindStart(rs);
    } else {
      FoldMeans(rs[..|rs| - 1]);
      MeantBehindStep(rs);
    }
  }
}
