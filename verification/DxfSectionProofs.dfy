/** What splitting into sections promises: on every input, and on a file laid out in sections. */
module DxfSectionProofs {
  import opened Options
  import opened DxfRecords
  import opened DxfFormat
  import DxfStream
  import DxfRoundTrip
  import DxfWire
  import opened DxfSections

  // ---- on every input ------------------------------------------------------

  /** The last start is at s, and has a name that Python takes for false, so no ENDSEC ends it. */
  ghost predicate NamelessAt(rs: seq<Record>, s: int) {
    StartAt(rs, s) && rs[s + 1].value in NO_NAMES && forall k :: s < k ==> !StartAt(rs, k)
  }

  ghost predicate Nameless(rs: seq<Record>) {
    exists s :: NamelessAt(rs, s)
  }

  /** Something is left over at the end. */
  ghost predicate Unfinished(rs: seq<Record>) {
    Nameless(rs) || exists s :: OpenSince(rs, s, |rs|)
  }

  lemma OpenIsNamed(rs: seq<Record>, s: int)
    requires OpenSince(rs, s, |rs|)
    ensures !Nameless(rs)
  {
    assert rs[..|rs|] == rs;
    assert !StartAt(rs, s + 1);
  }

  lemma {:induction false} CurrentMeans(rs: seq<Record>)
    ensures Nameless(rs) <==> Fold(rs).current != [] && !Active(Fold(rs).name)
    decreases |rs|
  {
    var n := |rs|;
    if n == 0 {
    } else if StartAt(rs, n - 2) {
      TruthyMeans(rs[n - 1].value);
      if Truthy(rs[n - 1].value) {
        OpenStart(rs, n - 2);
        OpenIsNamed(rs, n - 2);
      } else {
        assert NamelessAt(rs, n - 2);
      }
    } else {
      CurrentMeans(rs[..n - 1]);
      FoldMeans(rs[..n - 1]);
      NamelessStep(rs);
    }
  }

  /** A further record that starts nothing does not give a name. */
  lemma NamelessStep(rs: seq<Record>)
    requires rs != [] && !StartAt(rs, |rs| - 2)
    ensures Nameless(rs) <==> Nameless(rs[..|rs| - 1])
    ensures forall s :: NamelessAt(rs, s) <==> NamelessAt(rs[..|rs| - 1], s)
  {
    var p := rs[..|rs| - 1];
    assert forall k :: StartAt(rs, k) <==> StartAt(p, k);
    forall s ensures NamelessAt(rs, s) <==> NamelessAt(p, s) {
      assert StartAt(rs, s) ==> p[s + 1] == rs[s + 1];
    }
  }

  /** Nothing is collected behind a nameless start. */
  lemma {:induction false} NamelessCurrent(rs: seq<Record>, s: int)
    requires NamelessAt(rs, s)
    ensures Fold(rs).current == [rs[s], rs[s + 1]] && !Active(Fold(rs).name)
    decreases |rs|
  {
    TruthyMeans(rs[s + 1].value);
    if s < |rs| - 2 {
      assert !StartAt(rs, |rs| - 2);
      NamelessStep(rs);
      NamelessCurrent(rs[..|rs| - 1], s);
    }
  }

  /**
    split_sections on every list of records: under a name other than __tail__
    stands exactly the last section with that name, from its SECTION to its
    ENDSEC, in order and without stray SECTION records.  Under __tail__ stands what
    is left over: the section in progress, likewise, or the two records of a last
    start without a name; and if nothing is, the last section of that name, if any.
   */
  lemma SplitMeans(rs: seq<Record>)
    ensures forall name, s, j :: LastSpan(rs, name, s, j) && (name != TAIL || !Unfinished(rs)) ==>
      name in Split(rs) && Split(rs)[name] == Content(rs, s, j)
    ensures forall name :: name in Split(rs) && name != TAIL ==> exists s, j :: LastSpan(rs, name, s, j)
    ensures TAIL in Split(rs) <==> Unfinished(rs) || exists s, j :: LastSpan(rs, TAIL, s, j)
    ensures forall s :: OpenSince(rs, s, |rs|) ==>
      TAIL in Split(rs) && Split(rs)[TAIL] == [rs[s], rs[s + 1]] + Kept(rs[s + 2..])
    ensures forall s :: NamelessAt(rs, s) ==> TAIL in Split(rs) && Split(rs)[TAIL] == [rs[s], rs[s + 1]]
  {
    FoldMeans(rs);
    LeftOver(rs);
    forall s | NamelessAt(rs, s) ensures Fold(rs).current == [rs[s], rs[s + 1]] {
      NamelessCurrent(rs, s);
    }
  }

  lemma LeftOver(rs: seq<Record>)
    ensures Unfinished(rs) <==> Fold(rs).current != []
  {
    FoldMeans(rs);
    CurrentMeans(rs);
    if Active(Fold(rs).name) {
      var s :| OpenSince(rs, s, |rs|);
      assert Fold(rs).current[0] == rs[s];
    }
  }

  lemma NoStartWithin(rs: seq<Record>, s: int, j: int, t: int)
    requires Span(rs, s, j) && s < t <= j
    ensures !StartAt(rs, t)
  {
    assert t + 1 < j ==> (StartAt(rs, t) <==> StartAt(rs[..j], t));
  }

  /** Different sections have no record in common. */
  lemma SpansDisjoint(rs: seq<Record>, s: int, j: int, s': int, j': int)
    requires Span(rs, s, j) && Span(rs, s', j') && s < s'
    ensures j < s'
  {
    forall t | s < t <= j ensures !StartAt(rs, t) {
      NoStartWithin(rs, s, j, t);
    }
  }

  // ---- on a file laid out in sections --------------------------------------

  /** A section with its name, the records in it, and those between it and the next one; and where its own three stand. */
  datatype Section =
    Section(at: nat, nameAt: nat, name: Value, body: seq<Record>, endAt: nat, gap: seq<Record>)
  {
    function Head(): Record {
      Record(at, 0, Str(Ascii("SECTION")))
    }

    function Name(): Record {
      Record(nameAt, 2, name)
    }

    function End(): Record {
      Record(endAt, 0, Str(Ascii("ENDSEC")))
    }
  }

  predicate Says(r: Record, keyword: seq<byte>) {
    r.code == 0 && r.value == Str(keyword)
  }

  /** It has a name, and nothing in it or behind it is taken for the beginning or the end of a section. */
  predicate SectionOk(s: Section) {
    && s.name !in NO_NAMES
    && (forall r :: r in s.body ==> !Says(r, Ascii("SECTION")) && !Says(r, Ascii("ENDSEC")))
    && (forall r :: r in s.gap ==> !Says(r, Ascii("SECTION")))
  }

  lemma KeywordsAre()
    ensures SECTION == Str(Ascii("SECTION")) && ENDSEC == Str(Ascii("ENDSEC")) && TAIL == Str(Ascii("__tail__"))
  {
  }

  function SectionRecords(s: Section): seq<Record> {
    [s.Head(), s.Name()] + s.body + [s.End()]
  }

  /** All records in order. */
  function Layout(before: seq<Record>, ss: seq<Section>): seq<Record> {
    if ss == [] then before
    else Layout(before, ss[..|ss| - 1]) + SectionRecords(ss[|ss| - 1]) + ss[|ss| - 1].gap
  }

  /** What one would like to get: each section under its name, a later one replacing an earlier one. */
  function ByName(ss: seq<Section>): Sections {
    if ss == [] then map[] else ByName(ss[..|ss| - 1])[ss[|ss| - 1].name := SectionRecords(ss[|ss| - 1])]
  }

  /** Not in the middle of a start. */
  predicate Settled(rs: seq<Record>) {
    rs != [] ==> !IsSection(rs[|rs| - 1])
  }

  lemma FoldOne(rs: seq<Record>, r: Record)
    requires Settled(rs)
    ensures Fold(rs + [r]) == Step(Fold(rs), r)
  {
    assert (rs + [r])[..|rs|] == rs;
  }

  lemma FoldStart(rs: seq<Record>, a: Record, b: Record)
    requires Starts(a, b)
    ensures Fold(rs + [a, b]) == State(Fold(rs).sections, Some(b.value), [a, b])
  {
    assert (rs + [a, b])[..|rs|] == rs;
  }

  /** Records other than SECTION pass by while no section is open ... */
  lemma {:induction false} FoldGap(rs: seq<Record>, gap: seq<Record>)
    requires Settled(rs) && Fold(rs).name == None && forall r :: r in gap ==> !IsSection(r)
    ensures Settled(rs + gap) && Fold(rs + gap) == Fold(rs)
  {
    hide Fold;
    if gap == [] {
      assert rs + gap == rs;
    } else {
      var m := |gap| - 1;
      FoldGap(rs, gap[..m]);
      FoldOne(rs + gap[..m], gap[m]);
      assert rs + gap == (rs + gap[..m]) + [gap[m]];
    }
  }

  /** ... and those other than ENDSEC are collected while one is. */
  lemma {:induction false} FoldBody(rs: seq<Record>, body: seq<Record>)
    requires Settled(rs) && Active(Fold(rs).name) && forall r :: r in body ==> !IsSection(r) && !IsEndsec(r)
    ensures Settled(rs + body) && Fold(rs + body) == Fold(rs).(current := Fold(rs).current + body)
  {
    hide Fold;
    if body == [] {
      assert rs + body == rs && Fold(rs).current + body == Fold(rs).current;
    } else {
      var m := |body| - 1;
      FoldBody(rs, body[..m]);
      FoldOne(rs + body[..m], body[m]);
      assert rs + body == (rs + body[..m]) + [body[m]];
      assert Fold(rs).current + body == (Fold(rs).current + body[..m]) + [body[m]];
    }
  }

  lemma FoldOpen(rs: seq<Record>, s: Section)
    requires SectionOk(s)
    ensures var open := rs + [s.Head(), s.Name()] + s.body;
      Settled(open) && Fold(open) == State(Fold(rs).sections, Some(s.name), [s.Head(), s.Name()] + s.body)
  {
    KeywordsAre();
    TruthyMeans(s.name);
    FoldStart(rs, s.Head(), s.Name());
    FoldBody(rs + [s.Head(), s.Name()], s.body);
  }

  lemma FoldClose(open: seq<Record>, end: Record)
    requires Settled(open) && Active(Fold(open).name) && IsEndsec(end)
    ensures var st := Fold(open);
      Fold(open + [end]) == State(st.sections[st.name.value := st.current + [end]], None, [])
  {
    FoldOne(open, end);
  }

  lemma SectionSplit(rs: seq<Record>, s: Section)
    ensures rs + SectionRecords(s) == (rs + [s.Head(), s.Name()] + s.body) + [s.End()]
  {
  }

  lemma FoldClosed(rs: seq<Record>, s: Section)
    requires SectionOk(s)
    ensures var closed := rs + SectionRecords(s);
      Settled(closed) && Fold(closed) == State(Fold(rs).sections[s.name := SectionRecords(s)], None, [])
  {
    FoldOpen(rs, s);
    KeywordsAre();
    TruthyMeans(s.name);
    FoldClose(rs + [s.Head(), s.Name()] + s.body, s.End());
    SectionSplit(rs, s);
  }

  lemma FoldSection(rs: seq<Record>, s: Section)
    requires SectionOk(s)
    ensures var all := rs + SectionRecords(s) + s.gap;
      Settled(all) && Fold(all) == State(Fold(rs).sections[s.name := SectionRecords(s)], None, [])
  {
    FoldClosed(rs, s);
    KeywordsAre();
    FoldGap(rs + SectionRecords(s), s.gap);
  }

  lemma {:induction false} FoldLayout(before: seq<Record>, ss: seq<Section>)
    requires (forall r :: r in before ==> !Says(r, Ascii("SECTION"))) && forall s :: s in ss ==> SectionOk(s)
    ensures Settled(Layout(before, ss)) && Fold(Layout(before, ss)) == State(ByName(ss), None, [])
  {
    if ss == [] {
      assert [] + before == before;
      KeywordsAre();
      FoldGap([], before);
    } else {
      var m := |ss| - 1;
      FoldLayout(before, ss[..m]);
      FoldSection(Layout(before, ss[..m]), ss[m]);
    }
  }

  /** Splitting undoes the layout: every section comes out whole under its name, and no tail. */
  lemma SplitLayout(before: seq<Record>, ss: seq<Section>)
    requires (forall r :: r in before ==> !Says(r, Ascii("SECTION"))) && forall s :: s in ss ==> SectionOk(s)
    ensures Split(Layout(before, ss)) == ByName(ss)
  {
    FoldLayout(before, ss);
  }

  /** With distinct names that is all of the sections, and nothing but them. */
  lemma {:induction false} ByNameDistinct(ss: seq<Section>)
    requires forall i, k :: 0 <= i < k < |ss| ==> ss[i].name != ss[k].name
    ensures forall i :: 0 <= i < |ss| ==>
      ss[i].name in ByName(ss) && ByName(ss)[ss[i].name] == SectionRecords(ss[i])
    ensures ByName(ss).Keys == set i | 0 <= i < |ss| :: ss[i].name
  {
    if ss != [] {
      var m := |ss| - 1;
      ByNameDistinct(ss[..m]);
      assert forall i :: 0 <= i < m ==> ss[..m][i] == ss[i];
    }
  }

  predicate TextSection(s: Section) {
    && s.name.Str? && s.name.text != []
    && (forall r :: r in s.body ==> !Says(r, Ascii("SECTION")) && !Says(r, Ascii("ENDSEC")))
    && (forall r :: r in s.gap ==> !Says(r, Ascii("SECTION")))
  }

  lemma TextSectionOk(s: Section)
    requires TextSection(s)
    ensures SectionOk(s)
  {
    assert s.name != Str([]);
  }

  /**
    From the bytes of a file laid out in sections to those sections.  In a file a
    name is a text, and a section has a name if and only if that is not empty.
   */
  lemma FileToSections(items: seq<DxfRoundTrip.Writable>, before: seq<Record>, ss: seq<Section>)
    requires DxfRoundTrip.NoMerge(items) && DxfRoundTrip.Records(items, 22) == Layout(before, ss)
    requires (forall r :: r in before ==> !Says(r, Ascii("SECTION"))) && forall s :: s in ss ==> TextSection(s)
    ensures Split(DxfStream.ParseFile(DxfRoundTrip.FileBytes(items))) == ByName(ss)
  {
    hide *;
    DxfRoundTrip.RoundTrip(items);
    forall s | s in ss ensures SectionOk(s) {
      TextSectionOk(s);
    }
    SplitLayout(before, ss);
  }

  // ---- on every file -------------------------------------------------------

  /** From s to j stands a section with this name: begun by SECTION and the name, ended by ENDSEC, and not begun anew. */
  ghost predicate SectionAt(rs: seq<Record>, name: seq<byte>, s: int, j: int) {
    && 0 <= s && s + 2 <= j < |rs|
    && Says(rs[s], Ascii("SECTION")) && rs[s + 1].code == 2 && rs[s + 1].value == Str(name) && name != []
    && Says(rs[j], Ascii("ENDSEC"))
    && forall k :: s + 2 <= k < j ==>
      !Says(rs[k], Ascii("ENDSEC")) && !(Says(rs[k], Ascii("SECTION")) && k + 1 < j && rs[k + 1].code == 2)
  }

  lemma StartWithin(rs: seq<Record>, j: nat, k: nat)
    requires k < j <= |rs|
    ensures StartAt(rs[..j], k) <==> Says(rs[k], Ascii("SECTION")) && k + 1 < j && rs[k + 1].code == 2
  {
    KeywordsAre();
  }

  lemma SectionAtMeans(rs: seq<Record>, name: seq<byte>, s: int, j: int)
    ensures SectionAt(rs, name, s, j) <==> Named(rs, Str(name), s, j)
  {
    KeywordsAre();
    if 0 <= s && s + 2 <= j < |rs| {
      forall k | s + 2 <= k < j
        ensures StartAt(rs[..j], k) <==> Says(rs[k], Ascii("SECTION")) && k + 1 < j && rs[k + 1].code == 2
      {
        StartWithin(rs, j, k);
      }
      hide Starts;
      assert Str(name) in NO_NAMES <==> name == [];
    }
  }

  /** The last one with this name. */
  ghost predicate LastSectionAt(rs: seq<Record>, name: seq<byte>, s: int, j: int) {
    SectionAt(rs, name, s, j) && forall s', j' :: SectionAt(rs, name, s', j') ==> j' <= j
  }

  lemma LastSectionMeans(rs: seq<Record>, name: seq<byte>, s: int, j: int)
    ensures LastSectionAt(rs, name, s, j) <==> LastSpan(rs, Str(name), s, j)
  {
    hide SectionAt, Named;
    forall s', j' ensures SectionAt(rs, name, s', j') <==> Named(rs, Str(name), s', j') {
      SectionAtMeans(rs, name, s', j');
    }
  }

  /** The records of a section without stray SECTION ones. */
  function SectionContent(rs: seq<Record>, s: nat, j: nat): seq<Record>
    requires s + 2 <= j < |rs|
  {
    [rs[s], rs[s + 1]] + Kept(rs[s + 2..j]) + [rs[j]]
  }

  /** In the records of a file a name is a text. */
  lemma NameIsText(data: seq<byte>, i: nat)
    ensures var rs := DxfStream.ParseFile(data); i < |rs| && rs[i].code == 2 ==> rs[i].value.Str?
  {
    var rs := DxfStream.ParseFile(data);
    DxfStream.FileOffsets(data);
    if i < |rs| {
      assert DxfStream.Stands(data, rs, i);
      DxfWire.NamesAreTexts(data[rs[i].offset..]);
    }
  }

  lemma LastIsThere(rs: seq<Record>, name: seq<byte>, s: int, j: int)
    requires LastSectionAt(rs, name, s, j) && Str(name) != TAIL
    ensures 0 <= s && s + 2 <= j < |rs|
    ensures Str(name) in Split(rs) && Split(rs)[Str(name)] == SectionContent(rs, s, j)
  {
    LastSectionMeans(rs, name, s, j);
    hide Split, LastSectionAt;
    SplitMeans(rs);
  }

  lemma NameIsThere(rs: seq<Record>, v: Value)
    requires (forall r :: r in rs && r.code == 2 ==> r.value.Str?) && v in Split(rs) && v != TAIL
    ensures v.Str? && exists s, j :: SectionAt(rs, v.text, s, j)
  {
    hide Split, SectionAt;
    SplitMeans(rs);
    var s, j :| LastSpan(rs, v, s, j);
    assert rs[s + 1] in rs;
    SectionAtMeans(rs, v.text, s, j);
  }

  /**
    Apart from __tail__ the names are exactly those of the sections in the records,
    and under each name stands the last of them.
   */
  ghost predicate HoldsSections(rs: seq<Record>, sections: Sections) {
    && (forall name, s, j :: LastSectionAt(rs, name, s, j) && name != Ascii("__tail__") ==>
      Str(name) in sections && sections[Str(name)] == SectionContent(rs, s, j))
    && (forall v :: v in sections && v != Str(Ascii("__tail__")) ==>
      v.Str? && exists s, j :: SectionAt(rs, v.text, s, j))
  }

  lemma SplitHoldsSections(rs: seq<Record>)
    requires forall r :: r in rs && r.code == 2 ==> r.value.Str?
    ensures HoldsSections(rs, Split(rs))
  {
    KeywordsAre();
    hide Split, SectionAt, Ascii, SectionContent;
    forall name, s, j | LastSectionAt(rs, name, s, j) && name != Ascii("__tail__")
      ensures 0 <= s && s + 2 <= j < |rs| && Str(name) in Split(rs) && Split(rs)[Str(name)] == SectionContent(rs, s, j)
    {
      LastIsThere(rs, name, s, j);
    }
    forall v | v in Split(rs) && v != Str(Ascii("__tail__"))
      ensures v.Str? && exists s, j :: SectionAt(rs, v.text, s, j)
    {
      NameIsThere(rs, v);
    }
  }

  /** That is so for every file, damaged or not. */
  lemma FileSections(data: seq<byte>)
    ensures HoldsSections(DxfStream.ParseFile(data), Split(DxfStream.ParseFile(data)))
  {
    hide *;
    var rs := DxfStream.ParseFile(data);
    forall i | 0 <= i < |rs| && rs[i].code == 2 ensures rs[i].value.Str? {
      NameIsText(data, i);
    }
    SplitHoldsSections(rs);
  }
}
