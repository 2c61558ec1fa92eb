/** Which XRECORDs a script can add, and to which dictionary. */
module InterpreterDictionaries {
  import opened Options
  import opened ListScanner
  import opened Interpreter
  import opened InterpreterProofs

  /**
    The remembered dictionary is the last one that the script added, and there is
    none exactly as long as the script has added none.
   */
  ghost predicate Remembers(st: State) {
    && st.origNum <= |st.objects|
    && if st.dict.kind == DICTIONARY then
         && st.dict.obj.Some? && st.origNum <= st.dict.obj.value < |st.objects|
         && st.objects[st.dict.obj.value] == DICTIONARY
         && forall k :: st.dict.obj.value < k < |st.objects| ==> st.objects[k] != DICTIONARY
       else
         !st.initial ==> DICTIONARY !in Script(st)
  }

  /** The same dictionary, and at most one more object, of another kind. */
  ghost predicate Appends(st: State, t: State) {
    && t.dict == st.dict && t.origNum == st.origNum && t.initial == st.initial
    && (t.objects == st.objects || exists kind :: kind != DICTIONARY && t.objects == st.objects + [kind])
  }

  lemma AppendsKeeps(st: State, t: State)
    requires Remembers(st) && Appends(st, t)
    ensures Remembers(t)
  {
    if t.objects != st.objects {
      var kind :| kind != DICTIONARY && t.objects == st.objects + [kind];
      assert t.objects[st.origNum..] == st.objects[st.origNum..] + [kind];
    }
  }

  lemma NothingAppends(st: State)
    ensures Appends(st, st)
  {
  }

  lemma AddedAppends(st: State, kind: Kind, ok: bool)
    requires kind != DICTIONARY
    ensures Appends(st, Added(st, kind, ok))
  {
  }

  /** The variables that a command sets besides are no dictionary. */
  lemma SameObjects(st: State, t: State, u: State)
    requires Appends(st, t) && u.dict == t.dict && u.origNum == t.origNum && u.initial == t.initial && u.objects == t.objects
    ensures Appends(st, u)
  {
  }

  lemma EntityAppends(st: State, cmd: Command)
    requires IsEntity(cmd)
    ensures Appends(st, StepEntity(st, cmd).0)
  {
    hide Appends;
    var t := StepEntity(st, cmd).0;
    NothingAppends(st);
    match cmd
    case Add(kind, _, ok) => AddedAppends(st, kind, ok);
    case Attrib(ok) => AddedAppends(st, ATTRIB, ok);
    case Line3d(ok) => AddedAppends(st, if st.version <= R_10 then LINE3D else LINE, ok);
    case Mtext(ok) =>
      AddedAppends(st, MTEXT, ok);
      SameObjects(st, if StepEntity(st, cmd).1 == GoOn then Added(st, MTEXT, ok) else st, t);
    case Repeat(_) =>
      AddedAppends(st, REPEAT, true);
      SameObjects(st, if StepEntity(st, cmd).1 == GoOn then Added(st, REPEAT, true) else st, t);
    case EndRep(_) =>
      AddedAppends(st, ENDREP, true);
      SameObjects(st, if StepEntity(st, cmd).1 == GoOn then Added(st, ENDREP, true) else st, t);
    case Insert(multiple, _, ok) =>
      var kind := if multiple then MINSERT else INSERT;
      AddedAppends(st, kind, ok);
      SameObjects(st, if StepEntity(st, cmd).1 == GoOn then Added(st, kind, ok) else st, t);
  }

  lemma TakeAppends(st: State, kind: Kind, scanned: Scanned, wanted: bool, ok: bool, s: Text)
    requires kind != DICTIONARY
    ensures Appends(st, TakeList(st, kind, scanned, wanted, ok, s).0)
  {
    hide Appends;
    NothingAppends(st);
    AddedAppends(st, kind, ok);
  }

  lemma ListedAppends(st: State, cmd: Command, s: Text)
    requires IsList(cmd)
    ensures Appends(st, StepListed(st, cmd, s).0)
  {
    hide Appends, Scan, TakeList;
    NothingAppends(st);
    match cmd
    case Polyline(kind, num, ok) => TakeAppends(st, kind, Scan(ListOf(kind), Unsigned(num), s), num != 0, ok, s);
    case Mesh(m, n, ok) => TakeAppends(st, POLYLINE_MESH, Scan(Points3, Unsigned(m * n), s), m != 0 && n != 0, ok, s);
    case Pface(verts, faces, ok) =>
      var first := Scan(Points3, Unsigned(verts), s);
      if first.Items? {
        var second := Scan(Faces, Unsigned(faces), first.rest);
        TakeAppends(st, POLYLINE_PFACE, second, verts != 0 && faces != 0, ok, first.rest);
      }
    case Spline(num, tangents, ok) =>
      TakeAppends(st, SPLINE, Scan(Points3, Unsigned(num), s), num != 0 && tangents, ok, s);
    case Leader(num, annotation, ok) =>
      TakeAppends(st, LEADER, Scan(Points3, Unsigned(num), s), num != 0 && annotation, ok, s);
  }

  lemma OtherAppends(st: State, cmd: Command)
    requires !IsHeader(cmd) && !IsEntity(cmd) && !IsList(cmd) && !cmd.Dictionary?
    ensures Appends(st, StepOther(st, cmd).0)
  {
    match cmd
    case EndBlk(_) => assert ENDBLK != DICTIONARY;
    case XRecord(_, ok) => AddedAppends(st, XRECORD, ok);
    case Layout(_, _, ok) => AddedAppends(st, LAYOUT, ok);
    case _ =>
  }

  /** A dictionary line that goes through is remembered. */
  lemma DictionaryRemembered(st: State, name: bool)
    requires Remembers(st) && !st.initial
    ensures Remembers(StepOther(st, Dictionary(name)).0)
  {
  }

  lemma BodyRemembers(st: State, cmd: Command, s: Text)
    requires Remembers(st) && !st.initial && !IsHeader(cmd)
    ensures Remembers(StepBody(st, cmd, s).0)
  {
    hide StepEntity, StepListed, StepOther, Remembers, Appends;
    if IsList(cmd) {
      ListedAppends(st, cmd, s);
      AppendsKeeps(st, StepListed(st, cmd, s).0);
    } else if IsEntity(cmd) {
      EntityAppends(st, cmd);
      AppendsKeeps(st, StepEntity(st, cmd).0);
    } else if cmd.Dictionary? {
      DictionaryRemembered(st, cmd.name);
    } else {
      OtherAppends(st, cmd);
      AppendsKeeps(st, StepOther(st, cmd).0);
    }
  }

  lemma InitialRemembers(st: State, objects: seq<Kind>, drawing: nat, modelSpace: bool)
    requires st.dict.kind != DICTIONARY
    ensures Remembers(AddInitial(st.(objects := objects, drawing := drawing), modelSpace))
  {
    assert Script(AddInitial(st.(objects := objects, drawing := drawing), modelSpace)) == [];
  }

  lemma SetUpRemembers(st: State, doc: Document)
    requires Inv(st) && Remembers(st)
    ensures Remembers(SetUp(st, doc)) && !SetUp(st, doc).initial
  {
    if st.initial {
      InitialRemembers(st, st.objects + doc.objects, st.drawing, doc.modelSpace);
    }
  }

  lemma HeaderRemembers(st: State, cmd: Command)
    requires Inv(st) && Remembers(st) && IsHeader(cmd)
    ensures Remembers(StepHeader(st, cmd).0)
  {
    if cmd.Read? && st.initial {
      InitialRemembers(st, cmd.loaded, cmd.saved, cmd.modelSpace);
    }
  }

  lemma StepRemembers(st: State, doc: Document, cmd: Command, s: Text)
    requires Inv(st) && Remembers(st)
    ensures Remembers(Step(st, doc, cmd, s).0)
  {
    hide Inv, Remembers, StepHeader, StepBody;
    if IsHeader(cmd) {
      HeaderRemembers(st, cmd);
    } else {
      SetUpRemembers(st, doc);
      BodyRemembers(SetUp(st, doc), cmd, s);
    }
  }

  lemma {:induction false} RunRemembers(st: State, doc: Document, parse: Text -> Command, s: Text)
    requires Inv(st) && Remembers(st)
    ensures Remembers(Run(st, doc, parse, s).0)
    decreases |s|
  {
    hide Inv, Remembers, Step;
    SkipIndentShrinks(s);
    var u := SkipIndent(s);
    if |u| > 1 {
      NextLineShrinks(u);
      if BlankOrComment(u) {
        RunRemembers(st, doc, parse, NextLine(u));
      } else {
        var cmd := parse(u);
        StepAdvances(st, doc, cmd, u);
        StepKeeps(st, doc, cmd, u);
        StepRemembers(st, doc, cmd, u);
        var (t, verdict, c) := Step(st, doc, cmd, u);
        if verdict == GoOn {
          RunRemembers(t, doc, parse, NextLine(c));
        }
      }
    }
  }

  /**
    An xrecord line goes through if and only if its name is valid and the script
    has added a DICTIONARY; the pointer it passes on is then the last of those.
   */
  lemma XRecordGoes(st: State, doc: Document, name: bool, ok: bool, s: Text)
    requires Inv(st) && Remembers(st)
    ensures Step(st, doc, XRecord(name, ok), s).1 == GoOn <==> !st.initial && DICTIONARY in Script(st) && name
    ensures Step(st, doc, XRecord(name, ok), s).1 == GoOn ==>
      && st.dict.obj.Some? && st.origNum <= st.dict.obj.value < |st.objects| && st.objects[st.dict.obj.value] == DICTIONARY
      && forall k :: st.dict.obj.value < k < |st.objects| ==> st.objects[k] != DICTIONARY
  {
    if st.dict.kind == DICTIONARY && !st.initial {
      assert Script(st)[st.dict.obj.value - st.origNum] == DICTIONARY;
    }
  }

  /** In every run each XRECORD that the script added stands behind a DICTIONARY that it added. */
  lemma EveryXRecord(objects: seq<Kind>, version: nat, doc: Document, parse: Text -> Command, s: Text, i: nat)
    ensures var end := Run(Start(objects, version), doc, parse, s).0;
      && Remembers(end)
      && (!end.initial && i < |Script(end)| && Script(end)[i] == XRECORD ==>
        exists j :: 0 <= j < i && Script(end)[j] == DICTIONARY)
  {
    var st := Start(objects, version);
    var end := Run(st, doc, parse, s).0;
    StartOk(objects, version);
    RunKeeps(st, doc, parse, s);
    RunRemembers(st, doc, parse, s);
    if !end.initial && i < |Script(end)| && Script(end)[i] == XRECORD {
      assert HasOwner(Script(end)[i]);
      var j :| 0 <= j < i && Owns(Script(end)[j], Script(end)[i]);
    }
  }
}
