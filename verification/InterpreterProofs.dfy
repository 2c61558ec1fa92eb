/** What every run of the drawing script interpreter keeps, on every script. */
module InterpreterProofs {
  import opened Options
  import opened ListScanner
  import opened Interpreter

  // ---- brackets ------------------------------------------------------------

  /** Reading the kinds in order: whether a REPEAT is open at the end, or None if they nest or end too often. */
  function Bracket(ks: seq<Kind>): Option<bool> {
    if ks == [] then Some(false)
    else match Bracket(ks[..|ks| - 1])
      case None => None
      case Some(open) =>
        var k := ks[|ks| - 1];
        if k == REPEAT then if open then None else Some(true)
        else if k == ENDREP then if open then Some(false) else None
        else Some(open)
  }

  function Count(ks: seq<Kind>, k: Kind): nat {
    if ks == [] then 0 else Count(ks[..|ks| - 1], k) + if ks[|ks| - 1] == k then 1 else 0
  }

  /** REPEATs not yet closed. */
  function Depth(ks: seq<Kind>): int {
    Count(ks, REPEAT) - Count(ks, ENDREP)
  }

  /** Brackets are as they should be if and only if the depth is 0 or 1 all the way: they alternate and never nest. */
  lemma {:induction false} BracketMeans(ks: seq<Kind>)
    ensures Bracket(ks).Some? <==> forall m :: 0 <= m <= |ks| ==> 0 <= Depth(ks[..m]) <= 1
    ensures Bracket(ks).Some? ==> Depth(ks) == if Bracket(ks).value then 1 else 0
  {
    assert ks[..|ks|] == ks;
    if ks != [] {
      var p := ks[..|ks| - 1];
      BracketMeans(p);
      assert forall m :: 0 <= m <= |p| ==> p[..m] == ks[..m];
      if Bracket(ks).None? && Bracket(p).Some? {
        assert !(0 <= Depth(ks[..|ks|]) <= 1);
      }
      if Bracket(p).None? {
        var m :| 0 <= m <= |p| && !(0 <= Depth(p[..m]) <= 1);
        assert !(0 <= Depth(ks[..m]) <= 1);
      }
    }
  }

  // ---- the invariant -------------------------------------------------------

  /** What the script itself has added so far. */
  function Script(st: State): seq<Kind>
    requires st.origNum <= |st.objects|
  {
    st.objects[st.origNum..]
  }

  /** A remembered pointer is null or points to something the script added, of the remembered type. */
  predicate SlotOk(slot: Slot, objects: seq<Kind>, origNum: nat) {
    slot.obj.Some? ==> origNum <= slot.obj.value < |objects| && objects[slot.obj.value] == slot.kind
  }

  /** Every field that was set belongs to something the script added, of the type that was asked for. */
  ghost predicate WritesOk(writes: seq<(nat, Kind)>, objects: seq<Kind>, origNum: nat) {
    forall w :: w in writes ==> origNum <= w.0 < |objects| && objects[w.0] == w.1
  }

  /** What an object of this kind has to stand behind, if anything. */
  predicate Owns(owner: Kind, kind: Kind) {
    if kind == ATTRIB then owner == INSERT || owner == MINSERT
    else if kind == XRECORD then owner == DICTIONARY
    else true
  }

  predicate HasOwner(kind: Kind) {
    kind == ATTRIB || kind == XRECORD
  }

  /** Every ATTRIB stands behind an INSERT or MINSERT, and every XRECORD behind a DICTIONARY. */
  ghost predicate Owned(ks: seq<Kind>) {
    forall i {:trigger HasOwner(ks[i])} :: 0 <= i < |ks| && HasOwner(ks[i]) ==> exists j :: 0 <= j < i && Owns(ks[j], ks[i])
  }

  /** What a script may have added under a version, with a REPEAT open or not. */
  ghost predicate ScriptOk(ks: seq<Kind>, version: nat, open: bool) {
    Bracket(ks) == Some(open) && Owned(ks) && forall k :: k in ks ==> Allowed(k, version)
  }

  ghost predicate Fresh(st: State) {
    st.origNum == 0 && st.writes == [] && !st.repeatOpen && st.ent == st.insert == st.dict == st.mtext == NOTHING
  }

  ghost predicate SlotsOk(st: State) {
    && SlotOk(st.ent, st.objects, st.origNum) && SlotOk(st.insert, st.objects, st.origNum)
    && SlotOk(st.dict, st.objects, st.origNum) && SlotOk(st.mtext, st.objects, st.origNum)
    && st.insert.kind in {UNUSED, INSERT, MINSERT} && st.dict.kind in {UNUSED, DICTIONARY}
    && st.mtext.kind in {UNUSED, MTEXT} && (st.dict.kind == DICTIONARY ==> st.dict.obj.Some?)
  }

  ghost predicate Inv(st: State) {
    && st.origNum <= |st.objects| && (st.initial ==> Fresh(st))
    && (!st.initial ==> ScriptOk(Script(st), st.version, st.repeatOpen))
    && SlotsOk(st) && WritesOk(st.writes, st.objects, st.origNum)
  }

  lemma OwnedMore(ks: seq<Kind>, kind: Kind, owner: int)
    requires Owned(ks)
    requires HasOwner(kind) ==> 0 <= owner < |ks| && Owns(ks[owner], kind)
    ensures Owned(ks + [kind])
  {
    hide Owns, HasOwner;
    var all := ks + [kind];
    forall i | 0 <= i < |all| && HasOwner(all[i]) ensures exists j :: 0 <= j < i && Owns(all[j], all[i]) {
      if i < |ks| {
        var j :| 0 <= j < i && Owns(ks[j], ks[i]);
        assert all[j] == ks[j];
      } else {
        assert all[owner] == ks[owner];
      }
    }
  }

  /** Appending one more object to what a script added. */
  lemma GrowScript(ks: seq<Kind>, version: nat, open: bool, kind: Kind, after: bool, owner: int)
    requires ScriptOk(ks, version, open) && Allowed(kind, version)
    requires Bracket(ks + [kind]) == Some(after)
    requires HasOwner(kind) ==> 0 <= owner < |ks| && Owns(ks[owner], kind)
    ensures ScriptOk(ks + [kind], version, after)
  {
    OwnedMore(ks, kind, owner);
  }

  lemma BracketStep(ks: seq<Kind>, kind: Kind, open: bool)
    requires Bracket(ks) == Some(open) && (kind == REPEAT ==> !open) && (kind == ENDREP ==> open)
    ensures Bracket(ks + [kind]) == Some(if kind == REPEAT then true else if kind == ENDREP then false else open)
  {
    assert (ks + [kind])[..|ks|] == ks;
  }

  lemma ScriptGrows(ks: seq<Kind>, version: nat, open: bool, kind: Kind, after: bool, owner: int)
    requires ScriptOk(ks, version, open) && Allowed(kind, version)
    requires after == if kind == REPEAT then true else if kind == ENDREP then false else open
    requires (kind == REPEAT ==> !open) && (kind == ENDREP ==> open)
    requires HasOwner(kind) ==> 0 <= owner < |ks| && Owns(ks[owner], kind)
    ensures ScriptOk(ks + [kind], version, after)
  {
    hide Owned, Allowed, HasOwner, Owns;
    BracketStep(ks, kind, open);
    GrowScript(ks, version, open, kind, after, owner);
  }

  /** The pointer that is passed on to the adding call, for the kinds that need one. */
  predicate Pointed(st: State, kind: Kind) {
    && (kind == ATTRIB ==> st.insert.kind != UNUSED && st.insert.obj.Some?)
    && (kind == XRECORD ==> st.dict.kind == DICTIONARY)
  }

  /** Where it points among the objects of the script. */
  function OwnerOf(st: State, kind: Kind): int {
    if kind == ATTRIB && st.insert.obj.Some? then st.insert.obj.value - st.origNum
    else if kind == XRECORD && st.dict.obj.Some? then st.dict.obj.value - st.origNum
    else 0
  }

  /** It is not null, and points to something the script added that owns such objects. */
  lemma PointerOwns(st: State, kind: Kind)
    requires Inv(st) && !st.initial && HasOwner(kind) && Pointed(st, kind)
    ensures 0 <= OwnerOf(st, kind) < |Script(st)| && Owns(Script(st)[OwnerOf(st, kind)], kind)
  {
  }

  /** An adding call keeps the invariant. */
  lemma AddedKeeps(st: State, kind: Kind, ok: bool)
    requires Inv(st) && !st.initial && Allowed(kind, st.version) && kind != REPEAT && kind != ENDREP
    requires Pointed(st, kind)
    ensures Inv(Added(st, kind, ok))
  {
    if ok {
      GrowObjects(st, kind, st.repeatOpen);
    }
  }

  lemma WritesStay(writes: seq<(nat, Kind)>, objects: seq<Kind>, origNum: nat, kind: Kind)
    requires WritesOk(writes, objects, origNum)
    ensures WritesOk(writes, objects + [kind], origNum)
  {
  }

  lemma GrowObjects(st: State, kind: Kind, after: bool)
    requires Inv(st) && !st.initial && Allowed(kind, st.version)
    requires (kind == REPEAT ==> !st.repeatOpen && after) && (kind == ENDREP ==> st.repeatOpen && !after)
    requires kind != REPEAT && kind != ENDREP ==> after == st.repeatOpen
    requires Pointed(st, kind)
    ensures Inv(st.(objects := st.objects + [kind], repeatOpen := after))
  {
    if HasOwner(kind) {
      PointerOwns(st, kind);
    }
    hide ScriptOk, WritesOk, Owns, HasOwner, OwnerOf, Pointed, Allowed;
    var ks := Script(st);
    WritesStay(st.writes, st.objects, st.origNum, kind);
    ScriptGrows(ks, st.version, st.repeatOpen, kind, after, OwnerOf(st, kind));
    assert (st.objects + [kind])[st.origNum..] == ks + [kind];
  }

  lemma BracketAdded(st: State, kind: Kind)
    requires Inv(st) && !st.initial && (kind == REPEAT || kind == ENDREP) && st.repeatOpen == (kind == ENDREP)
    ensures Inv(Added(st, kind, true).(repeatOpen := kind == REPEAT))
  {
    GrowObjects(st, kind, kind == REPEAT);
  }

  lemma MtextKeeps(st: State, ok: bool)
    requires Inv(st) && !st.initial && Allowed(MTEXT, st.version)
    ensures var t := Added(st, MTEXT, ok); Inv(t.(mtext := t.ent))
  {
    AddedKeeps(st, MTEXT, ok);
  }

  lemma InsertKeeps(st: State, kind: Kind, ok: bool)
    requires Inv(st) && !st.initial && Allowed(kind, st.version) && (kind == INSERT || kind == MINSERT)
    ensures var t := Added(st, kind, ok); Inv(t.(insert := t.ent))
  {
    AddedKeeps(st, kind, ok);
  }

  lemma DictionaryKeeps(st: State)
    requires Inv(st) && !st.initial
    ensures var t := Added(st, DICTIONARY, true); Inv(t.(dict := t.ent))
  {
    AddedKeeps(st, DICTIONARY, true);
  }

  lemma EntityKeeps(st: State, cmd: Command)
    requires Inv(st) && !st.initial && IsEntity(cmd)
    ensures Inv(StepEntity(st, cmd).0)
  {
    hide Inv;
    if StepEntity(st, cmd).1 == GoOn {
      match cmd
      case Add(kind, _, ok) => AddedKeeps(st, kind, ok);
      case Attrib(ok) => AddedKeeps(st, ATTRIB, ok);
      case Line3d(ok) => AddedKeeps(st, if st.version <= R_10 then LINE3D else LINE, ok);
      case Mtext(ok) => MtextKeeps(st, ok);
      case Repeat(_) => BracketAdded(st, REPEAT);
      case EndRep(_) => BracketAdded(st, ENDREP);
      case Insert(multiple, _, ok) => InsertKeeps(st, if multiple then MINSERT else INSERT, ok);
    }
  }

  lemma TakeKeeps(st: State, kind: Kind, scanned: Scanned, wanted: bool, ok: bool, s: Text)
    requires Inv(st) && !st.initial && Allowed(kind, st.version) && kind !in {REPEAT, ENDREP, ATTRIB, XRECORD}
    ensures Inv(TakeList(st, kind, scanned, wanted, ok, s).0)
  {
    AddedKeeps(st, kind, ok);
  }

  lemma ListedKeeps(st: State, cmd: Command, s: Text)
    requires Inv(st) && !st.initial && IsList(cmd)
    ensures Inv(StepListed(st, cmd, s).0)
  {
    hide Inv, Scan;
    match cmd
    case Polyline(kind, num, ok) => TakeKeeps(st, kind, Scan(ListOf(kind), Unsigned(num), s), num != 0, ok, s);
    case Mesh(m, n, ok) => TakeKeeps(st, POLYLINE_MESH, Scan(Points3, Unsigned(m * n), s), m != 0 && n != 0, ok, s);
    case Pface(verts, faces, ok) =>
      var first := Scan(Points3, Unsigned(verts), s);
      if first.Items? {
        var second := Scan(Faces, Unsigned(faces), first.rest);
        TakeKeeps(st, POLYLINE_PFACE, second, verts != 0 && faces != 0, ok, first.rest);
      }
    case Spline(num, tangents, ok) =>
      if Allowed(SPLINE, st.version) {
        TakeKeeps(st, SPLINE, Scan(Points3, Unsigned(num), s), num != 0 && tangents, ok, s);
      }
    case Leader(num, annotation, ok) =>
      if Allowed(LEADER, st.version) {
        TakeKeeps(st, LEADER, Scan(Points3, Unsigned(num), s), num != 0 && annotation, ok, s);
      }
  }

  lemma OtherKeeps(st: State, cmd: Command)
    requires Inv(st) && !st.initial && !IsHeader(cmd) && !IsEntity(cmd) && !IsList(cmd)
    ensures Inv(StepOther(st, cmd).0)
  {
    if StepOther(st, cmd).1 == GoOn {
      match cmd
      case EndBlk(ok) =>
        if ok {
          GrowObjects(st, ENDBLK, st.repeatOpen);
        }
      case Dictionary(_) => DictionaryKeeps(st);
      case XRecord(_, ok) => AddedKeeps(st, XRECORD, ok);
      case Layout(_, _, ok) => AddedKeeps(st, LAYOUT, ok);
      case _ =>
    }
  }

  lemma InitialKeeps(st: State, objects: seq<Kind>, drawing: nat, modelSpace: bool)
    requires Inv(st) && st.initial
    ensures Inv(AddInitial(st.(objects := objects, drawing := drawing), modelSpace))
  {
    assert Script(AddInitial(st.(objects := objects, drawing := drawing), modelSpace)) == [];
  }

  lemma HeaderKeeps(st: State, cmd: Command)
    requires Inv(st) && IsHeader(cmd)
    ensures Inv(StepHeader(st, cmd).0)
    ensures !st.initial ==> StepHeader(st, cmd) == (st, ExitNow)
  {
    if cmd.Read? && st.initial {
      InitialKeeps(st, cmd.loaded, cmd.saved, cmd.modelSpace);
    }
  }

  lemma BodyKeeps(st: State, cmd: Command, s: Text)
    requires Inv(st) && !st.initial && !IsHeader(cmd)
    ensures Inv(StepBody(st, cmd, s).0)
  {
    if IsList(cmd) {
      ListedKeeps(st, cmd, s);
    } else if IsEntity(cmd) {
      EntityKeeps(st, cmd);
    } else {
      OtherKeeps(st, cmd);
    }
  }

  /** Behind the header the versions stay as they are. */
  predicate Settled(st: State, t: State) {
    t.version == st.version && t.drawing == st.drawing && t.initial == st.initial
  }

  lemma EntitySettled(st: State, cmd: Command)
    requires IsEntity(cmd)
    ensures Settled(st, StepEntity(st, cmd).0)
  {
  }

  lemma ListedSettled(st: State, cmd: Command, s: Text)
    requires IsList(cmd)
    ensures Settled(st, StepListed(st, cmd, s).0)
  {
    hide Scan;
  }

  lemma OtherSettled(st: State, cmd: Command)
    requires !IsHeader(cmd) && !IsEntity(cmd) && !IsList(cmd)
    ensures Settled(st, StepOther(st, cmd).0)
  {
  }

  lemma BodySettled(st: State, cmd: Command, s: Text)
    requires !IsHeader(cmd)
    ensures Settled(st, StepBody(st, cmd, s).0)
  {
    if IsList(cmd) {
      ListedSettled(st, cmd, s);
    } else if IsEntity(cmd) {
      EntitySettled(st, cmd);
    } else {
      OtherSettled(st, cmd);
    }
  }

  /** Every command keeps the invariant, whether or not it goes through. */
  lemma StepKeeps(st: State, doc: Document, cmd: Command, s: Text)
    requires Inv(st)
    ensures var t := Step(st, doc, cmd, s).0;
      Inv(t) && (!st.initial ==> t.version == st.version) && (!st.initial || !IsHeader(cmd) ==> !t.initial)
  {
    if IsHeader(cmd) {
      HeaderKeeps(st, cmd);
    } else {
      if st.initial {
        InitialKeeps(st, st.objects + doc.objects, st.drawing, doc.modelSpace);
      }
      BodyKeeps(SetUp(st, doc), cmd, s);
      BodySettled(SetUp(st, doc), cmd, s);
    }
  }

  // ---- whole runs ----------------------------------------------------------

  /** The log of a run: header commands come first, and no more than one of them reads a drawing. */
  ghost predicate HeaderFirst(log: seq<Line>) {
    forall i, j :: 0 <= i < j < |log| && IsHeader(log[j].cmd) ==> IsHeader(log[i].cmd) && !log[i].cmd.Read?
  }

  /** Once the drawing is set up, a run has no header command, and does not change the version. */
  lemma {:induction false} SettledRun(st: State, doc: Document, parse: Text -> Command, s: Text)
    requires Inv(st) && !st.initial
    ensures var (end, _, log) := Run(st, doc, parse, s);
      end.version == st.version && forall line :: line in log ==> !IsHeader(line.cmd)
    decreases |s|
  {
    hide Inv, StepBody;
    SkipIndentShrinks(s);
    var u := SkipIndent(s);
    if |u| > 1 {
      NextLineShrinks(u);
      if BlankOrComment(u) {
        SettledRun(st, doc, parse, NextLine(u));
      } else {
        var cmd := parse(u);
        StepAdvances(st, doc, cmd, u);
        StepKeeps(st, doc, cmd, u);
        if IsHeader(cmd) {
          HeaderKeeps(st, cmd);
        }
        var (t, verdict, c) := Step(st, doc, cmd, u);
        if verdict == GoOn {
          SettledRun(t, doc, parse, NextLine(c));
        }
      }
    }
  }

  lemma StartOk(objects: seq<Kind>, version: nat)
    ensures Inv(Start(objects, version))
  {
  }

  lemma {:induction false} RunKeeps(st: State, doc: Document, parse: Text -> Command, s: Text)
    requires Inv(st)
    ensures Inv(Run(st, doc, parse, s).0)
    decreases |s|
  {
    hide Inv, Step;
    SkipIndentShrinks(s);
    var u := SkipIndent(s);
    if |u| > 1 {
      NextLineShrinks(u);
      if BlankOrComment(u) {
        RunKeeps(st, doc, parse, NextLine(u));
      } else {
        var cmd := parse(u);
        StepAdvances(st, doc, cmd, u);
        StepKeeps(st, doc, cmd, u);
        var (t, verdict, c) := Step(st, doc, cmd, u);
        if verdict == GoOn {
          RunKeeps(t, doc, parse, NextLine(c));
        }
      }
    }
  }

  lemma NoLines()
    ensures HeaderFirst([])
  {
  }

  lemma {:induction false} HeaderFirstMore(line: Line, log: seq<Line>)
    requires HeaderFirst(log)
    requires (IsHeader(line.cmd) && !line.cmd.Read?) || forall later :: later in log ==> !IsHeader(later.cmd)
    ensures HeaderFirst([line] + log)
  {
    hide IsHeader;
    var all := [line] + log;
    assert forall i :: 0 < i < |all| ==> all[i] == log[i - 1];
  }

  lemma {:induction false} RunHeader(st: State, doc: Document, parse: Text -> Command, s: Text)
    requires Inv(st)
    ensures HeaderFirst(Run(st, doc, parse, s).2)
    decreases |s|
  {
    hide Inv, StepBody, HeaderFirst;
    SkipIndentShrinks(s);
    var u := SkipIndent(s);
    NoLines();
    if |u| > 1 {
      NextLineShrinks(u);
      if BlankOrComment(u) {
        RunHeader(st, doc, parse, NextLine(u));
      } else {
        var cmd := parse(u);
        StepAdvances(st, doc, cmd, u);
        StepKeeps(st, doc, cmd, u);
        var (t, verdict, c) := Step(st, doc, cmd, u);
        if verdict == GoOn {
          RunHeader(t, doc, parse, NextLine(c));
          if !t.initial {
            SettledRun(t, doc, parse, NextLine(c));
          }
          assert t.initial ==> IsHeader(cmd) && !cmd.Read?;
          HeaderFirstMore(Line(cmd, u), Run(t, doc, parse, NextLine(c)).2);
        }
      }
    }
  }

  lemma {:induction false} RunConcludes(st: State, doc: Document, parse: Text -> Command, s: Text)
    ensures var (end, outcome, _) := Run(st, doc, parse, s); outcome.Returned? || outcome.Unclosed? ==> outcome == Conclude(end)
    decreases |s|
  {
    SkipIndentShrinks(s);
    var u := SkipIndent(s);
    if |u| > 1 {
      NextLineShrinks(u);
      if BlankOrComment(u) {
        RunConcludes(st, doc, parse, NextLine(u));
      } else {
        StepAdvances(st, doc, parse(u), u);
        var (t, verdict, c) := Step(st, doc, parse(u), u);
        if verdict == GoOn {
          RunConcludes(t, doc, parse, NextLine(c));
        }
      }
    }
  }

  lemma StepInitial(st: State, doc: Document, cmd: Command, s: Text)
    ensures var t := Step(st, doc, cmd, s).0; t.initial ==> st.initial && t.objects == st.objects
  {
    if !IsHeader(cmd) {
      BodySettled(SetUp(st, doc), cmd, s);
    }
  }

  /** A run that never left the header changed nothing in the drawing. */
  lemma {:induction false} RunInitial(st: State, doc: Document, parse: Text -> Command, s: Text)
    requires Run(st, doc, parse, s).0.initial
    ensures st.initial && Run(st, doc, parse, s).0.objects == st.objects
    decreases |s|
  {
    hide Inv, Step;
    SkipIndentShrinks(s);
    var u := SkipIndent(s);
    if |u| > 1 {
      NextLineShrinks(u);
      if BlankOrComment(u) {
        RunInitial(st, doc, parse, NextLine(u));
      } else {
        StepAdvances(st, doc, parse(u), u);
        var (t, verdict, c) := Step(st, doc, parse(u), u);
        if verdict == GoOn {
          RunInitial(t, doc, parse, NextLine(c));
        }
        StepInitial(st, doc, parse(u), u);
      }
    }
  }

  /**
    Every script, from the start: the invariant holds at the end however the run
    ended, the commands that went through have the header first, and a run that
    reaches the final return has balanced brackets and says whether there are
    more objects than when the drawing was set up.  A run that never left the
    header compares with nothing: it returns 0 if the drawing came with objects.
   */
  lemma EveryRun(objects: seq<Kind>, version: nat, doc: Document, parse: Text -> Command, s: Text)
    ensures var (end, outcome, log) := Run(Start(objects, version), doc, parse, s);
      && Inv(end) && HeaderFirst(log)
      && (outcome.Returned? && !end.initial ==>
        && Count(Script(end), REPEAT) == Count(Script(end), ENDREP)
        && (outcome.code == 0 <==> Script(end) != []))
      && (outcome.Unclosed? ==> !end.initial && Count(Script(end), REPEAT) == Count(Script(end), ENDREP) + 1)
      && (outcome.Returned? && end.initial ==>
        end.objects == objects && (outcome.code == 0 <==> objects != []))
  {
    var st := Start(objects, version);
    StartOk(objects, version);
    RunKeeps(st, doc, parse, s);
    RunHeader(st, doc, parse, s);
    RunConcludes(st, doc, parse, s);
    var end := Run(st, doc, parse, s).0;
    if !end.initial {
      BracketMeans(Script(end));
    } else {
      RunInitial(st, doc, parse, s);
    }
  }
}
