/** Where the entities of a script go: into a block, and into model space only where there is one. */
module InterpreterBlocks {
  import opened Options
  import opened ListScanner
  import opened Interpreter
  import opened InterpreterProofs

  /** Kinds that are put into the current block. */
  predicate Placed(kind: Kind) {
    NeedsBlock(kind) && kind !in {ENDBLK, DICTIONARY, XRECORD, LAYOUT}
  }

  /** Without a current block the script has placed nothing, and the block is not model space unless there is one. */
  ghost predicate InBlock(st: State) {
    && st.origNum <= |st.objects|
    && (st.block == Some(ModelSpace) ==> st.mspace)
    && (!st.initial && st.block.None? ==> forall kind :: kind in Script(st) ==> !Placed(kind))
  }

  lemma GrowInBlock(st: State, kind: Kind)
    requires InBlock(st) && !st.initial && (Placed(kind) ==> st.block.Some?)
    ensures InBlock(st.(objects := st.objects + [kind]))
  {
    assert (st.objects + [kind])[st.origNum..] == Script(st) + [kind];
  }

  lemma AddedInBlock(st: State, kind: Kind, ok: bool)
    requires InBlock(st) && !st.initial && (Placed(kind) ==> st.block.Some?)
    ensures InBlock(Added(st, kind, ok))
  {
    GrowInBlock(st, kind);
  }

  /** An INSERT that is remembered was placed, so there is a block. */
  lemma InsertInBlock(st: State)
    requires Inv(st) && InBlock(st) && !st.initial && st.insert.kind != UNUSED && st.insert.obj.Some?
    ensures st.block.Some?
  {
    hide ScriptOk, WritesOk;
    assert Script(st)[st.insert.obj.value - st.origNum] == st.insert.kind;
    assert st.insert.kind in Script(st) && Placed(st.insert.kind);
  }

  lemma EntityInBlock(st: State, cmd: Command)
    requires Inv(st) && InBlock(st) && !st.initial && IsEntity(cmd)
    ensures InBlock(StepEntity(st, cmd).0)
  {
    if StepEntity(st, cmd).1 == GoOn {
      match cmd
      case Add(kind, _, ok) => AddedInBlock(st, kind, ok);
      case Attrib(ok) => InsertInBlock(st); AddedInBlock(st, ATTRIB, ok);
      case Line3d(ok) => AddedInBlock(st, if st.version <= R_10 then LINE3D else LINE, ok);
      case Mtext(ok) => AddedInBlock(st, MTEXT, ok);
      case Repeat(_) => AddedInBlock(st, REPEAT, true);
      case EndRep(_) => AddedInBlock(st, ENDREP, true);
      case Insert(multiple, _, ok) => AddedInBlock(st, if multiple then MINSERT else INSERT, ok);
    }
  }

  lemma TakeInBlock(st: State, kind: Kind, scanned: Scanned, wanted: bool, ok: bool, s: Text)
    requires InBlock(st) && !st.initial
    ensures InBlock(TakeList(st, kind, scanned, wanted, ok, s).0)
  {
    if st.block.Some? {
      AddedInBlock(st, kind, ok);
    }
  }

  lemma ListedInBlock(st: State, cmd: Command, s: Text)
    requires InBlock(st) && !st.initial && IsList(cmd)
    ensures InBlock(StepListed(st, cmd, s).0)
  {
    match cmd
    case Polyline(kind, num, ok) => TakeInBlock(st, kind, Scan(ListOf(kind), Unsigned(num), s), num != 0, ok, s);
    case Mesh(m, n, ok) => TakeInBlock(st, POLYLINE_MESH, Scan(Points3, Unsigned(m * n), s), m != 0 && n != 0, ok, s);
    case Pface(verts, faces, ok) =>
      var first := Scan(Points3, Unsigned(verts), s);
      if first.Items? {
        var second := Scan(Faces, Unsigned(faces), first.rest);
        TakeInBlock(st, POLYLINE_PFACE, second, verts != 0 && faces != 0, ok, first.rest);
      }
    case Spline(num, tangents, ok) =>
      TakeInBlock(st, SPLINE, Scan(Points3, Unsigned(num), s), num != 0 && tangents, ok, s);
    case Leader(num, annotation, ok) =>
      TakeInBlock(st, LEADER, Scan(Points3, Unsigned(num), s), num != 0 && annotation, ok, s);
  }

  lemma OtherInBlock(st: State, cmd: Command)
    requires InBlock(st) && !st.initial && !IsHeader(cmd) && !IsEntity(cmd) && !IsList(cmd)
    ensures InBlock(StepOther(st, cmd).0)
  {
    if StepOther(st, cmd).1 == GoOn {
      match cmd
      case EndBlk(_) => GrowInBlock(st, ENDBLK);
      case Dictionary(_) => AddedInBlock(st, DICTIONARY, true);
      case XRecord(_, ok) => AddedInBlock(st, XRECORD, ok);
      case Layout(_, _, ok) => AddedInBlock(st, LAYOUT, ok);
      case _ =>
    }
  }

  lemma BodyInBlock(st: State, cmd: Command, s: Text)
    requires Inv(st) && InBlock(st) && !st.initial && !IsHeader(cmd)
    ensures InBlock(StepBody(st, cmd, s).0)
  {
    if IsList(cmd) {
      ListedInBlock(st, cmd, s);
    } else if IsEntity(cmd) {
      EntityInBlock(st, cmd);
    } else {
      OtherInBlock(st, cmd);
    }
  }

  lemma InitialInBlock(st: State, objects: seq<Kind>, drawing: nat, modelSpace: bool)
    ensures InBlock(AddInitial(st.(objects := objects, drawing := drawing), modelSpace))
  {
    assert Script(AddInitial(st.(objects := objects, drawing := drawing), modelSpace)) == [];
  }

  lemma HeaderInBlock(st: State, cmd: Command)
    requires InBlock(st) && IsHeader(cmd)
    ensures InBlock(StepHeader(st, cmd).0)
  {
    if cmd.Read? {
      InitialInBlock(st, cmd.loaded, cmd.saved, cmd.modelSpace);
    }
  }

  lemma StepInBlock(st: State, doc: Document, cmd: Command, s: Text)
    requires Inv(st) && InBlock(st)
    ensures InBlock(Step(st, doc, cmd, s).0)
  {
    if IsHeader(cmd) {
      HeaderInBlock(st, cmd);
    } else {
      if st.initial {
        InitialKeeps(st, st.objects + doc.objects, st.drawing, doc.modelSpace);
        InitialInBlock(st, st.objects + doc.objects, st.drawing, doc.modelSpace);
      }
      BodyInBlock(SetUp(st, doc), cmd, s);
    }
  }

  lemma {:induction false} RunInBlock(st: State, doc: Document, parse: Text -> Command, s: Text)
    requires Inv(st) && InBlock(st)
    ensures InBlock(Run(st, doc, parse, s).0)
    decreases |s|
  {
    hide Inv, InBlock, Step;
    SkipIndentShrinks(s);
    var u := SkipIndent(s);
    if |u| > 1 {
      NextLineShrinks(u);
      if BlankOrComment(u) {
        RunInBlock(st, doc, parse, NextLine(u));
      } else {
        var cmd := parse(u);
        StepAdvances(st, doc, cmd, u);
        StepKeeps(st, doc, cmd, u);
        StepInBlock(st, doc, cmd, u);
        var (t, verdict, c) := Step(st, doc, cmd, u);
        if verdict == GoOn {
          RunInBlock(t, doc, parse, NextLine(c));
        }
      }
    }
  }

  /** Every script: entities go into a block, and model space is only gone to in a drawing that has one. */
  lemma EveryEntityInBlock(objects: seq<Kind>, version: nat, doc: Document, parse: Text -> Command, s: Text)
    ensures InBlock(Run(Start(objects, version), doc, parse, s).0)
  {
    StartOk(objects, version);
    RunInBlock(Start(objects, version), doc, parse, s);
  }
}
