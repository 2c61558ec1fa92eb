/** dwg_add_dat as the source has it: variables and a drawing that the lines of the script change one after the other. */
module InterpreterMachine {
  import opened Options
  import opened ListScanner
  import opened Interpreter

  class Machine {
    var initial: bool
    var imperial: bool
    var repeatOpen: bool
    var version: nat
    var drawing: nat
    var mspace: bool
    var block: Option<Space>
    var ent: Slot
    var insert: Slot
    var dict: Slot
    var mtext: Slot
    var objects: seq<Kind>
    var origNum: nat
    var writes: seq<(nat, Kind)>

    constructor (objects: seq<Kind>, version: nat)
      ensures View() == Start(objects, version)
    {
      initial, imperial, repeatOpen := true, false, false;
      this.version := if version == 0 then 25 else version;
      drawing := version;
      mspace, block := false, None;
      ent, insert, dict, mtext := NOTHING, NOTHING, NOTHING, NOTHING;
      this.objects, origNum, writes := objects, 0, [];
    }

    function View(): State
      reads this
    {
      State(initial, imperial, repeatOpen, version, drawing, mspace, block, ent, insert, dict, mtext, objects, origNum, writes)
    }

    /** ADD_INITIAL (lines 624-628). */
    method SetInitial(modelSpace: bool)
      modifies this
      ensures View() == AddInitial(old(View()), modelSpace)
    {
      mspace := modelSpace;
      block := if mspace then Some(ModelSpace) else None;
      origNum := |objects|;
      initial := false;
    }

    /** An adding call whose result becomes the last entity. */
    method AddObject(kind: Kind, ok: bool)
      modifies this
      ensures View() == Added(old(View()), kind, ok)
    {
      ent := Slot(kind, None);
      if ok {
        ent := Slot(kind, Some(|objects|));
        objects := objects + [kind];
      }
    }

    /** Lines 754-888. */
    method ExecuteHeader(cmd: Command) returns (verdict: Verdict)
      requires IsHeader(cmd)
      modifies this
      ensures (View(), verdict) == StepHeader(old(View()), cmd)
    {
      verdict := GoOn;
      if !initial || objects != [] {
        return ExitNow;
      }
      if cmd.Read? {
        if !cmd.found {
          return ExitNow;
        }
        objects, drawing := cmd.loaded, cmd.saved;
        SetInitial(cmd.modelSpace);
      } else if cmd.Imperial? {
        imperial := true;
      } else {
        if cmd.version == None || cmd.version.value >= R_AFTER {
          return ExitNow;
        }
        version := cmd.version.value;
      }
    }

    /** The entities that come with one list (lines 1594-1639, 1723-1767, 1847-1904). */
    method ExecuteList(kind: Kind, list: List, num: nat, wanted: bool, ok: bool, p: Text)
      returns (verdict: Verdict, rest: Text)
      modifies this
      ensures (View(), verdict, rest) == StepList(old(View()), kind, list, num, wanted, ok, p)
    {
      var scanned := ScanList(list, num, p);
      verdict, rest := AddListed(kind, scanned, wanted, ok, p);
    }

    method AddListed(kind: Kind, scanned: Scanned, wanted: bool, ok: bool, p: Text) returns (verdict: Verdict, rest: Text)
      modifies this
      ensures (View(), verdict, rest) == TakeList(old(View()), kind, scanned, wanted, ok, p)
    {
      match scanned
      case Exit =>
        return ExitNow, p;
      case Null(q) =>
        return GoOn, q;
      case Items(_, q) =>
        if wanted {
          if block == None {
            return ExitNow, q;
          }
          AddObject(kind, ok);
        }
        return GoOn, q;
    }

    /** polyline_pface (lines 1669-1718). */
    method ExecutePface(verts: int, faces: int, ok: bool, p: Text) returns (verdict: Verdict, rest: Text)
      modifies this
      ensures (View(), verdict, rest) == StepPface(old(View()), verts, faces, ok, p)
    {
      var first := ScanList(Points3, Unsigned(verts), p);
      if first.Exit? {
        return ExitNow, p;
      }
      rest := first.rest;
      verdict := GoOn;
      if FacesAhead(rest) {
        if first.Items? {
          verdict, rest := ExecuteList(POLYLINE_PFACE, Faces, Unsigned(faces), verts != 0 && faces != 0, ok, rest);
        } else {
          var second := ScanList(Faces, Unsigned(faces), rest);
          if second.Exit? {
            return ExitNow, rest;
          }
          rest := second.rest;
        }
      }
    }

    method ExecuteEntity(cmd: Command) returns (verdict: Verdict)
      requires IsEntity(cmd)
      modifies this
      ensures (View(), verdict) == StepEntity(old(View()), cmd)
    {
      verdict := GoOn;
      match cmd {
        case Add(kind, name, ok) =>
          if !Allowed(kind, version) || (NeedsBlock(kind) && block == None) || !name { return ExitNow; }
          AddObject(kind, ok);
        case Attrib(ok) =>
          if !Allowed(ATTRIB, version) || insert.kind == UNUSED || insert.obj == None { return ExitNow; }
          AddObject(ATTRIB, ok);
        case Line3d(ok) =>
          if version < R_2_4 || block == None { return ExitNow; }
          AddObject(if version <= R_10 then LINE3D else LINE, ok);
        case Mtext(ok) =>
          if !Allowed(MTEXT, version) || block == None { return ExitNow; }
          AddObject(MTEXT, ok);
          mtext := ent;
        case Repeat(ok) =>
          if repeatOpen || block == None { return ExitNow; }
          if !ok { return ReturnOne; }
          AddObject(REPEAT, true);
          repeatOpen := true;
        case EndRep(ok) =>
          if !repeatOpen || block == None { return ExitNow; }
          if !ok { return ReturnOne; }
          AddObject(ENDREP, true);
          repeatOpen := false;
        case Insert(multiple, name, ok) =>
          var kind := if multiple then MINSERT else INSERT;
          if !Allowed(kind, version) || block == None || !name { return ExitNow; }
          AddObject(kind, ok);
          insert := ent;
      }
    }

    method ExecuteListed(cmd: Command, p: Text) returns (verdict: Verdict, rest: Text)
      requires IsList(cmd)
      modifies this
      ensures (View(), verdict, rest) == StepListed(old(View()), cmd, p)
    {
      hide Scan;
      match cmd {
        case Polyline(kind, num, ok) =>
          verdict, rest := ExecuteList(kind, ListOf(kind), Unsigned(num), num != 0, ok, p);
        case Mesh(m, n, ok) =>
          verdict, rest := ExecuteList(POLYLINE_MESH, Points3, Unsigned(m * n), m != 0 && n != 0, ok, p);
        case Pface(verts, faces, ok) =>
          verdict, rest := ExecutePface(verts, faces, ok, p);
        case Spline(num, tangents, ok) =>
          if !Allowed(SPLINE, version) { return ExitNow, p; }
          verdict, rest := ExecuteList(SPLINE, Points3, Unsigned(num), num != 0 && tangents, ok, p);
        case Leader(num, annotation, ok) =>
          if ent.kind != MTEXT { return GoOn, p; }
          if !Allowed(LEADER, version) || mtext.kind != MTEXT { return ExitNow, p; }
          verdict, rest := ExecuteList(LEADER, Points3, Unsigned(num), num != 0 && annotation, ok, p);
      }
    }

    method ExecuteOther(cmd: Command) returns (verdict: Verdict)
      requires !IsHeader(cmd) && !IsEntity(cmd) && !IsList(cmd)
      modifies this
      ensures (View(), verdict) == StepOther(old(View()), cmd)
    {
      verdict := GoOn;
      match cmd {
        case PSpace(found) =>
          if !found { return ExitNow; }
          block := Some(PaperSpace);
        case MSpace =>
          if !mspace { return ExitNow; }
          block := Some(ModelSpace);
        case EndBlk(ok) =>
          if ok { objects := objects + [ENDBLK]; }
        case Dictionary(name) =>
          if !name { return ExitNow; }
          AddObject(DICTIONARY, true);
          dict := ent;
        case XRecord(name, ok) =>
          if dict.kind != DICTIONARY || !name { return ExitNow; }
          AddObject(XRECORD, ok);
        case Layout(name, owner, ok) =>
          if !Allowed(LAYOUT, version) || ent.kind != VIEWPORT || !name { return ExitNow; }
          if owner { AddObject(LAYOUT, ok); }
        case SetField(kind, field) =>
          if ent.obj == None || ent.kind != kind || !field { return ExitNow; }
          writes := writes + [(ent.obj.value, kind)];
        case SetHeader(field) =>
          if !field { return ExitNow; }
        case Unknown =>
      }
    }

    /** The cascade from line 1064 on. */
    method ExecuteBody(cmd: Command, p: Text) returns (verdict: Verdict, rest: Text)
      requires !IsHeader(cmd)
      modifies this
      ensures (View(), verdict, rest) == StepBody(old(View()), cmd, p)
    {
      rest := p;
      if IsList(cmd) {
        verdict, rest := ExecuteListed(cmd, p);
      } else if IsEntity(cmd) {
        verdict := ExecuteEntity(cmd);
      } else {
        verdict := ExecuteOther(cmd);
      }
    }

    /** One line: a header command, or the drawing is set up and the cascade runs. */
    method ExecuteLine(doc: Document, cmd: Command, p: Text) returns (verdict: Verdict, rest: Text)
      modifies this
      ensures (View(), verdict, rest) == Step(old(View()), doc, cmd, p)
    {
      hide StepHeader, StepBody;
      if IsHeader(cmd) {
        verdict := ExecuteHeader(cmd);
        rest := if cmd.Version? && cmd.whole && |p| >= 8 then p[8..] else p;
      } else {
        if initial {
          objects := objects + doc.objects;
          SetInitial(doc.modelSpace);
        }
        verdict, rest := ExecuteBody(cmd, p);
      }
    }

    /** dwg_add_dat: line by line from the start of the text to its end. */
    method DwgAddDat(doc: Document, parse: Text -> Command, text: Text) returns (outcome: Outcome, ghost log: seq<Line>)
      modifies this
      ensures (View(), outcome, log) == Run(old(View()), doc, parse, text)
    {
      var p := text;
      log := [];
      ghost var whole := Run(View(), doc, parse, text);
      assert [] + whole.2 == whole.2;
      while true
        invariant RunLeft(whole, log, Run(View(), doc, parse, p))
        decreases |p|
      {
        RunStep(whole, log, View(), doc, parse, p);
        SkipIndentShrinks(p);
        p := SkipIndent(p);
        if |p| <= 1 {
          break;
        }
        if BlankOrComment(p) {
          NextLineShrinks(p);
          p := NextLine(p);
          continue;
        }
        var cmd := parse(p);
        StepAdvances(View(), doc, cmd, p);
        var verdict, rest := ExecuteLine(doc, cmd, p);
        if verdict == ExitNow {
          return Exited(Line(cmd, p)), log;
        }
        if verdict == ReturnOne {
          return GaveUp(Line(cmd, p)), log;
        }
        log := log + [Line(cmd, p)];
        p := NextLine(rest);
      }
      outcome := if repeatOpen then Unclosed else Returned(if |objects| > origNum then 0 else 1);
    }
  }

  lemma RunStep(whole: (State, Outcome, seq<Line>), log: seq<Line>, st: State, doc: Document,
                parse: Text -> Command, p: Text)
    requires RunLeft(whole, log, Run(st, doc, parse, p))
    ensures var u := SkipIndent(p);
      if |u| <= 1 then whole == (st, Conclude(st), log)
      else if BlankOrComment(u) then RunLeft(whole, log, Run(st, doc, parse, NextLine(u)))
      else
        var (t, verdict, c) := Step(st, doc, parse(u), u);
        if verdict == ExitNow then whole == (t, Exited(Line(parse(u), u)), log)
        else if verdict == ReturnOne then whole == (t, GaveUp(Line(parse(u), u)), log)
        else RunLeft(whole, log + [Line(parse(u), u)], Run(t, doc, parse, NextLine(c)))
  {
    assert log + [] == log;
    var u := SkipIndent(p);
    if |u| > 1 && !BlankOrComment(u) {
      var (t, verdict, c) := Step(st, doc, parse(u), u);
      if verdict == GoOn {
        var more := Run(t, doc, parse, NextLine(c)).2;
        assert (log + [Line(parse(u), u)]) + more == log + ([Line(parse(u), u)] + more);
      }
    }
  }

  /** With these commands gone through, the run as a whole comes to what the rest of it comes to. */
  ghost predicate RunLeft(whole: (State, Outcome, seq<Line>), log: seq<Line>, left: (State, Outcome, seq<Line>)) {
    whole == (left.0, left.1, log + left.2)
  }
}
