/**
  The drawing script interpreter, dwg_add_dat (examples/dwgadd.c:595-2271).

  What the cascade of sscanf calls recognises at the cursor is a command; it
  depends on nothing but the text from there on.  Whether an API call succeeds
  is part of the command (`ok`), and so is whether a name is valid (`name`).
 */
module Interpreter {
  import opened Options
  import opened ListScanner

  /** What the script can add to a drawing (DWG_TYPE_...). */
  datatype Kind =
    | UNUSED
    | ATTDEF | ATTRIB | LINE | LINE3D | RAY | XLINE | TEXT | MTEXT | BLOCK | ENDBLK | REPEAT | ENDREP | INSERT | MINSERT
    | POINT | CIRCLE | ARC | DIM_ALIGNED | DIM_LINEAR | DIM_ANG2LN | DIM_ANG3PT | DIM_DIAMETER | DIM_ORDINATE | DIM_RADIUS
    | FACE3D | SOLID | TRACE | POLYLINE_2D | POLYLINE_3D | POLYLINE_MESH | POLYLINE_PFACE | LWPOLYLINE | MLINE
    | DICTIONARY | XRECORD | SHAPE | VIEWPORT | ELLIPSE | SPLINE | LEADER | TOLERANCE | MLINESTYLE
    | LAYER | STYLE | LTYPE | VIEW | VPORT | DIMSTYLE | GROUP | UCS | LAYOUT | SOLID3D

  // Versions in the order of Dwg_Version_Type (include/dwg.h:281-341).
  const R_2_0b := 5
  const R_2_4 := 10
  const R_10 := 15
  const R_11 := 18
  const R_AFTER := 42

  /** The version tests in front of the adding calls. */
  predicate Allowed(kind: Kind, version: nat) {
    match kind
    case ATTDEF => version >= R_2_0b
    case ATTRIB => version >= R_2_0b
    case LINE3D => R_2_4 <= version <= R_10
    case DIMSTYLE => version >= R_11
    case UCS => version >= R_10
    case RAY => version > R_11
    case XLINE => version > R_11
    case MTEXT => version > R_11
    case MINSERT => version > R_11
    case ELLIPSE => version > R_11
    case SPLINE => version > R_11
    case LEADER => version > R_11
    case TOLERANCE => version > R_11
    case MLINESTYLE => version > R_11
    case GROUP => version > R_11
    case LAYOUT => version > R_11
    case SOLID3D => version > R_11
    case _ => true
  }

  /** Entities go into a block, table entries and objects do not. */
  predicate NeedsBlock(kind: Kind) {
    kind !in {MLINESTYLE, LAYER, STYLE, LTYPE, VIEW, VPORT, DIMSTYLE, GROUP, UCS}
  }

  /** Kinds that are added by one call that touches nothing but the last entity. */
  predicate Simple(kind: Kind) {
    kind in {ATTDEF, LINE, RAY, XLINE, TEXT, BLOCK, POINT, CIRCLE, ARC, DIM_ALIGNED, DIM_LINEAR, DIM_ANG2LN, DIM_ANG3PT,
             DIM_DIAMETER, DIM_ORDINATE, DIM_RADIUS, FACE3D, SOLID, TRACE, SHAPE, VIEWPORT, ELLIPSE, TOLERANCE,
             MLINESTYLE, LAYER, STYLE, LTYPE, VIEW, VPORT, DIMSTYLE, GROUP, UCS, SOLID3D}
  }

  type SimpleKind = kind: Kind | Simple(kind) witness POINT
  type ListKind = kind: Kind | kind in {POLYLINE_2D, POLYLINE_3D, LWPOLYLINE, MLINE} witness MLINE

  /** One line of the script, as recognised. */
  datatype Command =
    | Read(found: bool, loaded: seq<Kind>, saved: nat, modelSpace: bool)  // readdwg, readdxf, readjson
    | Imperial
    | Version(version: Option<nat>, whole: bool)
    | PSpace(found: bool)
    | MSpace
    | Add(what: SimpleKind, name: bool, ok: bool)               // one adding call, nothing else
    | Attrib(ok: bool)
    | Line3d(ok: bool)
    | Mtext(ok: bool)
    | EndBlk(ok: bool)
    | Repeat(ok: bool)
    | EndRep(ok: bool)
    | Insert(multiple: bool, name: bool, ok: bool)
    | Polyline(line: ListKind, num: int, ok: bool)
    | Mesh(m: int, n: int, ok: bool)
    | Pface(verts: int, faces: int, ok: bool)
    | Spline(num: int, tangents: bool, ok: bool)
    | Leader(num: int, annotation: bool, ok: bool)
    | Dictionary(name: bool)                                    // dwg_add_DICTIONARY does not fail
    | XRecord(name: bool, ok: bool)
    | Layout(name: bool, owner: bool, ok: bool)
    | SetField(kind: Kind, field: bool)
    | SetHeader(field: bool)
    | Unknown

  /** Commands that are kept for the header of the script. */
  predicate IsHeader(cmd: Command) {
    cmd.Read? || cmd.Imperial? || cmd.Version?
  }

  /** A tagged pointer to something added: lastent_t. */
  datatype Slot = Slot(kind: Kind, obj: Option<nat>)

  datatype Space = ModelSpace | PaperSpace

  /**
    The variables of dwg_add_dat, and the drawing: the version in its header, its
    objects, and the fields set so far.  The variable `version` is what the tests
    look at; the header keeps its own.
   */
  datatype State = State(
    initial: bool, imperial: bool, repeatOpen: bool, version: nat, drawing: nat,
    mspace: bool, block: Option<Space>,
    ent: Slot, insert: Slot, dict: Slot, mtext: Slot,
    objects: seq<Kind>, origNum: nat, writes: seq<(nat, Kind)>)

  const NOTHING := Slot(UNUSED, None)

  /** Before the first line, with the drawing that is passed in; version 0 means that it has none. */
  function Start(objects: seq<Kind>, version: nat): State {
    State(true, false, false, if version == 0 then 25 else version, version, false, None,
          NOTHING, NOTHING, NOTHING, NOTHING, objects, 0, [])
  }

  /** What dwg_add_Document puts into an empty drawing. */
  datatype Document = Document(objects: seq<Kind>, modelSpace: bool)

  /** ADD_INITIAL */
  function AddInitial(st: State, modelSpace: bool): State {
    st.(mspace := modelSpace, block := if modelSpace then Some(ModelSpace) else None,
        origNum := |st.objects|, initial := false)
  }

  /** An adding call, and what the variable for the last entity becomes. */
  function Added(st: State, kind: Kind, ok: bool): State {
    st.(objects := if ok then st.objects + [kind] else st.objects,
        ent := Slot(kind, if ok then Some(|st.objects|) else None))
  }

  datatype Verdict = GoOn | ExitNow | ReturnOne

  /** A count that is handed to an unsigned parameter. */
  function Unsigned(n: int): nat {
    n % 0x1_0000_0000
  }

  function ListOf(kind: Kind): List {
    if kind == POLYLINE_2D || kind == LWPOLYLINE then Points2 else Points3
  }

  /** The pointer behind the vertices stands in front of a list of faces (lines 1676-1682). */
  predicate FacesAhead(s: Text) {
    |s| >= 2 && s[0] == Open && s[1] == Open && ReadNums(s[2..], 3).Some?
  }

  /** Header commands are for before anything else. */
  function StepHeader(st: State, cmd: Command): (State, Verdict)
    requires IsHeader(cmd)
  {
    if !st.initial || st.objects != [] then (st, ExitNow)
    else match cmd
      case Read(found, loaded, saved, modelSpace) =>
        if found then (AddInitial(st.(objects := loaded, drawing := saved), modelSpace), GoOn) else (st, ExitNow)
      case Version(version, _) =>
        if version.None? || version.value >= R_AFTER then (st, ExitNow) else (st.(version := version.value), GoOn)
      case _ => (st.(imperial := true), GoOn)
  }

  /** An entity that comes with a list: nothing is added if the list did not scan, or is not wanted. */
  function TakeList(st: State, kind: Kind, scanned: Scanned, wanted: bool, ok: bool, s: Text): (State, Verdict, Text) {
    match scanned
    case Exit => (st, ExitNow, s)
    case Null(rest) => (st, GoOn, rest)
    case Items(_, rest) =>
      if !wanted then (st, GoOn, rest)
      else if st.block.None? then (st, ExitNow, rest)
      else (Added(st, kind, ok), GoOn, rest)
  }

  function StepList(st: State, kind: Kind, list: List, num: nat, wanted: bool, ok: bool, s: Text): (State, Verdict, Text) {
    TakeList(st, kind, Scan(list, num, s), wanted, ok, s)
  }

  function StepPface(st: State, verts: int, faces: int, ok: bool, s: Text): (State, Verdict, Text) {
    match Scan(Points3, Unsigned(verts), s)
    case Exit => (st, ExitNow, s)
    case Null(rest) =>
      if !FacesAhead(rest) then (st, GoOn, rest)
      else (match Scan(Faces, Unsigned(faces), rest)
        case Exit => (st, ExitNow, rest)
        case other => (st, GoOn, other.rest))
    case Items(_, rest) =>
      if FacesAhead(rest) then StepList(st, POLYLINE_PFACE, Faces, Unsigned(faces), verts != 0 && faces != 0, ok, rest)
      else (st, GoOn, rest)
  }

  predicate IsEntity(cmd: Command) {
    cmd.Add? || cmd.Attrib? || cmd.Line3d? || cmd.Mtext? || cmd.Repeat? || cmd.EndRep? || cmd.Insert?
  }

  predicate IsList(cmd: Command) {
    cmd.Polyline? || cmd.Mesh? || cmd.Pface? || cmd.Spline? || cmd.Leader?
  }

  function StepEntity(st: State, cmd: Command): (State, Verdict)
    requires IsEntity(cmd)
  {
    match cmd
    case Add(kind, name, ok) =>
      if !Allowed(kind, st.version) || (NeedsBlock(kind) && st.block.None?) || !name then (st, ExitNow)
      else (Added(st, kind, ok), GoOn)
    case Attrib(ok) =>
      if !Allowed(ATTRIB, st.version) || st.insert.kind == UNUSED || st.insert.obj.None? then (st, ExitNow)
      else (Added(st, ATTRIB, ok), GoOn)
    case Line3d(ok) =>
      if st.version < R_2_4 || st.block.None? then (st, ExitNow)
      else (Added(st, if st.version <= R_10 then LINE3D else LINE, ok), GoOn)
    case Mtext(ok) =>
      if !Allowed(MTEXT, st.version) || st.block.None? then (st, ExitNow)
      else var t := Added(st, MTEXT, ok); (t.(mtext := t.ent), GoOn)
    case Repeat(ok) =>
      if st.repeatOpen || st.block.None? then (st, ExitNow)
      else if !ok then (st, ReturnOne)
      else (Added(st, REPEAT, true).(repeatOpen := true), GoOn)
    case EndRep(ok) =>
      if !st.repeatOpen || st.block.None? then (st, ExitNow)
      else if !ok then (st, ReturnOne)
      else (Added(st, ENDREP, true).(repeatOpen := false), GoOn)
    case Insert(multiple, name, ok) =>
      var kind := if multiple then MINSERT else INSERT;
      if !Allowed(kind, st.version) || st.block.None? || !name then (st, ExitNow)
      else var t := Added(st, kind, ok); (t.(insert := t.ent), GoOn)
  }

  function StepListed(st: State, cmd: Command, s: Text): (State, Verdict, Text)
    requires IsList(cmd)
  {
    match cmd
    case Polyline(kind, num, ok) =>
      StepList(st, kind, ListOf(kind), Unsigned(num), num != 0, ok, s)
    case Mesh(m, n, ok) =>
      StepList(st, POLYLINE_MESH, Points3, Unsigned(m * n), m != 0 && n != 0, ok, s)
    case Pface(verts, faces, ok) =>
      StepPface(st, verts, faces, ok, s)
    case Spline(num, tangents, ok) =>
      if !Allowed(SPLINE, st.version) then (st, ExitNow, s)
      else StepList(st, SPLINE, Points3, Unsigned(num), num != 0 && tangents, ok, s)
    case Leader(num, annotation, ok) =>
      if st.ent.kind != MTEXT then (st, GoOn, s)
      else if !Allowed(LEADER, st.version) || st.mtext.kind != MTEXT then (st, ExitNow, s)
      else StepList(st, LEADER, Points3, Unsigned(num), num != 0 && annotation, ok, s)
  }

  function StepOther(st: State, cmd: Command): (State, Verdict)
    requires !IsHeader(cmd) && !IsEntity(cmd) && !IsList(cmd)
  {
    match cmd
    case PSpace(found) =>
      if found then (st.(block := Some(PaperSpace)), GoOn) else (st, ExitNow)
    case MSpace =>
      if st.mspace then (st.(block := Some(ModelSpace)), GoOn) else (st, ExitNow)
    case EndBlk(ok) =>
      (st.(objects := if ok then st.objects + [ENDBLK] else st.objects), GoOn)
    case Dictionary(name) =>
      if !name then (st, ExitNow)
      else var t := Added(st, DICTIONARY, true); (t.(dict := t.ent), GoOn)
    case XRecord(name, ok) =>
      if st.dict.kind != DICTIONARY || !name then (st, ExitNow)
      else (Added(st, XRECORD, ok), GoOn)
    case Layout(name, owner, ok) =>
      if !Allowed(LAYOUT, st.version) || st.ent.kind != VIEWPORT || !name then (st, ExitNow)
      else (if owner then Added(st, LAYOUT, ok) else st, GoOn)
    case SetField(kind, field) =>
      if st.ent.obj.None? || st.ent.kind != kind || !field then (st, ExitNow)
      else (st.(writes := st.writes + [(st.ent.obj.value, kind)]), GoOn)
    case SetHeader(field) =>
      (st, if field then GoOn else ExitNow)
    case Unknown =>
      (st, GoOn)
  }

  /** One command other than a header command, with the drawing set up. */
  function StepBody(st: State, cmd: Command, s: Text): (State, Verdict, Text)
    requires !IsHeader(cmd)
  {
    if IsList(cmd) then StepListed(st, cmd, s)
    else var (t, verdict) := if IsEntity(cmd) then StepEntity(st, cmd) else StepOther(st, cmd); (t, verdict, s)
  }

  /** Setting up the drawing in front of the first command. */
  function SetUp(st: State, doc: Document): State {
    if st.initial then AddInitial(st.(objects := st.objects + doc.objects), doc.modelSpace) else st
  }

  /** One command at s: the variables, whether to go on, and the cursor before next_line. */
  function Step(st: State, doc: Document, cmd: Command, s: Text): (State, Verdict, Text) {
    if IsHeader(cmd) then
      var (t, verdict) := StepHeader(st, cmd);
      (t, verdict, if cmd.Version? && cmd.whole && |s| >= 8 then s[8..] else s)
    else StepBody(SetUp(st, doc), cmd, s)
  }

  // ---- from line to line ---------------------------------------------------

  /** next_line; the end of the text is its last character, which is never a line of its own. */
  function NextLine(s: Text): Text {
    if |s| <= 1 then s else if s[0] == Newline then s[1..] else NextLine(s[1..])
  }

  function SkipIndent(s: Text): Text {
    if |s| > 1 && s[0] == Blank then SkipIndent(s[1..]) else s
  }

  predicate BlankOrComment(s: Text)
    requires s != []
  {
    s[0] == Newline || s[0] == Other('#')
  }

  lemma {:induction false} NextLineShrinks(s: Text)
    ensures SuffixOf(NextLine(s), s) && (|s| > 1 ==> |NextLine(s)| < |s|)
  {
    if |s| > 1 && s[0] != Newline {
      NextLineShrinks(s[1..]);
    }
  }

  lemma {:induction false} SkipIndentShrinks(s: Text)
    ensures SuffixOf(SkipIndent(s), s)
  {
    if |s| > 1 && s[0] == Blank {
      SkipIndentShrinks(s[1..]);
    }
  }

  lemma ListForward(st: State, kind: Kind, list: List, num: nat, wanted: bool, ok: bool, s: Text)
    ensures SuffixOf(StepList(st, kind, list, num, wanted, ok, s).2, s)
  {
    ScanForward(list, num, s);
  }

  /** Where the cursor can be behind vertices and faces. */
  lemma PfaceStops(st: State, verts: int, faces: int, ok: bool, s: Text)
    ensures var r, v := StepPface(st, verts, faces, ok, s).2, Scan(Points3, Unsigned(verts), s);
      if v.Exit? then r == s
      else r == v.rest || (var w := Scan(Faces, Unsigned(faces), v.rest); !w.Exit? && r == w.rest)
  {
  }

  lemma PfaceForward(st: State, verts: int, faces: int, ok: bool, s: Text)
    ensures SuffixOf(StepPface(st, verts, faces, ok, s).2, s)
  {
    PfaceStops(st, verts, faces, ok, s);
    ScanForward(Points3, Unsigned(verts), s);
    var v := Scan(Points3, Unsigned(verts), s);
    if !v.Exit? {
      ScanForward(Faces, Unsigned(faces), v.rest);
      var w := Scan(Faces, Unsigned(faces), v.rest);
      if !w.Exit? {
        SuffixTwice(w.rest, v.rest, s);
      }
    }
  }

  lemma BodyForward(st: State, cmd: Command, s: Text)
    requires !IsHeader(cmd)
    ensures SuffixOf(StepBody(st, cmd, s).2, s)
  {
    if IsList(cmd) {
      match cmd
      case Polyline(kind, num, ok) => ListForward(st, kind, ListOf(kind), Unsigned(num), num != 0, ok, s);
      case Mesh(m, n, ok) => ListForward(st, POLYLINE_MESH, Points3, Unsigned(m * n), m != 0 && n != 0, ok, s);
      case Pface(verts, faces, ok) => PfaceForward(st, verts, faces, ok, s);
      case Spline(num, tangents, ok) => ListForward(st, SPLINE, Points3, Unsigned(num), num != 0 && tangents, ok, s);
      case Leader(num, annotation, ok) => ListForward(st, LEADER, Points3, Unsigned(num), num != 0 && annotation, ok, s);
    }
  }

  /** Whatever a command does to the cursor, the next line begins behind it. */
  lemma StepAdvances(st: State, doc: Document, cmd: Command, s: Text)
    requires |s| > 1
    ensures var c := Step(st, doc, cmd, s).2; SuffixOf(c, s) && |NextLine(c)| < |s|
  {
    var c := Step(st, doc, cmd, s).2;
    if !IsHeader(cmd) {
      BodyForward(SetUp(st, doc), cmd, s);
    }
    NextLineShrinks(c);
  }

  // ---- a whole run ---------------------------------------------------------

  /** A line of the script: its command, and the text from there on. */
  datatype Line = Line(cmd: Command, at: Text)

  /**
    The return at the end, or the exit there with a REPEAT open; or the line where
    REPEAT or ENDREP could not be added (return 1), or the one that ended the program.
   */
  datatype Outcome = Returned(code: int) | Unclosed | GaveUp(line: Line) | Exited(line: Line)

  /** The end of dwg_add_dat: every REPEAT must be closed, and something must have been added. */
  function Conclude(st: State): Outcome {
    if st.repeatOpen then Unclosed else Returned(if |st.objects| > st.origNum then 0 else 1)
  }

  /** A run over the text s: the variables at its end, how it ended, and the lines that went through. */
  function Run(st: State, doc: Document, parse: Text -> Command, s: Text): (State, Outcome, seq<Line>)
    decreases |s|
  {
    SkipIndentShrinks(s);
    var u := SkipIndent(s);
    if |u| <= 1 then (st, Conclude(st), [])
    else if BlankOrComment(u) then
      NextLineShrinks(u);
      Run(st, doc, parse, NextLine(u))
    else
      var cmd := parse(u);
      StepAdvances(st, doc, cmd, u);
      var (t, verdict, c) := Step(st, doc, cmd, u);
      if verdict == ExitNow then (t, Exited(Line(cmd, u)), [])
      else if verdict == ReturnOne then (t, GaveUp(Line(cmd, u)), [])
      else var (end, outcome, log) := Run(t, doc, parse, NextLine(c)); (end, outcome, [Line(cmd, u)] + log)
  }
}
