/**
  What a script comes to, told from the lines that went through: what each of them
  adds, which ones go through, and every variable at the end.
 */
module InterpreterHistory {
  import opened Options
  import opened ListScanner
  import opened Interpreter
  import opened InterpreterVersions

  /** What the script begins with: the drawing that is passed in, and what an empty one is set up with. */
  datatype Origin = Origin(objects: seq<Kind>, version: nat, doc: Document)

  // ---- one line ------------------------------------------------------------

  /** A list of this many items can be read at the line. */
  predicate Reads(list: List, num: int, s: Text) {
    Scan(list, num % 0x1_0000_0000, s).Items?
  }

  function PointsOf(kind: Kind): List {
    if kind in {POLYLINE_2D, LWPOLYLINE} then Points2 else Points3
  }

  /** Vertices, and faces behind them. */
  predicate ReadsBoth(verts: int, faces: int, s: Text) {
    Reads(Points3, verts, s) &&
    var behind := Scan(Points3, verts % 0x1_0000_0000, s).rest;
    FacesAhead(behind) && Reads(Faces, faces, behind)
  }

  /** The kind that a line asks the library for, if any, and keeps as the last entity; ENDBLK is not kept. */
  function Asks(before: seq<Line>, line: Line, version: nat): Option<Kind>
    decreases |before|, 1
  {
    match line.cmd
    case Add(kind, _, _) => Some(kind)
    case Attrib(_) => Some(ATTRIB)
    case Line3d(_) => Some(if VersionAfter(before, version) <= 15 then LINE3D else LINE)
    case Mtext(_) => Some(MTEXT)
    case Repeat(_) => Some(REPEAT)
    case EndRep(_) => Some(ENDREP)
    case Insert(multiple, _, _) => Some(if multiple then MINSERT else INSERT)
    case Polyline(kind, num, _) => if num != 0 && Reads(PointsOf(kind), num, line.at) then Some(kind) else None
    case Mesh(m, n, _) => if m != 0 && n != 0 && Reads(Points3, m * n, line.at) then Some(POLYLINE_MESH) else None
    case Pface(verts, faces, _) =>
      if verts != 0 && faces != 0 && ReadsBoth(verts, faces, line.at) then Some(POLYLINE_PFACE) else None
    case Spline(num, tangents, _) => if num != 0 && tangents && Reads(Points3, num, line.at) then Some(SPLINE) else None
    case Leader(num, annotation, _) =>
      if LastKind(before, version) == MTEXT && num != 0 && annotation && Reads(Points3, num, line.at) then Some(LEADER)
      else None
    case Dictionary(_) => Some(DICTIONARY)
    case XRecord(_, _) => Some(XRECORD)
    case Layout(_, owner, _) => if owner then Some(LAYOUT) else None
    case _ => None
  }

  /** What was asked for last. */
  function LastKind(log: seq<Line>, version: nat): Kind
    decreases |log|, 0
  {
    if log == [] then UNUSED
    else
      var before := log[..|log| - 1];
      match Asks(before, log[|log| - 1], version)
      case Some(kind) => kind
      case None => LastKind(before, version)
  }

  /** The library can do what it is asked for. */
  predicate Succeeds(cmd: Command) {
    match cmd
    case Add(_, _, ok) => ok
    case Attrib(ok) => ok
    case Line3d(ok) => ok
    case Mtext(ok) => ok
    case EndBlk(ok) => ok
    case Repeat(ok) => ok
    case EndRep(ok) => ok
    case Insert(_, _, ok) => ok
    case Polyline(_, _, ok) => ok
    case Mesh(_, _, ok) => ok
    case Pface(_, _, ok) => ok
    case Spline(_, _, ok) => ok
    case Leader(_, _, ok) => ok
    case Dictionary(_) => true
    case XRecord(_, ok) => ok
    case Layout(_, _, ok) => ok
    case _ => false
  }

  /** What a line adds to the drawing. */
  function Adds(before: seq<Line>, line: Line, version: nat): seq<Kind> {
    if !Succeeds(line.cmd) then []
    else if line.cmd.EndBlk? then [ENDBLK]
    else match Asks(before, line, version)
      case Some(kind) => [kind]
      case None => []
  }

  /** What all lines have added, in order. */
  function Kinds(log: seq<Line>, version: nat): seq<Kind> {
    if log == [] then []
    else Kinds(log[..|log| - 1], version) + Adds(log[..|log| - 1], log[|log| - 1], version)
  }

  // ---- the variables -------------------------------------------------------

  /** Some line is for the drawing itself, and not for its header only. */
  predicate Begun(log: seq<Line>) {
    exists i :: 0 <= i < |log| && !log[i].cmd.Version? && !log[i].cmd.Imperial?
  }

  /** The drawing that was read, if any. */
  function ReadFrom(log: seq<Line>): Option<Command> {
    if log == [] then None
    else if log[|log| - 1].cmd.Read? then Some(log[|log| - 1].cmd)
    else ReadFrom(log[..|log| - 1])
  }

  /** What the drawing held before the script added anything, and whether it has a model space. */
  function Basis(o: Origin, log: seq<Line>): (seq<Kind>, bool) {
    match ReadFrom(log)
    case Some(Read(_, loaded, _, modelSpace)) => (loaded, modelSpace)
    case _ => (o.objects + o.doc.objects, o.doc.modelSpace)
  }

  function InitialVersion(o: Origin): nat {
    if o.version == 0 then 25 else o.version
  }

  /** The current block: where the last pspace or mspace line went, or model space. */
  function BlockOf(log: seq<Line>, modelSpace: bool): Option<Space> {
    if log == [] then if modelSpace then Some(ModelSpace) else None
    else match log[|log| - 1].cmd
      case PSpace(_) => Some(PaperSpace)
      case MSpace => Some(ModelSpace)
      case _ => BlockOf(log[..|log| - 1], modelSpace)
  }

  /** The last of the repeat and endrep lines is a repeat. */
  predicate OpenOf(log: seq<Line>) {
    log != [] &&
    match log[|log| - 1].cmd
    case Repeat(_) => true
    case EndRep(_) => false
    case _ => OpenOf(log[..|log| - 1])
  }

  /** The last entity: what was asked for last, and where it is, if the library could make it. */
  function EntOf(log: seq<Line>, version: nat, base: nat): Slot {
    if log == [] then NOTHING
    else
      var before, line := log[..|log| - 1], log[|log| - 1];
      match Asks(before, line, version)
      case Some(kind) => Slot(kind, if Succeeds(line.cmd) then Some(base + |Kinds(before, version)|) else None)
      case None => EntOf(before, version, base)
  }

  /** The commands whose entity is remembered besides. */
  datatype Memory = Inserts | Dictionaries | Mtexts

  predicate Kept(memory: Memory, cmd: Command) {
    match memory
    case Inserts => cmd.Insert?
    case Dictionaries => cmd.Dictionary?
    case Mtexts => cmd.Mtext?
  }

  /** What the last such line made. */
  function MemoryOf(memory: Memory, log: seq<Line>, version: nat, base: nat): Slot {
    if log == [] then NOTHING
    else if Kept(memory, log[|log| - 1].cmd) then EntOf(log, version, base)
    else MemoryOf(memory, log[..|log| - 1], version, base)
  }

  /** The fields set, each on the last entity of its time. */
  function WritesOf(log: seq<Line>, version: nat, base: nat): seq<(nat, Kind)> {
    if log == [] then []
    else
      var before, line := log[..|log| - 1], log[|log| - 1];
      var ent := EntOf(before, version, base);
      WritesOf(before, version, base) +
      if line.cmd.SetField? && ent.obj.Some? then [(ent.obj.value, line.cmd.kind)] else []
  }

  predicate ImperialIn(log: seq<Line>) {
    exists i :: 0 <= i < |log| && log[i].cmd.Imperial?
  }

  /** The variables behind these lines, with the drawing set up or not. */
  function StateOf(o: Origin, log: seq<Line>, begun: bool): State {
    var v, (objects, modelSpace) := InitialVersion(o), Basis(o, log);
    var base := |objects|;
    State(
      !begun, ImperialIn(log), OpenOf(log), VersionAfter(log, v), DrawingAfter(log, o.version),
      begun && modelSpace, if begun then BlockOf(log, modelSpace) else None,
      EntOf(log, v, base), MemoryOf(Inserts, log, v, base), MemoryOf(Dictionaries, log, v, base),
      MemoryOf(Mtexts, log, v, base),
      if begun then objects + Kinds(log, v) else o.objects, if begun then base else 0, WritesOf(log, v, base))
  }

  // ---- which lines go through ----------------------------------------------

  /** What a line finds: whether header lines are still welcome, the version, a current block, a model space, ... */
  datatype Situation = Situation(
    header: bool, version: nat, block: bool, modelSpace: bool,
    open: bool, last: Kind, made: bool, insert: bool, dictionary: bool)

  /** The last line of this sort made what it asked for. */
  predicate HasMade(memory: Memory, log: seq<Line>) {
    log != [] &&
    var cmd := log[|log| - 1].cmd;
    if Kept(memory, cmd) then Succeeds(cmd) else HasMade(memory, log[..|log| - 1])
  }

  predicate HasDictionary(log: seq<Line>) {
    exists i :: 0 <= i < |log| && log[i].cmd.Dictionary?
  }

  function SituationOf(o: Origin, log: seq<Line>): Situation {
    var v, (objects, modelSpace) := InitialVersion(o), Basis(o, log);
    Situation(
      o.objects == [] && !Begun(log), VersionAfter(log, v), BlockOf(log, modelSpace).Some?, modelSpace,
      OpenOf(log), LastKind(log, v), EntOf(log, v, |objects|).obj.Some?, HasMade(Inserts, log), HasDictionary(log))
  }

  /** The versions that have such an entity or object, as numbers of Dwg_Version_Type. */
  predicate InVersion(kind: Kind, version: nat) {
    && (kind in {RAY, XLINE, MTEXT, MINSERT, ELLIPSE, SPLINE, LEADER, TOLERANCE, MLINESTYLE, GROUP, LAYOUT, SOLID3D} ==>
      version > 18)
    && (kind in {ATTDEF, ATTRIB} ==> version >= 5)
    && (kind == DIMSTYLE ==> version >= 18)
    && (kind == UCS ==> version >= 15)
  }

  const BLOCKLESS: set<Kind> := {MLINESTYLE, LAYER, STYLE, LTYPE, VIEW, VPORT, DIMSTYLE, GROUP, UCS}

  /** A list that is announced too long ends the program, if there is a list. */
  predicate TooLong(num: int, s: Text) {
    num % 0x1_0000_0000 > 5000 && Open in s
  }

  /** A list that is read and wanted needs a block. */
  predicate ListGoes(f: Situation, list: List, num: int, wanted: bool, s: Text) {
    !TooLong(num, s) && (wanted && Reads(list, num, s) ==> f.block)
  }

  predicate PfaceGoes(f: Situation, verts: int, faces: int, s: Text) {
    && !TooLong(verts, s)
    && (var r := Scan(Points3, verts % 0x1_0000_0000, s); !r.Exit? && FacesAhead(r.rest) ==> !TooLong(faces, r.rest))
    && (verts != 0 && faces != 0 && ReadsBoth(verts, faces, s) ==> f.block)
  }

  /** The line does not end the program. */
  predicate Goes(f: Situation, line: Line) {
    match line.cmd
    case Read(found, _, _, _) => f.header && found
    case Imperial => f.header
    case Version(version, _) => f.header && version.Some? && version.value < 42
    case PSpace(found) => found
    case MSpace => f.modelSpace
    case Add(kind, name, _) => name && InVersion(kind, f.version) && (kind in BLOCKLESS || f.block)
    case Attrib(_) => InVersion(ATTRIB, f.version) && f.insert
    case Line3d(_) => f.version >= 10 && f.block
    case Mtext(_) => InVersion(MTEXT, f.version) && f.block
    case EndBlk(_) => true
    case Repeat(_) => !f.open && f.block
    case EndRep(_) => f.open && f.block
    case Insert(multiple, name, _) => name && f.block && (multiple ==> InVersion(MINSERT, f.version))
    case Polyline(kind, num, _) => ListGoes(f, PointsOf(kind), num, num != 0, line.at)
    case Mesh(m, n, _) => ListGoes(f, Points3, m * n, m != 0 && n != 0, line.at)
    case Pface(verts, faces, _) => PfaceGoes(f, verts, faces, line.at)
    case Spline(num, tangents, _) =>
      InVersion(SPLINE, f.version) && ListGoes(f, Points3, num, num != 0 && tangents, line.at)
    case Leader(num, annotation, _) =>
      f.last == MTEXT ==> InVersion(LEADER, f.version) && ListGoes(f, Points3, num, num != 0 && annotation, line.at)
    case Dictionary(name) => name
    case XRecord(name, _) => name && f.dictionary
    case Layout(name, _, _) => name && InVersion(LAYOUT, f.version) && f.last == VIEWPORT
    case SetField(kind, field) => field && f.last == kind && f.made
    case SetHeader(field) => field
    case Unknown => true
  }

  /** A REPEAT or ENDREP that the library cannot make ends the run. */
  predicate Fails(cmd: Command) {
    cmd == Repeat(false) || cmd == EndRep(false)
  }

  // ---- a line, on the variables --------------------------------------------

  /** What the variables say of the situation. */
  function Seen(st: State): Situation {
    Situation(
      st.initial && st.objects == [], st.version, st.block.Some?, st.mspace,
      st.repeatOpen, st.ent.kind, st.ent.obj.Some?, st.insert.obj.Some?, st.dict.kind == DICTIONARY)
  }

  /** What the interpreter takes for granted about them. */
  predicate Sane(st: State) {
    && !st.initial
    && (st.insert.obj.Some? ==> st.insert.kind != UNUSED)
    && (st.ent.kind == MTEXT ==> st.mtext.kind == MTEXT)
  }

  lemma {:induction false} ScanExits(list: List, num: int, s: Text)
    ensures Scan(list, num % 0x1_0000_0000, s).Exit? <==> TooLong(num, s)
  {
    ScanForward(list, num % 0x1_0000_0000, s);
  }

  /** The version tests, and which kinds need a block. */
  lemma {:induction false} TestsAgree(kind: Kind, version: nat)
    ensures kind != LINE3D ==> (Allowed(kind, version) <==> InVersion(kind, version))
    ensures NeedsBlock(kind) <==> kind !in BLOCKLESS
  {
  }

  lemma {:induction false} AddVerdict(st: State, line: Line)
    requires line.cmd.Add?
    ensures StepEntity(st, line.cmd).1 == if Goes(Seen(st), line) then GoOn else ExitNow
  {
    hide Allowed, InVersion, NeedsBlock;
    SimpleNotLine3d(line.cmd.what);
    TestsAgree(line.cmd.what, st.version);
  }

  lemma {:induction false} EntityVerdict(st: State, line: Line)
    requires Sane(st) && IsEntity(line.cmd)
    ensures StepEntity(st, line.cmd).1
         == if !Goes(Seen(st), line) then ExitNow else if Fails(line.cmd) then ReturnOne else GoOn
  {
    hide Allowed, InVersion, NeedsBlock;
    if line.cmd.Add? {
      AddVerdict(st, line);
    } else if line.cmd.Insert? {
      InsertVerdict(st, line);
    } else if line.cmd.Attrib? {
      TestsAgree(ATTRIB, st.version);
    } else if line.cmd.Mtext? {
      TestsAgree(MTEXT, st.version);
    }
  }

  lemma {:induction false} InsertVerdict(st: State, line: Line)
    requires line.cmd.Insert?
    ensures StepEntity(st, line.cmd).1 == if Goes(Seen(st), line) then GoOn else ExitNow
  {
    hide Allowed, InVersion, NeedsBlock;
    TestsAgree(MINSERT, st.version);
    AlwaysAllowed(st.version);
  }

  lemma {:induction false} AlwaysAllowed(version: nat)
    ensures Allowed(INSERT, version)
  {
  }

  lemma {:induction false} SimpleNotLine3d(kind: SimpleKind)
    ensures kind != LINE3D
  {
  }

  lemma {:induction false} ListVerdict(st: State, kind: Kind, list: List, num: int, wanted: bool, ok: bool, s: Text)
    ensures StepList(st, kind, list, Unsigned(num), wanted, ok, s).1
         == if ListGoes(Seen(st), list, num, wanted, s) then GoOn else ExitNow
  {
    ScanExits(list, num, s);
    hide Scan;
  }

  lemma {:induction false} PfaceVerdict(st: State, verts: int, faces: int, ok: bool, s: Text)
    ensures StepPface(st, verts, faces, ok, s).1 == if PfaceGoes(Seen(st), verts, faces, s) then GoOn else ExitNow
  {
    ScanExits(Points3, verts, s);
    var r := Scan(Points3, verts % 0x1_0000_0000, s);
    if !r.Exit? {
      ScanExits(Faces, faces, r.rest);
    }
    hide Scan, TooLong;
  }

  lemma {:induction false} MeshVerdict(st: State, line: Line, num: int)
    requires line.cmd.Mesh? && num == line.cmd.m * line.cmd.n
    ensures StepListed(st, line.cmd, line.at).1 == if Goes(Seen(st), line) then GoOn else ExitNow
  {
    hide StepList, ListGoes, Unsigned;
    ListVerdict(st, POLYLINE_MESH, Points3, num, line.cmd.m != 0 && line.cmd.n != 0, line.cmd.ok, line.at);
  }

  lemma {:induction false} ListedVerdict(st: State, line: Line)
    requires Sane(st) && IsList(line.cmd)
    ensures StepListed(st, line.cmd, line.at).1 == if Goes(Seen(st), line) then GoOn else ExitNow
  {
    var s := line.at;
    hide StepList, StepPface, ListGoes, PfaceGoes, Unsigned, Allowed, InVersion;
    TestsAgree(SPLINE, st.version);
    TestsAgree(LEADER, st.version);
    match line.cmd
    case Polyline(kind, num, ok) => ListVerdict(st, kind, PointsOf(kind), num, num != 0, ok, s);
    case Mesh(m, n, ok) => MeshVerdict(st, line, m * n);
    case Pface(verts, faces, ok) => PfaceVerdict(st, verts, faces, ok, s);
    case Spline(num, tangents, ok) => ListVerdict(st, SPLINE, Points3, num, num != 0 && tangents, ok, s);
    case Leader(num, annotation, ok) => ListVerdict(st, LEADER, Points3, num, num != 0 && annotation, ok, s);
  }

  lemma {:induction false} OtherVerdict(st: State, line: Line)
    requires Sane(st) && !IsHeader(line.cmd) && !IsEntity(line.cmd) && !IsList(line.cmd)
    ensures StepOther(st, line.cmd).1 == if Goes(Seen(st), line) then GoOn else ExitNow
  {
  }

  /** The variables behind a line that goes through, with what it asks for. */
  function LeftBy(st: State, asks: Option<Kind>, line: Line): State {
    var ok := Succeeds(line.cmd);
    var ent :=
      match asks
      case Some(kind) => Slot(kind, if ok then Some(|st.objects|) else None)
      case None => st.ent;
    st.(
      block := match line.cmd case PSpace(_) => Some(PaperSpace) case MSpace => Some(ModelSpace) case _ => st.block,
      repeatOpen := if line.cmd.Repeat? then true else if line.cmd.EndRep? then false else st.repeatOpen,
      ent := ent,
      insert := if line.cmd.Insert? then ent else st.insert,
      dict := if line.cmd.Dictionary? then ent else st.dict,
      mtext := if line.cmd.Mtext? then ent else st.mtext,
      objects := st.objects + if !ok then [] else if line.cmd.EndBlk? then [ENDBLK]
                 else match asks case Some(kind) => [kind] case None => [],
      writes := st.writes + if line.cmd.SetField? && st.ent.obj.Some? then [(st.ent.obj.value, line.cmd.kind)] else [])
  }

  /** The variables are as these lines leave them, as far as asking goes. */
  ghost predicate Matches(st: State, log: seq<Line>, version: nat) {
    st.version == VersionAfter(log, version) && st.ent.kind == LastKind(log, version)
  }

  lemma {:induction false} NothingMore(st: State, line: Line)
    requires !line.cmd.EndBlk? || !Succeeds(line.cmd)
    requires !line.cmd.SetField? && !line.cmd.PSpace? && !line.cmd.MSpace? && !line.cmd.Repeat? && !line.cmd.EndRep?
    requires !line.cmd.Insert? && !line.cmd.Dictionary? && !line.cmd.Mtext?
    ensures LeftBy(st, None, line) == st
  {
    assert st.objects + [] == st.objects && st.writes + [] == st.writes;
  }

  lemma {:induction false} EntityBehind(st: State, log: seq<Line>, version: nat, line: Line)
    requires Matches(st, log, version) && IsEntity(line.cmd) && StepEntity(st, line.cmd).1 == GoOn
    ensures StepEntity(st, line.cmd).0 == LeftBy(st, Asks(log, line, version), line)
  {
    hide VersionAfter, LastKind;
    assert st.objects + [] == st.objects && st.writes + [] == st.writes;
  }

  lemma {:induction false} ListBehind(st: State, kind: Kind, list: List, num: int, wanted: bool, ok: bool, s: Text)
    requires StepList(st, kind, list, Unsigned(num), wanted, ok, s).1 == GoOn
    ensures StepList(st, kind, list, Unsigned(num), wanted, ok, s).0
         == if wanted && Reads(list, num, s) then Added(st, kind, ok) else st
  {
    hide Scan;
  }

  lemma {:induction false} PfaceBehind(st: State, verts: int, faces: int, ok: bool, s: Text)
    requires StepPface(st, verts, faces, ok, s).1 == GoOn
    ensures StepPface(st, verts, faces, ok, s).0
         == if verts != 0 && faces != 0 && ReadsBoth(verts, faces, s) then Added(st, POLYLINE_PFACE, ok) else st
  {
    hide Scan;
  }

  lemma {:induction false} AddedBehind(st: State, kind: Kind, line: Line)
    requires IsList(line.cmd)
    ensures Added(st, kind, Succeeds(line.cmd)) == LeftBy(st, Some(kind), line)
  {
    assert st.objects + [] == st.objects && st.writes + [] == st.writes;
  }

  lemma {:induction false} ListedBehind(st: State, log: seq<Line>, version: nat, line: Line)
    requires Matches(st, log, version) && IsList(line.cmd) && StepListed(st, line.cmd, line.at).1 == GoOn
    ensures StepListed(st, line.cmd, line.at).0 == LeftBy(st, Asks(log, line, version), line)
  {
    var s := line.at;
    hide VersionAfter, LastKind, StepList, StepPface, LeftBy, Reads, ReadsBoth, Unsigned;
    NothingMore(st, line);
    match line.cmd
    case Polyline(kind, num, ok) =>
      ListBehind(st, kind, PointsOf(kind), num, num != 0, ok, s);
      AddedBehind(st, kind, line);
    case Mesh(m, n, ok) =>
      ListBehind(st, POLYLINE_MESH, Points3, m * n, m != 0 && n != 0, ok, s);
      AddedBehind(st, POLYLINE_MESH, line);
    case Pface(verts, faces, ok) =>
      PfaceBehind(st, verts, faces, ok, s);
      AddedBehind(st, POLYLINE_PFACE, line);
    case Spline(num, tangents, ok) =>
      ListBehind(st, SPLINE, Points3, num, num != 0 && tangents, ok, s);
      AddedBehind(st, SPLINE, line);
    case Leader(num, annotation, ok) =>
      if st.ent.kind == MTEXT {
        ListBehind(st, LEADER, Points3, num, num != 0 && annotation, ok, s);
      }
      AddedBehind(st, LEADER, line);
  }

  /** Dictionaries, records and layouts ask for something ... */
  lemma {:induction false} ObjectBehind(st: State, log: seq<Line>, version: nat, line: Line)
    requires line.cmd.Dictionary? || line.cmd.XRecord? || line.cmd.Layout?
    requires StepOther(st, line.cmd).1 == GoOn
    ensures StepOther(st, line.cmd).0 == LeftBy(st, Asks(log, line, version), line)
  {
    hide VersionAfter, LastKind, Allowed;
    assert st.objects + [] == st.objects && st.writes + [] == st.writes;
  }

  /** ... and the rest does not. */
  lemma {:induction false} OtherBehind(st: State, log: seq<Line>, version: nat, line: Line)
    requires Matches(st, log, version) && !IsHeader(line.cmd) && !IsEntity(line.cmd) && !IsList(line.cmd)
    requires StepOther(st, line.cmd).1 == GoOn
    ensures StepOther(st, line.cmd).0 == LeftBy(st, Asks(log, line, version), line)
  {
    hide VersionAfter, LastKind, Allowed;
    if line.cmd.Dictionary? || line.cmd.XRecord? || line.cmd.Layout? {
      ObjectBehind(st, log, version, line);
    } else {
      assert Asks(log, line, version) == None;
      NothingAsked(st, line);
    }
  }

  lemma {:induction false} NothingAsked(st: State, line: Line)
    requires !IsHeader(line.cmd) && !IsEntity(line.cmd) && !IsList(line.cmd)
    requires !line.cmd.Dictionary? && !line.cmd.XRecord? && !line.cmd.Layout?
    requires StepOther(st, line.cmd).1 == GoOn
    ensures StepOther(st, line.cmd).0 == LeftBy(st, None, line)
  {
    assert st.objects + [] == st.objects && st.writes + [] == st.writes;
  }

  // ---- one line more -------------------------------------------------------

  lemma {:induction false} VersionsLast(log: seq<Line>, line: Line, v: nat, d: nat)
    ensures VersionAfter(log + [line], v) == VersionAfter([line], VersionAfter(log, v))
    ensures DrawingAfter(log + [line], d) == DrawingAfter([line], DrawingAfter(log, d))
    decreases |log|
  {
    if log == [] {
      assert log + [line] == [line];
    } else {
      var first := log[0];
      assert log == [first] + log[1..] && log + [line] == [first] + (log[1..] + [line]);
      VersionsFirst(first, log[1..], v, d);
      VersionsFirst(first, log[1..] + [line], v, d);
      VersionsLast(log[1..], line, VersionAfter([first], v), DrawingAfter([first], d));
    }
  }

  lemma {:induction false} Last(log: seq<Line>, line: Line)
    ensures var all := log + [line]; all[..|all| - 1] == log && all[|all| - 1] == line
  {
  }

  /** A line that is not for the header changes what the drawing began with in nothing, nor its versions. */
  lemma {:induction false} HeaderStays(o: Origin, log: seq<Line>, line: Line)
    requires !IsHeader(line.cmd)
    ensures var all, v := log + [line], InitialVersion(o);
      && Basis(o, all) == Basis(o, log) && ImperialIn(all) == ImperialIn(log)
      && VersionAfter(all, v) == VersionAfter(log, v) && DrawingAfter(all, o.version) == DrawingAfter(log, o.version)
  {
    Last(log, line);
    VersionsLast(log, line, InitialVersion(o), o.version);
    assert [line][1..] == [];
    ImperialMore(log, line);
  }

  lemma {:induction false} ImperialMore(log: seq<Line>, line: Line)
    ensures ImperialIn(log + [line]) == (ImperialIn(log) || line.cmd.Imperial?)
    ensures Begun(log + [line]) == (Begun(log) || (!line.cmd.Version? && !line.cmd.Imperial?))
    ensures HasDictionary(log + [line]) == (HasDictionary(log) || line.cmd.Dictionary?)
  {
    var all := log + [line];
    assert all[|log|] == line && forall i :: 0 <= i < |log| ==> all[i] == log[i];
  }

  lemma {:induction false} EntMore(log: seq<Line>, line: Line, v: nat, base: nat)
    ensures EntOf(log + [line], v, base)
         == match Asks(log, line, v)
            case Some(kind) => Slot(kind, if Succeeds(line.cmd) then Some(base + |Kinds(log, v)|) else None)
            case None => EntOf(log, v, base)
  {
    hide Asks, Kinds, Succeeds;
    Last(log, line);
  }

  lemma {:induction false} MemoryMore(memory: Memory, log: seq<Line>, line: Line, v: nat, base: nat)
    ensures MemoryOf(memory, log + [line], v, base)
         == if Kept(memory, line.cmd) then EntOf(log + [line], v, base) else MemoryOf(memory, log, v, base)
  {
    hide EntOf, Kept;
    Last(log, line);
  }

  lemma {:induction false} KindsMore(log: seq<Line>, line: Line, v: nat)
    ensures Kinds(log + [line], v) == Kinds(log, v) + Adds(log, line, v)
  {
    hide Adds;
    Last(log, line);
  }

  lemma {:induction false} PlacesMore(log: seq<Line>, line: Line, modelSpace: bool)
    ensures BlockOf(log + [line], modelSpace)
         == match line.cmd
            case PSpace(_) => Some(PaperSpace)
            case MSpace => Some(ModelSpace)
            case _ => BlockOf(log, modelSpace)
    ensures OpenOf(log + [line]) == (line.cmd.Repeat? || (!line.cmd.EndRep? && OpenOf(log)))
  {
    Last(log, line);
  }

  lemma {:induction false} WritesMore(log: seq<Line>, line: Line, v: nat, base: nat)
    ensures var ent := EntOf(log, v, base);
      WritesOf(log + [line], v, base)
        == WritesOf(log, v, base) + if line.cmd.SetField? && ent.obj.Some? then [(ent.obj.value, line.cmd.kind)] else []
  {
    hide EntOf;
    Last(log, line);
  }

  /** One line more, on the variables. */
  lemma {:induction false} BodyMore(o: Origin, log: seq<Line>, line: Line)
    requires !IsHeader(line.cmd)
    ensures StateOf(o, log + [line], true)
         == LeftBy(StateOf(o, log, true), Asks(log, line, InitialVersion(o)), line)
  {
    hide Basis, InitialVersion, VersionAfter, DrawingAfter, ImperialIn, Asks, Succeeds, Kinds, EntOf, MemoryOf, BlockOf,
      OpenOf, WritesOf;
    var objects, modelSpace, v := Basis(o, log).0, Basis(o, log).1, InitialVersion(o);
    HeaderStays(o, log, line);
    EntMore(log, line, v, |objects|);
    MemoryMore(Inserts, log, line, v, |objects|);
    MemoryMore(Dictionaries, log, line, v, |objects|);
    MemoryMore(Mtexts, log, line, v, |objects|);
    KindsMore(log, line, v);
    PlacesMore(log, line, modelSpace);
    WritesMore(log, line, v, |objects|);
    assert objects + (Kinds(log, v) + Adds(log, line, v)) == (objects + Kinds(log, v)) + Adds(log, line, v);
  }

  lemma {:induction false} LastMore(log: seq<Line>, line: Line, v: nat)
    ensures LastKind(log + [line], v)
         == match Asks(log, line, v) case Some(kind) => kind case None => LastKind(log, v)
    ensures HasMade(Inserts, log + [line]) == if line.cmd.Insert? then Succeeds(line.cmd) else HasMade(Inserts, log)
  {
    hide Asks, Succeeds;
    Last(log, line);
  }

  /** What the remembered pointers say. */
  ghost predicate MemoriesSay(log: seq<Line>, v: nat, base: nat) {
    var ent, insert := EntOf(log, v, base), MemoryOf(Inserts, log, v, base);
    var dict, mtext := MemoryOf(Dictionaries, log, v, base), MemoryOf(Mtexts, log, v, base);
    && ent.kind == LastKind(log, v)
    && (insert.obj.Some? <==> HasMade(Inserts, log)) && (insert.obj.Some? ==> insert.kind != UNUSED)
    && (dict.kind == DICTIONARY <==> HasDictionary(log))
    && (LastKind(log, v) == MTEXT ==> mtext.kind == MTEXT)
  }

  lemma {:induction false} MemoriesSayMore(log: seq<Line>, line: Line, v: nat, base: nat)
    requires MemoriesSay(log, v, base)
    ensures MemoriesSay(log + [line], v, base)
  {
    hide EntOf, MemoryOf, LastKind, HasMade, HasDictionary, Reads, ReadsBoth, VersionAfter, Kinds, Succeeds;
    EntMore(log, line, v, base);
    MemoryMore(Inserts, log, line, v, base);
    MemoryMore(Dictionaries, log, line, v, base);
    MemoryMore(Mtexts, log, line, v, base);
    LastMore(log, line, v);
    ImperialMore(log, line);
  }

  lemma {:induction false} MemoriesMean(log: seq<Line>, v: nat, base: nat)
    ensures MemoriesSay(log, v, base)
    decreases |log|
  {
    if log != [] {
      var before := log[..|log| - 1];
      assert log == before + [log[|log| - 1]];
      MemoriesMean(before, v, base);
      MemoriesSayMore(before, log[|log| - 1], v, base);
    }
  }

  lemma {:induction false} StateSeen(o: Origin, log: seq<Line>)
    ensures Sane(StateOf(o, log, true))
    ensures Seen(StateOf(o, log, true)) == SituationOf(o, log).(header := false)
    ensures Matches(StateOf(o, log, true), log, InitialVersion(o))
  {
    MemoriesMean(log, InitialVersion(o), |Basis(o, log).0|);
  }

  /** Where the header stands does not matter to other lines. */
  lemma {:induction false} HeaderApart(f: Situation, header: bool, line: Line)
    requires !IsHeader(line.cmd)
    ensures Goes(f.(header := header), line) == Goes(f, line)
  {
    hide Scan, TooLong, Reads, ReadsBoth;
  }

  /** What a line other than a header line does to the variables. */
  ghost predicate Tells(o: Origin, log: seq<Line>, line: Line, before: State, after: State, verdict: Verdict) {
    && verdict == (if !Goes(SituationOf(o, log), line) then ExitNow else if Fails(line.cmd) then ReturnOne else GoOn)
    && after == if verdict == GoOn then StateOf(o, log + [line], true) else before
  }

  lemma {:induction false} EntityTells(o: Origin, log: seq<Line>, line: Line)
    requires IsEntity(line.cmd)
    ensures var st := StateOf(o, log, true);
      Tells(o, log, line, st, StepEntity(st, line.cmd).0, StepEntity(st, line.cmd).1)
  {
    hide StateOf, SituationOf, Goes, LeftBy, Asks, Sane, Matches;
    var st := StateOf(o, log, true);
    StateSeen(o, log);
    HeaderApart(SituationOf(o, log), false, line);
    EntityVerdict(st, line);
    EntityStays(st, line.cmd);
    if StepEntity(st, line.cmd).1 == GoOn {
      EntityBehind(st, log, InitialVersion(o), line);
      BodyMore(o, log, line);
    }
  }

  lemma {:induction false} ListedTells(o: Origin, log: seq<Line>, line: Line)
    requires IsList(line.cmd)
    ensures var st := StateOf(o, log, true);
      Tells(o, log, line, st, StepListed(st, line.cmd, line.at).0, StepListed(st, line.cmd, line.at).1)
  {
    hide StateOf, SituationOf, Goes, LeftBy, Asks, Sane, Matches, StepListed;
    var st := StateOf(o, log, true);
    StateSeen(o, log);
    HeaderApart(SituationOf(o, log), false, line);
    ListedVerdict(st, line);
    ListedStays(st, line.cmd, line.at);
    if StepListed(st, line.cmd, line.at).1 == GoOn {
      ListedBehind(st, log, InitialVersion(o), line);
      BodyMore(o, log, line);
    }
  }

  lemma {:induction false} OtherTells(o: Origin, log: seq<Line>, line: Line)
    requires !IsHeader(line.cmd) && !IsEntity(line.cmd) && !IsList(line.cmd)
    ensures var st := StateOf(o, log, true);
      Tells(o, log, line, st, StepOther(st, line.cmd).0, StepOther(st, line.cmd).1)
  {
    hide StateOf, SituationOf, Goes, LeftBy, Asks, Sane, Matches;
    var st := StateOf(o, log, true);
    StateSeen(o, log);
    HeaderApart(SituationOf(o, log), false, line);
    OtherVerdict(st, line);
    OtherStays(st, line.cmd);
    if StepOther(st, line.cmd).1 == GoOn {
      OtherBehind(st, log, InitialVersion(o), line);
      BodyMore(o, log, line);
    }
  }

  /** A line that ends the run leaves everything as it is. */
  lemma {:induction false} EntityStays(st: State, cmd: Command)
    requires IsEntity(cmd)
    ensures StepEntity(st, cmd).1 != GoOn ==> StepEntity(st, cmd).0 == st
  {
  }

  lemma {:induction false} ListedStays(st: State, cmd: Command, s: Text)
    requires IsList(cmd)
    ensures StepListed(st, cmd, s).1 != GoOn ==> StepListed(st, cmd, s).0 == st
  {
    hide Scan;
  }

  lemma {:induction false} OtherStays(st: State, cmd: Command)
    requires !IsHeader(cmd) && !IsEntity(cmd) && !IsList(cmd)
    ensures StepOther(st, cmd).1 != GoOn ==> StepOther(st, cmd).0 == st
  {
  }

  // ---- the header ----------------------------------------------------------

  /** A log of version and imperial lines only has done nothing to the drawing. */
  lemma {:induction false} NotBegun(log: seq<Line>, v: nat, base: nat, modelSpace: bool)
    requires !Begun(log)
    ensures ReadFrom(log) == None && Kinds(log, v) == [] && EntOf(log, v, base) == NOTHING && WritesOf(log, v, base) == []
    ensures MemoryOf(Inserts, log, v, base) == MemoryOf(Dictionaries, log, v, base) == MemoryOf(Mtexts, log, v, base) == NOTHING
    ensures !OpenOf(log) && BlockOf(log, modelSpace) == if modelSpace then Some(ModelSpace) else None
    decreases |log|
  {
    if log != [] {
      var before, line := log[..|log| - 1], log[|log| - 1];
      assert log == before + [line];
      ImperialMore(before, line);
      NotBegun(before, v, base, modelSpace);
      hide Begun;
    }
  }

  /** Setting up the drawing in front of the first line that is for it. */
  lemma {:induction false} SetUpTells(o: Origin, log: seq<Line>)
    ensures SetUp(StateOf(o, log, Begun(log)), o.doc) == StateOf(o, log, true)
  {
    if !Begun(log) {
      var base := |Basis(o, log).0|;
      NotBegun(log, InitialVersion(o), base, Basis(o, log).1);
      assert (o.objects + o.doc.objects) + [] == o.objects + o.doc.objects;
    }
  }

  /** What any line does: the drawing is set up first, unless the line is for the header. */
  ghost predicate LineTells(o: Origin, log: seq<Line>, line: Line, before: State, after: State, verdict: Verdict) {
    && verdict == (if !Goes(SituationOf(o, log), line) then ExitNow else if Fails(line.cmd) then ReturnOne else GoOn)
    && after == (if verdict == GoOn then StateOf(o, log + [line], Begun(log + [line]))
                 else if IsHeader(line.cmd) then before else StateOf(o, log, true))
  }

  lemma {:induction false} BodyTells(o: Origin, log: seq<Line>, line: Line)
    requires !IsHeader(line.cmd)
    ensures var st := StateOf(o, log, Begun(log));
      LineTells(o, log, line, st, Step(st, o.doc, line.cmd, line.at).0, Step(st, o.doc, line.cmd, line.at).1)
  {
    hide StateOf, SituationOf, Goes, Begun, SetUp, StepEntity, StepListed, StepOther;
    SetUpTells(o, log);
    ImperialMore(log, line);
    if IsEntity(line.cmd) {
      EntityTells(o, log, line);
    } else if IsList(line.cmd) {
      ListedTells(o, log, line);
    } else {
      OtherTells(o, log, line);
    }
  }

  lemma {:induction false} HeaderVerdict(o: Origin, log: seq<Line>, line: Line)
    requires IsHeader(line.cmd)
    ensures StepHeader(StateOf(o, log, Begun(log)), line.cmd).1 == if Goes(SituationOf(o, log), line) then GoOn else ExitNow
  {
    hide Begun, EntOf, MemoryOf, WritesOf, Kinds, BlockOf, OpenOf, VersionAfter, DrawingAfter;
  }

  lemma {:induction false} HeaderMore(o: Origin, log: seq<Line>, line: Line)
    requires IsHeader(line.cmd) && !Begun(log) && (line.cmd.Version? ==> line.cmd.version.Some?)
    ensures var st, all := StateOf(o, log, false), log + [line];
      StateOf(o, all, Begun(all))
        == match line.cmd
           case Read(_, loaded, saved, modelSpace) => AddInitial(st.(objects := loaded, drawing := saved), modelSpace)
           case Version(version, _) => st.(version := version.value)
           case _ => st.(imperial := true)
  {
    hide Begun, ImperialIn, VersionAfter, DrawingAfter, EntOf, MemoryOf, Kinds, WritesOf, BlockOf, OpenOf;
    var all, v := log + [line], InitialVersion(o);
    var base, modelSpace := |Basis(o, all).0|, Basis(o, all).1;
    Last(log, line);
    ImperialMore(log, line);
    VersionsLast(log, line, v, o.version);
    OneVersion(line);
    NotBegun(log, v, |Basis(o, log).0|, Basis(o, log).1);
    NotBegun(log, v, base, modelSpace);
    EntMore(log, line, v, base);
    MemoryMore(Inserts, log, line, v, base);
    MemoryMore(Dictionaries, log, line, v, base);
    MemoryMore(Mtexts, log, line, v, base);
    KindsMore(log, line, v);
    PlacesMore(log, line, modelSpace);
    WritesMore(log, line, v, base);
    assert Basis(o, all).0 + [] == Basis(o, all).0;
  }

  lemma {:induction false} OneVersion(line: Line)
    ensures forall v: nat :: (VersionAfter([line], v)
      == if line.cmd.Version? && line.cmd.version.Some? then line.cmd.version.value else v)
    ensures forall v: nat :: (DrawingAfter([line], v) == if line.cmd.Read? then line.cmd.saved else v)
  {
    assert [line][1..] == [];
  }

  lemma {:induction false} HeaderTells(o: Origin, log: seq<Line>, line: Line)
    requires IsHeader(line.cmd)
    ensures var st := StateOf(o, log, Begun(log));
      LineTells(o, log, line, st, Step(st, o.doc, line.cmd, line.at).0, Step(st, o.doc, line.cmd, line.at).1)
  {
    HeaderVerdict(o, log, line);
    if StepHeader(StateOf(o, log, Begun(log)), line.cmd).1 == GoOn {
      HeaderMore(o, log, line);
    }
    hide Begun, SituationOf, Goes;
  }

  lemma {:induction false} StepTells(o: Origin, log: seq<Line>, line: Line)
    ensures var st := StateOf(o, log, Begun(log));
      LineTells(o, log, line, st, Step(st, o.doc, line.cmd, line.at).0, Step(st, o.doc, line.cmd, line.at).1)
  {
    if IsHeader(line.cmd) {
      HeaderTells(o, log, line);
    } else {
      BodyTells(o, log, line);
    }
  }

  // ---- whole runs ----------------------------------------------------------

  /** Behind these lines, this one goes through and the run goes on. */
  predicate Went(o: Origin, before: seq<Line>, line: Line) {
    Goes(SituationOf(o, before), line) && !Fails(line.cmd)
  }

  ghost predicate AllWent(o: Origin, before: seq<Line>, log: seq<Line>)
    decreases |log|
  {
    log != [] ==> Went(o, before, log[0]) && AllWent(o, before + [log[0]], log[1..])
  }

  /** How a run ends behind these lines, and what the variables then are. */
  ghost predicate Ends(o: Origin, log: seq<Line>, outcome: Outcome, end: State) {
    match outcome
    case Returned(code) =>
      && !OpenOf(log) && end == StateOf(o, log, Begun(log))
      && code == if (if Begun(log) then Kinds(log, InitialVersion(o)) else o.objects) != [] then 0 else 1
    case Unclosed => OpenOf(log) && end == StateOf(o, log, Begun(log))
    case GaveUp(line) => Goes(SituationOf(o, log), line) && Fails(line.cmd) && end == StateOf(o, log, true)
    case Exited(line) =>
      && !Goes(SituationOf(o, log), line)
      && end == StateOf(o, log, Begun(log) || !(line.cmd.Read? || line.cmd.Version? || line.cmd.Imperial?))
  }

  lemma {:induction false} ConcludeTells(o: Origin, log: seq<Line>)
    ensures var end := StateOf(o, log, Begun(log)); Ends(o, log, Conclude(end), end)
  {
    if !Begun(log) {
      NotBegun(log, InitialVersion(o), 0, false);
    }
    hide Begun, BlockOf, OpenOf, EntOf, MemoryOf, WritesOf, Kinds, VersionAfter, DrawingAfter, ImperialIn;
  }

  lemma {:induction false} AllWentMore(o: Origin, before: seq<Line>, line: Line, log: seq<Line>)
    requires Went(o, before, line) && AllWent(o, before + [line], log)
    ensures AllWent(o, before, [line] + log) && before + ([line] + log) == (before + [line]) + log
  {
    assert ([line] + log)[1..] == log;
  }

  lemma {:induction false} RunTells(o: Origin, parse: Text -> Command, before: seq<Line>, s: Text)
    ensures var (end, outcome, log) := Run(StateOf(o, before, Begun(before)), o.doc, parse, s);
      AllWent(o, before, log) && Ends(o, before + log, outcome, end)
    decreases |s|
  {
    hide StateOf, Begun, Went, Ends, Step, Conclude;
    var st := StateOf(o, before, Begun(before));
    SkipIndentShrinks(s);
    var u := SkipIndent(s);
    assert before + [] == before;
    if |u| <= 1 {
      ConcludeTells(o, before);
    } else {
      NextLineShrinks(u);
      if BlankOrComment(u) {
        RunTells(o, parse, before, NextLine(u));
      } else {
        var line := Line(parse(u), u);
        StepAdvances(st, o.doc, line.cmd, u);
        StepTells(o, before, line);
        EndTells(o, before, line, Step(st, o.doc, line.cmd, u).0, Step(st, o.doc, line.cmd, u).1);
        var (t, verdict, c) := Step(st, o.doc, line.cmd, u);
        if verdict == GoOn {
          RunTells(o, parse, before + [line], NextLine(c));
          AllWentMore(o, before, line, Run(t, o.doc, parse, NextLine(c)).2);
        }
      }
    }
  }

  lemma {:induction false} EndTells(o: Origin, log: seq<Line>, line: Line, t: State, verdict: Verdict)
    requires LineTells(o, log, line, StateOf(o, log, Begun(log)), t, verdict)
    ensures verdict == ExitNow ==> Ends(o, log, Exited(line), t)
    ensures verdict == ReturnOne ==> Ends(o, log, GaveUp(line), t)
    ensures verdict == GoOn ==> Went(o, log, line) && t == StateOf(o, log + [line], Begun(log + [line]))
  {
    hide StateOf, Begun, SituationOf, Goes;
    assert Begun(log) ==> StateOf(o, log, Begun(log)) == StateOf(o, log, true);
    if verdict == ReturnOne {
      assert !IsHeader(line.cmd);
    }
  }

  lemma {:induction false} AllWentAt(o: Origin, before: seq<Line>, log: seq<Line>, i: nat)
    requires AllWent(o, before, log) && i < |log|
    ensures Went(o, before + log[..i], log[i])
    decreases |log|
  {
    hide Went;
    if i == 0 {
      assert before + log[..0] == before;
    } else {
      AllWentAt(o, before + [log[0]], log[1..], i - 1);
      assert before + log[..i] == (before + [log[0]]) + log[1..][..i - 1];
    }
  }

  lemma {:induction false} StartTells(o: Origin)
    ensures Start(o.objects, o.version) == StateOf(o, [], Begun([]))
  {
  }

  /**
    Every script, told from the lines that went through: each of them was to go
    through behind those before it; the run ended as the lines say, in front of a
    line that was not to, or at the end; and every variable is what the lines say.
   */
  lemma {:induction false} EveryScript(o: Origin, parse: Text -> Command, s: Text)
    ensures var (end, outcome, log) := Run(Start(o.objects, o.version), o.doc, parse, s);
      && (forall i :: 0 <= i < |log| ==> Went(o, log[..i], log[i]))
      && Ends(o, log, outcome, end)
  {
    hide Went, Ends, StateOf, Run, Start, Begun;
    StartTells(o);
    RunTells(o, parse, [], s);
    var log := Run(Start(o.objects, o.version), o.doc, parse, s).2;
    assert [] + log == log;
    forall i | 0 <= i < |log| ensures Went(o, log[..i], log[i]) {
      AllWentAt(o, [], log, i);
      assert [] + log[..i] == log[..i];
    }
  }

  /** What a script has added, past the header, is what its lines add, one after the other. */
  lemma {:induction false} ScriptAdds(o: Origin, parse: Text -> Command, s: Text)
    ensures var (end, _, log) := Run(Start(o.objects, o.version), o.doc, parse, s);
      !end.initial ==>
        && end.origNum <= |end.objects|
        && end.objects[..end.origNum] == Basis(o, log).0
        && end.objects[end.origNum..] == Kinds(log, InitialVersion(o))
  {
    hide Run, Went, Kinds, Basis, OpenOf, BlockOf, EntOf, MemoryOf, WritesOf, Goes, SituationOf;
    EveryScript(o, parse, s);
  }
}
