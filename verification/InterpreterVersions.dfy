/**
  The version that the tests of a script look at, and the version of the drawing.
  A `version` line changes the first, reading a drawing changes the second, and
  nothing makes them agree.
 */
module InterpreterVersions {
  import opened Options
  import opened ListScanner
  import opened Interpreter
  import opened InterpreterProofs

  /** The variable after these commands went through. */
  function VersionAfter(log: seq<Line>, v: nat): nat {
    if log == [] then v
    else VersionAfter(log[1..], if log[0].cmd.Version? && log[0].cmd.version.Some? then log[0].cmd.version.value else v)
  }

  /** The version in the drawing's header after them. */
  function DrawingAfter(log: seq<Line>, v: nat): nat {
    if log == [] then v else DrawingAfter(log[1..], if log[0].cmd.Read? then log[0].cmd.saved else v)
  }

  /** One command: a version line that goes through sets the variable, a drawing that is read sets its version. */
  lemma StepVersions(st: State, doc: Document, cmd: Command, s: Text)
    ensures var (t, verdict, _) := Step(st, doc, cmd, s);
      if verdict == GoOn then
        t.version == VersionAfter([Line(cmd, s)], st.version) && t.drawing == DrawingAfter([Line(cmd, s)], st.drawing)
      else t.version == st.version && t.drawing == st.drawing
  {
    assert [Line(cmd, s)][1..] == [];
    if !IsHeader(cmd) {
      BodySettled(SetUp(st, doc), cmd, s);
    }
  }

  lemma VersionsFirst(line: Line, log: seq<Line>, v: nat, d: nat)
    ensures VersionAfter([line] + log, v) == VersionAfter(log, VersionAfter([line], v))
    ensures DrawingAfter([line] + log, d) == DrawingAfter(log, DrawingAfter([line], d))
  {
    assert ([line] + log)[1..] == log && [line][1..] == [];
  }

  lemma {:induction false} RunVersions(st: State, doc: Document, parse: Text -> Command, s: Text)
    ensures var (end, _, log) := Run(st, doc, parse, s);
      end.version == VersionAfter(log, st.version) && end.drawing == DrawingAfter(log, st.drawing)
    decreases |s|
  {
    SkipIndentShrinks(s);
    var u := SkipIndent(s);
    if |u| > 1 {
      NextLineShrinks(u);
      if BlankOrComment(u) {
        RunVersions(st, doc, parse, NextLine(u));
      } else {
        StepAdvances(st, doc, parse(u), u);
        StepVersions(st, doc, parse(u), u);
        var (t, verdict, c) := Step(st, doc, parse(u), u);
        if verdict == GoOn {
          RunVersions(t, doc, parse, NextLine(c));
          VersionsFirst(Line(parse(u), u), Run(t, doc, parse, NextLine(c)).2, st.version, st.drawing);
        }
      }
    }
  }

  /** The kinds that old drawings do not have. */
  const NEW_KINDS: set<Kind> :=
    {RAY, XLINE, MTEXT, MINSERT, ELLIPSE, SPLINE, LEADER, TOLERANCE, MLINESTYLE, GROUP, LAYOUT, SOLID3D}

  /** The script puts such an object into the drawing. */
  ghost predicate Gets(st: State, doc: Document, parse: Text -> Command, s: Text, kind: Kind) {
    var end := Run(st, doc, parse, s).0;
    end.origNum <= |end.objects| && !end.initial && kind in Script(end)
  }

  lemma OldScript(st: State, kind: Kind)
    requires Inv(st) && !st.initial && !Allowed(kind, st.version)
    ensures kind !in Script(st)
  {
  }

  lemma OldRun(st: State, doc: Document, parse: Text -> Command, s: Text, kind: Kind)
    requires Inv(st)
    ensures Gets(st, doc, parse, s, kind) ==> Allowed(kind, VersionAfter(Run(st, doc, parse, s).2, st.version))
  {
    hide Inv, Run;
    var end := Run(st, doc, parse, s).0;
    RunKeeps(st, doc, parse, s);
    RunVersions(st, doc, parse, s);
    if !end.initial && !Allowed(kind, end.version) {
      OldScript(end, kind);
    }
  }

  /**
    What the tests promise: a script whose last version line, or where it has
    none the version it started with, is R_11 or older adds none of these.
   */
  lemma OldVersions(objects: seq<Kind>, version: nat, doc: Document, parse: Text -> Command, s: Text, kind: Kind)
    requires kind in NEW_KINDS && Gets(Start(objects, version), doc, parse, s, kind)
    ensures VersionAfter(Run(Start(objects, version), doc, parse, s).2, Start(objects, version).version) > R_11
  {
    hide Run, Gets, Inv;
    StartOk(objects, version);
    OldRun(Start(objects, version), doc, parse, s, kind);
  }

  lemma {:induction false} NothingChanges(log: seq<Line>, v: nat, d: nat)
    requires forall line :: line in log ==> !line.cmd.Version? && !line.cmd.Read?
    ensures VersionAfter(log, v) == v && DrawingAfter(log, d) == d
    decreases |log|
  {
    if log != [] {
      NothingChanges(log[1..], v, d);
    }
  }

  /** So an old drawing is safe from scripts that neither set a version nor read a drawing. */
  lemma OldDrawingSafe(objects: seq<Kind>, version: nat, doc: Document, parse: Text -> Command, s: Text, kind: Kind)
    requires kind in NEW_KINDS && 0 < version <= R_11
    requires forall line :: line in Run(Start(objects, version), doc, parse, s).2 ==> !line.cmd.Version? && !line.cmd.Read?
    ensures Run(Start(objects, version), doc, parse, s).0.drawing == version
    ensures !Gets(Start(objects, version), doc, parse, s, kind)
  {
    var st := Start(objects, version);
    RunVersions(st, doc, parse, s);
    NothingChanges(Run(st, doc, parse, s).2, st.version, st.drawing);
    if Gets(st, doc, parse, s, kind) {
      OldVersions(objects, version, doc, parse, s, kind);
    }
  }

  // ---- the drawing's own version does not protect it -----------------------

  const MTEXT_LINE: Text := [Other('m'), Newline]

  /** A line in front of others. */
  lemma FirstLine(st: State, doc: Document, parse: Text -> Command, c: char, line: Text)
    requires c != '#' && line != []
    ensures var s := [Other(c), Newline] + line;
      var (t, verdict, rest) := Step(st, doc, parse(s), s);
      verdict == GoOn && rest == s ==> Run(st, doc, parse, s).0 == Run(t, doc, parse, line).0
  {
    hide Step;
    var s := [Other(c), Newline] + line;
    assert s[1..] == [Newline] + line && s[1..][1..] == line;
    assert SkipIndent(s) == s && NextLine(s) == line;
  }

  lemma LastLine(st: State, doc: Document, parse: Text -> Command)
    ensures var (t, verdict, rest) := Step(st, doc, parse(MTEXT_LINE), MTEXT_LINE);
      verdict == GoOn && rest == MTEXT_LINE ==> Run(st, doc, parse, MTEXT_LINE).0 == t
  {
    hide Step;
    assert MTEXT_LINE[1..] == [Newline];
    assert SkipIndent(MTEXT_LINE) == MTEXT_LINE && NextLine(MTEXT_LINE) == [Newline];
    assert SkipIndent([Newline]) == [Newline];
  }

  /** With a current block, an mtext line adds an MTEXT if the variable allows it, whatever the drawing is. */
  lemma MtextLine(st: State, doc: Document, parse: Text -> Command)
    requires var u := SetUp(st, doc); u.block.Some? && u.version > R_11 && u.origNum <= |u.objects| && !u.initial
    requires parse(MTEXT_LINE) == Mtext(true)
    ensures Gets(st, doc, parse, MTEXT_LINE, MTEXT) && Run(st, doc, parse, MTEXT_LINE).0.drawing == st.drawing
  {
    LastLine(st, doc, parse);
    var u := SetUp(st, doc);
    var t := StepEntity(u, Mtext(true)).0;
    assert Step(st, doc, Mtext(true), MTEXT_LINE) == (t, GoOn, MTEXT_LINE);
    assert t.objects[|u.objects|] == MTEXT && Script(t)[|u.objects| - u.origNum] == MTEXT;
  }

  /**
    Exactly: behind the header, with a current block, some rest of the script adds
    an MTEXT if and only if the variable is past R_11.  The version of the drawing
    has no part in it.
   */
  lemma SafeExactly(st: State, doc: Document)
    requires Inv(st) && !st.initial && st.block.Some?
    ensures (exists parse: Text -> Command, s: Text :: Gets(st, doc, parse, s, MTEXT)) <==> st.version > R_11
  {
    if st.version > R_11 {
      MtextLine(st, doc, _ => Mtext(true));
    }
    if parse: Text -> Command, s: Text :| Gets(st, doc, parse, s, MTEXT) {
      OldRun(st, doc, parse, s, MTEXT);
      RunVersions(st, doc, parse, s);
      SettledRun(st, doc, parse, s);
    }
  }

  /** A drawing of version R_11, a version line of 2000 and an mtext line: the old drawing gets an MTEXT. */
  lemma VersionLineOverrides(doc: Document) returns (parse: Text -> Command, s: Text)
    requires doc.modelSpace
    ensures Gets(Start([], R_11), doc, parse, s, MTEXT)
    ensures Run(Start([], R_11), doc, parse, s).0.drawing == R_11
  {
    hide Run, StepBody;
    parse := t => if t != [] && t[0] == Other('v') then Version(Some(25), false) else Mtext(true);
    s := [Other('v'), Newline] + MTEXT_LINE;
    var t := Start([], R_11).(version := 25);
    FirstLine(Start([], R_11), doc, parse, 'v', MTEXT_LINE);
    MtextLine(t, doc, parse);
  }

  /** So it does if an R_11 drawing is read by a script that starts with another version. */
  lemma ReadingOverrides(loaded: seq<Kind>, doc: Document) returns (parse: Text -> Command, s: Text)
    ensures Gets(Start([], 25), doc, parse, s, MTEXT)
    ensures Run(Start([], 25), doc, parse, s).0.drawing == R_11
  {
    hide Run, StepBody;
    parse := t => if t != [] && t[0] == Other('r') then Read(true, loaded, R_11, true) else Mtext(true);
    s := [Other('r'), Newline] + MTEXT_LINE;
    var t := AddInitial(Start([], 25).(objects := loaded, drawing := R_11), true);
    FirstLine(Start([], 25), doc, parse, 'r', MTEXT_LINE);
    MtextLine(t, doc, parse);
  }
}
