/** When a script runs line by line: one command for each line that is neither blank nor a comment. */
module InterpreterLines {
  import opened ListScanner
  import opened Interpreter

  /** The lines of a text that hold commands, from their first character on. */
  function Lines(s: Text): seq<Text>
    decreases |s|
  {
    SkipIndentShrinks(s);
    var u := SkipIndent(s);
    if |u| <= 1 then []
    else
      NextLineShrinks(u);
      if BlankOrComment(u) then Lines(NextLine(u)) else [u] + Lines(NextLine(u))
  }

  /** The commands of the lines, one after the other. */
  function Fold(st: State, doc: Document, parse: Text -> Command, lines: seq<Text>): (State, Outcome, seq<Line>)
    decreases |lines|
  {
    if lines == [] then (st, Conclude(st), [])
    else
      var cmd := parse(lines[0]);
      var (t, verdict, _) := Step(st, doc, cmd, lines[0]);
      if verdict == ExitNow then (t, Exited(Line(cmd, lines[0])), [])
      else if verdict == ReturnOne then (t, GaveUp(Line(cmd, lines[0])), [])
      else var (end, outcome, log) := Fold(t, doc, parse, lines[1..]); (end, outcome, [Line(cmd, lines[0])] + log)
  }

  /** The cursor is still in the line it came from. */
  predicate InLine(c: Text, s: Text) {
    NextLine(c) == NextLine(s)
  }

  predicate TidyScan(list: List, num: nat, s: Text, line: Text) {
    var r := Scan(list, num, s);
    r.Exit? || InLine(r.rest, line)
  }

  /** Whatever list a command scans is over on its own line, and so is the number of a version. */
  predicate Tidy(cmd: Command, s: Text) {
    match cmd
    case Version(_, whole) => whole && |s| >= 8 ==> InLine(s[8..], s)
    case Polyline(kind, num, _) => TidyScan(ListOf(kind), Unsigned(num), s, s)
    case Mesh(m, n, _) => TidyScan(Points3, Unsigned(m * n), s, s)
    case Pface(verts, faces, _) =>
      var r := Scan(Points3, Unsigned(verts), s);
      r.Exit? || (InLine(r.rest, s) && (FacesAhead(r.rest) ==> TidyScan(Faces, Unsigned(faces), r.rest, s)))
    case Spline(num, _, _) => TidyScan(Points3, Unsigned(num), s, s)
    case Leader(num, _, _) => TidyScan(Points3, Unsigned(num), s, s)
    case _ => true
  }

  lemma TidyStep(st: State, doc: Document, cmd: Command, s: Text)
    requires Tidy(cmd, s) && Step(st, doc, cmd, s).1 == GoOn
    ensures InLine(Step(st, doc, cmd, s).2, s)
  {
    if !IsHeader(cmd) {
      TidyBody(SetUp(st, doc), cmd, s);
    }
  }

  lemma TidyBody(st: State, cmd: Command, s: Text)
    requires !IsHeader(cmd) && Tidy(cmd, s) && StepBody(st, cmd, s).1 == GoOn
    ensures InLine(StepBody(st, cmd, s).2, s)
  {
    if IsList(cmd) {
      match cmd
      case Polyline(_, _, _) =>
      case Mesh(_, _, _) =>
      case Pface(_, _, _) =>
      case Spline(_, _, _) =>
      case Leader(_, _, _) =>
    }
  }

  /** A script whose lists close on their own line is run one line at a time. */
  lemma {:induction false} RunIsFold(st: State, doc: Document, parse: Text -> Command, s: Text)
    requires forall line :: line in Lines(s) ==> Tidy(parse(line), line)
    ensures Run(st, doc, parse, s) == Fold(st, doc, parse, Lines(s))
    decreases |s|
  {
    SkipIndentShrinks(s);
    var u := SkipIndent(s);
    if |u| > 1 {
      NextLineShrinks(u);
      var next := NextLine(u);
      if BlankOrComment(u) {
        RunIsFold(st, doc, parse, next);
      } else {
        assert Lines(s)[1..] == Lines(next) && Lines(s)[0] == u;
        StepAdvances(st, doc, parse(u), u);
        var (t, verdict, c) := Step(st, doc, parse(u), u);
        if verdict == GoOn {
          assert u in Lines(s) && forall line :: line in Lines(next) ==> line in Lines(s);
          TidyStep(st, doc, parse(u), u);
          RunIsFold(t, doc, parse, next);
        }
      }
    }
  }

  lemma {:induction false} NextLineBehind(x: Text, rest: Text)
    requires Newline !in x && rest != []
    ensures NextLine(x + rest) == NextLine(rest)
  {
    if x == [] {
      assert x + rest == rest;
    } else {
      NextLineBehind(x[1..], rest);
      assert (x + rest)[1..] == x[1..] + rest && (x + rest)[0] == x[0];
    }
  }

  // ---- a script printed line by line ---------------------------------------

  /** A line as it is written: spaces or tabs, and the rest of it. */
  datatype Row = Row(indent: Text, text: Text)

  predicate RowOk(r: Row) {
    (forall t :: t in r.indent ==> t == Blank) && Newline !in r.text && (r.text != [] ==> r.text[0] != Blank)
  }

  function Print(rows: seq<Row>): Text {
    if rows == [] then [] else rows[0].indent + (rows[0].text + ([Newline] + Print(rows[1..])))
  }

  /** The lines other than empty ones and comments, each from its first character to the end of the script. */
  function CommandTexts(rows: seq<Row>): seq<Text> {
    if rows == [] then []
    else
      var text := rows[0].text;
      (if text == [] || text[0] == Other('#') then [] else [text + ([Newline] + Print(rows[1..]))]) + CommandTexts(rows[1..])
  }

  lemma {:induction false} SkipPrinted(indent: Text, rest: Text)
    requires (forall t :: t in indent ==> t == Blank) && rest != [] && rest[0] != Blank
    ensures SkipIndent(indent + rest) == rest
    decreases |indent|
  {
    if indent == [] {
      assert indent + rest == rest;
    } else {
      assert indent[0] in indent && forall t :: t in indent[1..] ==> t in indent;
      assert (indent + rest)[1..] == indent[1..] + rest;
      SkipPrinted(indent[1..], rest);
    }
  }

  /** The last line break of a text is never a line of its own. */
  lemma {:induction false} LastBreak(rest: Text)
    ensures Lines(NextLine([Newline] + rest)) == Lines(rest)
  {
    if rest == [] {
      assert [Newline] + rest == [Newline];
      assert SkipIndent([Newline]) == [Newline] && SkipIndent([]) == [];
    } else {
      assert ([Newline] + rest)[1..] == rest;
    }
  }

  lemma {:induction false} LinesStep(s: Text, u: Text)
    requires u == SkipIndent(s)
    ensures Lines(s) == if |u| <= 1 then [] else if BlankOrComment(u) then Lines(NextLine(u)) else [u] + Lines(NextLine(u))
  {
  }

  /** The commands of a printed script are its lines that are neither empty nor comments. */
  lemma {:induction false} LinesOfRows(rows: seq<Row>)
    requires forall r :: r in rows ==> RowOk(r)
    ensures Lines(Print(rows)) == CommandTexts(rows)
    decreases |rows|
  {
    hide Lines, RowOk;
    if rows == [] {
      assert SkipIndent([]) == [];
      LinesStep([], []);
    } else {
      var r, more := rows[0], Print(rows[1..]);
      var behind := [Newline] + more;
      var u := r.text + behind;
      RowIs(rows);
      assert u[0] == if r.text == [] then Newline else r.text[0];
      SkipPrinted(r.indent, u);
      LinesStep(Print(rows), u);
      LinesOfRows(rows[1..]);
      LastBreak(more);
      if |u| > 1 {
        NextLineBehind(r.text, behind);
      } else {
        assert more == [] && r.text == [];
        LinesStep([], []);
        assert SkipIndent([]) == [];
      }
    }
  }

  lemma {:induction false} RowIs(rows: seq<Row>)
    requires rows != [] && forall r :: r in rows ==> RowOk(r)
    ensures var r := rows[0];
      (forall t :: t in r.indent ==> t == Blank) && Newline !in r.text && (r.text != [] ==> r.text[0] != Blank)
    ensures forall r :: r in rows[1..] ==> RowOk(r)
  {
    assert rows[0] in rows;
    assert forall r :: r in rows[1..] ==> r in rows;
  }

  /** So a printed script whose lists close on their own lines runs command by command. */
  lemma {:induction false} PrintedScriptRuns(st: State, doc: Document, parse: Text -> Command, rows: seq<Row>)
    requires forall r :: r in rows ==> RowOk(r)
    requires forall line :: line in CommandTexts(rows) ==> Tidy(parse(line), line)
    ensures Run(st, doc, parse, Print(rows)) == Fold(st, doc, parse, CommandTexts(rows))
  {
    hide Run, Fold, Tidy, Lines, CommandTexts, Print;
    LinesOfRows(rows);
    RunIsFold(st, doc, parse, Print(rows));
  }

  /** A list printed without line breaks, with more text behind it, is such a list. */
  lemma PrintedListIsTidy(list: List, before: Text, items: seq<seq<int>>, gaps: seq<Text>, blanks: Text, rest: Text)
    requires Printable(list, before, items, gaps, blanks, rest) && rest != []
    requires Newline !in PrintList(before, items, gaps, blanks)
    ensures var s := PrintList(before, items, gaps, blanks) + rest; TidyScan(list, |items|, s, s)
  {
    RoundTrip(list, before, items, gaps, blanks, rest);
    NextLineBehind(PrintList(before, items, gaps, blanks), rest);
  }

  /**
    polyline_pface: the vertices and then the faces printed behind them are both
    recovered, and exactly one entity is added.
   */
  lemma PfaceRoundTrip(st: State, before: Text, verts: seq<seq<int>>, vgaps: seq<Text>, vblanks: Text,
                       faces: seq<seq<int>>, fgaps: seq<Text>, fblanks: Text, rest: Text, ok: bool)
    requires verts != [] && faces != [] && |fgaps| == |faces| && fgaps[0] == [] && st.block.Some?
    requires Printable(Faces, [], faces, fgaps, fblanks, rest)
    requires Printable(Points3, before, verts, vgaps, vblanks, PrintList([], faces, fgaps, fblanks) + rest)
    ensures var behind := PrintList([], faces, fgaps, fblanks) + rest;
      var s := PrintList(before, verts, vgaps, vblanks) + behind;
      && Scan(Points3, |verts|, s) == Items(verts, behind)
      && Scan(Faces, |faces|, behind) == Items(Meanings(Faces, faces), rest)
      && StepPface(st, |verts|, |faces|, ok, s) == (Added(st, POLYLINE_PFACE, ok), GoOn, rest)
  {
    var behind := PrintList([], faces, fgaps, fblanks) + rest;
    RoundTrip(Points3, before, verts, vgaps, vblanks, behind);
    PointsMeanThemselves(Points3, verts);
    RoundTrip(Faces, [], faces, fgaps, fblanks, rest);
    FacesSeen(faces, fgaps, fblanks, rest);
    PfaceAdds(st, |verts|, |faces|, ok, PrintList(before, verts, vgaps, vblanks) + behind, behind);
  }

  lemma PfaceAdds(st: State, verts: nat, faces: nat, ok: bool, s: Text, behind: Text)
    requires 0 < verts <= 5000 && 0 < faces <= 5000 && st.block.Some? && FacesAhead(behind)
    requires var v := Scan(Points3, verts, s); v.Items? && v.rest == behind
    requires Scan(Faces, faces, behind).Items?
    ensures StepPface(st, verts, faces, ok, s) == (Added(st, POLYLINE_PFACE, ok), GoOn, Scan(Faces, faces, behind).rest)
  {
    assert Unsigned(verts) == verts && Unsigned(faces) == faces;
  }

  /** Two opening parentheses and what is behind them. */
  lemma Regroup(nums: Text, more: Text, tail: Text)
    ensures var s := [Open] + ([Open] + nums + [Close] + more) + tail;
      && |s| >= 2 && s[0] == Open && s[1] == Open
      && s[2..] == nums + ([Close] + (more + tail))
  {
  }

  lemma ListTail(items: Text, blanks: Text, rest: Text)
    ensures [] + [Open] + items + [Close] + blanks + rest == [Open] + items + ([Close] + blanks + rest)
  {
  }

  lemma FirstItem(items: seq<seq<int>>, gaps: seq<Text>)
    requires items != [] && |gaps| == |items| && gaps[0] == []
    ensures PrintItems(items, gaps) == [Open] + PrintNums(items[0]) + [Close] + PrintItems(items[1..], gaps[1..])
  {
    assert [] + PrintItem(items[0]) == PrintItem(items[0]);
  }

  /** A printed list is taken for one of faces exactly if its first item has three numbers or more. */
  lemma FacesSeen(faces: seq<seq<int>>, gaps: seq<Text>, blanks: Text, rest: Text)
    requires faces != [] && |gaps| == |faces| && gaps[0] == [] && faces[0] != []
    ensures FacesAhead(PrintList([], faces, gaps, blanks) + rest) <==> |faces[0]| >= 3
  {
    var more, tail := PrintItems(faces[1..], gaps[1..]), [Close] + blanks + rest;
    FirstItem(faces, gaps);
    ListTail(PrintItems(faces, gaps), blanks, rest);
    Regroup(PrintNums(faces[0]), more, tail);
    NumsBack(faces[0], 3, [Close] + (more + tail));
  }
}
