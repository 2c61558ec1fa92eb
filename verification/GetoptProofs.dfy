/**
  What the option scanner promises: reading back any rendering of an option
  list (initialised once), and what it does when every call initialises again.
 */
module GetoptProofs {
  import opened Options
  import opened Getopt

  // ---- rendering an option list as arguments -------------------------------

  /**
    Flags sharing one argument, the last of them possibly an option with an
    option-argument; or a dash by itself, as the option of that letter.
   */
  datatype Group =
    | Cluster(flags: string)
    | WithArg(flags: string, letter: char, arg: string, attached: bool)
    | Lone
    | LoneArg(arg: string)

  predicate GroupOk(g: Group, ostr: string) {
    match g
    case Cluster(flags) => (forall c :: c in flags ==> Flag(ostr, c)) && flags != "" && flags[0] != '-'
    case WithArg(flags, letter, arg, attached) =>
      && (forall c :: c in flags ==> Flag(ostr, c)) && Known(ostr, letter) && TakesArg(ostr, letter)
      && (flags + [letter])[0] != '-'
      && (attached ==> arg != "")
    case Lone => Flag(ostr, '-')
    case LoneArg(_) => Known(ostr, '-') && TakesArg(ostr, '-')
  }

  function Render(g: Group): seq<string> {
    match g
    case Cluster(flags) => [['-'] + flags]
    case WithArg(flags, letter, arg, attached) =>
      if attached then [['-'] + flags + [letter] + arg] else [['-'] + flags + [letter], arg]
    case Lone => ["-"]
    case LoneArg(arg) => ["-", arg]
  }

  function RenderAll(gs: seq<Group>): seq<string> {
    if gs == [] then [] else Render(gs[0]) + RenderAll(gs[1..])
  }

  /** An option as it is returned. */
  function OptionEvent(letter: char, optarg: Option<string>): Event {
    Event(letter as int, letter, optarg)
  }

  function FlagEvents(flags: string): (es: seq<Event>)
    ensures |es| == |flags|
  {
    seq(|flags|, i requires 0 <= i < |flags| => OptionEvent(flags[i], None))
  }

  /** What the user meant. */
  function Meant(g: Group): seq<Event> {
    match g
    case Cluster(flags) => FlagEvents(flags)
    case WithArg(flags, letter, arg, _) => FlagEvents(flags) + [OptionEvent(letter, Some(arg))]
    case Lone => [OptionEvent('-', None)]
    case LoneArg(arg) => [OptionEvent('-', Some(arg))]
  }

  predicate HasFlags(g: Group) {
    g.Cluster? || g.WithArg?
  }

  function MeantAll(gs: seq<Group>): seq<Event> {
    if gs == [] then [] else Meant(gs[0]) + MeantAll(gs[1..])
  }

  /** Arguments that end the options: an argument starting with two dashes, which is used up ... */
  predicate Dashes(tail: seq<string>) {
    tail != [] && |tail[0]| >= 2 && tail[0][0] == '-' && tail[0][1] == '-'
  }

  /** ... or a first operand, which is not; a lone dash counts as one unless it is an option. */
  predicate Operands(tail: seq<string>, ostr: string) {
    tail == [] || tail[0] == "" || tail[0][0] != '-' || (tail[0] == "-" && !Known(ostr, '-'))
  }

  // ---- the round trip ------------------------------------------------------

  /** From s the scanner returns the events es and then goes on from t. */
  ghost predicate Yields(s: Scan, es: seq<Event>, t: Scan, argv: seq<string>, ostr: string) {
    Inv(s, argv) && Inv(t, argv) && Run(s, argv, ostr) == (es + Run(t, argv, ostr).0, Run(t, argv, ostr).1)
  }

  lemma YieldsTwice(s: Scan, es: seq<Event>, t: Scan, fs: seq<Event>, u: Scan, argv: seq<string>, ostr: string)
    requires Yields(s, es, t, argv, ostr) && Yields(t, fs, u, argv, ostr)
    ensures Yields(s, es + fs, u, argv, ostr)
  {
    var r := Run(u, argv, ostr).0;
    assert es + (fs + r) == (es + fs) + r;
  }

  lemma YieldsNothing(s: Scan, argv: seq<string>, ostr: string)
    requires Inv(s, argv)
    ensures Yields(s, [], s, argv, ostr)
  {
    var r := Run(s, argv, ostr).0;
    assert [] + r == r;
  }

  lemma YieldsOne(s: Scan, argv: seq<string>, ostr: string)
    requires Inv(s, argv) && Step(s, argv, ostr).1 != -1
    ensures var (t, r) := Step(s, argv, ostr); !t.optreset && Yields(s, [Event(r, t.optopt, t.optarg)], t, argv, ostr)
  {
    StepProgress(s, argv, ostr);
  }

  /** A flag is returned without an argument, and the scanner stands behind its letter. */
  lemma FlagRun(s: Scan, argv: seq<string>, ostr: string, c: char, rest: string) returns (t: Scan)
    requires Inv(s, argv) && s.place == [c] + rest && !s.optreset && Flag(ostr, c)
    ensures t.place == rest && t.optind == (if rest == "" then s.optind + 1 else s.optind) && !t.optreset
    ensures Yields(s, [OptionEvent(c, None)], t, argv, ostr)
  {
    assert s.place[1..] == rest;
    YieldsOne(s, argv, ostr);
    t := Step(s, argv, ostr).0;
  }

  /** Leading flags of a cluster are returned one by one, and leave the scanner in front of the rest. */
  lemma {:induction false} FlagsRun(s: Scan, argv: seq<string>, ostr: string, flags: string, rest: string) returns (t: Scan)
    requires Inv(s, argv) && s.place == flags + rest && s.place != "" && !s.optreset
    requires forall c :: c in flags ==> Flag(ostr, c)
    ensures t.place == rest && t.optind == (if rest == "" then s.optind + 1 else s.optind) && !t.optreset
    ensures Yields(s, FlagEvents(flags), t, argv, ostr)
    decreases |flags|
  {
    hide Yields, Run;
    if flags == "" {
      t := s;
      YieldsNothing(s, argv, ostr);
      assert FlagEvents(flags) == [];
    } else {
      assert s.place == [flags[0]] + (flags[1..] + rest) && flags[0] in flags;
      var one, more := [OptionEvent(flags[0], None)], FlagEvents(flags[1..]);
      var u := FlagRun(s, argv, ostr, flags[0], flags[1..] + rest);
      if u.place == "" {
        t := u;
        YieldsNothing(u, argv, ostr);
      } else {
        t := FlagsRun(u, argv, ostr, flags[1..], rest);
      }
      YieldsTwice(s, one, u, more, t, argv, ostr);
      assert FlagEvents(flags) == one + more;
    }
  }

  /** An option with an argument is returned with it, and the scanner stands behind both. */
  lemma ArgRun(s: Scan, argv: seq<string>, ostr: string, letter: char, arg: string, attached: bool) returns (t: Scan)
    requires Inv(s, argv) && !s.optreset && Known(ostr, letter) && TakesArg(ostr, letter)
    requires if attached then s.place == [letter] + arg && arg != ""
             else s.place == [letter] && s.optind + 1 < |argv| && argv[s.optind + 1] == arg
    ensures t.place == "" && t.optind == s.optind + (if attached then 1 else 2) && !t.optreset
    ensures Yields(s, [OptionEvent(letter, Some(arg))], t, argv, ostr)
  {
    assert attached ==> s.place[1..] == arg;
    YieldsOne(s, argv, ostr);
    t := Step(s, argv, ostr).0;
  }

  function AfterFlags(g: Group): string
    requires HasFlags(g)
  {
    if g.Cluster? then "" else if g.attached then [g.letter] + g.arg else [g.letter]
  }

  lemma FirstWord(g: Group, ostr: string)
    requires GroupOk(g, ostr) && HasFlags(g)
    ensures var w := Render(g)[0]; |w| >= 2 && w[0] == '-' && w[1] != '-' && w[1..] == g.flags + AfterFlags(g)
  {
    var w := Render(g)[0];
    assert w == ['-'] + (g.flags + AfterFlags(g));
  }

  /** Between two arguments the scanner does what it does behind the next one's dash. */
  lemma OpenArgument(s: Scan, argv: seq<string>, ostr: string, es: seq<Event>, t: Scan)
    requires Inv(s, argv) && s.place == "" && !s.optreset && s.optind < |argv|
    requires var w := argv[s.optind]; |w| >= 2 && w[0] == '-' && w[1] != '-'
    requires Yields(s.(place := argv[s.optind][1..]), es, t, argv, ostr)
    ensures Yields(s, es, t, argv, ostr)
  {
  }

  /** A dash that is an option. */
  lemma LoneRun(s: Scan, argv: seq<string>, ostr: string, g: Group, after: seq<string>) returns (t: Scan)
    requires Inv(s, argv) && s.place == "" && !s.optreset && GroupOk(g, ostr) && !HasFlags(g)
    requires argv[s.optind..] == Render(g) + after
    ensures t.place == "" && t.optind == s.optind + |Render(g)| && !t.optreset
    ensures Yields(s, Meant(g), t, argv, ostr)
  {
    assert argv[s.optind] == argv[s.optind..][0] == "-";
    if g.LoneArg? {
      assert argv[s.optind + 1] == argv[s.optind..][1] == g.arg;
    }
    assert "-"[1..] == "";
    YieldsOne(s, argv, ostr);
    t := Step(s, argv, ostr).0;
  }

  /** One argument with flags is read back, and the scanner stands behind it. */
  lemma FlagGroupRun(s: Scan, argv: seq<string>, ostr: string, g: Group, after: seq<string>) returns (t: Scan)
    requires Inv(s, argv) && s.place == "" && !s.optreset && GroupOk(g, ostr) && HasFlags(g)
    requires argv[s.optind..] == Render(g) + after
    ensures t.place == "" && t.optind == s.optind + |Render(g)| && !t.optreset
    ensures Yields(s, Meant(g), t, argv, ostr)
  {
    hide Yields, Run;
    var w, rest := Render(g)[0], AfterFlags(g);
    assert argv[s.optind] == argv[s.optind..][0] == w;
    FirstWord(g, ostr);
    var u := FlagsRun(s.(place := w[1..]), argv, ostr, g.flags, rest);
    OpenArgument(s, argv, ostr, FlagEvents(g.flags), u);
    if g.Cluster? {
      t := u;
    } else {
      if !g.attached {
        assert argv[s.optind + 1] == argv[s.optind..][1] == g.arg;
      }
      t := ArgRun(u, argv, ostr, g.letter, g.arg, g.attached);
      YieldsTwice(s, FlagEvents(g.flags), u, [OptionEvent(g.letter, Some(g.arg))], t, argv, ostr);
    }
  }

  /** One group of options is read back, and the scanner stands behind it. */
  lemma GroupRun(s: Scan, argv: seq<string>, ostr: string, g: Group, after: seq<string>) returns (t: Scan)
    requires Inv(s, argv) && s.place == "" && !s.optreset && GroupOk(g, ostr)
    requires argv[s.optind..] == Render(g) + after
    ensures t.place == "" && t.optind == s.optind + |Render(g)| && !t.optreset
    ensures Yields(s, Meant(g), t, argv, ostr)
  {
    if HasFlags(g) {
      t := FlagGroupRun(s, argv, ostr, g, after);
    } else {
      t := LoneRun(s, argv, ostr, g, after);
    }
  }

  lemma BehindFirst(argv: seq<string>, i: nat, first: seq<string>, more: seq<string>)
    requires i <= |argv| && argv[i..] == first + more
    ensures i + |first| <= |argv| && argv[i + |first|..] == more
  {
    assert argv[i + |first|..] == argv[i..][|first|..];
  }

  /** A list of groups is read back, and the scanner stands in front of what follows. */
  lemma {:induction false} GroupsRun(s: Scan, argv: seq<string>, ostr: string, gs: seq<Group>, tail: seq<string>)
    returns (t: Scan)
    requires Inv(s, argv) && s.place == "" && !s.optreset
    requires forall g :: g in gs ==> GroupOk(g, ostr)
    requires argv[s.optind..] == RenderAll(gs) + tail
    ensures t.place == "" && !t.optreset && t.optind <= |argv| && argv[t.optind..] == tail
    ensures Yields(s, MeantAll(gs), t, argv, ostr)
    decreases |gs|
  {
    hide Yields, Run;
    if gs == [] {
      t := s;
      assert [] + tail == tail;
      YieldsNothing(s, argv, ostr);
    } else {
      var more := RenderAll(gs[1..]) + tail;
      assert argv[s.optind..] == Render(gs[0]) + more;
      var u := GroupRun(s, argv, ostr, gs[0], more);
      BehindFirst(argv, s.optind, Render(gs[0]), more);
      t := GroupsRun(u, argv, ostr, gs[1..], tail);
      YieldsTwice(s, Meant(gs[0]), u, MeantAll(gs[1..]), t, argv, ostr);
    }
  }

  /** In front of the first argument, or sent back there by optreset, whatever else earlier calls have left behind. */
  predicate Ready(s: Scan) {
    s.optind == 1 && (s.place == "" || s.optreset)
  }

  lemma ReadyMeans(s: Scan, es: seq<Event>, t: Scan, argv: seq<string>, ostr: string)
    requires Ready(s) && argv != [] && Yields(s.(place := "", optreset := false), es, t, argv, ostr)
    ensures Yields(s, es, t, argv, ostr)
  {
    assert Update(s, argv) == Update(s.(place := "", optreset := false), argv);
  }

  lemma FromStart(s: Scan, prog: string, gs: seq<Group>, tail: seq<string>, ostr: string) returns (t: Scan)
    requires Ready(s) && forall g :: g in gs ==> GroupOk(g, ostr)
    ensures var argv := [prog] + RenderAll(gs) + tail;
      && t.place == "" && !t.optreset && t.optind <= |argv| && argv[t.optind..] == tail
      && Yields(s, MeantAll(gs), t, argv, ostr)
  {
    hide Yields, Run;
    var argv := [prog] + RenderAll(gs) + tail;
    assert argv[1..] == RenderAll(gs) + tail;
    t := GroupsRun(s.(place := "", optreset := false), argv, ostr, gs, tail);
    ReadyMeans(s, MeantAll(gs), t, argv, ostr);
  }

  /** Behind the options the scanner is over, and uses up no more than two dashes. */
  lemma EndRun(s: Scan, argv: seq<string>, ostr: string, tail: seq<string>)
    requires Inv(s, argv) && s.place == "" && !s.optreset && argv[s.optind..] == tail
    requires Dashes(tail) || Operands(tail, ostr)
    ensures var (events, end) := Run(s, argv, ostr);
      && events == [] && end.place == "" && end.optind <= |argv|
      && argv[end.optind..] == if Dashes(tail) then tail[1..] else tail
  {
    if tail != [] {
      assert argv[s.optind] == argv[s.optind..][0] == tail[0];
      assert argv[s.optind + 1..] == argv[s.optind..][1..];
    }
  }

  lemma YieldsAll(s: Scan, es: seq<Event>, t: Scan, argv: seq<string>, ostr: string)
    requires Yields(s, es, t, argv, ostr) && Run(t, argv, ostr).0 == []
    ensures Run(s, argv, ostr) == (es, Run(t, argv, ostr).1)
  {
    assert es + [] == es;
  }

  // ---- option strings ------------------------------------------------------

  /** An option that a program declares. */
  datatype Opt = Opt(letter: char, takesArg: bool)

  /** Options with different letters, none of which is a colon. */
  ghost predicate Declared(opts: seq<Opt>) {
    && (forall o :: o in opts ==> o.letter != ':')
    && forall i, j :: 0 <= i < j < |opts| ==> opts[i].letter != opts[j].letter
  }

  /** Each letter, with a colon behind it if the option takes an argument. */
  function Letters(opts: seq<Opt>): string {
    if opts == [] then "" else [opts[0].letter] + (if opts[0].takesArg then ":" else "") + Letters(opts[1..])
  }

  /** The option string, with a colon in front where the program wants to tell the two errors apart. */
  function OptionString(opts: seq<Opt>, colon: bool): string {
    (if colon then ":" else "") + Letters(opts)
  }

  /** A character in front that is not the letter. */
  lemma SkipOther(x: char, rest: string, c: char)
    requires x != c
    ensures TakesArg([x] + rest, c) == TakesArg(rest, c) && Known([x] + rest, c) == Known(rest, c)
  {
    assert ([x] + rest)[1..] == rest;
  }

  /** Option strings mean what was declared. */
  lemma {:induction false} LettersMean(opts: seq<Opt>, c: char)
    requires Declared(opts) && c != ':'
    ensures Known(Letters(opts), c) <==> Opt(c, false) in opts || Opt(c, true) in opts
    ensures Opt(c, false) in opts ==> !TakesArg(Letters(opts), c)
    ensures Opt(c, true) in opts ==> TakesArg(Letters(opts), c)
    ensures opts != [] ==> Letters(opts)[0] != ':'
    decreases |opts|
  {
    if opts != [] {
      var o, rest := opts[0], Letters(opts[1..]);
      assert o in opts && opts == [o] + opts[1..];
      LettersMean(opts[1..], c);
      if o.letter == c {
        assert Opt(c, !o.takesArg) !in opts;
      } else {
        if o.takesArg {
          assert Letters(opts) == [o.letter] + ([':'] + rest);
          SkipOther(':', rest, c);
          SkipOther(o.letter, [':'] + rest, c);
        } else {
          assert Letters(opts) == [o.letter] + rest;
          SkipOther(o.letter, rest, c);
        }
      }
    }
  }

  lemma StringMeans(opts: seq<Opt>, colon: bool, c: char)
    requires Declared(opts) && c != ':'
    ensures var ostr := OptionString(opts, colon);
      && (Known(ostr, c) <==> Opt(c, false) in opts || Opt(c, true) in opts)
      && (Opt(c, false) in opts ==> Flag(ostr, c))
      && (Opt(c, true) in opts ==> Known(ostr, c) && TakesArg(ostr, c))
      && (opts != [] ==> (ostr[0] == ':' <==> colon))
  {
    LettersMean(opts, c);
    if colon {
      SkipOther(':', Letters(opts), c);
    } else {
      assert "" + Letters(opts) == Letters(opts);
    }
  }

  /** Flags are declared without an argument, ... */
  predicate Flags(opts: seq<Opt>, flags: string) {
    forall c :: c in flags ==> Opt(c, false) in opts
  }

  /** ... options with an argument with one; and what follows the first dash is not taken for two dashes. */
  predicate Uses(g: Group, opts: seq<Opt>) {
    match g
    case Cluster(flags) => Flags(opts, flags) && flags != "" && flags[0] != '-'
    case WithArg(flags, letter, arg, attached) =>
      Flags(opts, flags) && Opt(letter, true) in opts && (flags + [letter])[0] != '-' && (attached ==> arg != "")
    case Lone => Opt('-', false) in opts
    case LoneArg(_) => Opt('-', true) in opts
  }

  lemma FlagsOk(opts: seq<Opt>, colon: bool, flags: string)
    requires Declared(opts) && Flags(opts, flags)
    ensures forall c :: c in flags ==> Flag(OptionString(opts, colon), c)
  {
    forall c | c in flags ensures Flag(OptionString(opts, colon), c) {
      StringMeans(opts, colon, c);
    }
  }

  lemma UsesOk(g: Group, opts: seq<Opt>, colon: bool)
    requires Declared(opts) && Uses(g, opts)
    ensures GroupOk(g, OptionString(opts, colon))
  {
    StringMeans(opts, colon, '-');
    if HasFlags(g) {
      FlagsOk(opts, colon, g.flags);
    }
    if g.WithArg? {
      StringMeans(opts, colon, g.letter);
    }
  }

  lemma AllUsesOk(gs: seq<Group>, opts: seq<Opt>, colon: bool)
    requires Declared(opts) && forall g :: g in gs ==> Uses(g, opts)
    ensures forall g :: g in gs ==> GroupOk(g, OptionString(opts, colon))
  {
    forall g | g in gs ensures GroupOk(g, OptionString(opts, colon)) {
      UsesOk(g, opts, colon);
    }
  }

  /** What may follow the options: see Dashes; or a first operand, where a lone dash counts as one unless it is declared. */
  predicate Follows(tail: seq<string>, opts: seq<Opt>) {
    || Dashes(tail) || tail == [] || tail[0] == "" || tail[0][0] != '-'
    || (tail[0] == "-" && Opt('-', false) !in opts && Opt('-', true) !in opts)
  }

  lemma FollowsOk(tail: seq<string>, opts: seq<Opt>, colon: bool)
    requires Declared(opts) && Follows(tail, opts)
    ensures Dashes(tail) || Operands(tail, OptionString(opts, colon))
  {
    StringMeans(opts, colon, '-');
  }

  /**
    The option round trip: whatever way the options are clustered and their
    arguments attached or detached, calling the scanner until -1 returns exactly
    them, in order, and leaves optind at the first operand.
   */
  lemma RoundTrip(s: Scan, prog: string, opts: seq<Opt>, colon: bool, gs: seq<Group>, tail: seq<string>)
    requires Ready(s) && Declared(opts) && (forall g :: g in gs ==> Uses(g, opts)) && Follows(tail, opts)
    ensures var argv := [prog] + RenderAll(gs) + tail;
      var (events, end) := Run(s, argv, OptionString(opts, colon));
      && events == MeantAll(gs)
      && end.optind <= |argv| && argv[end.optind..] == if Dashes(tail) then tail[1..] else tail
  {
    hide Run, Declared;
    var argv, ostr := [prog] + RenderAll(gs) + tail, OptionString(opts, colon);
    AllUsesOk(gs, opts, colon);
    FollowsOk(tail, opts, colon);
    var t := FromStart(s, prog, gs, tail, ostr);
    EndRun(t, argv, ostr, tail);
    YieldsAll(s, MeantAll(gs), t, argv, ostr);
  }

  // ---- what is wrong on the command line -----------------------------------

  /** What a call returns and optopt; optarg is left as it was where an error is reported. */
  function Told(es: seq<Event>): (ls: seq<(int, char)>)
    ensures |ls| == |es|
  {
    seq(|es|, i requires 0 <= i < |es| => (es[i].result, es[i].optopt))
  }

  lemma ToldAppend(a: seq<Event>, b: seq<Event>)
    ensures Told(a + b) == Told(a) + Told(b)
  {
  }

  /** A letter that is no option, somewhere in a cluster, is reported, and scanning goes on behind it. */
  lemma UnknownRun(s: Scan, argv: seq<string>, ostr: string, c: char, rest: string) returns (t: Scan, e: Event)
    requires Inv(s, argv) && s.place == [c] + rest && !s.optreset && !Known(ostr, c) && c != '-'
    ensures t.place == rest && t.optind == (if rest == "" then s.optind + 1 else s.optind) && !t.optreset
    ensures e.result == '?' as int && e.optopt == c && Yields(s, [e], t, argv, ostr)
  {
    assert s.place[1..] == rest;
    YieldsOne(s, argv, ostr);
    t := Step(s, argv, ostr).0;
    e := Event(BADCH, t.optopt, t.optarg);
  }

  /** The argument with the unknown letter among its flags. */
  lemma UnknownWord(s: Scan, argv: seq<string>, ostr: string, flags: string, c: char, more: string)
    returns (t: Scan, es: seq<Event>)
    requires Inv(s, argv) && s.place == "" && !s.optreset && s.optind < |argv|
    requires argv[s.optind] == ['-'] + (flags + ([c] + more)) && (flags + [c])[0] != '-'
    requires !Known(ostr, c) && c != '-' && forall f :: f in flags || f in more ==> Flag(ostr, f)
    ensures t.place == "" && t.optind == s.optind + 1 && !t.optreset && Yields(s, es, t, argv, ostr)
    ensures Told(es) == Told(FlagEvents(flags)) + [('?' as int, c)] + Told(FlagEvents(more))
  {
    hide Yields, Run;
    var rest := [c] + more;
    assert argv[s.optind][1..] == flags + rest;
    assert argv[s.optind][1] == (flags + [c])[0];
    var u := FlagsRun(s.(place := argv[s.optind][1..]), argv, ostr, flags, rest);
    OpenArgument(s, argv, ostr, FlagEvents(flags), u);
    var v, e := UnknownRun(u, argv, ostr, c, more);
    if more == "" {
      t := v;
      YieldsNothing(v, argv, ostr);
      assert FlagEvents(more) == [];
    } else {
      assert more + "" == more;
      t := FlagsRun(v, argv, ostr, more, "");
    }
    YieldsTwice(s, FlagEvents(flags), u, [e], v, argv, ostr);
    YieldsTwice(s, FlagEvents(flags) + [e], v, FlagEvents(more), t, argv, ostr);
    es := FlagEvents(flags) + [e] + FlagEvents(more);
    ToldAppend(FlagEvents(flags) + [e], FlagEvents(more));
    ToldAppend(FlagEvents(flags), [e]);
    assert Told([e]) == [('?' as int, c)];
  }

  lemma FirstOf(argv: seq<string>, i: nat, first: string, more: seq<string>)
    requires i <= |argv| && argv[i..] == [first] + more
    ensures i < |argv| && argv[i] == first && argv[i + 1..] == more
  {
    assert argv[i] == argv[i..][0] && argv[i + 1..] == argv[i..][1..];
  }

  /**
    A command line with a letter that was not declared, anywhere among the flags of
    an argument: it is reported as `?`, with the letter in optopt, in its place;
    the options around it, in this argument and in all others, are returned as meant.
   */
  lemma UnknownLetter(s: Scan, prog: string, opts: seq<Opt>, colon: bool, gs: seq<Group>, flags: string, c: char,
                      more: string, hs: seq<Group>, tail: seq<string>)
    requires Ready(s) && Declared(opts) && Flags(opts, flags) && Flags(opts, more)
    requires Opt(c, false) !in opts && Opt(c, true) !in opts && c != '-' && (flags + [c])[0] != '-'
    requires (forall g :: g in gs ==> Uses(g, opts)) && (forall h :: h in hs ==> Uses(h, opts)) && Follows(tail, opts)
    ensures var argv := [prog] + RenderAll(gs) + ([['-'] + (flags + ([c] + more))] + (RenderAll(hs) + tail));
      var (events, end) := Run(s, argv, OptionString(opts, colon));
      && Told(events) == Told(MeantAll(gs))
           + (Told(FlagEvents(flags)) + [('?' as int, c)] + Told(FlagEvents(more))) + Told(MeantAll(hs))
      && end.optind <= |argv| && argv[end.optind..] == if Dashes(tail) then tail[1..] else tail
  {
    hide Yields, Run, Declared, Known, Flag, GroupOk, Told;
    var word, behind := ['-'] + (flags + ([c] + more)), RenderAll(hs) + tail;
    var argv, ostr := [prog] + RenderAll(gs) + ([word] + behind), OptionString(opts, colon);
    AllUsesOk(gs, opts, colon);
    AllUsesOk(hs, opts, colon);
    FollowsOk(tail, opts, colon);
    FlagsOk(opts, colon, flags);
    FlagsOk(opts, colon, more);
    NotKnown(opts, colon, c);
    var t := FromStart(s, prog, gs, [word] + behind, ostr);
    FirstOf(argv, t.optind, word, behind);
    var u, es := UnknownWord(t, argv, ostr, flags, c, more);
    var v := GroupsRun(u, argv, ostr, hs, tail);
    EndRun(v, argv, ostr, tail);
    YieldsTwice(s, MeantAll(gs), t, es, u, argv, ostr);
    YieldsTwice(s, MeantAll(gs) + es, u, MeantAll(hs), v, argv, ostr);
    YieldsAll(s, MeantAll(gs) + es + MeantAll(hs), v, argv, ostr);
    ToldAppend(MeantAll(gs) + es, MeantAll(hs));
    ToldAppend(MeantAll(gs), es);
  }

  lemma NotKnown(opts: seq<Opt>, colon: bool, c: char)
    requires Declared(opts) && Opt(c, false) !in opts && Opt(c, true) !in opts
    ensures !Known(OptionString(opts, colon), c)
  {
    if c != ':' {
      StringMeans(opts, colon, c);
    }
  }

  lemma DeclaredArg(opts: seq<Opt>, colon: bool, letter: char)
    requires Declared(opts) && Opt(letter, true) in opts
    ensures var ostr := OptionString(opts, colon);
      Known(ostr, letter) && TakesArg(ostr, letter) && (ostr[0] == ':' <==> colon)
  {
    StringMeans(opts, colon, letter);
  }

  /** An option that wants an argument, at the end of the last one. */
  lemma LastRun(s: Scan, argv: seq<string>, ostr: string, letter: char) returns (t: Scan, e: Event)
    requires Inv(s, argv) && s.place == [letter] && !s.optreset && s.optind + 1 == |argv|
    requires Known(ostr, letter) && TakesArg(ostr, letter)
    ensures t.place == "" && t.optind == |argv| && !t.optreset && Yields(s, [e], t, argv, ostr)
    ensures e.result == (if ostr[0] == ':' then ':' as int else '?' as int) && e.optopt == letter
  {
    YieldsOne(s, argv, ostr);
    t := Step(s, argv, ostr).0;
    e := Event(Step(s, argv, ostr).1, t.optopt, t.optarg);
  }

  lemma MissingRun(s: Scan, argv: seq<string>, ostr: string, flags: string, letter: char) returns (t: Scan, e: Event)
    requires Inv(s, argv) && s.place == "" && !s.optreset && s.optind + 1 == |argv|
    requires argv[s.optind] == ['-'] + (flags + [letter]) && (flags + [letter])[0] != '-'
    requires forall c :: c in flags ==> Flag(ostr, c)
    requires Known(ostr, letter) && TakesArg(ostr, letter)
    ensures t.place == "" && t.optind == |argv| && !t.optreset && Yields(s, FlagEvents(flags) + [e], t, argv, ostr)
    ensures e.result == (if ostr[0] == ':' then ':' as int else '?' as int) && e.optopt == letter
  {
    hide Yields, Run;
    var last := argv[s.optind];
    assert last[1..] == flags + [letter] && last[1] == (flags + [letter])[0];
    var u := FlagsRun(s.(place := last[1..]), argv, ostr, flags, [letter]);
    OpenArgument(s, argv, ostr, FlagEvents(flags), u);
    t, e := LastRun(u, argv, ostr, letter);
    YieldsTwice(s, FlagEvents(flags), u, [e], t, argv, ostr);
  }

  /** A dash that is no option, behind other letters. */
  lemma DashRun(s: Scan, argv: seq<string>, ostr: string, more: string)
    requires Inv(s, argv) && s.place == ['-'] + more && !s.optreset && !Known(ostr, '-')
    ensures var (events, end) := Run(s, argv, ostr); events == [] && end.place == more && end.optind == s.optind
  {
    assert s.place[1..] == more;
  }

  /**
    A dash that was not declared, behind flags in the same argument, ends the
    options too, but not their argument: optind stays at it, and what is behind the
    dash would be scanned next.
   */
  lemma DashInside(s: Scan, prog: string, opts: seq<Opt>, colon: bool, gs: seq<Group>, flags: string, more: string,
                   tail: seq<string>)
    requires Ready(s) && Declared(opts) && (forall g :: g in gs ==> Uses(g, opts))
    requires Flags(opts, flags) && flags != "" && Opt('-', false) !in opts && Opt('-', true) !in opts
    ensures var word := ['-'] + (flags + (['-'] + more));
      var argv := [prog] + RenderAll(gs) + ([word] + tail);
      var (events, end) := Run(s, argv, OptionString(opts, colon));
      && events == MeantAll(gs) + FlagEvents(flags)
      && end.place == more && end.optind < |argv| && argv[end.optind..] == [word] + tail
  {
    hide Yields, Run, Declared, Known, Flag, GroupOk;
    var word := ['-'] + (flags + (['-'] + more));
    var argv, ostr := [prog] + RenderAll(gs) + ([word] + tail), OptionString(opts, colon);
    AllUsesOk(gs, opts, colon);
    FlagsOk(opts, colon, flags);
    NotKnown(opts, colon, '-');
    var t := FromStart(s, prog, gs, [word] + tail, ostr);
    FirstOf(argv, t.optind, word, tail);
    assert word[1..] == flags + (['-'] + more) && word[1] == flags[0];
    NotDash(opts, flags);
    var u := FlagsRun(t.(place := word[1..]), argv, ostr, flags, ['-'] + more);
    OpenArgument(t, argv, ostr, FlagEvents(flags), u);
    YieldsTwice(s, MeantAll(gs), t, FlagEvents(flags), u, argv, ostr);
    YieldsStays(s, MeantAll(gs) + FlagEvents(flags), u, argv, ostr);
    DashRun(u, argv, ostr, more);
    YieldsAll(s, MeantAll(gs) + FlagEvents(flags), u, argv, ostr);
  }

  lemma NotDash(opts: seq<Opt>, flags: string)
    requires Flags(opts, flags) && flags != "" && Opt('-', false) !in opts
    ensures flags[0] != '-'
  {
    assert flags[0] in flags;
  }

  lemma YieldsStays(s: Scan, es: seq<Event>, t: Scan, argv: seq<string>, ostr: string)
    requires Yields(s, es, t, argv, ostr)
    ensures Inv(t, argv)
  {
  }

  lemma OverAtEnd(s: Scan, es: seq<Event>, t: Scan, argv: seq<string>, ostr: string)
    requires Yields(s, es, t, argv, ostr) && t.place == "" && !t.optreset && t.optind == |argv|
    ensures Run(s, argv, ostr) == (es, Run(t, argv, ostr).1) && Run(t, argv, ostr).1.optind == |argv|
  {
    YieldsAll(s, es, t, argv, ostr);
  }

  /**
    A command line whose last option lacks its argument: everything before it is
    returned as meant, then `:` if the option string begins with a colon and `?` if
    not, with the letter in optopt, and then -1.
   */
  lemma MissingArgument(s: Scan, prog: string, opts: seq<Opt>, colon: bool, gs: seq<Group>, flags: string, letter: char)
    requires Ready(s) && Declared(opts) && (forall g :: g in gs ==> Uses(g, opts)) && Flags(opts, flags)
    requires Opt(letter, true) in opts && (flags + [letter])[0] != '-'
    ensures var argv := [prog] + RenderAll(gs) + [['-'] + (flags + [letter])];
      var (events, end) := Run(s, argv, OptionString(opts, colon));
      && Told(events) == Told(MeantAll(gs)) + (Told(FlagEvents(flags)) + [((if colon then ':' else '?') as int, letter)])
      && end.optind == |argv|
  {
    hide Yields, Run, Declared, GroupOk;
    var last, ostr := ['-'] + (flags + [letter]), OptionString(opts, colon);
    var argv := [prog] + RenderAll(gs) + [last];
    AllUsesOk(gs, opts, colon);
    FlagsOk(opts, colon, flags);
    DeclaredArg(opts, colon, letter);
    var t := FromStart(s, prog, gs, [last], ostr);
    FirstOf(argv, t.optind, last, []);
    var u, e := MissingRun(t, argv, ostr, flags, letter);
    YieldsTwice(s, MeantAll(gs), t, FlagEvents(flags) + [e], u, argv, ostr);
    OverAtEnd(s, MeantAll(gs) + (FlagEvents(flags) + [e]), u, argv, ostr);
    ToldAppend(MeantAll(gs), FlagEvents(flags) + [e]);
    ToldAppend(FlagEvents(flags), [e]);
    assert Told([e]) == [((if colon then ':' else '?') as int, letter)];
  }

  // ---- as written: initialised on every call -------------------------------

  /** The n-th call of the scanner as the source has it, counted from 0. */
  function Call(s: Scan, argv: seq<string>, ostr: string, n: nat): (Scan, int)
    decreases n
  {
    if n == 0 then StepAsWritten(s, argv, ostr) else Call(StepAsWritten(s, argv, ostr).0, argv, ostr, n - 1)
  }

  predicate StopsAt(argv: seq<string>, ostr: string, n: nat) {
    Call(Initial(), argv, ostr, n).1 == -1
  }

  lemma {:induction false} CallAfter(s: Scan, argv: seq<string>, ostr: string, n: nat)
    ensures Call(s, argv, ostr, n + 1) == StepAsWritten(Call(s, argv, ostr, n).0, argv, ostr)
    ensures Call(s, argv, ostr, n).0.opterr
    decreases n
  {
    if n > 0 {
      CallAfter(StepAsWritten(s, argv, ostr).0, argv, ostr, n - 1);
    }
  }

  /** Scanning these letters runs into a dash that is no option before an option-argument ends the scan. */
  predicate HitsDash(letters: string, ostr: string) {
    letters != "" &&
    var c := letters[0];
    if !Known(ostr, c) then c == '-' || HitsDash(letters[1..], ostr)
    else !TakesArg(ostr, c) && HitsDash(letters[1..], ostr)
  }

  /** What the caller can check beforehand: only the first argument matters. */
  predicate StopsAsWritten(argv: seq<string>, ostr: string) {
    || |argv| <= 1 || argv[1] == "" || argv[1][0] != '-'
    || (|argv[1]| >= 2 && argv[1][1] == '-')
    || HitsDash(if argv[1] == "-" then argv[1] else argv[1][1..], ostr)
  }

  /** Between calls the scanner is not heading for a dash. */
  predicate Looping(s: Scan, ostr: string) {
    !s.optreset && (s.place == "" || !HitsDash(s.place, ostr))
  }

  lemma {:induction false} LoopingForever(s: Scan, argv: seq<string>, ostr: string, n: nat)
    requires Looping(s, ostr) && !StopsAsWritten(argv, ostr)
    ensures Call(s, argv, ostr, n).1 != -1
    decreases n
  {
    if n > 0 {
      LoopingForever(StepAsWritten(s, argv, ostr).0, argv, ostr, n - 1);
    }
  }

  lemma {:induction false} DashStops(s: Scan, argv: seq<string>, ostr: string) returns (n: nat)
    requires HitsDash(s.place, ostr) && !s.optreset
    ensures Call(s, argv, ostr, n).1 == -1
    decreases |s.place|
  {
    n := 0;
    if s.place[0] != '-' || Known(ostr, s.place[0]) {
      var m := DashStops(StepAsWritten(s, argv, ostr).0, argv, ostr);
      n := m + 1;
    }
  }

  /**
    The reset on every call, exactly: calling the scanner as written ever
    returns -1 if and only if the first argument already ends the options.
   */
  lemma AsWrittenStops(argv: seq<string>, ostr: string)
    ensures (exists n: nat :: StopsAt(argv, ostr, n)) <==> StopsAsWritten(argv, ostr)
  {
    if StopsAsWritten(argv, ostr) {
      var n := 0;
      if Call(Initial(), argv, ostr, 0).1 != -1 {
        var s := Initial().(place := if argv[1] == "-" then argv[1] else argv[1][1..]);
        n := DashStops(s, argv, ostr);
        assert StepAsWritten(Initial(), argv, ostr) == StepAsWritten(s, argv, ostr);
      }
      assert StopsAt(argv, ostr, n);
    } else {
      forall n: nat ensures !StopsAt(argv, ostr, n) {
        LoopingForever(Initial(), argv, ostr, n);
      }
    }
  }

  /** Flags lead to no dash, and neither does an option-argument behind them. */
  lemma {:induction false} NoDashInFlags(flags: string, rest: string, ostr: string)
    requires forall c :: c in flags ==> Flag(ostr, c)
    requires rest == "" || (Known(ostr, rest[0]) && TakesArg(ostr, rest[0]))
    ensures !HitsDash(flags + rest, ostr)
    decreases |flags|
  {
    if flags == "" {
      assert flags + rest == rest;
    } else {
      assert flags[0] in flags && (flags + rest)[1..] == flags[1..] + rest;
      NoDashInFlags(flags[1..], rest, ostr);
    }
  }

  lemma LoneGoesOn(ostr: string)
    requires Known(ostr, '-')
    ensures !HitsDash("-", ostr)
  {
    assert "-"[1..] == "" && !HitsDash("", ostr);
  }

  /** A command line that begins with a group of options does not end the options. */
  lemma OptionsGoOn(prog: string, gs: seq<Group>, tail: seq<string>, ostr: string)
    requires gs != [] && forall g :: g in gs ==> GroupOk(g, ostr)
    ensures !StopsAsWritten([prog] + RenderAll(gs) + tail, ostr)
  {
    var argv := [prog] + RenderAll(gs) + tail;
    var w := Render(gs[0])[0];
    assert argv[1] == w;
    if HasFlags(gs[0]) {
      FirstWord(gs[0], ostr);
      NoDashInFlags(gs[0].flags, AfterFlags(gs[0]), ostr);
    } else {
      assert gs[0] in gs && w == "-";
      LoneGoesOn(ostr);
    }
  }

  /** As written, the calls return these events, in order, and then -1. */
  ghost predicate ReturnsAsWritten(argv: seq<string>, ostr: string, es: seq<Event>) {
    && (forall n :: 0 <= n < |es| ==>
      var (s, r) := Call(Initial(), argv, ostr, n); Event(r, s.optopt, s.optarg) == es[n])
    && Call(Initial(), argv, ostr, |es|).1 == -1
  }

  /** The option round trip, as written: it holds exactly for command lines without options. */
  lemma AsWrittenRoundTrip(prog: string, opts: seq<Opt>, colon: bool, gs: seq<Group>, tail: seq<string>)
    requires Declared(opts) && (forall g :: g in gs ==> Uses(g, opts)) && Follows(tail, opts)
    ensures ReturnsAsWritten([prog] + RenderAll(gs) + tail, OptionString(opts, colon), MeantAll(gs)) <==> gs == []
  {
    hide Declared;
    var argv, ostr := [prog] + RenderAll(gs) + tail, OptionString(opts, colon);
    AllUsesOk(gs, opts, colon);
    FollowsOk(tail, opts, colon);
    if gs == [] {
      assert argv == [prog] + tail;
      assert tail != [] ==> argv[1] == tail[0];
    } else {
      OptionsGoOn(prog, gs, tail, ostr);
      LoopingForever(Initial(), argv, ostr, |MeantAll(gs)|);
    }
  }

  /** The scanner stands behind letter i of the flags. */
  ghost predicate Behind(s: Scan, flags: string, i: nat) {
    i < |flags| && !s.optreset && s.place == flags[i + 1..]
  }

  predicate FlagWord(w: string, flags: string, ostr: string) {
    w == ['-'] + flags && flags != "" && flags[0] != '-' && forall c :: c in flags ==> Flag(ostr, c)
  }

  /** Standing behind letter i, the next call returns the next letter, or the first one again. */
  lemma NextLetter(s: Scan, argv: seq<string>, ostr: string, flags: string, i: nat)
    requires |argv| >= 2 && FlagWord(argv[1], flags, ostr) && Behind(s, flags, i)
    ensures var j := if i + 1 == |flags| then 0 else i + 1;
      var (t, r) := StepAsWritten(s, argv, ostr); r == flags[j] as int && Behind(t, flags, j)
  {
    var j := if i + 1 == |flags| then 0 else i + 1;
    assert argv[1][1..] == flags && flags[j] in flags;
    if s.place != "" {
      assert s.place[0] == flags[j] && s.place[1..] == flags[j + 1..];
    }
  }

  lemma NextCall(argv: seq<string>, ostr: string, flags: string, n: nat, i: nat)
    requires |argv| >= 2 && FlagWord(argv[1], flags, ostr) && Behind(Call(Initial(), argv, ostr, n).0, flags, i)
    ensures var j := if i + 1 == |flags| then 0 else i + 1;
      var (t, r) := Call(Initial(), argv, ostr, n + 1); r == flags[j] as int && Behind(t, flags, j)
  {
    CallAfter(Initial(), argv, ostr, n);
    NextLetter(Call(Initial(), argv, ostr, n).0, argv, ostr, flags, i);
  }

  /** As written, a first argument made of known flags is returned over and over again: call n returns letter n modulo k. */
  lemma {:induction false} AsWrittenCycles(argv: seq<string>, ostr: string, flags: string, n: nat) returns (i: nat)
    requires |argv| >= 2 && FlagWord(argv[1], flags, ostr)
    ensures i < |flags| && i == n % |flags|
    ensures var (s, r) := Call(Initial(), argv, ostr, n); r == flags[i] as int && Behind(s, flags, i)
    decreases n
  {
    if n == 0 {
      i := 0;
      FirstModulo(|flags|);
      NextLetter(Initial(), argv, ostr, flags, |flags| - 1);
    } else {
      i := AsWrittenCycles(argv, ostr, flags, n - 1);
      NextCall(argv, ostr, flags, n - 1, i);
      NextModulo(n - 1, |flags|);
      i := if i + 1 == |flags| then 0 else i + 1;
    }
  }

  lemma FirstModulo(k: nat)
    requires k > 0
    ensures 0 % k == 0
  {
  }

  lemma NextModulo(n: nat, k: nat)
    requires k > 0
    ensures (n + 1) % k == if n % k + 1 == k then 0 else n % k + 1
  {
    var q, r := n / k, n % k;
    assert n == q * k + r;
    if r + 1 == k {
      assert n + 1 == (q + 1) * k;
      ModuloUnique(n + 1, k, q + 1, 0);
    } else {
      ModuloUnique(n + 1, k, q, r + 1);
    }
  }

  lemma AtLeastOnce(a: int, k: nat)
    requires a >= 1
    ensures a * k >= k
  {
  }

  lemma ModuloUnique(n: nat, k: nat, q: int, r: nat)
    requires k > 0 && r < k && n == q * k + r
    ensures n % k == r
  {
    var p := n / k;
    assert n == p * k + n % k;
    assert (q - p) * k == q * k - p * k && (p - q) * k == p * k - q * k;
    if q > p {
      AtLeastOnce(q - p, k);
    } else if q < p {
      AtLeastOnce(p - q, k);
    }
  }
}
