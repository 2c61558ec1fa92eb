/**
  The resumable option scanner (programs/getopt.c:48-110), which follows
  guidelines 5, 6 and 10 of section 12.2 of IEEE Std 1003.1 (XBD).

  The source sets opterr and optind at the top of every call (lines 53-54).  The
  intended scanner sets them once, so that initialisation is a parameter here:
  `Step` is one call without it, and `StepAsWritten` one call with it.
 */
module Getopt {
  import opened Options

  /** The static and the global variables: place, optind, optarg, optopt, optreset, opterr. */
  datatype Scan = Scan(place: string, optind: nat, optarg: Option<string>, optopt: char, optreset: bool, opterr: bool)

  const BADCH := '?' as int
  const BADARG := ':' as int

  /** strchr: the index of the first c in ostr, or |ostr|. */
  function StrChr(ostr: string, c: char): (i: nat)
    ensures i <= |ostr|
  {
    if ostr == [] || ostr[0] == c then 0 else 1 + StrChr(ostr[1..], c)
  }

  lemma {:induction false} StrChrFinds(ostr: string, c: char)
    ensures StrChr(ostr, c) < |ostr| <==> c in ostr
    ensures StrChr(ostr, c) < |ostr| ==> ostr[StrChr(ostr, c)] == c
  {
    if ostr != [] && ostr[0] != c {
      StrChrFinds(ostr[1..], c);
    }
  }

  predicate Known(ostr: string, c: char) {
    c != ':' && c in ostr
  }

  predicate TakesArg(ostr: string, c: char) {
    var i := StrChr(ostr, c);
    i + 1 < |ostr| && ostr[i + 1] == ':'
  }

  predicate Flag(ostr: string, c: char) {
    Known(ostr, c) && !TakesArg(ostr, c)
  }

  /** One call, from the option letter on (lines 71-109). */
  function Letter(s: Scan, argv: seq<string>, ostr: string): (Scan, int)
    requires s.place != ""
  {
    var c, rest := s.place[0], s.place[1..];
    var t := s.(optopt := c, place := rest);
    var next := t.(optind := if rest == "" then t.optind + 1 else t.optind);
    if !Known(ostr, c) then
      if c == '-' then (t, -1) else (next, BADCH)
    else if !TakesArg(ostr, c) then
      (next.(optarg := None), c as int)
    else if rest != "" then
      (t.(optarg := Some(rest), place := "", optind := t.optind + 1), c as int)
    else if |argv| <= t.optind + 1 then
      (t.(place := "", optind := t.optind + 1), if ostr[0] == ':' then BADARG else BADCH)
    else
      (t.(optarg := Some(argv[t.optind + 1]), place := "", optind := t.optind + 2), c as int)
  }

  /** The scanning pointer after it was moved on: the options are over, or it is at an option letter. */
  datatype Pointer = Over(s: Scan) | AtLetter(s: Scan)

  /** Moving the scanning pointer to the next argument, if need be (lines 56-70). */
  function Update(s: Scan, argv: seq<string>): (p: Pointer)
    ensures p.AtLetter? ==> p.s.place != ""
  {
    if s.place != "" && !s.optreset then AtLetter(s)
    else
      var t := s.(optreset := false);
      if t.optind >= |argv| || argv[t.optind] == "" || argv[t.optind][0] != '-' then Over(t.(place := ""))
      else
        var w := argv[t.optind];
        if |w| == 1 then AtLetter(t.(place := w))
        else if w[1] == '-' then Over(t.(place := "", optind := t.optind + 1))
        else AtLetter(t.(place := w[1..]))
  }

  /** One call of getopt with opterr and optind left alone. */
  function Step(s: Scan, argv: seq<string>, ostr: string): (Scan, int) {
    match Update(s, argv)
    case Over(t) => (t, -1)
    case AtLetter(t) => Letter(t, argv, ostr)
  }

  function StepAsWritten(s: Scan, argv: seq<string>, ostr: string): (Scan, int) {
    Step(s.(opterr := true, optind := 1), argv, ostr)
  }

  /** The scanner as the source has it: one object holding the variables, one method. */
  class Scanner {
    var place: string
    var optind: nat
    var optarg: Option<string>
    var optopt: char
    var optreset: bool
    var opterr: bool

    constructor ()
      ensures View() == Initial()
    {
      place, optind, optarg, optopt, optreset, opterr := "", 1, None, '\0', false, true;
    }

    function View(): Scan
      reads this
    {
      Scan(place, optind, optarg, optopt, optreset, opterr)
    }

    method Getopt(argv: seq<string>, ostr: string, initialise: bool) returns (r: int)
      modifies this
      ensures (View(), r)
           == if initialise then StepAsWritten(old(View()), argv, ostr) else Step(old(View()), argv, ostr)
    {
      if initialise {
        opterr := true;
        optind := 1;
      }
      var over := MoveOn(argv);
      if over {
        return -1;
      }
      r := TakeLetter(argv, ostr);
    }

    /** The first half of a call: the scanning pointer (lines 56-70). */
    method MoveOn(argv: seq<string>) returns (over: bool)
      modifies this
      ensures (if over then Over(View()) else AtLetter(View())) == Update(old(View()), argv)
    {
      if optreset || place == "" {
        optreset := false;
        if optind >= |argv| || argv[optind] == "" || argv[optind][0] != '-' {
          place := "";
          return true;
        }
        place := argv[optind];
        if |place| > 1 {
          place := place[1..];
          if place[0] == '-' {
            optind := optind + 1;
            place := "";
            return true;
          }
        }
      }
      return false;
    }

    /** The second half: the option letter and its argument (lines 71-109). */
    method TakeLetter(argv: seq<string>, ostr: string) returns (r: int)
      requires place != ""
      modifies this
      ensures (View(), r) == Letter(old(View()), argv, ostr)
    {
      optopt := place[0];
      place := place[1..];
      var oli := StrChr(ostr, optopt);
      StrChrFinds(ostr, optopt);
      if optopt == ':' || oli == |ostr| {
        if optopt == '-' {
          return -1;
        }
        if place == "" {
          optind := optind + 1;
        }
        return BADCH;
      }
      if !(oli + 1 < |ostr| && ostr[oli + 1] == ':') {
        optarg := None;
        if place == "" {
          optind := optind + 1;
        }
      } else {
        if place != "" {
          optarg := Some(place);
        } else {
          optind := optind + 1;
          if |argv| <= optind {
            place := "";
            return if ostr[0] == ':' then BADARG else BADCH;
          }
          optarg := Some(argv[optind]);
        }
        place := "";
        optind := optind + 1;
      }
      return optopt as int;
    }
  }

  function Initial(): Scan {
    Scan("", 1, None, '\0', false, true)
  }

  // ---- what every call keeps, and progress ---------------------------------

  /** Between calls, a letter still to be scanned is in the current argument, behind its first character, unless reset. */
  ghost predicate Inv(s: Scan, argv: seq<string>) {
    && 1 <= s.optind <= |argv|
    && (s.place != "" && !s.optreset ==>
      s.optind < |argv| && |s.place| < |argv[s.optind]| && argv[s.optind][|argv[s.optind]| - |s.place|..] == s.place)
  }

  /** Letters that the current argument may still yield. */
  function LettersLeft(s: Scan, argv: seq<string>): nat {
    if s.place != "" && !s.optreset then |s.place|
    else if s.optind < |argv| then |argv[s.optind]|
    else 0
  }

  lemma LetterProgress(s: Scan, argv: seq<string>, ostr: string)
    requires 1 <= s.optind < |argv| && 0 < |s.place| <= |argv[s.optind]|
    requires argv[s.optind][|argv[s.optind]| - |s.place|..] == s.place
    ensures var (t, r) := Letter(s, argv, ostr);
      && Inv(t, argv) && s.optind <= t.optind && t.optreset == s.optreset && t.opterr == s.opterr
      && (r != -1 ==> t.optind > s.optind || (t.optind == s.optind && t.place != "" && |t.place| < |s.place|))
  {
    hide Known, TakesArg;
    var w, rest := argv[s.optind], s.place[1..];
    assert w[|w| - |rest|..] == rest;
  }

  lemma UpdateProgress(s: Scan, argv: seq<string>)
    requires Inv(s, argv)
    ensures var p := Update(s, argv);
      && !p.s.optreset && s.optind <= p.s.optind && p.s.opterr == s.opterr
      && (p.Over? ==> Inv(p.s, argv))
      && (p.AtLetter? ==>
        && s.optind == p.s.optind < |argv| && |p.s.place| <= LettersLeft(s, argv) <= |argv[s.optind]|
        && argv[s.optind][|argv[s.optind]| - |p.s.place|..] == p.s.place)
  {
    if (s.place == "" || s.optreset) && s.optind < |argv| {
      var w := argv[s.optind];
      if |w| == 1 {
        assert w[|w| - |w|..] == w;
      } else if |w| > 1 {
        assert w[|w| - |w[1..]|..] == w[1..];
      }
    }
  }

  lemma StepProgress(s: Scan, argv: seq<string>, ostr: string)
    requires Inv(s, argv)
    ensures var (t, r) := Step(s, argv, ostr);
      && Inv(t, argv) && s.optind <= t.optind && !t.optreset && t.opterr == s.opterr
      && (r != -1 ==> t.optind > s.optind || (t.optind == s.optind && LettersLeft(t, argv) < LettersLeft(s, argv)))
  {
    hide Update, Letter;
    UpdateProgress(s, argv);
    var p := Update(s, argv);
    if p.AtLetter? {
      LetterProgress(p.s, argv, ostr);
    }
  }

  /** What one call tells its caller: what it returns, optopt and optarg. */
  datatype Event = Event(result: int, optopt: char, optarg: Option<string>)

  /** Calling until -1 comes back: everything returned before it, and the variables after it. */
  function Run(s: Scan, argv: seq<string>, ostr: string): (seq<Event>, Scan)
    requires Inv(s, argv)
    decreases |argv| - s.optind, LettersLeft(s, argv)
  {
    StepProgress(s, argv, ostr);
    var (t, r) := Step(s, argv, ostr);
    if r == -1 then ([], t)
    else var (events, end) := Run(t, argv, ostr); ([Event(r, t.optopt, t.optarg)] + events, end)
  }
}
