/**
  The list scanners of the drawing script (examples/dwgadd.c:427-593).

  A text is a sequence of characters, except that a number stands as one token;
  a char pointer into it is what is left of the text from there on.
 */
module ListScanner {
  import opened Options

  /** Blank is a space or a tab, Control any other white space but a newline. */
  datatype Tok = Open | Close | Num(n: int) | Blank | Control | Newline | Other(c: char)

  type Text = seq<Tok>

  predicate White(t: Tok) {
    t.Blank? || t.Control? || t.Newline?
  }

  function SkipWhite(s: Text): Text {
    if s != [] && White(s[0]) then SkipWhite(s[1..]) else s
  }

  /** White space, but no further than the line. */
  function SkipInLine(s: Text): Text {
    if s != [] && White(s[0]) && s[0] != Newline then SkipInLine(s[1..]) else s
  }

  /** strchr, and one further. */
  function After(s: Text, t: Tok): Option<Text> {
    if s == [] then None else if s[0] == t then Some(s[1..]) else After(s[1..], t)
  }

  /** k number conversions of sscanf, with white space before each. */
  function ReadNums(s: Text, k: nat): Option<seq<int>>
    decreases k
  {
    if k == 0 then Some([])
    else
      var u := SkipWhite(s);
      if u == [] || !u[0].Num? then None
      else match ReadNums(u[1..], k - 1)
        case None => None
        case Some(ns) => Some([u[0].n] + ns)
  }

  datatype List = Points2 | Points3 | Faces

  function ReadTuple(s: Text, k: nat): Option<seq<int>> {
    if s != [] && s[0] == Open then ReadNums(s[1..], k) else None
  }

  /** One item; a face of three corners gets a fourth that is 0. */
  function ReadItem(kind: List, s: Text): Option<seq<int>> {
    match kind
    case Points2 => ReadTuple(s, 2)
    case Points3 => ReadTuple(s, 3)
    case Faces =>
      if ReadTuple(s, 4).Some? then ReadTuple(s, 4)
      else match ReadTuple(s, 3)
        case None => None
        case Some(ns) => Some(ns + [0])
  }

  /** The loop over the items: all of them, or the text where one is missing, or no closing parenthesis at all. */
  datatype Loop = Done(items: seq<seq<int>>, rest: Text) | Bad(rest: Text) | Lost

  function ScanLoop(kind: List, num: nat, s: Text): Loop {
    if num == 0 then Done([], s)
    else
      var u := SkipWhite(s);
      var item := ReadItem(kind, u);
      if item.None? then Bad(u)
      else
        var v := After(u, Close);
        if v.None? then Lost
        else match ScanLoop(kind, num - 1, v.value)
          case Done(items, rest) => Done([item.value] + items, rest)
          case other => other
  }

  /** exit (0), NULL or the items, and what the caller's pointer is set to. */
  datatype Scanned = Exit | Null(rest: Text) | Items(items: seq<seq<int>>, rest: Text)

  function Behind(v: Text): Text {
    SkipInLine(if v != [] && v[0] == Close then v[1..] else v)
  }

  /** What a scanner makes of its loop; only scan_pts2d returns an empty list. */
  function LoopResult(kind: List, num: nat, s: Text, loop: Loop): Scanned {
    match loop
    case Done(items, v) => if num == 0 && kind != Points2 then Null(s) else Items(items, Behind(v))
    case Bad(v) => Null(v)
    case Lost => Null(s)
  }

  /** scan_pts2d, scan_pts3d and scan_faces. */
  function Scan(kind: List, num: nat, s: Text): Scanned {
    var u := After(s, Open);
    if u.None? then Null(s)
    else if num > 5000 then Exit
    else LoopResult(kind, num, s, ScanLoop(kind, num, SkipWhite(u.value)))
  }

  /** The scanners as the source has them: one loop that moves a pointer along. */
  method ScanList(kind: List, num: nat, s: Text) returns (r: Scanned)
    ensures r == Scan(kind, num, s)
  {
    var start := After(s, Open);
    if start.None? {
      return Null(s);
    }
    if num > 5000 {
      return Exit;
    }
    r := ScanItems(kind, num, s, SkipWhite(start.value));
  }

  /** The loop, from the first item on. */
  method ScanItems(kind: List, num: nat, s: Text, first: Text) returns (r: Scanned)
    ensures r == LoopResult(kind, num, s, ScanLoop(kind, num, first))
  {
    hide ScanLoop, ReadItem, After, SkipWhite, Behind;
    var p, items, i := first, [], 0;
    ghost var all := ScanLoop(kind, num, p);
    LoopStart(all);
    while i < num
      invariant 0 <= i <= num
      invariant LoopLeft(all, items, ScanLoop(kind, num - i, p))
    {
      LoopStep(all, items, kind, num - i, p);
      p := SkipWhite(p);
      var item := ReadItem(kind, p);
      if item.None? {
        return Null(p);
      }
      var close := After(p, Close);
      if close.None? {
        return Null(s);
      }
      p := close.value;
      items := items + [item.value];
      i := i + 1;
    }
    LoopEnd(all, items, kind, p);
    if num == 0 && kind != Points2 {
      return Null(s);
    }
    return Items(items, Behind(p));
  }

  lemma LoopStart(all: Loop)
    ensures LoopLeft(all, [], all)
  {
    assert all.Done? ==> [] + all.items == all.items;
  }

  /** With these items read, the loop as a whole will come to what the rest of it comes to. */
  ghost predicate LoopLeft(all: Loop, items: seq<seq<int>>, left: Loop) {
    all == match left
           case Done(more, rest) => Done(items + more, rest)
           case other => other
  }

  lemma LoopEnd(all: Loop, items: seq<seq<int>>, kind: List, p: Text)
    requires LoopLeft(all, items, ScanLoop(kind, 0, p))
    ensures all == Done(items, p)
  {
    assert items + [] == items;
  }

  lemma LoopStep(all: Loop, items: seq<seq<int>>, kind: List, num: nat, p: Text)
    requires num > 0 && LoopLeft(all, items, ScanLoop(kind, num, p))
    ensures var u := SkipWhite(p);
      if ReadItem(kind, u).None? then all == Bad(u)
      else if After(u, Close).None? then all == Lost
      else LoopLeft(all, items + [ReadItem(kind, u).value], ScanLoop(kind, num - 1, After(u, Close).value))
  {
    var u := SkipWhite(p);
    if ReadItem(kind, u).Some? && After(u, Close).Some? {
      var item, left := ReadItem(kind, u).value, ScanLoop(kind, num - 1, After(u, Close).value);
      if left.Done? {
        assert items + ([item] + left.items) == (items + [item]) + left.items;
      }
    }
  }

  // ---- on every text -------------------------------------------------------

  ghost predicate SuffixOf(t: Text, s: Text) {
    |t| <= |s| && t == s[|s| - |t|..]
  }

  lemma SuffixTwice(a: Text, b: Text, c: Text)
    requires SuffixOf(a, b) && SuffixOf(b, c)
    ensures SuffixOf(a, c)
  {
  }

  /** A suffix of the rest is a suffix of the whole. */
  lemma RestSuffix(t: Text, s: Text)
    requires s != [] && SuffixOf(t, s[1..])
    ensures SuffixOf(t, s)
  {
    assert s[1..][|s| - 1 - |t|..] == s[|s| - |t|..];
  }

  lemma {:induction false} SkipSuffix(s: Text)
    ensures SuffixOf(SkipWhite(s), s)
    ensures SuffixOf(SkipInLine(s), s)
  {
    if s != [] && White(s[0]) {
      SkipSuffix(s[1..]);
      RestSuffix(SkipWhite(s[1..]), s);
      RestSuffix(SkipInLine(s[1..]), s);
    }
  }

  lemma {:induction false} AfterSuffix(s: Text, t: Tok)
    ensures After(s, t).Some? ==> SuffixOf(After(s, t).value, s) && |After(s, t).value| < |s|
  {
    if s != [] && s[0] != t {
      AfterSuffix(s[1..], t);
      if After(s[1..], t).Some? {
        RestSuffix(After(s[1..], t).value, s);
      }
    }
  }

  /** Where the loop stops. */
  ghost predicate LoopIn(r: Loop, s: Text) {
    !r.Lost? ==> SuffixOf(r.rest, s)
  }

  lemma LoopInBoth(r: Loop, v: Text, u: Text, s: Text)
    requires LoopIn(r, v) && SuffixOf(v, u) && SuffixOf(u, s)
    ensures LoopIn(r, s)
  {
    SuffixTwice(v, u, s);
    if !r.Lost? {
      SuffixTwice(r.rest, v, s);
    }
  }

  /** What one item does to the loop ... */
  lemma LoopMore(kind: List, num: nat, s: Text, item: seq<int>, v: Text)
    requires num > 0 && ReadItem(kind, SkipWhite(s)) == Some(item) && After(SkipWhite(s), Close) == Some(v)
    ensures LoopLeft(ScanLoop(kind, num, s), [item], ScanLoop(kind, num - 1, v))
  {
  }

  /** ... and what none does. */
  lemma LoopStops(kind: List, num: nat, s: Text)
    requires num > 0 && (ReadItem(kind, SkipWhite(s)).None? || After(SkipWhite(s), Close).None?)
    ensures ScanLoop(kind, num, s) == if ReadItem(kind, SkipWhite(s)).None? then Bad(SkipWhite(s)) else Lost
  {
  }

  lemma SameEnd(all: Loop, items: seq<seq<int>>, left: Loop, s: Text)
    requires LoopLeft(all, items, left) && LoopIn(left, s)
    ensures LoopIn(all, s)
  {
  }

  lemma LoopSuffixStep(kind: List, num: nat, s: Text, item: seq<int>, v: Text)
    requires num > 0 && ReadItem(kind, SkipWhite(s)) == Some(item) && After(SkipWhite(s), Close) == Some(v)
    requires LoopIn(ScanLoop(kind, num - 1, v), v)
    ensures LoopIn(ScanLoop(kind, num, s), s)
  {
    SkipSuffix(s);
    AfterSuffix(SkipWhite(s), Close);
    LoopInBoth(ScanLoop(kind, num - 1, v), v, SkipWhite(s), s);
    LoopMore(kind, num, s, item, v);
    SameEnd(ScanLoop(kind, num, s), [item], ScanLoop(kind, num - 1, v), s);
  }

  lemma LoopSuffixStop(kind: List, num: nat, s: Text)
    requires num > 0 && (ReadItem(kind, SkipWhite(s)).None? || After(SkipWhite(s), Close).None?)
    ensures LoopIn(ScanLoop(kind, num, s), s)
  {
    SkipSuffix(s);
    LoopStops(kind, num, s);
  }

  lemma {:induction false} LoopSuffix(kind: List, num: nat, s: Text)
    ensures LoopIn(ScanLoop(kind, num, s), s)
    decreases num
  {
    if num > 0 {
      var item, close := ReadItem(kind, SkipWhite(s)), After(SkipWhite(s), Close);
      if item.None? || close.None? {
        LoopSuffixStop(kind, num, s);
      } else {
        LoopSuffix(kind, num - 1, close.value);
        LoopSuffixStep(kind, num, s, item.value, close.value);
      }
    }
  }

  lemma {:induction false} LoopComplete(kind: List, num: nat, s: Text)
    ensures var r := ScanLoop(kind, num, s); r.Done? ==> |r.items| == num
    decreases num
  {
    if num > 0 {
      var u := SkipWhite(s);
      if ReadItem(kind, u).Some? && After(u, Close).Some? {
        LoopMore(kind, num, s, ReadItem(kind, u).value, After(u, Close).value);
        LoopComplete(kind, num - 1, After(u, Close).value);
      }
    }
  }

  lemma BehindSuffix(v: Text)
    ensures SuffixOf(Behind(v), v)
  {
    var w := if v != [] && v[0] == Close then v[1..] else v;
    SkipSuffix(w);
    SuffixTwice(SkipInLine(w), w, v);
  }

  /** The pointer never moves back, and a list that is returned is complete. */
  lemma ScanForward(kind: List, num: nat, s: Text)
    ensures var r := Scan(kind, num, s);
      && (!r.Exit? ==> SuffixOf(r.rest, s))
      && (r.Items? ==> |r.items| == num <= 5000)
      && (r.Exit? <==> num > 5000 && Open in s)
      && (Open !in s ==> r == Null(s))
  {
    AfterSuffix(s, Open);
    AfterFinds(s, Open);
    var r := Scan(kind, num, s);
    if After(s, Open).Some? && !r.Exit? {
      var u := After(s, Open).value;
      var p := SkipWhite(u);
      SkipSuffix(u);
      LoopSuffix(kind, num, p);
      LoopComplete(kind, num, p);
      var loop := ScanLoop(kind, num, p);
      if r.Items? {
        BehindSuffix(loop.rest);
        SuffixTwice(r.rest, loop.rest, p);
      }
      if !loop.Lost? && r.rest != s {
        SuffixTwice(r.rest, p, u);
        SuffixTwice(r.rest, u, s);
      }
    }
  }

  // ---- the round trip ------------------------------------------------------

  function PrintNums(ns: seq<int>): Text {
    if ns == [] then [] else if |ns| == 1 then [Num(ns[0])] else [Num(ns[0]), Blank] + PrintNums(ns[1..])
  }

  /** An item in parentheses. */
  function PrintItem(ns: seq<int>): Text {
    [Open] + PrintNums(ns) + [Close]
  }

  /** Items, each behind some white space. */
  function PrintItems(items: seq<seq<int>>, gaps: seq<Text>): Text
    requires |items| == |gaps|
  {
    if items == [] then [] else gaps[0] + PrintItem(items[0]) + PrintItems(items[1..], gaps[1..])
  }

  predicate AllWhite(s: Text) {
    forall t :: t in s ==> White(t)
  }

  /** A list of items is written as tuples of this many numbers, or with one less for a face whose last corner is 0. */
  predicate Fits(kind: List, item: seq<int>) {
    match kind
    case Points2 => |item| == 2
    case Points3 => |item| == 3
    case Faces => |item| == 3 || |item| == 4
  }

  /** What an item reads back as. */
  function Meaning(kind: List, item: seq<int>): seq<int> {
    if kind == Faces && |item| == 3 then item + [0] else item
  }

  function Meanings(kind: List, items: seq<seq<int>>): seq<seq<int>> {
    if items == [] then [] else [Meaning(kind, items[0])] + Meanings(kind, items[1..])
  }

  lemma {:induction false} SkipGap(gap: Text, s: Text)
    requires AllWhite(gap) && (s != [] ==> !White(s[0]))
    ensures SkipWhite(gap + s) == s
  {
    if gap == [] {
      assert gap + s == s;
    } else {
      assert gap[0] in gap && forall t :: t in gap[1..] ==> t in gap;
      SkipGap(gap[1..], s);
      assert (gap + s)[1..] == gap[1..] + s;
    }
  }

  /** A number in front is read, and the rest is read behind it. */
  lemma ReadMore(n: int, t: Text, k: nat, ns: Option<seq<int>>)
    requires ReadNums(t, k) == ns
    ensures ReadNums([Num(n)] + t, k + 1) == match ns case None => None case Some(more) => Some([n] + more)
  {
    assert ([Num(n)] + t)[1..] == t;
  }

  lemma ReadBehindBlank(t: Text, k: nat)
    requires t != [] && t[0].Num?
    ensures ReadNums([Blank] + t, k) == ReadNums(t, k)
  {
    SkipGap([Blank], t);
    assert SkipWhite(t) == t;
  }

  lemma TwoInFront(a: Tok, b: Tok, more: Text, tail: Text)
    ensures ([a, b] + more) + tail == [a] + ([b] + (more + tail))
  {
  }

  lemma PrintedMore(ns: seq<int>, tail: Text)
    requires |ns| > 1
    ensures PrintNums(ns) + tail == [Num(ns[0])] + ([Blank] + (PrintNums(ns[1..]) + tail))
    ensures var t := PrintNums(ns[1..]) + tail; t != [] && t[0].Num?
  {
    TwoInFront(Num(ns[0]), Blank, PrintNums(ns[1..]), tail);
  }

  lemma LastNumBack(n: int, k: nat, tail: Text)
    requires tail != [] && tail[0] == Close
    ensures ReadNums([Num(n)] + tail, k) == if k == 0 then Some([]) else if k == 1 then Some([n]) else None
  {
    if k > 0 {
      ReadMore(n, tail, k - 1, ReadNums(tail, k - 1));
      assert [n] + [] == [n];
    }
  }

  /** As many numbers as there are can be read back, and no more than that. */
  lemma {:induction false} NumsBack(ns: seq<int>, k: nat, tail: Text)
    requires ns != [] && tail != [] && tail[0] == Close
    ensures ReadNums(PrintNums(ns) + tail, k) == if k <= |ns| then Some(ns[..k]) else None
    decreases |ns|
  {
    if |ns| == 1 {
      LastNumBack(ns[0], k, tail);
      assert k == 1 ==> ns[..k] == [ns[0]];
    } else if k > 0 {
      var t := PrintNums(ns[1..]) + tail;
      NumsBack(ns[1..], k - 1, tail);
      PrintedMore(ns, tail);
      ReadBehindBlank(t, k - 1);
      ReadMore(ns[0], [Blank] + t, k - 1, ReadNums(t, k - 1));
      assert k <= |ns| ==> ns[..k] == [ns[0]] + ns[1..][..k - 1];
    }
  }

  lemma {:induction false} CloseBehind(ns: seq<int>, rest: Text)
    ensures After(PrintNums(ns) + ([Close] + rest), Close) == Some(rest)
  {
    var tail := [Close] + rest;
    var s := PrintNums(ns) + tail;
    if ns == [] {
      assert s == tail && tail[1..] == rest;
    } else if |ns| == 1 {
      assert s[1..] == tail && tail[1..] == rest;
    } else {
      CloseBehind(ns[1..], rest);
      PrintedMore(ns, tail);
      assert s[1..][1..] == PrintNums(ns[1..]) + tail;
    }
  }

  lemma ItemText(item: seq<int>, rest: Text)
    ensures var s := PrintItem(item) + rest; s != [] && s[0] == Open && s[1..] == PrintNums(item) + ([Close] + rest)
  {
  }

  /** As many numbers as this of an item in parentheses. */
  lemma TupleBack(item: seq<int>, k: nat, rest: Text)
    requires item != []
    ensures ReadTuple(PrintItem(item) + rest, k) == if k <= |item| then Some(item[..k]) else None
  {
    hide PrintItem, PrintNums, ReadNums;
    ItemText(item, rest);
    NumsBack(item, k, [Close] + rest);
  }

  lemma ItemBack(kind: List, item: seq<int>, rest: Text)
    requires Fits(kind, item)
    ensures ReadItem(kind, PrintItem(item) + rest) == Some(Meaning(kind, item))
  {
    hide PrintItem, ReadTuple;
    assert item[..|item|] == item;
    match kind
    case Points2 => TupleBack(item, 2, rest);
    case Points3 => TupleBack(item, 3, rest);
    case Faces =>
      TupleBack(item, 3, rest);
      TupleBack(item, 4, rest);
  }

  lemma ItemEnds(item: seq<int>, rest: Text)
    ensures After(PrintItem(item) + rest, Close) == Some(rest)
  {
    ItemText(item, rest);
    CloseBehind(item, rest);
  }

  lemma PrintedFirst(items: seq<seq<int>>, gaps: seq<Text>, rest: Text)
    requires items != [] && |items| == |gaps|
    ensures PrintItems(items, gaps) + rest == gaps[0] + (PrintItem(items[0]) + (PrintItems(items[1..], gaps[1..]) + rest))
  {
  }

  /** Printed items are read, and then the loop goes on behind them. */
  lemma {:induction false} LoopBack(kind: List, num: nat, items: seq<seq<int>>, gaps: seq<Text>, rest: Text)
    requires |items| == |gaps| <= num
    requires forall i :: 0 <= i < |items| ==> Fits(kind, items[i]) && AllWhite(gaps[i])
    ensures LoopLeft(ScanLoop(kind, num, PrintItems(items, gaps) + rest), Meanings(kind, items),
      ScanLoop(kind, num - |items|, rest))
    decreases |items|
  {
    hide ScanLoop, ReadItem, After, LoopLeft;
    if items == [] {
      assert [] + rest == rest;
      LoopStart(ScanLoop(kind, num, rest));
    } else {
      var more := PrintItems(items[1..], gaps[1..]) + rest;
      LoopBack(kind, num - 1, items[1..], gaps[1..], rest);
      PrintedFirst(items, gaps, rest);
      ItemText(items[0], more);
      SkipGap(gaps[0], PrintItem(items[0]) + more);
      ItemBack(kind, items[0], more);
      ItemEnds(items[0], more);
      LoopMore(kind, num, PrintItems(items, gaps) + rest, Meaning(kind, items[0]), more);
      LeftTwice(ScanLoop(kind, num, PrintItems(items, gaps) + rest), [Meaning(kind, items[0])],
        ScanLoop(kind, num - 1, more), Meanings(kind, items[1..]), ScanLoop(kind, num - |items|, rest));
    }
  }

  lemma LeftTwice(all: Loop, a: seq<seq<int>>, some: Loop, b: seq<seq<int>>, left: Loop)
    requires LoopLeft(all, a, some) && LoopLeft(some, b, left)
    ensures LoopLeft(all, a + b, left)
  {
    assert left.Done? ==> a + (b + left.items) == (a + b) + left.items;
  }

  /** A whole list: before it, nothing with an opening parenthesis; behind it, blanks. */
  function PrintList(before: Text, items: seq<seq<int>>, gaps: seq<Text>, blanks: Text): Text
    requires |items| == |gaps|
  {
    before + [Open] + PrintItems(items, gaps) + [Close] + blanks
  }

  lemma {:induction false} AfterFirst(before: Text, rest: Text, t: Tok)
    requires t !in before
    ensures After(before + [t] + rest, t) == Some(rest)
  {
    var s := before + [t] + rest;
    if before == [] {
      assert s[1..] == rest;
    } else {
      AfterFirst(before[1..], rest, t);
      assert s[1..] == before[1..] + [t] + rest && s[0] == before[0];
    }
  }

  lemma {:induction false} SkipIdempotent(s: Text)
    ensures SkipWhite(SkipWhite(s)) == SkipWhite(s)
  {
    if s != [] && White(s[0]) {
      SkipIdempotent(s[1..]);
    }
  }

  predicate InLineWhite(s: Text) {
    forall t :: t in s ==> White(t) && t != Newline
  }

  lemma {:induction false} SkipBlanks(blanks: Text, rest: Text)
    requires InLineWhite(blanks) && (rest != [] ==> !White(rest[0]) || rest[0] == Newline)
    ensures SkipInLine(blanks + rest) == rest
  {
    if blanks == [] {
      assert blanks + rest == rest;
    } else {
      assert blanks[0] in blanks && forall t :: t in blanks[1..] ==> t in blanks;
      SkipBlanks(blanks[1..], rest);
      assert (blanks + rest)[1..] == blanks[1..] + rest;
    }
  }

  predicate Printable(kind: List, before: Text, items: seq<seq<int>>, gaps: seq<Text>, blanks: Text, rest: Text) {
    && Open !in before && |items| == |gaps| <= 5000 && (items != [] || kind == Points2)
    && (forall i :: 0 <= i < |items| ==> Fits(kind, items[i]) && AllWhite(gaps[i]))
    && InLineWhite(blanks) && (rest != [] ==> !White(rest[0]) || rest[0] == Newline)
  }

  /** The items of a list, whatever stands behind them: the text is not checked for a closing parenthesis. */
  lemma ItemsBack(kind: List, before: Text, items: seq<seq<int>>, gaps: seq<Text>, tail: Text)
    requires Open !in before && |items| == |gaps| <= 5000 && items != []
    requires forall i :: 0 <= i < |items| ==> Fits(kind, items[i]) && AllWhite(gaps[i])
    ensures Scan(kind, |items|, before + [Open] + (PrintItems(items, gaps) + tail))
         == Items(Meanings(kind, items), Behind(tail))
  {
    hide PrintItems, Behind, ScanLoop;
    var body := PrintItems(items, gaps) + tail;
    AfterFirst(before, body, Open);
    LoopBack(kind, |items|, items, gaps, tail);
    LoopEnd(ScanLoop(kind, |items|, body), Meanings(kind, items), kind, tail);
    SkipIdempotent(body);
    SameLoop(kind, |items|, SkipWhite(body), body);
  }

  lemma SameLoop(kind: List, num: nat, s: Text, t: Text)
    requires num > 0 && SkipWhite(s) == SkipWhite(t)
    ensures ScanLoop(kind, num, s) == ScanLoop(kind, num, t)
  {
  }

  /** Without items, white space in front of what follows is skipped. */
  lemma NoItemsBack(before: Text, tail: Text)
    requires Open !in before
    ensures Scan(Points2, 0, before + [Open] + tail) == Items([], Behind(SkipWhite(tail)))
  {
    AfterFirst(before, tail, Open);
  }

  lemma BehindClose(blanks: Text, rest: Text)
    requires InLineWhite(blanks) && (rest != [] ==> !White(rest[0]) || rest[0] == Newline)
    ensures Behind([Close] + (blanks + rest)) == rest
  {
    assert ([Close] + (blanks + rest))[1..] == blanks + rest;
    SkipBlanks(blanks, rest);
  }

  lemma ListText(before: Text, items: Text, blanks: Text, rest: Text)
    ensures (before + [Open] + items + [Close] + blanks) + rest == before + [Open] + (items + ([Close] + (blanks + rest)))
  {
  }

  /** A printed list reads back as its items, and leaves the pointer behind it and the blanks. */
  lemma RoundTrip(kind: List, before: Text, items: seq<seq<int>>, gaps: seq<Text>, blanks: Text, rest: Text)
    requires Printable(kind, before, items, gaps, blanks, rest)
    ensures Scan(kind, |items|, PrintList(before, items, gaps, blanks) + rest) == Items(Meanings(kind, items), rest)
  {
    hide Behind, Scan;
    var tail := [Close] + (blanks + rest);
    ListText(before, PrintItems(items, gaps), blanks, rest);
    BehindClose(blanks, rest);
    if items != [] {
      ItemsBack(kind, before, items, gaps, tail);
    } else {
      assert [] + tail == tail;
      NoItemsBack(before, tail);
      assert SkipWhite(tail) == tail;
    }
  }

  // ---- lists that break off ------------------------------------------------

  /** Where printed items are followed by what is no item, the pointer is left in front of that. */
  lemma BadItem(kind: List, num: nat, before: Text, items: seq<seq<int>>, gaps: seq<Text>, gap: Text, bad: Text)
    requires Open !in before && |items| == |gaps| < num <= 5000
    requires forall i :: 0 <= i < |items| ==> Fits(kind, items[i]) && AllWhite(gaps[i])
    requires AllWhite(gap) && (bad != [] ==> !White(bad[0])) && ReadItem(kind, bad).None?
    ensures Scan(kind, num, before + [Open] + (PrintItems(items, gaps) + (gap + bad))) == Null(bad)
  {
    hide PrintItems, Behind, ReadItem;
    var body := PrintItems(items, gaps) + (gap + bad);
    AfterFirst(before, body, Open);
    LoopBack(kind, num, items, gaps, gap + bad);
    SkipGap(gap, bad);
    LoopStops(kind, num - |items|, gap + bad);
    hide ScanLoop;
    SkipIdempotent(body);
    SameLoop(kind, num, SkipWhite(body), body);
  }

  /** Where no parenthesis closes an item, the pointer stays where it was. */
  lemma UnclosedItem(kind: List, num: nat, before: Text, items: seq<seq<int>>, gaps: seq<Text>, gap: Text, last: Text)
    requires Open !in before && |items| == |gaps| < num <= 5000
    requires forall i :: 0 <= i < |items| ==> Fits(kind, items[i]) && AllWhite(gaps[i])
    requires AllWhite(gap) && (last != [] ==> !White(last[0])) && ReadItem(kind, last).Some? && Close !in last
    ensures var s := before + [Open] + (PrintItems(items, gaps) + (gap + last)); Scan(kind, num, s) == Null(s)
  {
    hide PrintItems, Behind, ReadItem;
    var body := PrintItems(items, gaps) + (gap + last);
    AfterFirst(before, body, Open);
    LoopBack(kind, num, items, gaps, gap + last);
    SkipGap(gap, last);
    AfterFinds(last, Close);
    LoopStops(kind, num - |items|, gap + last);
    hide ScanLoop;
    SkipIdempotent(body);
    SameLoop(kind, num, SkipWhite(body), body);
  }

  // ---- text in front of the last parenthesis -------------------------------

  lemma {:induction false} SkipInLineKeeps(s: Text, tail: Text)
    requires tail != [] && !White(tail[0])
    ensures |SkipInLine(s + tail)| >= |tail|
    decreases |s|
  {
    if s == [] {
      assert s + tail == tail;
    } else {
      assert (s + tail)[1..] == s[1..] + tail;
      SkipInLineKeeps(s[1..], tail);
    }
  }

  /** Behind what stands in front of a parenthesis, the pointer does not get past that parenthesis. */
  lemma BehindKeeps(mid: Text, tail: Text)
    requires mid != [] && tail != [] && !White(tail[0])
    ensures |Behind(mid + tail)| >= |tail|
  {
    if mid[0] == Close {
      assert (mid + tail)[1..] == mid[1..] + tail;
      SkipInLineKeeps(mid[1..], tail);
    } else {
      SkipInLineKeeps(mid, tail);
    }
  }

  lemma {:induction false} SkipSome(mid: Text, tail: Text) returns (left: Text)
    requires tail != [] && !White(tail[0])
    ensures SkipWhite(mid + tail) == left + tail
    ensures left == [] <==> AllWhite(mid)
    decreases |mid|
  {
    if mid == [] || !White(mid[0]) {
      left := mid;
      if mid == [] {
        assert mid + tail == tail;
      } else {
        assert mid[0] in mid;
      }
    } else {
      assert (mid + tail)[1..] == mid[1..] + tail;
      left := SkipSome(mid[1..], tail);
      assert mid == [mid[0]] + mid[1..];
    }
  }

  /** What may stand between the last item and the closing parenthesis of the list. */
  predicate NothingBetween(items: seq<seq<int>>, mid: Text) {
    if items == [] then AllWhite(mid) else mid == []
  }

  /**
    The round trip, exactly: with any text in front of the closing parenthesis
    the items still read back, but the pointer ends behind the list if and only
    if nothing stands there, or nothing but white space in a list without items.
    Not even a blank is allowed for behind an item.
   */
  lemma RoundTripExactly(kind: List, before: Text, items: seq<seq<int>>, gaps: seq<Text>, mid: Text, blanks: Text, rest: Text)
    requires Printable(kind, before, items, gaps, blanks, rest)
    ensures var r := Scan(kind, |items|, before + [Open] + (PrintItems(items, gaps) + (mid + ([Close] + (blanks + rest)))));
      && r.Items? && r.items == Meanings(kind, items)
      && (r.rest == rest <==> NothingBetween(items, mid))
  {
    hide Scan, Behind, PrintItems, Meanings;
    var tail := [Close] + (blanks + rest);
    BehindClose(blanks, rest);
    if items != [] {
      ItemsBack(kind, before, items, gaps, mid + tail);
      if mid == [] {
        assert mid + tail == tail;
      } else {
        BehindKeeps(mid, tail);
      }
    } else {
      NoItems(gaps, mid + tail);
      NoItemsBack(before, mid + tail);
      var left := SkipSome(mid, tail);
      if left == [] {
        assert left + tail == tail;
      } else {
        BehindKeeps(left, tail);
      }
    }
  }

  lemma NoItems(gaps: seq<Text>, tail: Text)
    requires |gaps| == 0
    ensures PrintItems([], gaps) + tail == tail && Meanings(Points2, []) == []
  {
  }

  /** A blank in front of the last parenthesis: the pointer is left in front of it. */
  lemma BlankStops(item: seq<int>)
    requires |item| == 2
    ensures Scan(Points2, 1, [Open] + PrintItem(item) + [Blank, Close]) == Items([item], [Close])
  {
    var tail := [Blank, Close];
    ItemsBack(Points2, [], [item], [[]], tail);
    assert PrintItems([item], [[]]) == PrintItem(item);
    assert [] + [Open] + (PrintItem(item) + tail) == [Open] + PrintItem(item) + tail;
    assert Behind(tail) == [Close] by {
      assert tail[1..] == [Close];
    }
  }

  /** A list of no items is returned exactly by scan_pts2d, where there is an opening parenthesis. */
  lemma {:induction false} EmptyScan(kind: List, s: Text)
    ensures Scan(kind, 0, s).Items? <==> kind == Points2 && Open in s
    ensures !Scan(kind, 0, s).Items? ==> Scan(kind, 0, s) == Null(s)
  {
    AfterFinds(s, Open);
  }

  lemma {:induction false} AfterFinds(s: Text, t: Tok)
    ensures After(s, t).Some? <==> t in s
  {
    if s != [] && s[0] != t {
      AfterFinds(s[1..], t);
    }
  }

  lemma {:induction false} PointsMeanThemselves(kind: List, items: seq<seq<int>>)
    requires kind != Faces
    ensures Meanings(kind, items) == items
  {
    if items != [] {
      PointsMeanThemselves(kind, items[1..]);
    }
  }
}
