/**
  Keeping "--" out of an XML comment (programs/dwg2SVG.c:796-816), as section 2.5
  of XML 1.0 demands.
 */
module CommentSanitizer {
  import Sequences

  /** strstr (s, "--"): the index of the first pair of dashes, or -1. */
  function FirstPair(s: string): (i: int)
    ensures i == -1 || (0 <= i && i + 1 < |s| && s[i] == '-' && s[i + 1] == '-')
  {
    if |s| < 2 then -1
    else if s[0] == '-' && s[1] == '-' then 0
    else var i := FirstPair(s[1..]); if i == -1 then -1 else i + 1
  }

  /** How much of s is looked at together: a pair of dashes, or one character. */
  function Unit(s: string): (n: nat)
    requires s != []
    ensures 1 <= n <= |s|
  {
    if |s| >= 2 && s[0] == '-' && s[1] == '-' then 2 else 1
  }

  /** Pairs of dashes replaced from the left. */
  function Sanitized(s: string): (t: string)
    ensures |t| == |s|
  {
    if s == [] then []
    else (if Unit(s) == 2 then ['_', '_'] else [s[0]]) + Sanitized(s[Unit(s)..])
  }

  function Dashes(s: string): nat {
    if s == [] then 0 else (if s[0] == '-' then 1 else 0) + Dashes(s[1..])
  }

  /** One pass of the loop. */
  function Replace(s: string, i: nat): string
    requires i + 1 < |s|
  {
    s[i := '_'][i + 1 := '_']
  }

  lemma PassAtFront(s: string)
    requires FirstPair(s) == 0
    ensures Sanitized(Replace(s, 0)) == Sanitized(s) && Dashes(Replace(s, 0)) == Dashes(s) - 2
  {
    var t := Replace(s, 0);
    assert t[2..] == s[2..] && t[1..][1..] == s[2..] && s[1..][1..] == s[2..];
    assert Sanitized(t) == ['_'] + Sanitized(t[1..]) && Sanitized(t[1..]) == ['_'] + Sanitized(s[2..]);
  }

  lemma PassBehind(s: string, i: nat)
    requires 0 < i == FirstPair(s)
    ensures var t := Replace(s, i);
      && t[0] == s[0] && t[1..] == Replace(s[1..], i - 1)
      && Sanitized(s) == [s[0]] + Sanitized(s[1..]) && Sanitized(t) == [s[0]] + Sanitized(t[1..])
  {
  }

  /** A pass leaves the result alone and takes away two dashes. */
  lemma {:induction false} PassKeepsResult(s: string)
    ensures var i := FirstPair(s);
      if i == -1 then Sanitized(s) == s
      else Sanitized(Replace(s, i)) == Sanitized(s) && Dashes(Replace(s, i)) == Dashes(s) - 2
  {
    var i := FirstPair(s);
    if i == 0 {
      PassAtFront(s);
    } else if |s| >= 2 {
      PassKeepsResult(s[1..]);
      if i > 0 {
        PassBehind(s, i);
      }
    }
  }

  /** The loop in output_BLOCK_HEADER, on a NUL-terminated buffer. */
  method Sanitize(buf: array<char>, len: nat)
    requires len < buf.Length && buf[len] == '\0' && '\0' !in buf[..len]
    modifies buf
    ensures buf[..len] == Sanitized(old(buf[..len]))
    ensures buf[len..] == old(buf[len..])
  {
    var s := FirstPair(buf[..len]);
    while s != -1
      invariant s == FirstPair(buf[..len])
      invariant Sanitized(buf[..len]) == Sanitized(old(buf[..len]))
      invariant buf[len..] == old(buf[len..])
      decreases Dashes(buf[..len])
    {
      PassKeepsResult(buf[..len]);
      ghost var before := buf[..len];
      buf[s] := '_';
      buf[s + 1] := '_';
      assert buf[..len] == Replace(before, s);
      s := FirstPair(buf[..len]);
    }
    PassKeepsResult(buf[..len]);
  }

  // ---- what the result looks like ------------------------------------------

  function Repeat(c: char, n: nat): (s: string)
    ensures |s| == n
  {
    seq(n, _ => c)
  }

  lemma PairFirst(t: string)
    ensures Sanitized(['-', '-'] + t) == ['_', '_'] + Sanitized(t)
  {
    assert (['-', '-'] + t)[2..] == t;
  }

  lemma OtherFirst(c: char, t: string)
    requires c != '-' || t == [] || t[0] != '-'
    ensures Sanitized([c] + t) == [c] + Sanitized(t)
  {
    assert ([c] + t)[1..] == t;
  }

  /** k dashes sanitized. */
  function Dashed(k: nat): string {
    Repeat('_', 2 * (k / 2)) + Repeat('-', k % 2)
  }

  lemma DashedMore(k: nat)
    ensures Dashed(k + 2) == ['_', '_'] + Dashed(k)
    ensures Repeat('-', k + 2) == ['-', '-'] + Repeat('-', k)
  {
    assert (k + 2) % 2 == k % 2 && 2 * ((k + 2) / 2) == 2 + 2 * (k / 2);
  }

  lemma {:induction false} DashRun(k: nat, b: string)
    requires b != [] ==> b[0] != '-'
    ensures Sanitized(Repeat('-', k) + b) == Dashed(k) + Sanitized(b)
    decreases k
  {
    hide Sanitized;
    if k == 0 {
      assert Repeat('-', 0) + b == b && Dashed(0) + Sanitized(b) == Sanitized(b);
    } else if k == 1 {
      OtherFirst('-', b);
      assert Repeat('-', 1) + b == ['-'] + b && Dashed(1) == ['-'];
    } else {
      DashedMore(k - 2);
      Sequences.Assoc(['-', '-'], Repeat('-', k - 2), b);
      PairFirst(Repeat('-', k - 2) + b);
      DashRun(k - 2, b);
      Sequences.Assoc(['_', '_'], Dashed(k - 2), Sanitized(b));
    }
  }

  /** No pair is found across a character other than a dash. */
  lemma {:induction false} SanitizedAppend(a: string, x: string)
    requires a != [] ==> a[|a| - 1] != '-'
    ensures Sanitized(a + x) == Sanitized(a) + Sanitized(x)
    decreases |a|
  {
    if a == [] {
      assert a + x == x;
    } else {
      var n := Unit(a);
      var first := if n == 2 then ['_', '_'] else [a[0]];
      assert Unit(a + x) == n && (a + x)[n..] == a[n..] + x && (a + x)[0] == a[0];
      SanitizedAppend(a[n..], x);
      calc {
        Sanitized(a + x);
        first + Sanitized(a[n..] + x);
        first + (Sanitized(a[n..]) + Sanitized(x));
        { Sequences.Assoc(first, Sanitized(a[n..]), Sanitized(x)); }
        (first + Sanitized(a[n..])) + Sanitized(x);
        Sanitized(a) + Sanitized(x);
      }
    }
  }

  /**
    Run by run: a maximal run of k dashes becomes k/2 pairs of underscores and,
    if k is odd, one dash; everything else stays.
   */
  lemma RunByRun(a: string, k: nat, b: string)
    requires (a != [] ==> a[|a| - 1] != '-') && (b != [] ==> b[0] != '-')
    ensures Sanitized(a + (Repeat('-', k) + b))
         == Sanitized(a) + (Repeat('_', 2 * (k / 2)) + Repeat('-', k % 2) + Sanitized(b))
  {
    SanitizedAppend(a, Repeat('-', k) + b);
    DashRun(k, b);
  }

  lemma {:induction false} OtherCharactersStay(s: string, i: nat)
    requires i < |s|
    ensures s[i] != '-' ==> Sanitized(s)[i] == s[i]
    ensures s[i] == '-' ==> Sanitized(s)[i] == '-' || Sanitized(s)[i] == '_'
  {
    var n := Unit(s);
    if i >= n {
      OtherCharactersStay(s[n..], i - n);
    }
  }

  // ---- the comment ---------------------------------------------------------

  /** A Char of XML 1.0 (section 2.2). */
  predicate XmlChar(c: char) {
    var n := c as int;
    n in {0x9, 0xA, 0xD} || 0x20 <= n <= 0xD7FF || 0xE000 <= n <= 0xFFFD || 0x10000 <= n <= 0x10FFFF
  }

  predicate XmlText(s: string) {
    forall i :: 0 <= i < |s| ==> XmlChar(s[i])
  }

  /** The content of a Comment: ((Char - '-') | ('-' (Char - '-')))* */
  predicate CommentContent(s: string) {
    s == [] ||
    (XmlChar(s[0]) && if s[0] != '-' then CommentContent(s[1..])
                      else |s| >= 2 && s[1] != '-' && XmlChar(s[1]) && CommentContent(s[2..]))
  }

  lemma XmlFirst(c: char, t: string)
    ensures XmlText([c] + t) <==> XmlChar(c) && XmlText(t)
  {
    if XmlText([c] + t) {
      assert ([c] + t)[0] == c;
      forall i | 0 <= i < |t| ensures XmlChar(t[i]) {
        assert ([c] + t)[i + 1] == t[i];
      }
    }
  }

  lemma XmlRest(s: string)
    requires s != []
    ensures XmlText(s) <==> XmlChar(s[0]) && XmlText(s[1..])
  {
    assert s == [s[0]] + s[1..];
    XmlFirst(s[0], s[1..]);
  }

  /** In a comment between blanks any text may stand that is made of Chars and has no pair of dashes, and no other. */
  lemma {:induction false} ContentMeans(s: string)
    ensures CommentContent(s + " ") <==> FirstPair(s) == -1 && XmlText(s)
    decreases |s|
  {
    if s == [] {
      assert s + " " == " " && " "[1..] == "";
    } else {
      XmlRest(s);
      assert (s + " ")[1..] == s[1..] + " ";
      if s[0] != '-' {
        ContentMeans(s[1..]);
      } else if |s| == 1 {
        assert (s + " ")[2..] == "" && s[1..] == "";
      } else {
        XmlRest(s[1..]);
        assert (s + " ")[2..] == s[2..] + " " && s[1..][1..] == s[2..];
        if s[1] != '-' {
          ContentMeans(s[2..]);
          assert FirstPair(s[1..]) == if FirstPair(s[2..]) == -1 then -1 else FirstPair(s[2..]) + 1;
        }
      }
    }
  }

  lemma PairInFront(u: string)
    ensures FirstPair(['_', '_'] + u) == -1 <==> FirstPair(u) == -1
  {
    assert (['_', '_'] + u)[1..] == ['_'] + u && (['_'] + u)[1..] == u;
  }

  lemma OtherInFront(c: char, u: string)
    requires c != '-' || u == [] || u[0] != '-'
    ensures FirstPair([c] + u) == -1 <==> FirstPair(u) == -1
  {
    assert ([c] + u)[1..] == u;
  }

  lemma {:induction false} NoPairLeft(s: string)
    ensures FirstPair(Sanitized(s)) == -1
    ensures s != [] && s[0] != '-' ==> Sanitized(s)[0] != '-'
  {
    if s != [] {
      NoPairLeft(s[Unit(s)..]);
      if Unit(s) == 2 {
        PairInFront(Sanitized(s[2..]));
      } else {
        OtherInFront(s[0], Sanitized(s[1..]));
      }
    }
  }

  lemma BlankInFront(s: string)
    ensures CommentContent(" " + s + " ") <==> FirstPair(s) == -1 && XmlText(s)
  {
    assert (" " + s + " ")[1..] == s + " ";
    ContentMeans(s);
  }

  lemma SanitizedText(s: string)
    ensures XmlText(Sanitized(s)) <==> XmlText(s)
  {
    forall i | 0 <= i < |s| ensures XmlChar(Sanitized(s)[i]) <==> XmlChar(s[i]) {
      OtherCharactersStay(s, i);
    }
  }

  /**
    What is printed between <!-- and --> is the content of a well-formed comment
    if and only if the name is made of characters that XML allows at all; and it
    is the name itself if and only if that has no pair of dashes.
   */
  lemma SanitizedIsComment(s: string)
    ensures FirstPair(Sanitized(s)) == -1
    ensures CommentContent(" " + Sanitized(s) + " ") <==> XmlText(s)
    ensures XmlText(s) ==> (Sanitized(s) == s <==> CommentContent(" " + s + " "))
  {
    NoPairLeft(s);
    SanitizedText(s);
    BlankInFront(Sanitized(s));
    BlankInFront(s);
    PassKeepsResult(s);
  }
}
