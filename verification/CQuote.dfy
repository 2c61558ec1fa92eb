/** Quoting a string for a C source file (examples/unknown.c:744-768). */
module CQuote {
  import opened Options
  import Sequences

  /** Characters that cquote escapes. */
  predicate Special(c: char) {
    c == '"' || c == '\\'
  }

  function Quoted(s: string): string {
    if s == [] then []
    else (if Special(s[0]) then ['\\', s[0]] else [s[0]]) + Quoted(s[1..])
  }

  lemma {:induction false} QuotedAppend(s: string, t: string)
    ensures Quoted(s + t) == Quoted(s) + Quoted(t)
  {
    if s == [] {
      assert s + t == t;
    } else {
      QuotedAppend(s[1..], t);
      assert (s + t)[1..] == s[1..] + t;
      Sequences.Assoc(if Special(s[0]) then ['\\', s[0]] else [s[0]], Quoted(s[1..]), Quoted(t));
    }
  }

  lemma QuotedStep(s: string, i: nat)
    requires i < |s|
    ensures Quoted(s[..i + 1]) == Quoted(s[..i]) + if Special(s[i]) then ['\\', s[i]] else [s[i]]
    ensures |Quoted(s[..i + 1])| <= |Quoted(s)|
  {
    assert s[..i + 1] == s[..i] + [s[i]] && s == s[..i + 1] + s[i + 1..];
    QuotedAppend(s[..i], [s[i]]);
    QuotedAppend(s[..i + 1], s[i + 1..]);
  }

  /**
    cquote on a NUL-terminated string src: dest receives the quoted text and its
    terminator, and keeps the rest.  All that is asked for is room for those.
   */
  method CQuote(dest: array<char>, src: string)
    requires '\0' !in src && |Quoted(src)| < dest.Length
    modifies dest
    ensures dest[..|Quoted(src)| + 1] == Quoted(src) + ['\0']
    ensures dest[|Quoted(src)| + 1..] == old(dest[|Quoted(src)| + 1..])
  {
    var d, i := 0, 0;
    while i < |src|
      invariant 0 <= i <= |src| && d <= |Quoted(src)| && dest[..d] == Quoted(src[..i])
      invariant dest[|Quoted(src)| + 1..] == old(dest[|Quoted(src)| + 1..])
    {
      QuotedStep(src, i);
      var c := src[i];
      if c == '"' {
        dest[d] := '\\';
        dest[d + 1] := c;
        d := d + 2;
      } else if c == '\\' {
        dest[d] := '\\';
        dest[d + 1] := c;
        d := d + 2;
      } else {
        dest[d] := c;
        d := d + 1;
      }
      i := i + 1;
    }
    assert src[..i] == src;
    dest[d] := '\0';
  }

  /**
    The room that the callers leave, twice the length of the string (line 1329),
    is enough exactly if some character needs no quoting.
   */
  lemma {:induction false} RoomInBuffer(s: string)
    ensures |s| <= |Quoted(s)| <= 2 * |s|
    ensures |Quoted(s)| < 2 * |s| <==> exists i :: 0 <= i < |s| && !Special(s[i])
  {
    if s != [] {
      RoomInBuffer(s[1..]);
      if i :| 0 <= i < |s| && !Special(s[i]) {
        assert i > 0 ==> s[1..][i - 1] == s[i];
      }
      if i :| 0 <= i < |s| - 1 && !Special(s[1..][i]) {
        assert s[i + 1] == s[1..][i];
      }
    }
  }

  /** The character that a simple escape sequence stands for (section 6.4.4.4 of C17). */
  function Escaped(c: char): Option<char> {
    match c
    case '"' => Some('"')
    case '\\' => Some('\\')
    case '\'' => Some('\'')
    case '?' => Some('?')
    case 'a' => Some(7 as char)
    case 'b' => Some(8 as char)
    case 't' => Some('\t')
    case 'n' => Some('\n')
    case 'v' => Some(11 as char)
    case 'f' => Some(12 as char)
    case 'r' => Some('\r')
    case _ => None
  }

  /**
    Reading the body of a C string literal (section 6.4.5): everything up to the
    first quotation mark that is not escaped, with escapes read, and what follows
    that mark.  A literal does not go beyond its line.
   */
  function ReadLiteral(t: string): Option<(string, string)> {
    if t == [] || t[0] == '\n' then None
    else if t[0] == '"' then Some(([], t[1..]))
    else if t[0] == '\\' then
      if |t| == 1 || Escaped(t[1]) == None then None
      else match ReadLiteral(t[2..])
        case None => None
        case Some(r) => Some(([Escaped(t[1]).value] + r.0, r.1))
    else match ReadLiteral(t[1..])
      case None => None
      case Some(r) => Some(([t[0]] + r.0, r.1))
  }

  /**
    A quoted string between quotation marks reads back as itself, and ends where it
    should, if and only if it has no line break: those are not escaped.
   */
  lemma {:induction false} RoundTrip(s: string, rest: string)
    ensures ReadLiteral(Quoted(s) + ['"'] + rest) == if '\n' in s then None else Some((s, rest))
  {
    var t := Quoted(s) + ['"'] + rest;
    if s != [] {
      RoundTrip(s[1..], rest);
      var u := Quoted(s[1..]) + ['"'] + rest;
      if Special(s[0]) {
        assert t == ['\\', s[0]] + u && t[2..] == u;
      } else {
        assert t == [s[0]] + u && t[1..] == u;
      }
      assert s == [s[0]] + s[1..];
    } else {
      assert t == ['"'] + rest;
    }
  }
}
