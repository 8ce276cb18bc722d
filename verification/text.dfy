/**
  String helpers the tree printer leans on: whitespace trimming (as Rust's
  `str::trim` does it), the backslash escaping applied to a leaf's matched
  text, and the line structure of rendered output (every line ends in a
  newline).
 */
module Text {

  datatype Option<T> = None | Some(value: T)

  /* ---------------------------------------------------------------------
     Trimming
     --------------------------------------------------------------------- */

  /** The Unicode White_Space property, which is what `str::trim` strips. */
  predicate IsWhitespace(c: char) {
    || ('\t' <= c <= '\r')
    || c == ' '
    || c == '\U{85}'
    || c == '\U{A0}'
    || c == '\U{1680}'
    || ('\U{2000}' <= c <= '\U{200A}')
    || c == '\U{2028}'
    || c == '\U{2029}'
    || c == '\U{202F}'
    || c == '\U{205F}'
    || c == '\U{3000}'
  }

  /** `s[lo..hi]` is what is left of `s` once all leading and trailing
      whitespace is gone: everything outside the slice is whitespace and the
      slice neither starts nor ends with whitespace. */
  ghost predicate TrimmedAt(s: string, lo: int, r: string) {
    && 0 <= lo <= lo + |r| <= |s|
    && s[lo..lo + |r|] == r
    && (forall k :: 0 <= k < lo ==> IsWhitespace(s[k]))
    && (forall k :: lo + |r| <= k < |s| ==> IsWhitespace(s[k]))
    && (r != [] ==> !IsWhitespace(r[0]) && !IsWhitespace(r[|r| - 1]))
  }

  /** Removes leading whitespace. */
  function TrimStart(s: string): (r: string)
    ensures |r| <= |s|
  {
    if |s| > 0 && IsWhitespace(s[0]) then TrimStart(s[1..]) else s
  }

  /** Removes trailing whitespace. */
  function TrimEnd(s: string): (r: string)
    ensures |r| <= |s|
  {
    if |s| > 0 && IsWhitespace(s[|s| - 1]) then TrimEnd(s[..|s| - 1]) else s
  }

  /** `TrimStart` keeps a suffix, drops only whitespace, and stops at the
      first other character. */
  lemma {:induction false} TrimStartSpec(s: string)
    ensures TrimStart(s) == s[|s| - |TrimStart(s)|..]
    ensures forall k :: 0 <= k < |s| - |TrimStart(s)| ==> IsWhitespace(s[k])
    ensures TrimStart(s) != [] ==> !IsWhitespace(TrimStart(s)[0])
  {
    if |s| > 0 && IsWhitespace(s[0]) {
      TrimStartSpec(s[1..]);
      assert forall k :: 1 <= k < |s| ==> s[k] == s[1..][k - 1];
    }
  }

  /** `TrimEnd` keeps a prefix, drops only whitespace, and stops at the last
      other character. */
  lemma {:induction false} TrimEndSpec(s: string)
    ensures TrimEnd(s) == s[..|TrimEnd(s)|]
    ensures forall k :: |TrimEnd(s)| <= k < |s| ==> IsWhitespace(s[k])
    ensures TrimEnd(s) != [] ==> !IsWhitespace(TrimEnd(s)[|TrimEnd(s)| - 1])
  {
    if |s| > 0 && IsWhitespace(s[|s| - 1]) {
      TrimEndSpec(s[..|s| - 1]);
      assert forall k :: 0 <= k < |s| - 1 ==> s[k] == s[..|s| - 1][k];
    }
  }

  /** Rust's `str::trim`: the text with leading and trailing whitespace removed. */
  function Trim(s: string): (r: string)
    ensures |r| <= |s|
  {
    TrimEnd(TrimStart(s))
  }

  /** What `Trim` keeps is the slice of `s` between its leading and its
      trailing whitespace, and it is empty exactly for all-whitespace text. */
  lemma TrimSpec(s: string)
    ensures TrimmedAt(s, |s| - |TrimStart(s)|, Trim(s))
    ensures Trim(s) == [] <==> forall k :: 0 <= k < |s| ==> IsWhitespace(s[k])
  {
    var t := TrimStart(s);
    var r := Trim(s);
    TrimStartSpec(s);
    TrimEndSpec(t);
    var lo := |s| - |t|;
    assert r == s[lo..][..|r|];
    assert s[lo..lo + |r|] == r;
    assert forall k :: lo + |r| <= k < |s| ==> s[k] == t[k - lo];
    if r != [] {
      assert !IsWhitespace(s[lo]);
    }
  }

  /** A text that neither starts nor ends with whitespace is its own trim. */
  lemma TrimKeepsTrimmed(s: string)
    requires s != [] ==> !IsWhitespace(s[0]) && !IsWhitespace(s[|s| - 1])
    ensures Trim(s) == s
  {
    assert TrimStart(s) == s;
    assert TrimEnd(s) == s;
  }

  /** Trimming twice is trimming once. */
  lemma TrimIdempotent(s: string)
    ensures Trim(Trim(s)) == Trim(s)
  {
    TrimSpec(s);
    TrimKeepsTrimmed(Trim(s));
  }

  /* ---------------------------------------------------------------------
     Escaping
     --------------------------------------------------------------------- */

  /** Characters the escaper rewrites: newline, tab, carriage return,
      backslash and the two quote characters. */
  predicate NeedsEscape(c: char) {
    c == '\n' || c == '\t' || c == '\r' || c == '\\' || c == '"' || c == '\''
  }

  /** The letter written after the backslash for a character that needs
      escaping. */
  function EscapeCode(c: char): char
    requires NeedsEscape(c)
  {
    match c
    case '\n' => 'n'
    case '\t' => 't'
    case '\r' => 'r'
    case _ => c
  }

  /** Inverse of `EscapeCode`: the character a backslash sequence stands for. */
  function DecodeEscape(code: char): Option<char> {
    match code
    case 'n' => Some('\n')
    case 't' => Some('\t')
    case 'r' => Some('\r')
    case '\\' => Some('\\')
    case '"' => Some('"')
    case '\'' => Some('\'')
    case _ => None
  }

  /** Escapes a text so that it can be shown inside double quotes on a
      single line; characters with no special meaning pass through. */
  function Escape(s: string): (r: string)
    ensures |r| >= |s|
  {
    if |s| == 0 then ""
    else if NeedsEscape(s[0]) then ['\\', EscapeCode(s[0])] + Escape(s[1..])
    else [s[0]] + Escape(s[1..])
  }

  /** Escaping changes a text exactly when it holds a special character; a
      text without one comes out as it went in. */
  lemma {:induction false} EscapeLength(s: string)
    ensures |Escape(s)| == |s| <==> forall k :: 0 <= k < |s| ==> !NeedsEscape(s[k])
    ensures (forall k :: 0 <= k < |s| ==> !NeedsEscape(s[k])) ==> Escape(s) == s
  {
    if |s| > 0 {
      EscapeLength(s[1..]);
      assert forall k :: 1 <= k < |s| ==> s[k] == s[1..][k - 1];
      if !NeedsEscape(s[0]) {
        assert [s[0]] + s[1..] == s;
      }
    }
  }

  /** The escaped text has no line break, carriage return or tab left. */
  lemma {:induction false} EscapeSingleLine(s: string)
    ensures forall k :: 0 <= k < |Escape(s)| ==> Escape(s)[k] != '\n' && Escape(s)[k] != '\r' && Escape(s)[k] != '\t'
  {
    if |s| > 0 {
      EscapeSingleLine(s[1..]);
      var rest := Escape(s[1..]);
      var head: string := if NeedsEscape(s[0]) then ['\\', EscapeCode(s[0])] else [s[0]];
      assert Escape(s) == head + rest;
      assert forall k :: |head| <= k < |head + rest| ==> (head + rest)[k] == rest[k - |head|];
    }
  }

  /** Reads an escaped text back; `None` for a dangling backslash, an unknown
      escape or a raw special character. */
  function Unescape(s: string): Option<string>
  {
    if |s| == 0 then Some("")
    else if s[0] == '\\' then
      if |s| < 2 then None
      else
        match (DecodeEscape(s[1]), Unescape(s[2..]))
        case (Some(c), Some(rest)) => Some([c] + rest)
        case _ => None
    else if NeedsEscape(s[0]) then None
    else
      match Unescape(s[1..])
      case Some(rest) => Some([s[0]] + rest)
      case None => None
  }

  /** Escaping loses nothing: the escaped text reads back as the original. */
  lemma {:induction false} EscapeRoundTrip(s: string)
    ensures Unescape(Escape(s)) == Some(s)
  {
    if |s| > 0 {
      EscapeRoundTrip(s[1..]);
      var e := Escape(s);
      if NeedsEscape(s[0]) {
        assert e[2..] == Escape(s[1..]);
      } else {
        assert e[1..] == Escape(s[1..]);
      }
      assert [s[0]] + s[1..] == s;
    }
  }

  /** Two different texts never escape to the same string. */
  lemma EscapeInjective(a: string, b: string)
    ensures Escape(a) == Escape(b) ==> a == b
  {
    EscapeRoundTrip(a);
    EscapeRoundTrip(b);
  }

  /* ---------------------------------------------------------------------
     Lines
     --------------------------------------------------------------------- */

  /** `s.starts_with(p)`. */
  predicate StartsWith(s: string, p: string) {
    |p| <= |s| && s[..|p|] == p
  }

  /** Writes every line followed by a newline. */
  function Join(lines: seq<string>): (r: string)
    ensures r == [] <==> lines == []
    ensures lines != [] ==> r[|r| - 1] == '\n'
  {
    if |lines| == 0 then "" else lines[0] + "\n" + Join(lines[1..])
  }

  /** Writing two blocks of lines one after the other. */
  lemma {:induction false} JoinAppend(a: seq<string>, b: seq<string>)
    ensures Join(a + b) == Join(a) + Join(b)
  {
    if |a| > 0 {
      assert (a + b)[1..] == a[1..] + b;
      JoinAppend(a[1..], b);
    } else {
      assert a + b == b;
    }
  }

  /** Index of the first newline of `s`, or `|s|` when there is none. */
  function LineEnd(s: string): (i: nat)
    ensures i <= |s|
    ensures forall k :: 0 <= k < i ==> s[k] != '\n'
    ensures i < |s| ==> s[i] == '\n'
  {
    if |s| == 0 || s[0] == '\n' then 0 else 1 + LineEnd(s[1..])
  }

  /** Splits a text into its lines, each without its terminating newline. */
  function SplitLines(s: string): seq<string>
    decreases |s|
  {
    if |s| == 0 then []
    else
      var i := LineEnd(s);
      if i == |s| then [s] else [s[..i]] + SplitLines(s[i + 1..])
  }

  ghost predicate NoNewline(line: string) {
    forall k :: 0 <= k < |line| ==> line[k] != '\n'
  }

  /** In a line followed by a newline and more text, the first newline is
      the one ending the line. */
  lemma LineEndAfter(l: string, rest: string)
    requires NoNewline(l)
    ensures LineEnd(l + "\n" + rest) == |l|
    ensures (l + "\n" + rest)[..|l|] == l
    ensures (l + "\n" + rest)[|l| + 1..] == rest
  {
    var s := l + "\n" + rest;
    assert s[|l|] == '\n';
    assert forall k :: 0 <= k < |l| ==> s[k] == l[k];
  }

  /** Lines without newlines survive a write-then-split round trip. */
  lemma {:induction false} SplitJoin(lines: seq<string>)
    requires forall i :: 0 <= i < |lines| ==> NoNewline(lines[i])
    ensures SplitLines(Join(lines)) == lines
  {
    if |lines| > 0 {
      LineEndAfter(lines[0], Join(lines[1..]));
      SplitJoin(lines[1..]);
    }
  }
}
