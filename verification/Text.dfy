/** String operations the services share: splitting on a separator, joining, and blankness. */
module Text {

  /** Java's `String.split(regex, -1)` for a one-character separator: empty pieces are kept. */
  function SplitOn(s: string, sep: char): (parts: seq<string>)
    ensures |parts| >= 1
  {
    if s == "" then [""]
    else
      var rest := SplitOn(s[1..], sep);
      if s[0] == sep then [""] + rest else [[s[0]] + rest[0]] + rest[1..]
  }

  function Join(parts: seq<string>, sep: string): string {
    if |parts| == 0 then ""
    else if |parts| == 1 then parts[0]
    else parts[0] + sep + Join(parts[1..], sep)
  }

  ghost predicate AllFree(parts: seq<string>, sep: char) {
    forall i :: 0 <= i < |parts| ==> sep !in parts[i]
  }

  /** A separator-free piece followed by a separator is split off whole. */
  lemma {:induction false} SplitPiece(piece: string, rest: string, sep: char)
    requires sep !in piece
    ensures SplitOn(piece, sep) == [piece]
    ensures SplitOn(piece + [sep] + rest, sep) == [piece] + SplitOn(rest, sep)
  {
    var s := piece + [sep] + rest;
    if piece == "" {
      assert s[1..] == rest;
    } else {
      SplitPiece(piece[1..], rest, sep);
      assert s[1..] == piece[1..] + [sep] + rest;
      assert piece == [piece[0]] + piece[1..];
    }
  }

  /** Splitting undoes joining, for separator-free pieces. */
  lemma {:induction false} SplitJoin(parts: seq<string>, sep: char)
    requires |parts| >= 1 && AllFree(parts, sep)
    ensures SplitOn(Join(parts, [sep]), sep) == parts
  {
    if |parts| == 1 {
      SplitPiece(parts[0], "", sep);
    } else {
      SplitJoin(parts[1..], sep);
      SplitPiece(parts[0], Join(parts[1..], [sep]), sep);
    }
  }

  /** Joining undoes splitting, and every piece is separator-free. */
  lemma {:induction false} JoinSplit(s: string, sep: char)
    ensures Join(SplitOn(s, sep), [sep]) == s
    ensures AllFree(SplitOn(s, sep), sep)
  {
    if s != "" {
      JoinSplit(s[1..], sep);
      var rest := SplitOn(s[1..], sep);
      var parts := SplitOn(s, sep);
      if s[0] == sep {
        assert parts[1..] == rest;
        assert Join(parts, [sep]) == [sep] + s[1..];
      } else {
        assert parts[1..] == rest[1..];
        assert Join(parts, [sep]) == [s[0]] + s[1..];
      }
    }
  }

  /** `Character.isWhitespace`: Unicode separators except the non-breaking ones, and control blanks. */
  predicate IsWhitespace(c: char) {
    var n := c as int;
    || 0x09 <= n <= 0x0D || 0x1C <= n <= 0x20 || n == 0x1680
    || (0x2000 <= n <= 0x200A && n != 0x2007)
    || n == 0x2028 || n == 0x2029 || n == 0x205F || n == 0x3000
  }

  /** `String.isBlank`. */
  predicate IsBlank(s: string) {
    s == "" || (IsWhitespace(s[0]) && IsBlank(s[1..]))
  }

  /** The characters Java calls white space. */
  const WHITESPACE := {
    '\t', '\n', '\U{000B}', '\U{000C}', '\r', '\U{001C}', '\U{001D}', '\U{001E}', '\U{001F}', ' ', '\U{1680}',
    '\U{2000}', '\U{2001}', '\U{2002}', '\U{2003}', '\U{2004}', '\U{2005}', '\U{2006}', '\U{2008}', '\U{2009}',
    '\U{200A}', '\U{2028}', '\U{2029}', '\U{205F}', '\U{3000}'}

  lemma WhitespaceExactly(c: char)
    ensures IsWhitespace(c) <==> c in WHITESPACE
  {
  }

  /** A string is blank exactly when it has nothing but white space. */
  lemma {:induction false} BlankExactly(s: string)
    ensures IsBlank(s) <==> forall i :: 0 <= i < |s| ==> s[i] in WHITESPACE
  {
    if s != "" {
      BlankExactly(s[1..]);
      WhitespaceExactly(s[0]);
      assert s == [s[0]] + s[1..];
    }
  }
}
