/**
 * The string trimming the create handler applies to a new task's text
 * (JavaScript's String.prototype.trim).
 */
module Text {

  /** ECMAScript's WhiteSpace code points, listed one by one. */
  const WhiteSpace: set<char> := {
    '\t', '\U{000B}', '\U{000C}', ' ', '\U{00A0}', '\U{FEFF}', '\U{1680}',
    '\U{2000}', '\U{2001}', '\U{2002}', '\U{2003}', '\U{2004}', '\U{2005}',
    '\U{2006}', '\U{2007}', '\U{2008}', '\U{2009}', '\U{200A}',
    '\U{202F}', '\U{205F}', '\U{3000}'
  }

  /** ECMAScript's LineTerminator code points. */
  const LineTerminators: set<char> := {'\n', '\r', '\U{2028}', '\U{2029}'}

  /** The characters trim removes: ECMAScript WhiteSpace (tab, vertical tab,
      form feed, space, no-break space, byte order mark and every other Unicode
      Space_Separator) and LineTerminator (line feed, carriage return, line
      separator, paragraph separator). */
  predicate IsJsWhitespace(c: char): (w: bool)
    ensures c < '\U{0080}' ==> (w <==> c == ' ' || '\t' <= c <= '\r')
  {
    c in JsWhitespace
  }

  const JsWhitespace: set<char> := WhiteSpace + LineTerminators

  predicate AllWhitespace(s: string) {
    forall k :: 0 <= k < |s| ==> IsJsWhitespace(s[k])
  }

  /** The length of the longest all-whitespace prefix of `s`. */
  function LeadingWhitespace(s: string): (n: nat)
    ensures n <= |s| && AllWhitespace(s[..n])
    ensures n < |s| ==> !IsJsWhitespace(s[n])
  {
    if s != [] && IsJsWhitespace(s[0]) then
      var m := LeadingWhitespace(s[1..]);
      assert s[..1 + m] == [s[0]] + s[1..][..m];
      1 + m
    else 0
  }

  /** The length of the longest all-whitespace suffix of `s`. */
  function TrailingWhitespace(s: string): (n: nat)
    ensures n <= |s| && AllWhitespace(s[|s| - n..])
    ensures n < |s| ==> !IsJsWhitespace(s[|s| - 1 - n])
  {
    if s != [] && IsJsWhitespace(s[|s| - 1]) then
      var m := TrailingWhitespace(s[..|s| - 1]);
      var t := s[..|s| - 1];
      assert s[|s| - 1 - m..] == t[|t| - m..] + [s[|s| - 1]];
      1 + m
    else 0
  }

  /** `Trim(s)` is `s` with its whitespace removed at both ends: it is the
      infix of `s` that starts after the leading whitespace, everything after
      it is whitespace, and it neither starts nor ends with whitespace. */
  function Trim(s: string): (r: string)
    ensures |r| <= |s|
    ensures LeadingWhitespace(s) + |r| <= |s|
    ensures r == s[LeadingWhitespace(s)..LeadingWhitespace(s) + |r|]
    ensures AllWhitespace(s[LeadingWhitespace(s) + |r|..])
    ensures r != [] ==> !IsJsWhitespace(r[0]) && !IsJsWhitespace(r[|r| - 1])
  {
    var i := LeadingWhitespace(s);
    var rest := s[i..];
    var n := TrailingWhitespace(rest);
    SliceOfSuffix(s, i, n);
    rest[..|rest| - n]
  }

  /** Cutting `n` characters off the end of `s[i..]` leaves an infix of `s`. */
  lemma SliceOfSuffix(s: string, i: nat, n: nat)
    requires i <= |s| && n <= |s| - i
    ensures var rest := s[i..]; var r := rest[..|rest| - n];
            r == s[i..i + |r|] && rest[|rest| - n..] == s[i + |r|..]
            && (r != [] ==> r[0] == s[i] && r[|r| - 1] == rest[|rest| - 1 - n])
  {
  }

  /** Trimming twice is trimming once. */
  lemma {:induction false} TrimIdempotent(s: string)
    ensures Trim(Trim(s)) == Trim(s)
  {
    var r := Trim(s);
    if r != [] {
      assert LeadingWhitespace(r) == 0;
      assert TrailingWhitespace(r[0..]) == 0 by { assert r[0..] == r; }
    }
  }

  /** A string made only of whitespace trims to the empty string. */
  lemma TrimOfWhitespaceIsEmpty(s: string)
    requires AllWhitespace(s)
    ensures Trim(s) == ""
  {
  }

  /** A string that neither starts nor ends with whitespace is left as it is. */
  lemma TrimKeepsTrimmed(s: string)
    requires s != [] ==> !IsJsWhitespace(s[0]) && !IsJsWhitespace(s[|s| - 1])
    ensures Trim(s) == s
  {
    assert s[0..] == s;
  }
}
