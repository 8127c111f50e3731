/** The two string primitives the shopping list relies on: `trim()`, which
    drops white space from both ends of an input field, and `toLowerCase()`,
    which the duplicate check uses to compare names and units. */
module Text {

  /** The characters `String.prototype.trim` removes: the ECMAScript
      WhiteSpace (tab, vertical tab, form feed, byte order mark and every
      Unicode space separator) and LineTerminator (LF, CR, LS, PS) sets. */
  predicate IsWhitespace(c: char) {
    c == '\t' || c == '\n' || c == '\U{B}' || c == '\U{C}' || c == '\r' ||
    c == ' ' || c == '\U{A0}' || c == '\U{1680}' ||
    ('\U{2000}' <= c <= '\U{200A}') ||
    c == '\U{2028}' || c == '\U{2029}' || c == '\U{202F}' || c == '\U{205F}' ||
    c == '\U{3000}' || c == '\U{FEFF}'
  }

  predicate AllWhitespace(s: string) {
    forall i :: 0 <= i < |s| ==> IsWhitespace(s[i])
  }

  /** The length of the longest all-white-space prefix of `s`. */
  function LeadingSpaces(s: string): (k: nat)
    ensures k <= |s|
    ensures forall i :: 0 <= i < k ==> IsWhitespace(s[i])
    ensures k < |s| ==> !IsWhitespace(s[k])
  {
    if |s| > 0 && IsWhitespace(s[0]) then 1 + LeadingSpaces(s[1..]) else 0
  }

  /** The length of the longest all-white-space suffix of `s`. */
  function TrailingSpaces(s: string): (k: nat)
    ensures k <= |s|
    ensures forall i :: |s| - k <= i < |s| ==> IsWhitespace(s[i])
    ensures k < |s| ==> !IsWhitespace(s[|s| - 1 - k])
  {
    if |s| > 0 && IsWhitespace(s[|s| - 1]) then 1 + TrailingSpaces(s[..|s| - 1]) else 0
  }

  /** `s.trim()`: the input without its leading and trailing white space.
      It is empty exactly when `s` is blank, and otherwise starts and ends
      with a character that is not white space; `TrimDropsOnlySpaces` says
      where in `s` it comes from. */
  function Trim(s: string): (r: string)
    ensures r == [] <==> AllWhitespace(s)
    ensures r != [] ==> IsTrimmed(r)
  {
    var a := LeadingSpaces(s);
    var t := s[a..];
    assert AllWhitespace(s) ==> a == |s|;
    t[..|t| - TrailingSpaces(t)]
  }

  /** Trimming removes white space and nothing else: the result is the
      part of `s` that starts after its white-space prefix, and everything
      in `s` after the result is white space. */
  lemma TrimDropsOnlySpaces(s: string)
    ensures LeadingSpaces(s) + |Trim(s)| <= |s|
    ensures Trim(s) == s[LeadingSpaces(s)..LeadingSpaces(s) + |Trim(s)|]
    ensures forall i :: LeadingSpaces(s) + |Trim(s)| <= i < |s| ==> IsWhitespace(s[i])
  {
    var a := LeadingSpaces(s);
    var t := s[a..];
    var r := t[..|t| - TrailingSpaces(t)];
    assert r == s[a..a + |r|];
    forall i | a + |r| <= i < |s| ensures IsWhitespace(s[i]) {
      assert s[i] == t[i - a];
    }
  }

  /** A non-empty string with no white space at either end. */
  predicate IsTrimmed(s: string) {
    s != [] && !IsWhitespace(s[0]) && !IsWhitespace(s[|s| - 1])
  }

  /** The non-empty results of trimming are exactly the strings that
      trimming leaves unchanged. */
  lemma TrimmedIsTrim(s: string)
    ensures IsTrimmed(s) <==> s != [] && Trim(s) == s
  {
    if IsTrimmed(s) {
      assert LeadingSpaces(s) == 0;
      assert TrailingSpaces(s) == 0;
      assert s[0..|s|] == s;
    }
  }

  /** Trimming a trimmed string changes nothing, so a stored (trimmed) name
      is its own trimmed form. */
  lemma TrimIdempotent(s: string)
    ensures Trim(Trim(s)) == Trim(s)
  {
    var r := Trim(s);
    if r != [] {
      assert LeadingSpaces(r) == 0;
      assert TrailingSpaces(r) == 0;
    }
  }

  /** `toLowerCase()` on one character, for the ASCII letters, the Latin-1
      Supplement and the Latin Extended-A block (which holds every letter of
      Hungarian); other characters are left as they are. */
  function LowerChar(c: char): char {
    var n := c as int;
    if 'A' <= c <= 'Z' then (n + 32) as char
    else if '\U{C0}' <= c <= '\U{DE}' && c != '\U{D7}' then (n + 32) as char
    else if '\U{100}' <= c <= '\U{12F}' && n % 2 == 0 then (n + 1) as char
    else if '\U{132}' <= c <= '\U{137}' && n % 2 == 0 then (n + 1) as char
    else if '\U{139}' <= c <= '\U{148}' && n % 2 == 1 then (n + 1) as char
    else if '\U{14A}' <= c <= '\U{177}' && n % 2 == 0 then (n + 1) as char
    else if c == '\U{178}' then '\U{FF}'
    else if '\U{179}' <= c <= '\U{17E}' && n % 2 == 1 then (n + 1) as char
    else c
  }

  /** `s.toLowerCase()`, character by character. */
  function ToLower(s: string): (r: string)
    ensures |r| == |s|
    ensures forall i :: 0 <= i < |s| ==> r[i] == LowerChar(s[i])
  {
    if s == [] then [] else [LowerChar(s[0])] + ToLower(s[1..])
  }
}
