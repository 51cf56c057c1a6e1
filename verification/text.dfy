/** The few pieces of java.lang.String and java.lang.Character the core relies on. */
module Text {

  /** `String.trim` strips every character at or below U+0020 from both ends. */
  predicate IsWhite(c: char) {
    c <= ' '
  }

  /** The ASCII digits, the only ones the regular expression class `\d` accepts by default. */
  predicate IsDigit(c: char) {
    '0' <= c <= '9'
  }

  predicate AllDigits(s: string) {
    forall i | 0 <= i < |s| :: IsDigit(s[i])
  }

  function TrimStart(s: string): (r: string)
    ensures |r| <= |s| && r == s[|s| - |r|..]
    ensures r == [] || !IsWhite(r[0])
    ensures forall i | 0 <= i < |s| - |r| :: IsWhite(s[i])
  {
    if |s| > 0 && IsWhite(s[0]) then TrimStart(s[1..]) else s
  }

  function TrimEnd(s: string): (r: string)
    ensures |r| <= |s| && r == s[..|r|]
    ensures r == [] || !IsWhite(r[|r| - 1])
    ensures forall i | |r| <= i < |s| :: IsWhite(s[i])
  {
    if |s| > 0 && IsWhite(s[|s| - 1]) then TrimEnd(s[..|s| - 1]) else s
  }

  /** `String.trim`: the longest middle slice that neither starts nor ends with white space. */
  function Trim(s: string): (r: string)
    ensures |r| <= |s|
    ensures r == [] || (!IsWhite(r[0]) && !IsWhite(r[|r| - 1]))
    ensures r == [] <==> forall i | 0 <= i < |s| :: IsWhite(s[i])
    ensures (forall i | 0 <= i < |s| :: !IsWhite(s[i])) ==> r == s
  {
    TrimEnd(TrimStart(s))
  }

  /** `s.trim().isEmpty()`, the source's test for a missing text field. */
  predicate IsBlank(s: string) {
    Trim(s) == []
  }

  /** A text field as the entities store it: trimmed and not blank. */
  predicate IsTrimmedText(s: string) {
    !IsBlank(s) && Trim(s) == s
  }

  /** No character `trim` would strip. */
  predicate NoWhite(s: string) {
    forall i | 0 <= i < |s| :: !IsWhite(s[i])
  }

  /** A non-empty string with nothing to strip is a text field as stored. */
  lemma NoWhiteIsText(s: string)
    requires s != [] && NoWhite(s)
    ensures IsTrimmedText(s)
  {
  }

  lemma TrimIdempotent(s: string)
    ensures Trim(Trim(s)) == Trim(s)
  {
  }

  /** Trimming a non-blank text yields a value that setters and constructors accept unchanged. */
  lemma TrimmedIsText(s: string)
    requires !IsBlank(s)
    ensures IsTrimmedText(Trim(s))
  {
    TrimIdempotent(s);
  }

  /** `Character.toUpperCase`, restricted to the ASCII letters it meets in the core. */
  function ToUpper(c: char): (r: char)
    ensures 'a' <= c <= 'z' ==> r as int == c as int - 32
    ensures !('a' <= c <= 'z') ==> r == c
  {
    if 'a' <= c <= 'z' then (c as int - 32) as char else c
  }
}
