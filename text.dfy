/**
 * String helpers used by the command handlers: ASCII case mapping (the model of
 * `String.toLowerCase`, `String.toUpperCase` and `equalsIgnoreCase`), `startsWith`
 * and the space-joining of command arguments done by the tab completer.
 */
module Text {

  function LowerChar(c: char): char
  {
    if 'A' <= c <= 'Z' then (c as int + 32) as char else c
  }

  function UpperChar(c: char): char
  {
    if 'a' <= c <= 'z' then (c as int - 32) as char else c
  }

  /** `s.toLowerCase()`, restricted to the ASCII letters. */
  function Lower(s: string): (r: string)
    ensures |r| == |s|
    ensures forall i :: 0 <= i < |s| ==> r[i] == LowerChar(s[i])
  {
    if s == [] then [] else [LowerChar(s[0])] + Lower(s[1..])
  }

  /** `s.toUpperCase()`, restricted to the ASCII letters. */
  function Upper(s: string): (r: string)
    ensures |r| == |s|
    ensures forall i :: 0 <= i < |s| ==> r[i] == UpperChar(s[i])
  {
    if s == [] then [] else [UpperChar(s[0])] + Upper(s[1..])
  }

  predicate HasNoUpperCase(s: string)
  {
    forall i :: 0 <= i < |s| ==> !('A' <= s[i] <= 'Z')
  }

  /** A lower-cased string has no upper-case letter left, so lower-casing it again changes nothing. */
  lemma LowerIsNormal(s: string)
    ensures HasNoUpperCase(Lower(s))
    ensures Lower(Lower(s)) == Lower(s)
  {
    assert forall i :: 0 <= i < |s| ==> LowerChar(LowerChar(s[i])) == LowerChar(s[i]);
  }

  /** `a.equalsIgnoreCase(b)` for ASCII text. */
  predicate EqualsIgnoreCase(a: string, b: string)
  {
    Lower(a) == Lower(b)
  }

  /** `s.startsWith(prefix)`. */
  predicate StartsWith(s: string, prefix: string)
  {
    |prefix| <= |s| && s[..|prefix|] == prefix
  }

  /** The arguments joined with one space between neighbours, as the tab completer's builder does. */
  function JoinWithSpaces(parts: seq<string>): string
  {
    if |parts| == 0 then ""
    else if |parts| == 1 then parts[0]
    else JoinWithSpaces(parts[..|parts| - 1]) + " " + parts[|parts| - 1]
  }

  /** When the last of at least two parts is empty, the joined text ends in the separating space. */
  lemma JoinEndsWithSpace(parts: seq<string>)
    requires |parts| >= 2 && parts[|parts| - 1] == ""
    ensures |JoinWithSpaces(parts)| > 0
    ensures JoinWithSpaces(parts)[|JoinWithSpaces(parts)| - 1] == ' '
  {
  }
}
