// The parts of Go's strings and bytes packages that the modelled code uses: prefixes and suffixes, trimming
// on either side, and replacing line endings. A byte is the character with that code, so a byte slice is a
// string too, and the program's conversions between the two are the identity here.

module Text {

  predicate HasPrefix(s: string, p: string)
  {
    |p| <= |s| && s[..|p|] == p
  }

  predicate HasSuffix(s: string, p: string)
  {
    |p| <= |s| && s[|s| - |p|..] == p
  }

  /** unicode.IsSpace. */
  predicate IsSpace(c: char)
  {
    || '\t' <= c <= '\r' || c == ' ' || c == '\U{85}' || c == '\U{A0}' || c == '\U{1680}'
    || '\U{2000}' <= c <= '\U{200A}' || c == '\U{2028}' || c == '\U{2029}' || c == '\U{202F}'
    || c == '\U{205F}' || c == '\U{3000}'
  }

  /** strings.TrimLeftFunc. */
  function TrimLeft(s: string, drop: char -> bool): string
  {
    if s != [] && drop(s[0]) then TrimLeft(s[1..], drop) else s
  }

  /** strings.TrimRightFunc. */
  function TrimRight(s: string, drop: char -> bool): string
  {
    if s != [] && drop(s[|s| - 1]) then TrimRight(s[..|s| - 1], drop) else s
  }

  function TrimSpace(s: string): string
  {
    TrimRight(TrimLeft(s, IsSpace), IsSpace)
  }

  /** What is left is a suffix that starts with a kept character, and all that went was droppable. */
  lemma {:induction false} TrimLeftMeans(s: string, drop: char -> bool)
    ensures var r := TrimLeft(s, drop);
      && HasSuffix(s, r) && (r == [] || !drop(r[0]))
      && forall i | 0 <= i < |s| - |r| :: drop(s[i])
  {
    if s != [] && drop(s[0]) {
      TrimLeftMeans(s[1..], drop);
      var r := TrimLeft(s[1..], drop);
      assert s[|s| - |r|..] == s[1..][|s| - 1 - |r|..];
      forall i | 0 < i < |s| - |r| ensures drop(s[i]) { assert s[i] == s[1..][i - 1]; }
    }
  }

  lemma {:induction false} TrimRightMeans(s: string, drop: char -> bool)
    ensures var r := TrimRight(s, drop);
      && HasPrefix(s, r) && (r == [] || !drop(r[|r| - 1]))
      && forall i | |r| <= i < |s| :: drop(s[i])
  {
    if s != [] && drop(s[|s| - 1]) {
      TrimRightMeans(s[..|s| - 1], drop);
      var r := TrimRight(s[..|s| - 1], drop);
      assert s[..|r|] == s[..|s| - 1][..|r|];
    }
  }

  lemma NothingToTrim(s: string)
    requires s != "" ==> !IsSpace(s[0]) && !IsSpace(s[|s| - 1])
    ensures TrimSpace(s) == s
  {
  }

  /** strings.ReplaceAll(s, "\r\n", "\n"). */
  function ReplaceCRLF(s: string): string
  {
    if s == "" then ""
    else if |s| > 1 && s[0] == '\r' && s[1] == '\n' then "\n" + ReplaceCRLF(s[2..])
    else [s[0]] + ReplaceCRLF(s[1..])
  }

  /** strings.ReplaceAll(s, "\r", "\n"). */
  function ReplaceCR(s: string): string
  {
    if s == "" then "" else [if s[0] == '\r' then '\n' else s[0]] + ReplaceCR(s[1..])
  }
}
