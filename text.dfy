/**
 * Character classes and case folding used by the grammars' tokens:
 * `Token()` skips `char.IsWhiteSpace`, names are runs of `char.IsLetterOrDigit`,
 * keywords are matched with `Parse.IgnoreCase`, and the registries and criterion
 * lookup compare with `StringComparison.OrdinalIgnoreCase`.
 */
module Text {
  import opened Common

  /** The characters `char.IsWhiteSpace` accepts. */
  predicate IsWhiteSpace(c: char) {
    || ('\U{0009}' <= c <= '\U{000D}')
    || c == ' ' || c == '\U{0085}' || c == '\U{00A0}' || c == '\U{1680}'
    || ('\U{2000}' <= c <= '\U{200A}')
    || c == '\U{2028}' || c == '\U{2029}' || c == '\U{202F}' || c == '\U{205F}' || c == '\U{3000}'
  }

  predicate IsDigit(c: char) { '0' <= c <= '9' }

  predicate IsAsciiLetter(c: char) { ('a' <= c <= 'z') || ('A' <= c <= 'Z') }

  /** `char.IsLetterOrDigit`, restricted to ASCII letters and digits. */
  predicate IsLetterOrDigit(c: char) { IsAsciiLetter(c) || IsDigit(c) }

  /** Case folding used by `IgnoreCase` and `OrdinalIgnoreCase` (ASCII letters only). */
  function ToLower(c: char): (r: char)
    ensures !('A' <= r <= 'Z')
    ensures IsAsciiLetter(c) <==> IsAsciiLetter(r)
    ensures IsDigit(c) <==> IsDigit(r)
    ensures IsWhiteSpace(c) <==> IsWhiteSpace(r)
  {
    if 'A' <= c <= 'Z' then (c as int + 32) as char else c
  }

  function Fold(s: string): (r: string)
    ensures |r| == |s|
    ensures forall i :: 0 <= i < |s| ==> r[i] == ToLower(s[i])
  {
    if s == [] then [] else [ToLower(s[0])] + Fold(s[1..])
  }

  /** Two strings are equal under ASCII case folding. */
  predicate EqualsIgnoreCase(a: string, b: string) {
    Fold(a) == Fold(b)
  }

  /** What `Token()` removes in front of (and behind) an item. */
  function SkipWs(s: string): (r: string)
    ensures |r| <= |s|
    ensures r == [] || !IsWhiteSpace(r[0])
    ensures forall i :: 0 <= i < |s| - |r| ==> IsWhiteSpace(s[i])
  {
    if s != [] && IsWhiteSpace(s[0]) then SkipWs(s[1..]) else s
  }

  lemma SkipWsIdle(s: string)
    requires s == [] || !IsWhiteSpace(s[0])
    ensures SkipWs(s) == s
  {
  }

  /** The longest prefix of letters and digits, and what follows it. */
  function LettersOrDigits(s: string): (r: (string, string))
    ensures r.0 + r.1 == s
    ensures forall i :: 0 <= i < |r.0| ==> IsLetterOrDigit(r.0[i])
    ensures r.1 == [] || !IsLetterOrDigit(r.1[0])
  {
    if s != [] && IsLetterOrDigit(s[0])
    then var (w, rest) := LettersOrDigits(s[1..]); ([s[0]] + w, rest)
    else ([], s)
  }

  /** The longest prefix of decimal digits, and what follows it. */
  function Digits(s: string): (r: (string, string))
    ensures r.0 + r.1 == s
    ensures forall i :: 0 <= i < |r.0| ==> IsDigit(r.0[i])
    ensures r.1 == [] || !IsDigit(r.1[0])
  {
    if s != [] && IsDigit(s[0])
    then var (w, rest) := Digits(s[1..]); ([s[0]] + w, rest)
    else ([], s)
  }

  /**
   * `Parse.String(lit)` (exact) or `Parse.IgnoreCase(lit)` (folded) at the head of `s`:
   * the input after the literal, or None.
   */
  function MatchLiteral(lit: string, ignoreCase: bool, s: string): (r: Option<string>)
    ensures r.Some? <==> (|lit| <= |s| && (if ignoreCase then EqualsIgnoreCase(s[..|lit|], lit) else s[..|lit|] == lit))
    ensures r.Some? ==> r.value == s[|lit|..]
  {
    if |lit| <= |s| && (if ignoreCase then EqualsIgnoreCase(s[..|lit|], lit) else s[..|lit|] == lit)
    then Some(s[|lit|..])
    else None
  }
}
