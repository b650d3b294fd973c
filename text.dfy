/**
 * Character classes and small string scanners shared by the formatter, the
 * escape-sequence tracker and the progress parser. White space (`\s`) is
 * the set Python's `str.isspace` accepts; digits, word characters (`\b`)
 * and case folding follow ASCII.
 */
module Text {

  const ESC: char := '\U{1B}'

  predicate IsDigit(c: char) { '0' <= c <= '9' }

  predicate IsLetter(c: char) { 'A' <= c <= 'Z' || 'a' <= c <= 'z' }

  /** A regular-expression word character: letter, digit or underscore. */
  predicate IsWordChar(c: char) { IsLetter(c) || IsDigit(c) || c == '_' }

  /**
   * The characters `\s` matches in a Python `str` pattern, the same set
   * `str.isspace` accepts: ASCII tab to carriage return, the four ASCII
   * separators 0x1C-0x1F, space, and the Unicode white space.
   */
  predicate IsSpace(c: char) {
    || c == ' ' || '\t' <= c <= '\r' || '\U{1C}' <= c <= '\U{1F}'
    || c == '\U{85}' || c == '\U{A0}' || c == '\U{1680}' || '\U{2000}' <= c <= '\U{200A}'
    || c == '\U{2028}' || c == '\U{2029}' || c == '\U{202F}' || c == '\U{205F}' || c == '\U{3000}'
  }

  predicate AllDigits(s: string) {
    forall i :: 0 <= i < |s| ==> IsDigit(s[i])
  }

  function DigitValue(c: char): (d: nat)
    requires IsDigit(c)
    ensures d < 10
  {
    c as int - '0' as int
  }

  function DigitChar(d: nat): (c: char)
    requires d < 10
    ensures IsDigit(c) && DigitValue(c) == d
  {
    ('0' as int + d) as char
  }

  /** The value of a decimal digit string, most significant digit first; "" is 0. */
  function DigitsValue(s: string): nat
    requires AllDigits(s)
    decreases |s|
  {
    if s == [] then 0 else DigitsValue(s[..|s| - 1]) * 10 + DigitValue(s[|s| - 1])
  }

  /** Decimal rendering of a natural number without leading zeros (Python's str(n)). */
  function NatToString(n: nat): (r: string)
    ensures |r| >= 1 && AllDigits(r) && DigitsValue(r) == n
    ensures |r| > 1 ==> r[0] != '0'
    decreases n
  {
    if n < 10 then [DigitChar(n)]
    else
      var front := NatToString(n / 10);
      var r := front + [DigitChar(n % 10)];
      assert r[..|r| - 1] == front;
      r
  }

  /** Length of the longest prefix of s made of digits. */
  function DigitRun(s: string): (k: nat)
    ensures k <= |s| && AllDigits(s[..k])
    ensures k < |s| ==> !IsDigit(s[k])
    decreases |s|
  {
    if s != [] && IsDigit(s[0]) then
      var k := 1 + DigitRun(s[1..]);
      assert s[..k] == [s[0]] + s[1..][..k - 1];
      k
    else 0
  }

  /** A digit string followed by a non-digit (or nothing) is exactly the leading digit run. */
  lemma DigitRunOf(ds: string, rest: string)
    requires AllDigits(ds)
    requires rest == [] || !IsDigit(rest[0])
    ensures DigitRun(ds + rest) == |ds|
    ensures (ds + rest)[..|ds|] == ds && (ds + rest)[|ds|..] == rest
  {
    if ds != [] {
      assert (ds + rest)[1..] == ds[1..] + rest;
      DigitRunOf(ds[1..], rest);
    }
  }

  /** ASCII lower-casing, the case folding used for case-insensitive matching. */
  function Lower(c: char): char {
    if 'A' <= c <= 'Z' then (c as int + 32) as char else c
  }

  /** pat occurs in s at index i, ignoring ASCII case. */
  predicate MatchesAt(s: string, i: nat, pat: string) {
    i + |pat| <= |s| && forall j :: 0 <= j < |pat| ==> Lower(s[i + j]) == Lower(pat[j])
  }

  /** Case-insensitive substring search from index `from` onwards. */
  function ContainsFrom(s: string, pat: string, from: nat): (b: bool)
    ensures b <==> exists i :: from <= i && MatchesAt(s, i, pat)
    decreases |s| - from
  {
    if from + |pat| > |s| then
      assert forall i :: from <= i ==> !MatchesAt(s, i, pat);
      false
    else if MatchesAt(s, from, pat) then true
    else
      var b := ContainsFrom(s, pat, from + 1);
      assert forall i :: from <= i && MatchesAt(s, i, pat) ==> i == from || from + 1 <= i;
      b
  }

  /** `re.search(pat, s, re.I)` for a pattern that is a plain word or phrase. */
  function ContainsIgnoringCase(s: string, pat: string): (b: bool)
    ensures b <==> exists i :: MatchesAt(s, i, pat)
  {
    ContainsFrom(s, pat, 0)
  }
}
