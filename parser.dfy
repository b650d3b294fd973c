/**
 * How `_poll` (disk.py:358-389) reads the combined output of the two
 * `sg_requests` runs: a progress marker, a percentage, an error word.
 *
 * Each regular expression is written out as a function that says whether,
 * and with what value, it matches at one index, plus the leftmost search of
 * `re.search`. None of the patterns needs backtracking into a digit run:
 * shortening a run of digits (or of white space) leaves a digit (or a space)
 * where the pattern next needs `.`, `%`, `/` or a white-space character.
 */
module ProgressParser {
  import opened Wrappers
  import opened Text

  const PROGRESS_INDICATION: string := "progress indication"
  const FORMAT_IN_PROGRESS: string := "format in progress"

  /** `re.search(r"progress indication|format in progress", output, re.I)` (disk.py:360). */
  predicate HasProgressMarker(output: string) {
    ContainsIgnoringCase(output, PROGRESS_INDICATION) || ContainsIgnoringCase(output, FORMAT_IN_PROGRESS)
  }

  /** `re.search(r"error|fail", output, re.I)` (disk.py:380). */
  predicate HasErrorWord(output: string) {
    ContainsIgnoringCase(output, "error") || ContainsIgnoringCase(output, "fail")
  }

  /** First index at or after j that does not hold a digit. */
  function DigitsEnd(s: string, j: nat): (k: nat)
    requires j <= |s|
    ensures j <= k <= |s|
    decreases |s| - j
  {
    if j < |s| && IsDigit(s[j]) then DigitsEnd(s, j + 1) else j
  }

  /** First index at or after j that does not hold white space. */
  function SpacesEnd(s: string, j: nat): (k: nat)
    requires j <= |s|
    ensures j <= k <= |s|
    decreases |s| - j
  {
    if j < |s| && IsSpace(s[j]) then SpacesEnd(s, j + 1) else j
  }

  /** DigitsEnd stops at the first non-digit: s[j..DigitsEnd(s, j)] is the digit run at j. */
  lemma {:induction false} DigitsEndRun(s: string, j: nat)
    requires j <= |s|
    ensures AllDigits(s[j..DigitsEnd(s, j)])
    ensures DigitsEnd(s, j) < |s| ==> !IsDigit(s[DigitsEnd(s, j)])
    decreases |s| - j
  {
    if j < |s| && IsDigit(s[j]) {
      DigitsEndRun(s, j + 1);
      assert s[j..DigitsEnd(s, j)] == [s[j]] + s[j + 1..DigitsEnd(s, j)];
    }
  }

  /** A digit run followed by a non-digit (or the end) is exactly what DigitsEnd finds. */
  lemma {:induction false} DigitsEndOf(s: string, j: nat, k: nat)
    requires j <= k <= |s|
    requires forall x :: j <= x < k ==> IsDigit(s[x])
    requires k == |s| || !IsDigit(s[k])
    ensures DigitsEnd(s, j) == k
    decreases k - j
  {
    if j < k {
      DigitsEndOf(s, j + 1, k);
    }
  }

  function Pow10(n: nat): (r: nat)
    ensures r >= 1
  {
    if n == 0 then 1 else 10 * Pow10(n - 1)
  }

  /** A string of n digits denotes less than 10^n. */
  lemma {:induction false} DigitsBelowPow10(ds: string)
    requires AllDigits(ds)
    ensures DigitsValue(ds) < Pow10(|ds|)
    decreases |ds|
  {
    if ds != [] {
      var front := ds[..|ds| - 1];
      assert AllDigits(front);
      DigitsBelowPow10(front);
    }
  }

  /** The number a digit run spells, s[p..e]. */
  function RunValue(s: string, p: nat): (v: nat)
    requires p <= |s|
  {
    DigitsEndRun(s, p);
    DigitsValue(s[p..DigitsEnd(s, p)])
  }

  /** The number "<whole>.<frac>" whose fraction has `places` digits. */
  function DecimalValue(whole: nat, frac: nat, places: nat): real {
    whole as real + frac as real / Pow10(places) as real
  }

  /** A / B * 100, the percentage a ratio stands for. */
  function RatioValue(a: nat, b: nat): real
    requires b > 0
  {
    a as real / b as real * 100.0
  }

  /** `\s*%` at index j. */
  predicate PercentAfter(s: string, j: nat)
    requires j <= |s|
  {
    var t := SpacesEnd(s, j);
    t < |s| && s[t] == '%'
  }

  /** `(\d+(?:\.\d+)?)\s*%` matched at index p, and `float` of the captured number. */
  function LiteralAt(s: string, p: nat): Option<real>
    requires p <= |s|
  {
    var e := DigitsEnd(s, p);
    if e == p then None
    else
      if e + 1 < |s| && s[e] == '.' && DigitsEnd(s, e + 1) > e + 1
         && PercentAfter(s, DigitsEnd(s, e + 1)) then
        var f := DigitsEnd(s, e + 1);
        Some(DecimalValue(RunValue(s, p), RunValue(s, e + 1), f - (e + 1)))
      else if PercentAfter(s, e) then Some(RunValue(s, p) as real)
      else None
  }

  /** `\b` before index p, where s[p] is a word character. */
  predicate BoundaryBefore(s: string, p: nat)
    requires p <= |s|
  {
    p == 0 || !IsWordChar(s[p - 1])
  }

  /** `\b` at index j, where s[j - 1] is a word character. */
  predicate BoundaryAt(s: string, j: nat)
    requires j <= |s|
  {
    j == |s| || !IsWordChar(s[j])
  }

  /** `(65535|65536)\b` at index j. */
  function DenominatorAt(s: string, j: nat): Option<nat>
    requires j <= |s|
  {
    if j + 5 <= |s| && s[j..j + 4] == "6553" && BoundaryAt(s, j + 5) then
      if s[j + 4] == '5' then Some(65535)
      else if s[j + 4] == '6' then Some(65536)
      else None
    else None
  }

  // `\b(\d{1,5})\s*/\s*(65535|65536)\b` matched at index p, and A / B * 100.
  function RatioAt(s: string, p: nat): Option<real>
    requires p <= |s|
  {
    var e := DigitsEnd(s, p);
    if e == p || e - p > 5 || !BoundaryBefore(s, p) then None
    else
      var slash := SpacesEnd(s, e);
      if slash < |s| && s[slash] == '/' then
        match DenominatorAt(s, SpacesEnd(s, slash + 1))
        case Some(b) => Some(RatioValue(RunValue(s, p), b))
        case None => None
      else None
  }

  /** The two percentage patterns of `_poll`. */
  datatype Pattern = Literal | Ratio

  function MatchAt(pat: Pattern, s: string, p: nat): Option<real>
    requires p <= |s|
  {
    match pat
    case Literal => LiteralAt(s, p)
    case Ratio => RatioAt(s, p)
  }

  /** `re.search`: the leftmost index at or after `from` where the pattern matches. */
  function Search(pat: Pattern, s: string, from: nat): (r: Option<nat>)
    requires from <= |s|
    ensures r.Some? ==> from <= r.value <= |s| && MatchAt(pat, s, r.value).Some?
    ensures r.Some? ==> forall q :: from <= q < r.value ==> MatchAt(pat, s, q).None?
    ensures r.None? ==> forall q :: from <= q <= |s| ==> MatchAt(pat, s, q).None?
    decreases |s| - from
  {
    if MatchAt(pat, s, from).Some? then Some(from)
    else if from == |s| then None
    else Search(pat, s, from + 1)
  }

  /** The value of the leftmost match of the pattern, if any. */
  function FirstValue(pat: Pattern, s: string): Option<real> {
    match Search(pat, s, 0)
    case None => None
    case Some(p) => MatchAt(pat, s, p)
  }

  /** The percentage `_poll` takes from the output: a literal percentage first, else a ratio. */
  function ExtractPct(output: string): Option<real> {
    var lit := FirstValue(Literal, output);
    if lit.Some? then lit else FirstValue(Ratio, output)
  }

  /** What one round of output says, in the order `_poll` tests it. */
  datatype Signal = InProgress(pct: Option<real>) | Errored | Silent

  function Classify(output: string): Signal {
    if HasProgressMarker(output) then InProgress(ExtractPct(output))
    else if HasErrorWord(output) then Errored
    else Silent
  }

  /** A literal percentage ends in a '%' sign. */
  lemma LiteralNeedsPercent(s: string, p: nat)
    requires p <= |s|
    requires LiteralAt(s, p).Some?
    ensures '%' in s[p..]
  {
    var e := DigitsEnd(s, p);
    var t := if e + 1 < |s| && s[e] == '.' && DigitsEnd(s, e + 1) > e + 1
                && PercentAfter(s, DigitsEnd(s, e + 1))
             then SpacesEnd(s, DigitsEnd(s, e + 1)) else SpacesEnd(s, e);
    assert s[p..][t - p] == s[t] == '%';
  }

  /** Output without a '%' sign can give a percentage only through the ratio form. */
  lemma NoPercentMeansRatio(output: string)
    requires '%' !in output
    ensures FirstValue(Literal, output).None?
    ensures ExtractPct(output) == FirstValue(Ratio, output)
  {
    match Search(Literal, output, 0)
    case None =>
    case Some(p) =>
      LiteralNeedsPercent(output, p);
      assert false;
  }

  /** A literal's value lies between its whole part and the next integer. */
  lemma LiteralBounds(s: string, p: nat)
    requires p <= |s|
    requires LiteralAt(s, p).Some?
    ensures RunValue(s, p) as real <= LiteralAt(s, p).value < RunValue(s, p) as real + 1.0
  {
    var e := DigitsEnd(s, p);
    if e + 1 < |s| && s[e] == '.' && DigitsEnd(s, e + 1) > e + 1 {
      var f := DigitsEnd(s, e + 1);
      DigitsEndRun(s, e + 1);
      DigitsBelowPow10(s[e + 1..f]);
      FractionBelowOne(RunValue(s, e + 1), Pow10(f - (e + 1)));
    }
  }

  lemma FractionBelowOne(a: nat, b: nat)
    requires a < b
    ensures 0.0 <= a as real / b as real < 1.0
  {
    assert a as real < b as real;
  }

  /** A ratio lies in [0, 99999 * 100 / 65535]: it can exceed 100, so `_poll` clamps it. */
  lemma RatioBounds(s: string, p: nat)
    requires p <= |s|
    requires RatioAt(s, p).Some?
    ensures 0.0 <= RatioAt(s, p).value <= 99999.0 * 100.0 / 65535.0
  {
    var e := DigitsEnd(s, p);
    DigitsEndRun(s, p);
    DigitsBelowPow10(s[p..e]);
    assert Pow10(e - p) <= Pow10(5) by { Pow10Monotone(e - p, 5); }
    var a := RunValue(s, p) as real;
    assert a <= 99999.0;
  }

  lemma {:induction false} Pow10Monotone(m: nat, n: nat)
    requires m <= n
    ensures Pow10(m) <= Pow10(n)
    decreases n
  {
    if m < n {
      Pow10Monotone(m, n - 1);
    }
  }

  /** Every percentage found is non-negative. */
  lemma ExtractPctNonNegative(output: string)
    ensures ExtractPct(output).Some? ==> ExtractPct(output).value >= 0.0
  {
    match Search(Literal, output, 0)
    case Some(p) => LiteralBounds(output, p);
    case None =>
      match Search(Ratio, output, 0)
      case Some(p) => RatioBounds(output, p);
      case None =>
  }

  /** What the leftmost search finds, given the first index that matches. */
  lemma SearchFinds(pat: Pattern, s: string, from: nat, p: nat)
    requires from <= p <= |s|
    requires forall q :: from <= q < p ==> MatchAt(pat, s, q).None?
    requires MatchAt(pat, s, p).Some?
    ensures Search(pat, s, from) == Some(p)
  {
    var r := Search(pat, s, from);
    assert r.Some? && r.value <= p;
  }

  /** Before the first digit of the output, neither pattern can match. */
  lemma NoMatchBeforeDigits(s: string, n: nat)
    requires n <= |s|
    requires forall x :: 0 <= x < n ==> !IsDigit(s[x])
    ensures forall q :: 0 <= q < n ==> MatchAt(Literal, s, q).None? && MatchAt(Ratio, s, q).None?
  {
  }

  /** DigitsEnd(s, j) - j digits follow j. */
  lemma {:induction false} DigitsEndSpan(s: string, j: nat)
    requires j <= |s|
    ensures forall x :: j <= x < DigitsEnd(s, j) ==> IsDigit(s[x])
    decreases |s| - j
  {
    if j < |s| && IsDigit(s[j]) {
      DigitsEndSpan(s, j + 1);
    }
  }

  /** SpacesEnd stops at the first character that is not white space. */
  lemma {:induction false} SpacesEndSpan(s: string, j: nat)
    requires j <= |s|
    ensures forall x :: j <= x < SpacesEnd(s, j) ==> IsSpace(s[x])
    ensures SpacesEnd(s, j) < |s| ==> !IsSpace(s[SpacesEnd(s, j)])
    decreases |s| - j
  {
    if j < |s| && IsSpace(s[j]) {
      SpacesEndSpan(s, j + 1);
    }
  }

  /** A run of white space followed by anything else (or the end) is what SpacesEnd finds. */
  lemma {:induction false} SpacesEndOf(s: string, j: nat, k: nat)
    requires j <= k <= |s|
    requires forall x :: j <= x < k ==> IsSpace(s[x])
    requires k == |s| || !IsSpace(s[k])
    ensures SpacesEnd(s, j) == k
    decreases k - j
  {
    if j < k {
      SpacesEndOf(s, j + 1, k);
    }
  }

  /** The natural number the digits s[i..j] spell. */
  function SliceValue(s: string, i: nat, j: nat): nat
    requires i <= j <= |s|
    requires forall x :: i <= x < j ==> IsDigit(s[x])
  {
    assert forall k :: 0 <= k < j - i ==> s[i..j][k] == s[i + k];
    DigitsValue(s[i..j])
  }

  /**
   * The `float` of the number `\d+(?:\.\d+)?` captures when its whole part
   * is s[p..e] and its fraction s[e + 1..f]; f == e means no fraction.
   */
  function NumberValue(s: string, p: nat, e: nat, f: nat): real
    requires p <= e <= f <= |s|
    requires forall x :: p <= x < e ==> IsDigit(s[x])
    requires f > e ==> forall x :: e + 1 <= x < f ==> IsDigit(s[x])
  {
    if f == e then SliceValue(s, p, e) as real
    else DecimalValue(SliceValue(s, p, e), SliceValue(s, e + 1, f), f - (e + 1))
  }

  /**
   * `(\d+(?:\.\d+)?)\s*%` spelled out at p: the whole part s[p..e], an
   * optional fraction "." + s[e + 1..f] (f == e when there is none), white
   * space s[f..t] and the '%' sign at t.
   */
  predicate LiteralShape(s: string, p: nat, e: nat, f: nat, t: nat) {
    && p < e <= f <= t < |s|
    && (forall x :: p <= x < e ==> IsDigit(s[x]))
    && (f == e || (s[e] == '.' && e + 1 < f && forall x :: e + 1 <= x < f ==> IsDigit(s[x])))
    && (forall x :: f <= x < t ==> IsSpace(s[x]))
    && s[t] == '%'
  }

  /** A literal percentage spelled out at p is what LiteralAt finds there, with its value. */
  lemma LiteralHere(s: string, p: nat, e: nat, f: nat, t: nat)
    requires LiteralShape(s, p, e, f, t)
    ensures LiteralAt(s, p) == Some(NumberValue(s, p, e, f))
  {
    SpacesEndOf(s, f, t);
    assert !IsDigit(s[f]);
    DigitsEndOf(s, p, e);
    assert RunValue(s, p) == SliceValue(s, p, e);
    if f > e {
      DigitsEndOf(s, e + 1, f);
      assert RunValue(s, e + 1) == SliceValue(s, e + 1, f);
    }
  }

  /** Whatever LiteralAt finds at p is a literal percentage spelled out there, with that value. */
  lemma LiteralMatch(s: string, p: nat)
    requires p <= |s|
    requires LiteralAt(s, p).Some?
    ensures exists e, f, t :: LiteralShape(s, p, e, f, t) && LiteralAt(s, p).value == NumberValue(s, p, e, f)
  {
    var e := DigitsEnd(s, p);
    DigitsEndSpan(s, p);
    assert RunValue(s, p) == SliceValue(s, p, e);
    if e + 1 < |s| && s[e] == '.' && DigitsEnd(s, e + 1) > e + 1 && PercentAfter(s, DigitsEnd(s, e + 1)) {
      var f := DigitsEnd(s, e + 1);
      DigitsEndSpan(s, e + 1);
      SpacesEndSpan(s, f);
      assert RunValue(s, e + 1) == SliceValue(s, e + 1, f);
      assert LiteralAt(s, p).value == NumberValue(s, p, e, f);
      assert LiteralShape(s, p, e, f, SpacesEnd(s, f));
    } else {
      SpacesEndSpan(s, e);
      assert LiteralAt(s, p).value == NumberValue(s, p, e, e);
      assert LiteralShape(s, p, e, e, SpacesEnd(s, e));
    }
  }

  /** LiteralAt finds v at p exactly when a literal percentage of value v is spelled out there. */
  lemma LiteralAtMeaning(s: string, p: nat, v: real)
    requires p <= |s|
    ensures LiteralAt(s, p) == Some(v) <==>
            exists e, f, t :: LiteralShape(s, p, e, f, t) && v == NumberValue(s, p, e, f)
  {
    if LiteralAt(s, p) == Some(v) {
      LiteralMatch(s, p);
    }
    if exists e, f, t :: LiteralShape(s, p, e, f, t) && v == NumberValue(s, p, e, f) {
      var e, f, t :| LiteralShape(s, p, e, f, t) && v == NumberValue(s, p, e, f);
      LiteralHere(s, p, e, f, t);
    }
  }

  /** The text of a denominator the ratio pattern accepts. */
  function DenominatorText(b: nat): string {
    if b == 65535 then "65535" else "65536"
  }

  // `\b(\d{1,5})\s*/\s*(65535|65536)\b` spelled out at p: a word boundary,
  // one to five digits s[p..e], white space s[e..q], '/' at q, white space
  // s[q + 1..d], the denominator b written at s[d..d + 5] and a word
  // boundary after it.
  predicate RatioShape(s: string, p: nat, e: nat, q: nat, d: nat, b: nat) {
    && p < e <= p + 5 && e <= q && q + 1 <= d && d + 5 <= |s|
    && BoundaryBefore(s, p)
    && (forall x :: p <= x < e ==> IsDigit(s[x]))
    && (forall x :: e <= x < q ==> IsSpace(s[x]))
    && s[q] == '/'
    && (forall x :: q + 1 <= x < d ==> IsSpace(s[x]))
    && (b == 65535 || b == 65536)
    && s[d..d + 5] == DenominatorText(b)
    && BoundaryAt(s, d + 5)
  }

  /** A ratio spelled out at p is what RatioAt finds there, with value A / B * 100. */
  lemma RatioHere(s: string, p: nat, e: nat, q: nat, d: nat, b: nat)
    requires RatioShape(s, p, e, q, d, b)
    ensures RatioAt(s, p) == Some(RatioValue(SliceValue(s, p, e), b))
  {
    assert !IsDigit(s[e]);
    DigitsEndOf(s, p, e);
    SpacesEndOf(s, e, q);
    assert s[d] == s[d..d + 5][0] == '6';
    SpacesEndOf(s, q + 1, d);
    assert s[d..d + 4] == s[d..d + 5][..4];
    assert s[d + 4] == s[d..d + 5][4];
    assert DenominatorAt(s, d) == Some(b);
    assert RunValue(s, p) == SliceValue(s, p, e);
  }

  /** Whatever RatioAt finds at p is a ratio spelled out there, with that value. */
  lemma RatioMatch(s: string, p: nat)
    requires p <= |s|
    requires RatioAt(s, p).Some?
    ensures exists e, q, d, b ::
              RatioShape(s, p, e, q, d, b) && RatioAt(s, p).value == RatioValue(SliceValue(s, p, e), b)
  {
    var e := DigitsEnd(s, p);
    DigitsEndSpan(s, p);
    var q := SpacesEnd(s, e);
    SpacesEndSpan(s, e);
    var d := SpacesEnd(s, q + 1);
    SpacesEndSpan(s, q + 1);
    var b := DenominatorAt(s, d).value;
    assert s[d..d + 5] == s[d..d + 4] + [s[d + 4]];
    assert RunValue(s, p) == SliceValue(s, p, e);
    assert RatioAt(s, p).value == RatioValue(SliceValue(s, p, e), b);
    assert RatioShape(s, p, e, q, d, b);
  }

  /** RatioAt finds v at p exactly when a ratio of value v is spelled out there. */
  lemma RatioAtMeaning(s: string, p: nat, v: real)
    requires p <= |s|
    ensures RatioAt(s, p) == Some(v) <==>
            exists e, q, d, b :: RatioShape(s, p, e, q, d, b) && v == RatioValue(SliceValue(s, p, e), b)
  {
    if RatioAt(s, p) == Some(v) {
      RatioMatch(s, p);
    }
    if exists e, q, d, b :: RatioShape(s, p, e, q, d, b) && v == RatioValue(SliceValue(s, p, e), b) {
      var e, q, d, b :| RatioShape(s, p, e, q, d, b) && v == RatioValue(SliceValue(s, p, e), b);
      RatioHere(s, p, e, q, d, b);
    }
  }

  /**
   * When p is the first index where a literal percentage is spelled out, the
   * output yields that number, whatever follows.
   */
  lemma LiteralFound(s: string, p: nat, e: nat, f: nat, t: nat)
    requires LiteralShape(s, p, e, f, t)
    requires forall x :: 0 <= x < p ==> LiteralAt(s, x).None?
    ensures ExtractPct(s) == Some(NumberValue(s, p, e, f))
  {
    LiteralHere(s, p, e, f, t);
    SearchFinds(Literal, s, 0, p);
  }

  /**
   * When no literal percentage is spelled out anywhere and p is the first
   * index where a ratio is, the output yields A / B * 100, whatever follows.
   */
  lemma RatioFound(s: string, p: nat, e: nat, q: nat, d: nat, b: nat)
    requires RatioShape(s, p, e, q, d, b)
    requires forall x :: 0 <= x <= |s| ==> LiteralAt(s, x).None?
    requires forall x :: 0 <= x < p ==> RatioAt(s, x).None?
    ensures ExtractPct(s) == Some(RatioValue(SliceValue(s, p, e), b))
  {
    RatioHere(s, p, e, q, d, b);
    SearchFinds(Ratio, s, 0, p);
    assert Search(Literal, s, 0).None?;
  }
}
