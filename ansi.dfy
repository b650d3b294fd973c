/**
 * `_ANSI_ESC` and `_vis_trunc` (disk.py:300-319): cutting a dashboard line to
 * a number of visible columns while copying colour control sequences whole.
 *
 * The reference definition splits a string into tokens, each either a whole
 * control sequence `ESC [ [0-9;]* [A-Za-z]` or one visible character, and
 * keeps the tokens up to the first visible character beyond the width.
 */
module Ansi {
  import opened Text

  /** The reset sequence appended after output that holds control sequences. */
  const RESET: string := [ESC, '[', '0', 'm']

  predicate IsParam(c: char) { IsDigit(c) || c == ';' }

  /** e is one whole control sequence `ESC [ [0-9;]* [A-Za-z]`. */
  predicate IsEscape(e: string) {
    && |e| >= 3 && e[0] == ESC && e[1] == '[' && IsLetter(e[|e| - 1])
    && forall i :: 2 <= i < |e| - 1 ==> IsParam(e[i])
  }

  /** First index at or after j that does not hold a parameter character. */
  function ParamEnd(s: string, j: nat): (k: nat)
    requires j <= |s|
    ensures j <= k <= |s|
    decreases |s| - j
  {
    if j < |s| && IsParam(s[j]) then ParamEnd(s, j + 1) else j
  }

  /** ParamEnd stops at the first non-parameter character. */
  lemma {:induction false} ParamEndRun(s: string, j: nat)
    requires j <= |s|
    ensures forall x :: j <= x < ParamEnd(s, j) ==> IsParam(s[x])
    ensures ParamEnd(s, j) < |s| ==> !IsParam(s[ParamEnd(s, j)])
    decreases |s| - j
  {
    if j < |s| && IsParam(s[j]) {
      ParamEndRun(s, j + 1);
    }
  }

  /** Length of `_ANSI_ESC.match(s, i)`, or 0 when the pattern does not match at i. */
  function EscapeAt(s: string, i: nat): (n: nat)
    requires i <= |s|
    ensures i + n <= |s|
  {
    if i + 2 <= |s| && s[i] == ESC && s[i + 1] == '[' then
      var k := ParamEnd(s, i + 2);
      if k < |s| && IsLetter(s[k]) then k + 1 - i else 0
    else 0
  }

  /** What EscapeAt finds is one whole control sequence. */
  lemma EscapeAtSound(s: string, i: nat)
    requires i <= |s|
    ensures EscapeAt(s, i) == 0 || IsEscape(s[i..i + EscapeAt(s, i)])
  {
    if i + 2 <= |s| {
      ParamEndRun(s, i + 2);
    }
  }

  /** Where the pattern matches, EscapeAt finds exactly that match: the match is unique. */
  lemma EscapeAtComplete(s: string, i: nat, n: nat)
    requires i + n <= |s| && IsEscape(s[i..i + n])
    ensures EscapeAt(s, i) == n
  {
    var e := s[i..i + n];
    assert forall x :: i + 2 <= x < i + n - 1 ==> IsParam(s[x]) by {
      forall x | i + 2 <= x < i + n - 1 ensures IsParam(s[x]) { assert s[x] == e[x - i]; }
    }
    assert s[i + n - 1] == e[n - 1];
    assert s[i] == e[0] && s[i + 1] == e[1];
    var k := ParamEnd(s, i + 2);
    ParamEndRun(s, i + 2);
    assert k == i + n - 1;
  }

  datatype Token = Control(text: string) | Glyph(c: char) {
    /** The characters of the original string this token stands for. */
    function Chars(): string {
      match this
      case Control(t) => t
      case Glyph(c) => [c]
    }
  }

  /** Where the walk goes from index i: past a control sequence, or past one visible character. */
  function NextIndex(s: string, i: nat): (j: nat)
    requires i < |s|
    ensures i < j <= |s|
  {
    var n := EscapeAt(s, i);
    if n > 0 then i + n else i + 1
  }

  /** The token at index i: the control sequence matched there, else the one character. */
  function Head(s: string, i: nat): Token
    requires i < |s|
  {
    var n := EscapeAt(s, i);
    if n > 0 then Control(s[i..i + n]) else Glyph(s[i])
  }

  /** Tokens of s[i..], trying a control sequence at every position first. */
  function Tokenize(s: string, i: nat): seq<Token>
    requires i <= |s|
    decreases |s| - i
  {
    if i == |s| then [] else [Head(s, i)] + Tokenize(s, NextIndex(s, i))
  }

  function Flatten(ts: seq<Token>): string {
    if ts == [] then [] else ts[0].Chars() + Flatten(ts[1..])
  }

  /** The visible characters of a token sequence, in order. */
  function Glyphs(ts: seq<Token>): string {
    if ts == [] then []
    else (if ts[0].Glyph? then [ts[0].c] else []) + Glyphs(ts[1..])
  }

  predicate WellFormed(ts: seq<Token>) {
    forall k :: 0 <= k < |ts| && ts[k].Control? ==> IsEscape(ts[k].text)
  }

  /** Keeps every token up to, not including, the first glyph past `width` glyphs. */
  function KeepVisible(ts: seq<Token>, width: int): seq<Token> {
    if ts == [] then []
    else if ts[0].Control? then [ts[0]] + KeepVisible(ts[1..], width)
    else if width <= 0 then []
    else [ts[0]] + KeepVisible(ts[1..], width - 1)
  }

  /** The part of s that is copied: whole tokens of s, within the width. */
  function Kept(s: string, width: int): string {
    Flatten(KeepVisible(Tokenize(s, 0), width))
  }

  /** What `_vis_trunc(s, width)` returns. */
  function Truncate(s: string, width: int): string {
    var kept := Kept(s, width);
    if ESC in kept then kept + RESET else kept
  }

  /** The width left after the token at i. */
  function NextWidth(s: string, i: nat, width: int): int
    requires i < |s|
  {
    if EscapeAt(s, i) > 0 then width else width - 1
  }

  /** The walk moves on from i when a control sequence starts there or width is left. */
  predicate Advances(s: string, i: nat, width: int)
    requires i <= |s|
  {
    i < |s| && (EscapeAt(s, i) > 0 || width > 0)
  }

  /**
   * Where the walk of `_vis_trunc` that starts at index i with `width` visible
   * characters still allowed stops: past the end of s, or at the first visible
   * character for which no width is left.
   */
  function StopIndex(s: string, i: nat, width: int): (j: nat)
    requires i <= |s|
    ensures i <= j <= |s|
    decreases |s| - i
  {
    if Advances(s, i, width) then StopIndex(s, NextIndex(s, i), NextWidth(s, i, width)) else i
  }

  /** The token at i stands for s[i..NextIndex(s, i)]; a control token is one whole sequence. */
  lemma HeadChars(s: string, i: nat)
    requires i < |s|
    ensures Head(s, i).Chars() == s[i..NextIndex(s, i)]
    ensures Head(s, i).Control? <==> EscapeAt(s, i) > 0
    ensures Head(s, i).Control? ==> IsEscape(Head(s, i).text)
  {
    EscapeAtSound(s, i);
    if EscapeAt(s, i) == 0 {
      assert s[i..i + 1] == [s[i]];
    }
  }

  lemma FlattenCons(t: Token, ts: seq<Token>)
    ensures Flatten([t] + ts) == t.Chars() + Flatten(ts)
  {
    assert ([t] + ts)[0] == t && ([t] + ts)[1..] == ts;
  }

  lemma WellFormedCons(t: Token, ts: seq<Token>)
    requires t.Control? ==> IsEscape(t.text)
    requires WellFormed(ts)
    ensures WellFormed([t] + ts)
  {
    forall k | 0 <= k < |[t] + ts| && ([t] + ts)[k].Control?
      ensures IsEscape(([t] + ts)[k].text)
    {
      if k > 0 { assert ([t] + ts)[k] == ts[k - 1]; }
    }
  }

  lemma SliceJoin(s: string, i: nat, j: nat, k: nat)
    requires i <= j <= k <= |s|
    ensures s[i..j] + s[j..k] == s[i..k]
  {
  }

  lemma SuffixJoin(s: string, i: nat, j: nat)
    requires i <= j <= |s|
    ensures s[i..j] + s[j..] == s[i..]
  {
  }

  /** The tokens of s[i..] spell s[i..] back. */
  lemma {:induction false} TokenizeFlattens(s: string, i: nat)
    requires i <= |s|
    ensures Flatten(Tokenize(s, i)) == s[i..]
    decreases |s| - i
  {
    if i < |s| {
      var j := NextIndex(s, i);
      TokenizeFlattens(s, j);
      FlattenCons(Head(s, i), Tokenize(s, j));
      HeadChars(s, i);
      SuffixJoin(s, i, j);
    } else {
      assert Tokenize(s, i) == [];
    }
  }

  /** Each control token of s[i..] is one whole control sequence. */
  lemma {:induction false} TokenizeWellFormed(s: string, i: nat)
    requires i <= |s|
    ensures WellFormed(Tokenize(s, i))
    decreases |s| - i
  {
    if i < |s| {
      var j := NextIndex(s, i);
      TokenizeWellFormed(s, j);
      HeadChars(s, i);
      WellFormedCons(Head(s, i), Tokenize(s, j));
    }
  }

  /** Tokenizing loses nothing: the tokens of s spell s. */
  lemma TokenizeSound(s: string)
    ensures Flatten(Tokenize(s, 0)) == s
    ensures WellFormed(Tokenize(s, 0))
  {
    TokenizeFlattens(s, 0);
    TokenizeWellFormed(s, 0);
    assert s[0..] == s;
  }

  /** KeepVisible keeps the token at i when the walk moves on from i, and nothing from where it stops. */
  lemma KeepHead(s: string, i: nat, width: int)
    requires i < |s|
    ensures Advances(s, i, width) ==>
      KeepVisible(Tokenize(s, i), width) == [Head(s, i)] + KeepVisible(Tokenize(s, NextIndex(s, i)), NextWidth(s, i, width))
    ensures !Advances(s, i, width) ==> KeepVisible(Tokenize(s, i), width) == []
  {
    var ts := Tokenize(s, i);
    assert ts[0] == Head(s, i) && ts[1..] == Tokenize(s, NextIndex(s, i));
    HeadChars(s, i);
  }

  predicate SpellsSlice(s: string, i: nat, width: int)
    requires i <= |s|
  {
    Flatten(KeepVisible(Tokenize(s, i), width)) == s[i..StopIndex(s, i, width)]
  }

  lemma AdvanceSlice(s: string, i: nat, width: int)
    requires i <= |s| && Advances(s, i, width)
    requires SpellsSlice(s, NextIndex(s, i), NextWidth(s, i, width))
    ensures SpellsSlice(s, i, width)
  {
    var j, w := NextIndex(s, i), NextWidth(s, i, width);
    KeepHead(s, i, width);
    FlattenCons(Head(s, i), KeepVisible(Tokenize(s, j), w));
    HeadChars(s, i);
    SliceJoin(s, i, j, StopIndex(s, j, w));
  }

  lemma HaltSlice(s: string, i: nat, width: int)
    requires i <= |s| && !Advances(s, i, width)
    ensures SpellsSlice(s, i, width)
  {
    if i < |s| {
      KeepHead(s, i, width);
    } else {
      assert Tokenize(s, i) == [];
    }
  }

  /** The kept tokens of s[i..] spell exactly s[i..StopIndex(s, i, width)]. */
  lemma {:induction false} KeptSlice(s: string, i: nat, width: int)
    requires i <= |s|
    ensures SpellsSlice(s, i, width)
    decreases |s| - i
  {
    if Advances(s, i, width) {
      KeptSlice(s, NextIndex(s, i), NextWidth(s, i, width));
      AdvanceSlice(s, i, width);
    } else {
      HaltSlice(s, i, width);
    }
  }

  function Min(a: int, b: int): int { if a <= b then a else b }
  function Max(a: int, b: int): int { if a >= b then a else b }

  lemma GlyphsCons(t: Token, ts: seq<Token>)
    ensures Glyphs([t] + ts) == (if t.Glyph? then [t.c] else []) + Glyphs(ts)
  {
    assert ([t] + ts)[0] == t && ([t] + ts)[1..] == ts;
  }

  predicate IsPrefix(k: seq<Token>, ts: seq<Token>) {
    |k| <= |ts| && ts[..|k|] == k
  }

  lemma PrefixCons(t: Token, k: seq<Token>, ts: seq<Token>)
    requires IsPrefix(k, ts)
    ensures IsPrefix([t] + k, [t] + ts)
  {
    assert ([t] + ts)[..|[t] + k|] == [t] + ts[..|k|];
  }

  /** KeepVisible keeps a prefix of the tokens. */
  lemma {:induction false} KeepVisiblePrefix(ts: seq<Token>, width: int)
    ensures IsPrefix(KeepVisible(ts, width), ts)
  {
    if ts != [] {
      var rest := ts[1..];
      assert ts == [ts[0]] + rest;
      if ts[0].Control? {
        KeepVisiblePrefix(rest, width);
        PrefixCons(ts[0], KeepVisible(rest, width), rest);
      } else if width > 0 {
        KeepVisiblePrefix(rest, width - 1);
        PrefixCons(ts[0], KeepVisible(rest, width - 1), rest);
      }
    }
  }

  /** The kept glyphs are the first `width` glyphs (all of them when fewer). */
  lemma {:induction false} KeepVisibleGlyphs(ts: seq<Token>, width: int)
    ensures Glyphs(KeepVisible(ts, width)) == Glyphs(ts)[..Min(Max(width, 0), |Glyphs(ts)|)]
  {
    if ts != [] {
      var rest := ts[1..];
      assert ts == [ts[0]] + rest;
      GlyphsCons(ts[0], rest);
      if ts[0].Control? {
        KeepVisibleGlyphs(rest, width);
        GlyphsCons(ts[0], KeepVisible(rest, width));
      } else if width > 0 {
        KeepVisibleGlyphs(rest, width - 1);
        GlyphsCons(ts[0], KeepVisible(rest, width - 1));
        var g := Glyphs(rest);
        assert ([ts[0].c] + g)[..Min(width, 1 + |g|)] == [ts[0].c] + g[..Min(width - 1, |g|)];
      }
    }
  }

  /** When every glyph fits, nothing is dropped. */
  lemma {:induction false} KeepVisibleAll(ts: seq<Token>, width: int)
    requires |Glyphs(ts)| <= width
    ensures KeepVisible(ts, width) == ts
  {
    if ts != [] {
      var rest := ts[1..];
      assert ts == [ts[0]] + rest;
      GlyphsCons(ts[0], rest);
      if ts[0].Control? {
        KeepVisibleAll(rest, width);
      } else {
        KeepVisibleAll(rest, width - 1);
      }
    }
  }

  /**
   * What `_vis_trunc` copies is a prefix of s made of whole tokens: whole
   * control sequences and the first `width` visible characters, and all of s
   * when it has no more than `width` visible characters.
   */
  lemma TruncateCopiesWholeTokens(s: string, width: int)
    ensures var ts := Tokenize(s, 0); var k := KeepVisible(ts, width);
      && WellFormed(k) && IsPrefix(k, ts)
      && Kept(s, width) == s[..StopIndex(s, 0, width)]
      && Glyphs(k) == Glyphs(ts)[..Min(Max(width, 0), |Glyphs(ts)|)]
      && |Glyphs(k)| <= Max(width, 0)
      && (|Glyphs(ts)| <= width ==> Kept(s, width) == s)
  {
    var ts := Tokenize(s, 0);
    var k := KeepVisible(ts, width);
    TokenizeSound(s);
    KeepVisiblePrefix(ts, width);
    assert forall j :: 0 <= j < |k| ==> k[j] == ts[j];
    KeepVisibleGlyphs(ts, width);
    KeptSlice(s, 0, width);
    if |Glyphs(ts)| <= width {
      KeepVisibleAll(ts, width);
    }
  }

  predicate EndsWithReset(r: string) {
    |r| >= 4 && r[|r| - 4..] == RESET
  }

  /**
   * The reset is appended exactly when the copied text holds an ESC
   * character, whether it opens a control sequence or stands alone as a
   * visible character; the result then ends with the reset, and otherwise
   * the result is the copied text.
   */
  lemma TruncateResets(s: string, width: int)
    ensures var r := Truncate(s, width);
      && (ESC in Kept(s, width) <==> ESC in r)
      && (ESC in r ==> r == Kept(s, width) + RESET && EndsWithReset(r))
      && (ESC !in r ==> r == Kept(s, width) && !EndsWithReset(r))
  {
    var kept := Kept(s, width);
    var r := Truncate(s, width);
    if ESC in kept {
      assert (kept + RESET)[|kept + RESET| - 4..] == RESET;
    } else {
      assert ESC !in r;
      assert |r| >= 4 ==> r[|r| - 4..][0] == r[|r| - 4];
    }
  }

  function Concat(pieces: seq<string>): string {
    if pieces == [] then [] else Concat(pieces[..|pieces| - 1]) + pieces[|pieces| - 1]
  }

  lemma ConcatAppend(pieces: seq<string>, x: string)
    ensures Concat(pieces + [x]) == Concat(pieces) + x
  {
    assert (pieces + [x])[..|pieces|] == pieces;
  }

  /** The walk passes a control sequence at i without spending width. */
  lemma StopControl(s: string, i: nat, m: nat, left: int)
    requires i < |s| && m == EscapeAt(s, i) > 0
    ensures StopIndex(s, i, left) == StopIndex(s, i + m, left)
  {
  }

  /** The walk passes a visible character at i when width is left, spending one. */
  lemma StopGlyph(s: string, i: nat, left: int)
    requires i < |s| && EscapeAt(s, i) == 0 && left > 0
    ensures StopIndex(s, i, left) == StopIndex(s, i + 1, left - 1)
  {
  }

  /** The loop of `_vis_trunc` after copying the control sequence s[i..i + m]. */
  lemma CopyControl(pieces: seq<string>, s: string, i: nat, m: nat, width: int, visible: int, stop: nat)
    requires i < |s| && m == EscapeAt(s, i) > 0
    requires Concat(pieces) == s[..i] && StopIndex(s, i, width - visible) == stop
    ensures Concat(pieces + [s[i..i + m]]) == s[..i + m]
    ensures StopIndex(s, i + m, width - visible) == stop
  {
    StopControl(s, i, m, width - visible);
    CopyPiece(pieces, s, i, i + m);
  }

  /** The loop of `_vis_trunc` after copying the visible character s[i]. */
  lemma CopyGlyph(pieces: seq<string>, s: string, i: nat, width: int, visible: int, stop: nat)
    requires i < |s| && EscapeAt(s, i) == 0 && visible < width
    requires Concat(pieces) == s[..i] && StopIndex(s, i, width - visible) == stop
    ensures Concat(pieces + [s[i..i + 1]]) == s[..i + 1]
    ensures StopIndex(s, i + 1, width - (visible + 1)) == stop
  {
    StopGlyph(s, i, width - visible);
    assert width - (visible + 1) == width - visible - 1;
    CopyPiece(pieces, s, i, i + 1);
  }

  /** Copying s[i..j] after the pieces that spell s[..i] gives pieces that spell s[..j]. */
  lemma CopyPiece(pieces: seq<string>, s: string, i: nat, j: nat)
    requires i <= j <= |s| && Concat(pieces) == s[..i]
    ensures Concat(pieces + [s[i..j]]) == s[..j]
  {
    ConcatAppend(pieces, s[i..j]);
    assert s[..i] + s[i..j] == s[..j];
  }

  /** `_vis_trunc`: the index-walking loop over s, collecting the copied pieces. */
  method VisTrunc(s: string, width: int) returns (r: string)
    ensures r == Truncate(s, width)
  {
    var visible := 0;
    var i := 0;
    var pieces: seq<string> := [];
    ghost var stop := StopIndex(s, 0, width);
    while i < |s|
      invariant 0 <= i <= |s|
      invariant Concat(pieces) == s[..i]
      invariant StopIndex(s, i, width - visible) == stop
      decreases |s| - i
    {
      var m := EscapeAt(s, i);
      if m > 0 {
        CopyControl(pieces, s, i, m, width, visible, stop);
        pieces := pieces + [s[i..i + m]];
        i := i + m;
        continue;
      }
      if visible >= width {
        break;
      }
      CopyGlyph(pieces, s, i, width, visible, stop);
      pieces := pieces + [s[i..i + 1]];
      visible := visible + 1;
      i := i + 1;
    }
    assert i == stop;
    KeptSlice(s, 0, width);
    assert Kept(s, width) == s[..i];
    if ESC in Concat(pieces) {
      ConcatAppend(pieces, RESET);
      pieces := pieces + [RESET];
    }
    r := Concat(pieces);
  }
}
