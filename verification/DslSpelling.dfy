/** White space, parameters and definitions: what the scanners skip and how far they reach, against the grammar. */
module DslSpelling {
  import opened Text
  import opened DslLexer
  import opened DslTree
  import opened DslParser
  import opened DslSpans
  import opened DslRoundTrip
  import opened DslGrammar
  import opened DslBrackets

  // ---------------------------------------------------------------- white space and marks

  lemma {:induction false} SkipGap(s: Span)
    ensures var t := SkipWs(s); Gap(s, t) && |t| <= |s| && (t != [] ==> !t[0].Space?)
  {
    if s != [] && s[0].Space? {
      SkipGap(s[1..]);
      var w :| Blank(w) && s[1..] == w + SkipWs(s);
      assert s == [s[0]] + w + SkipWs(s);
      assert Blank([s[0]] + w);
    } else {
      assert s == [] + s;
      assert Blank([]);
    }
  }

  /** A list has one first lexeme that is not white space. */
  lemma GapSkips(s: Span, t: Span)
    requires Gap(s, t) && (t != [] ==> !t[0].Space?)
    ensures SkipWs(s) == t && |t| <= |s|
  {
    var w :| Blank(w) && s == w + t;
    SkipBlank(w, t);
    if t == [] {
      assert SkipWs([]) == [];
    }
  }

  lemma MarkSkips(s: Span, l: Lexeme, t: Span)
    requires Marked(s, l, t) && !l.Space?
    ensures SkipWs(s) == [l] + t && SkipWs(s)[0] == l && SkipWs(s)[1..] == t && |t| < |s|
  {
    GapSkips(s, [l] + t);
    assert ([l] + t)[1..] == t;
  }

  lemma SkipMark(s: Span)
    requires SkipWs(s) != []
    ensures Marked(s, SkipWs(s)[0], SkipWs(s)[1..])
  {
    SkipGap(s);
    assert SkipWs(s) == [SkipWs(s)[0]] + SkipWs(s)[1..];
  }

  /** Past an optional comma, if what follows does not start with one. */
  lemma CommaSkips(s: Span, rest: Span)
    requires OptionalComma(s, rest) && (SkipWs(rest) == [] || SkipWs(rest)[0] != COMMA)
    ensures SkipComma(s) == rest && |rest| <= |s|
  {
    if s != rest {
      MarkSkips(s, COMMA, rest);
    } else {
      SkipGap(s);
    }
  }

  lemma SkipsComma(s: Span)
    ensures OptionalComma(s, SkipComma(s)) && |SkipComma(s)| <= |s|
  {
    SkipGap(s);
    if SkipWs(s) != [] {
      SkipMark(s);
    }
  }

  // ---------------------------------------------------------------- parameters and definitions

  lemma ParamExactly(p: Span)
    ensures ParamSpan(p) <==> p != [] && ParamLen(p) == Some(|p|)
  {
    if p != [] && ParamLen(p) == Some(|p|) {
      ParamIsSpan(p);
    }
    if ParamSpan(p) {
      var a, b, t :| ParamParts(p, a, b, t);
      ParamPartsLen(p, a, b, t);
    }
  }

  lemma ParamIsSpan(p: Span)
    requires p != [] && ParamLen(p) == Some(|p|)
    ensures ParamSpan(p)
  {
    var j := ParamHead(p).value;
    TypeWhole(p[j..]);
    ParamFromHead(p, j);
  }

  lemma ParamFromHead(p: Span, j: nat)
    requires p != [] && ParamHead(p) == Some(j) && TypeSpan(p[j..])
    ensures ParamSpan(p)
  {
    var k := NextAt(p, 1);
    NextAtGap(p, 1);
    NextAtGap(p, k + 1);
    ParamCut(p, k);
    ParamFromParts(p, p[1..], p[k..], p[k + 1..], p[j..]);
  }

  lemma TypeWhole(t: Span)
    requires TypeLen(t) == Some(|t|)
    ensures TypeSpan(t)
  {
    TypeLocal(t, []);
    TypeExactly(t);
  }

  lemma ParamFromParts(p: Span, a: Span, r: Span, b: Span, t: Span)
    requires p != [] && IsIdent(p[0]) && p == [p[0]] + a && Gap(a, r) && r == [Punct(':')] + b && Gap(b, t)
    requires TypeSpan(t)
    ensures ParamSpan(p)
  {
    assert ParamParts(p, a, b, t);
  }

  lemma ParamCut(p: Span, k: nat)
    requires 1 <= k < |p|
    ensures p == [p[0]] + p[1..] && p[k..] == [p[k]] + p[k + 1..]
  {}

  lemma ParamPartsLen(p: Span, a: Span, b: Span, t: Span)
    requires ParamParts(p, a, b, t)
    ensures ParamLen(p) == Some(|p|)
  {
    var w :| Blank(w) && a == w + ([Punct(':')] + b);
    var v :| Blank(v) && b == v + t;
    TypeSpanWhole(t);
    ParamFromGaps(p, w, v, t);
  }

  lemma TypeSpanWhole(t: Span)
    requires TypeSpan(t)
    ensures t != [] && !t[0].Space? && TypeLen(t) == Some(|t|)
  {
    TypeExactly(t);
  }

  lemma ParamFromGaps(p: Span, w: Span, v: Span, t: Span)
    requires p != [] && IsIdent(p[0]) && p == [p[0]] + (w + ([Punct(':')] + (v + t))) && Blank(w) && Blank(v)
    requires t != [] && !t[0].Space? && TypeLen(t) == Some(|t|)
    ensures ParamLen(p) == Some(|p|)
  {
    assert p[1..] == w + ([Punct(':')] + (v + t));
    ParamHeadIs(p, w, v, t);
    ParamCombines(p, |w| + |v| + 2, |t|);
  }

  lemma ParamHeadIs(p: Span, w: Span, v: Span, t: Span)
    requires p != [] && IsIdent(p[0]) && p[1..] == w + ([Punct(':')] + (v + t)) && Blank(w) && Blank(v)
    requires t != [] && !t[0].Space?
    ensures ParamHead(p) == Some(|w| + |v| + 2) && |w| + |v| + 2 <= |p| && p[|w| + |v| + 2..] == t
    ensures |p| == |w| + |v| + 2 + |t|
  {
    var r := [Punct(':')] + (v + t);
    NextAtIs(p, 1, w, r);
    assert p[|w| + 2..] == v + t by {
      assert r[1..] == v + t;
      assert p[|w| + 1..][1..] == p[|w| + 2..];
    }
    NextAtIs(p, |w| + 2, v, t);
  }

  lemma ParamBefore(p: Span, u: Span)
    requires ParamSpan(p) && NoAngle(u)
    ensures ParamLen(p + u) == Some(|p|) && (p + u)[..|p|] == p && (p + u)[|p|..] == u
    ensures p != [] && IsIdent(p[0]) && (p + u)[0] == p[0]
  {
    ParamExactly(p);
    ParamLocal(p, u);
    Rejoined(p, u);
  }

  lemma ParamFound(s: Span)
    requires ParamLen(s).Some?
    ensures var n := ParamLen(s).value; 0 < n <= |s| && ParamSpan(s[..n])
  {
    ParamLocal(s, []);
    var n := ParamLen(s).value;
    assert s[..n] + [] == s[..n];
    ParamExactly(s[..n]);
  }

  lemma BracelessFront(s: Span, h: nat)
    requires h <= |s|
    ensures Braceless(s[..h]) <==> forall i | 0 <= i < h :: s[i] != OPEN && s[i] != CLOSE
  {
    forall i | 0 <= i < h ensures s[..h][i] == s[i] {}
  }

  lemma {:induction false} HeaderFinds(s: Span, h: nat)
    requires h < |s| && s[h] == OPEN && forall i | 0 <= i < h :: s[i] != OPEN && s[i] != CLOSE
    ensures HeaderLen(s) == Some(h)
  {
    if h > 0 {
      forall i | 0 <= i < h - 1 ensures s[1..][i] != OPEN && s[1..][i] != CLOSE { assert s[1..][i] == s[i + 1]; }
      HeaderFinds(s[1..], h - 1);
    }
  }

  lemma {:induction false} HeaderFound(s: Span)
    requires HeaderLen(s).Some?
    ensures var h := HeaderLen(s).value;
      h < |s| && s[h] == OPEN && forall i | 0 <= i < h :: s[i] != OPEN && s[i] != CLOSE
  {
    if s[0] != OPEN {
      HeaderFound(s[1..]);
      var h := HeaderLen(s).value;
      forall i | 0 <= i < h ensures s[i] != OPEN && s[i] != CLOSE {
        if i > 0 { assert s[i] == s[1..][i - 1]; }
      }
    }
  }

  lemma DefinitionExactly(d: Span)
    ensures DefinitionSpan(d) <==> DefinitionLen(d) == Some(|d|)
  {
    if DefinitionSpan(d) {
      var h :| 0 <= h < |d| && d[h] == OPEN && Braceless(d[..h]) && Bracketed(d[h..]);
      DefinitionFinds(d, h);
    }
    if DefinitionLen(d) == Some(|d|) {
      DefinitionFound(d, HeaderLen(d).value);
    }
  }

  lemma DefinitionFinds(d: Span, h: nat)
    requires h < |d| && d[h] == OPEN && Braceless(d[..h]) && Bracketed(d[h..])
    ensures DefinitionLen(d) == Some(|d|)
  {
    BracelessFront(d, h);
    HeaderFinds(d, h);
    BracketedExactly(d[h..]);
  }

  lemma DefinitionFound(d: Span, h: nat)
    requires HeaderLen(d) == Some(h) && h <= |d| && BracketedLen(d[h..]) == Some(|d| - h)
    ensures DefinitionSpan(d)
  {
    HeaderFound(d);
    BracelessFront(d, h);
    BracketedWhole(d[h..]);
    DefinitionFrom(d, h);
  }

  lemma BracketedWhole(b: Span)
    requires BracketedLen(b) == Some(|b|)
    ensures Bracketed(b)
  {
    BracketedExactly(b);
  }

  lemma DefinitionFrom(d: Span, h: nat)
    requires h < |d| && d[h] == OPEN && Braceless(d[..h]) && Bracketed(d[h..])
    ensures DefinitionSpan(d)
  {}

  lemma TypeDefinitionExactly(d: Span)
    ensures d != [] && TypeDefinitionLen(d) == Some(|d|) <==> exists a, b, c :: TypeDefinitionParts(d, a, b, c)
  {
    if d != [] && TypeDefinitionLen(d) == Some(|d|) {
      TypeDefinitionIsSpan(d);
    }
    if exists a, b, c :: TypeDefinitionParts(d, a, b, c) {
      var a, b, c :| TypeDefinitionParts(d, a, b, c);
      TypeDefinitionSpanLen(d, a, b, c);
    }
  }

  lemma TypeDefinitionIsSpan(d: Span)
    requires d != [] && TypeDefinitionLen(d) == Some(|d|)
    ensures exists a, b, c :: TypeDefinitionParts(d, a, b, c)
  {
    var i := TypeHead(d).value;
    TypeBodyIs(d, i);
    TypeDefinitionFromHead(d, i);
  }

  predicate SpacesOnly(s: Span, k: nat, j: nat) {
    k <= j <= |s| && forall i | k <= i < j :: s[i].Space?
  }

  lemma NextAtSpaces(s: Span, k: nat)
    requires k <= |s|
    ensures SpacesOnly(s, k, NextAt(s, k))
  {
    NextAtBlank(s, k);
  }

  lemma TypeDefinitionFromHead(d: Span, i: nat)
    requires d != [] && TypeHead(d) == Some(i) && TypeBody(d[i..])
    ensures exists a, b, c :: TypeDefinitionParts(d, a, b, c)
  {
    var k := NextAt(d, 1);
    var j := NextAt(d, k + 1);
    NextAtSpaces(d, 1);
    NextAtSpaces(d, k + 1);
    NextAtSpaces(d, j + 1);
    TypeDefinitionAt(d, k, j, i, d[i..]);
  }

  lemma TypeDefinitionAt(d: Span, k: nat, j: nat, i: nat, t: Span)
    requires 1 <= k < j < i <= |d| && IsIdent(d[k]) && d[j] == Punct('=')
    requires SpacesOnly(d, 1, k) && SpacesOnly(d, k + 1, j) && SpacesOnly(d, j + 1, i) && t == d[i..] && TypeBody(t)
    ensures exists a, b, c :: TypeDefinitionParts(d, a, b, c)
  {
    TypeDefinitionCut(d, k, j);
    GapAt(d, 1, k, d[1..], d[k..]);
    GapAt(d, k + 1, j, d[k + 1..], d[j..]);
    GapAt(d, j + 1, i, d[j + 1..], t);
    TypeDefinitionFromParts(d, d[1..], d[k..], d[k + 1..], d[j..], d[j + 1..], t);
  }

  lemma GapAt(s: Span, k: nat, j: nat, a: Span, b: Span)
    requires SpacesOnly(s, k, j) && a == s[k..] && b == s[j..]
    ensures Gap(a, b)
  {
    CutGap(s, k, j);
  }

  lemma TypeDefinitionFromParts(d: Span, a: Span, b: Span, r: Span, q: Span, c: Span, t: Span)
    requires d != [] && d == [d[0]] + a && b != [] && IsIdent(b[0]) && Gap(a, b) && b[1..] == r
    requires Gap(r, q) && q == [Punct('=')] + c && Gap(c, t) && TypeBody(t)
    ensures exists a, b, c :: TypeDefinitionParts(d, a, b, c)
  {
    assert TypeDefinitionParts(d, a, b, c);
  }

  lemma TypeBodyIs(d: Span, i: nat)
    requires i <= |d|
    ensures TypeBodyEnd(d, i) == Some(|d|) <==> TypeBody(d[i..])
  {
    BracketedExactly(d[i..]);
  }

  lemma TypeDefinitionCut(d: Span, k: nat, j: nat)
    requires 1 <= k < j < |d|
    ensures d == [d[0]] + d[1..] && d[k..][1..] == d[k + 1..] && d[j..] == [d[j]] + d[j + 1..] && d[k..][0] == d[k]
  {}

  lemma TypeDefinitionSpanLen(d: Span, a: Span, b: Span, c: Span)
    requires TypeDefinitionParts(d, a, b, c)
    ensures TypeDefinitionLen(d) == Some(|d|)
  {
    var t :| Gap(c, t) && TypeBody(t);
    var x :| Blank(x) && a == x + b;
    var y :| Blank(y) && b[1..] == y + ([Punct('=')] + c);
    var z :| Blank(z) && c == z + t;
    TypeHeadThen(d, b, c, t, x, y, z);
  }

  lemma TypeHeadThen(d: Span, b: Span, c: Span, t: Span, x: Span, y: Span, z: Span)
    requires Blank(x) && Blank(y) && Blank(z) && b != [] && IsIdent(b[0])
    requires d != [] && d == [d[0]] + (x + b) && b[1..] == y + ([Punct('=')] + c) && c == z + t && TypeBody(t)
    ensures TypeDefinitionLen(d) == Some(|d|)
  {
    assert d[1..] == x + b;
    BodyStarts(t);
    TypeHeadIs(d, b, c, t, x, y, z);
    TypeBodyIs(d, |x| + |y| + |z| + 3);
    HeadAndBody(d, |x| + |y| + |z| + 3);
  }

  lemma BodyStarts(t: Span)
    requires TypeBody(t)
    ensures t != [] && !t[0].Space?
  {}

  lemma HeadAndBody(d: Span, i: nat)
    requires TypeHead(d) == Some(i) && TypeBodyEnd(d, i) == Some(|d|)
    ensures TypeDefinitionLen(d) == Some(|d|)
  {}

  lemma TypeHeadIs(d: Span, b: Span, c: Span, t: Span, x: Span, y: Span, z: Span)
    requires Blank(x) && Blank(y) && Blank(z) && t != [] && !t[0].Space? && b != [] && IsIdent(b[0])
    requires d != [] && d[1..] == x + b && b[1..] == y + ([Punct('=')] + c) && c == z + t
    ensures var i := |x| + |y| + |z| + 3; TypeHead(d) == Some(i) && i < |d| && d[i..] == t && |d| == i + |t|
  {
    NextAtIs(d, 1, x, b);
    var k := 1 + |x|;
    var r := [Punct('=')] + c;
    assert d[k + 1..] == b[1..] by { assert d[k..][1..] == d[k + 1..]; }
    NextAtIs(d, k + 1, y, r);
    var j := k + 1 + |y|;
    assert d[j + 1..] == c by {
      assert r[1..] == c;
      assert d[j..][1..] == d[j + 1..];
    }
    NextAtIs(d, j + 1, z, t);
  }

  lemma VerbatimExactly(d: Span)
    ensures VerbatimSpan(d) <==> d != [] && VerbatimLen(d) == Some(|d|)
  {
    DefinitionExactly(d);
    TypeDefinitionExactly(d);
  }
}
