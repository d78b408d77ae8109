/** Spans delimit themselves: how far a scanner reaches does not depend on what follows. */
module DslSpans {
  import opened Text
  import opened DslLexer
  import opened DslTree
  import opened DslParser

  /** A lexeme that may end an echoed span. */
  predicate IsFirm(l: Lexeme) {
    !l.Space? && !l.Comment? && !l.Unterminated?
  }

  ghost predicate Framed(span: Span) {
    span != [] && !span[0].Space? && !span[0].Comment? && IsFirm(span[|span| - 1])
  }

  ghost predicate IsValue(v: Span, record: bool) { Framed(v) && ValueLen(v, record) == Some(|v|) }

  ghost predicate IsType(t: Span) { Framed(t) && TypeLen(t) == Some(|t|) }

  ghost predicate IsParam(p: Span) { Framed(p) && ParamLen(p) == Some(|p|) }

  ghost predicate IsElem(e: Span) { Framed(e) && Inside(e + [Punct(']')], [], true) == Some(|e|) }

  ghost predicate IsBody(b: Span) { Framed(b) && b[0] == OPEN && BracketedLen(b) == Some(|b|) }

  ghost predicate IsDefinition(d: Span) { Framed(d) && IsAgentLevel(d[0]) && DefinitionLen(d) == Some(|d|) }

  ghost predicate IsVerbatim(d: Span) { Framed(d) && VerbatimLen(d) == Some(|d|) }

  lemma CutSuffix(s: Span, j: nat, n: nat, u: Span)
    requires j <= n <= |s| && n > 0
    ensures (s[..n] + u)[0] == s[0] && (s[..n] + u)[j..] == s[j..][..n - j] + u
  {}

  // ---------------------------------------------------------------- white space

  /** The first non-blank lexeme of a list is where it was when the list is cut behind it. */
  lemma {:induction false} NextAtCut(s: Span, k: nat, n: nat, u: Span)
    requires k <= |s| && NextAt(s, k) < n <= |s|
    ensures var j := NextAt(s, k); var t := s[..n] + u;
      NextAt(t, k) == j && t[j] == s[j] && !s[j].Space?
    decreases |s| - k
  {
    var t := s[..n] + u;
    assert t[k] == s[k];
    if s[k].Space? {
      NextAtCut(s, k + 1, n, u);
    }
  }

  lemma {:induction false} NextAtSuffix(s: Span, k: nat, i: nat)
    requires k <= i <= |s|
    ensures NextAt(s[k..], i - k) == NextAt(s, i) - k
    decreases |s| - i
  {
    if i < |s| && s[i].Space? {
      NextAtSuffix(s, k, i + 1);
    }
  }

  // ---------------------------------------------------------------- brackets

  lemma InsideLocal(s: Span, stack: seq<char>, comma: bool, z: Lexeme, u: Span)
    requires Inside(s, stack, comma).Some? && Stops(z, [], comma)
    ensures var n := Inside(s, stack, comma).value;
      && n < |s| && Stops(s[n], [], comma)
      && (forall i | 0 <= i < n :: !s[i].Unterminated?)
      && Inside(s[..n] + [z] + u, stack, comma) == Some(n)
  {
    InsideEnds(s, stack, comma);
    InsideMoves(s, stack, comma, z, u);
  }

  lemma {:induction false} InsideEnds(s: Span, stack: seq<char>, comma: bool)
    requires Inside(s, stack, comma).Some?
    ensures var n := Inside(s, stack, comma).value;
      n < |s| && Stops(s[n], [], comma) && forall i | 0 <= i < n :: !s[i].Unterminated?
  {
    var n := Inside(s, stack, comma).value;
    if n > 0 {
      InsideEnds(s[1..], StackAfter(s[0], stack), comma);
      assert forall i | 0 < i <= n :: s[i] == s[1..][i - 1];
    }
  }

  lemma {:induction false} InsideMoves(s: Span, stack: seq<char>, comma: bool, z: Lexeme, u: Span)
    requires Inside(s, stack, comma).Some? && Stops(z, [], comma) && Inside(s, stack, comma).value <= |s|
    ensures var n := Inside(s, stack, comma).value; Inside(s[..n] + [z] + u, stack, comma) == Some(n)
  {
    var n := Inside(s, stack, comma).value;
    var t := s[..n] + [z] + u;
    if n == 0 {
      assert t[0] == z;
    } else {
      InsideMoves(s[1..], StackAfter(s[0], stack), comma, z, u);
      CutTail(s, n, z, u);
      InsideStep(s, stack, comma, n, t);
    }
  }

  lemma CutTail(s: Span, n: nat, z: Lexeme, u: Span)
    requires 0 < n <= |s|
    ensures var t := s[..n] + [z] + u; t[0] == s[0] && t[1..] == s[1..][..n - 1] + [z] + u
  {}

  /** A first lexeme that does not stop counts the same in front of another rest. */
  lemma InsideStep(s: Span, stack: seq<char>, comma: bool, n: nat, t: Span)
    requires Inside(s, stack, comma) == Some(n) && n > 0 && t != [] && t[0] == s[0]
    ensures Inside(t[1..], StackAfter(s[0], stack), comma) == Some(n - 1) ==> Inside(t, stack, comma) == Some(n)
  {}

  /** Blanks before the stopping lexeme can be cut off. */
  lemma {:induction false} InsideCut(s: Span, stack: seq<char>, comma: bool, k: nat, z: Lexeme, u: Span)
    requires Inside(s, stack, comma).Some? && Stops(z, [], comma)
    requires k <= Inside(s, stack, comma).value < |s|
    requires forall i | k <= i < Inside(s, stack, comma).value :: s[i].Space?
    ensures Inside(s[..k] + [z] + u, stack, comma) == Some(k)
  {
    var n := Inside(s, stack, comma).value;
    var t := s[..k] + [z] + u;
    if k == 0 {
      assert t[0] == z;
      StackEmpty(s, stack, comma);
    } else {
      assert t[0] == s[0];
      forall i | k - 1 <= i < n - 1 ensures s[1..][i].Space? { assert s[1..][i] == s[i + 1]; }
      InsideCut(s[1..], StackAfter(s[0], stack), comma, k - 1, z, u);
      assert t[1..] == s[1..][..k - 1] + [z] + u;
    }
  }

  lemma {:induction false} StackEmpty(s: Span, stack: seq<char>, comma: bool)
    requires Inside(s, stack, comma).Some? && Inside(s, stack, comma).value < |s|
    requires forall i | 0 <= i < Inside(s, stack, comma).value :: s[i].Space?
    ensures stack == []
  {
    var n := Inside(s, stack, comma).value;
    if n > 0 {
      forall i | 0 <= i < n - 1 ensures s[1..][i].Space? { assert s[1..][i] == s[i + 1]; }
      StackEmpty(s[1..], stack, comma);
    }
  }

  lemma BracketedLocal(s: Span, u: Span)
    requires BracketedLen(s).Some?
    ensures var n := BracketedLen(s).value;
      2 <= n <= |s| && s[n - 1] == Punct(CloserOf(s[0].c)) && BracketedLen(s[..n] + u) == Some(n)
  {
    var n := BracketedLen(s).value;
    var z := Punct(CloserOf(s[0].c));
    InsideLocal(s[1..], [], false, z, u);
    assert (s[..n] + u)[1..] == s[1..][..n - 2] + [z] + u;
  }

  lemma ValueLocal(s: Span, record: bool, u: Span)
    requires ValueLen(s, record).Some?
    ensures var n := ValueLen(s, record).value;
      && 0 < n <= |s| && IsFirm(s[n - 1]) && !s[0].Space? && !s[0].Comment?
      && ValueLen(s[..n] + u, record) == Some(n)
  {
    if !IsValueWord(s[0]) && !s[0].Quoted? {
      BracketedLocal(s, u);
    }
  }

  // ---------------------------------------------------------------- types

  lemma {:induction false} AnglesLocal(s: Span, depth: nat, u: Span)
    requires AnglesLen(s, depth).Some?
    ensures var n := AnglesLen(s, depth).value;
      0 < n <= |s| && s[n - 1] == Punct('>') && AnglesLen(s[..n] + u, depth) == Some(n)
  {
    var n := AnglesLen(s, depth).value;
    if s[0] == Punct('>') && depth <= 1 {
    } else {
      var d := if s[0] == Punct('<') then depth + 1 else if s[0] == Punct('>') then depth - 1 else depth;
      AnglesLocal(s[1..], d, u);
      assert (s[..n] + u)[1..] == s[1..][..n - 1] + u;
    }
  }

  /** What may follow a type: not the opening of type arguments. */
  ghost predicate NoAngle(u: Span) {
    NextAt(u, 0) < |u| ==> u[NextAt(u, 0)] != Punct('<')
  }

  lemma TypeLocal(s: Span, u: Span)
    requires TypeLen(s).Some? && NoAngle(u)
    ensures var n := TypeLen(s).value;
      0 < n <= |s| && IsFirm(s[n - 1]) && IsIdent(s[0]) && TypeLen(s[..n] + u) == Some(n)
  {
    var n := TypeLen(s).value;
    if ArgumentsAt(s).Some? {
      var k := ArgumentsAt(s).value;
      AnglesLocal(s[k..], 1, u);
      ArgumentsLocal(s, n, u);
      CutSuffix(s, k, n, u);
    } else {
      NoArguments(s, u);
    }
  }

  lemma ArgumentsLocal(s: Span, n: nat, u: Span)
    requires s != [] && ArgumentsAt(s).Some? && ArgumentsAt(s).value <= n <= |s|
    ensures ArgumentsAt(s[..n] + u) == ArgumentsAt(s)
  {
    CutSuffix(s, 0, n, u);
    NextAtCut(s, 1, n, u);
  }

  lemma NoArguments(s: Span, u: Span)
    requires s != [] && NoAngle(u)
    ensures (s[..1] + u)[0] == s[0] && ArgumentsAt(s[..1] + u).None?
  {
    var t := s[..1] + u;
    assert t[1..] == u;
    NextAtSuffix(t, 1, 1);
    assert NextAt(t, 1) < |t| ==> t[NextAt(t, 1)] == u[NextAt(u, 0)];
  }

  lemma TypeAfter(s: Span, j: nat, m: nat, u: Span)
    requires j <= |s| && TypeLen(s[j..]) == Some(m) && NoAngle(u)
    ensures 0 < m && j + m <= |s| && IsFirm(s[j + m - 1]) && TypeLen((s[..j + m] + u)[j..]) == Some(m)
  {
    TypeLocal(s[j..], u);
    CutSuffix(s, j, j + m, u);
  }

  lemma ParamHeadLocal(s: Span, n: nat, u: Span)
    requires ParamHead(s).Some? && ParamHead(s).value < n <= |s|
    ensures IsIdent(s[0]) && ParamHead(s[..n] + u) == ParamHead(s)
  {
    var k := NextAt(s, 1);
    CutSuffix(s, 0, n, u);
    NextAtCut(s, 1, n, u);
    NextAtCut(s, k + 1, n, u);
  }

  lemma ParamMoves(s: Span, j: nat, m: nat, u: Span)
    requires ParamHead(s) == Some(j) && TypeLen(s[j..]) == Some(m) && NoAngle(u)
    ensures 0 < m && j + m <= |s| && IsFirm(s[j + m - 1]) && IsIdent(s[0]) && ParamLen(s[..j + m] + u) == Some(j + m)
  {
    TypeAfter(s, j, m, u);
    ParamHeadLocal(s, j + m, u);
    ParamCombines(s[..j + m] + u, j, m);
  }

  lemma ParamCombines(t: Span, j: nat, m: nat)
    requires ParamHead(t) == Some(j) && TypeLen(t[j..]) == Some(m)
    ensures ParamLen(t) == Some(j + m)
  {}

  lemma ParamLocal(s: Span, u: Span)
    requires ParamLen(s).Some? && NoAngle(u)
    ensures var n := ParamLen(s).value;
      0 < n <= |s| && IsFirm(s[n - 1]) && IsIdent(s[0]) && ParamLen(s[..n] + u) == Some(n)
  {
    var j := ParamHead(s).value;
    ParamMoves(s, j, TypeLen(s[j..]).value, u);
  }

  // ---------------------------------------------------------------- definitions

  lemma {:induction false} HeaderLocal(s: Span, n: nat, u: Span)
    requires HeaderLen(s).Some?
    ensures var h := HeaderLen(s).value; h < |s| && s[h] == OPEN && (h < n <= |s| ==> HeaderLen(s[..n] + u) == Some(h))
  {
    if s[0] != OPEN {
      HeaderLocal(s[1..], if n > 0 then n - 1 else 0, u);
      var h := HeaderLen(s).value;
      if h < n <= |s| {
        assert (s[..n] + u)[1..] == s[1..][..n - 1] + u;
      }
    }
  }

  lemma DefinitionLocal(s: Span, u: Span)
    requires DefinitionLen(s).Some?
    ensures var n := DefinitionLen(s).value;
      2 <= n <= |s| && IsFirm(s[n - 1]) && DefinitionLen(s[..n] + u) == Some(n)
  {
    var n := DefinitionLen(s).value;
    HeaderLocal(s, n, u);
    var h := HeaderLen(s).value;
    BracketedLocal(s[h..], u);
    assert (s[..n] + u)[h..] == s[h..][..n - h] + u;
  }

  lemma TypeBodyLocal(s: Span, i: nat, u: Span)
    requires i <= |s| && TypeBodyEnd(s, i).Some?
    ensures var n := TypeBodyEnd(s, i).value;
      i < n <= |s| && IsFirm(s[n - 1]) && TypeBodyEnd(s[..n] + u, i) == Some(n)
  {
    var n := TypeBodyEnd(s, i).value;
    if !IsIdent(s[i]) {
      BracketedLocal(s[i..], u);
      assert (s[..n] + u)[i..] == s[i..][..n - i] + u;
    }
    assert (s[..n] + u)[i] == s[i];
  }

  lemma TypeHeadLocal(s: Span, n: nat, u: Span)
    requires TypeHead(s).Some? && TypeHead(s).value < n <= |s|
    ensures TypeHead(s[..n] + u) == TypeHead(s)
  {
    var k := NextAt(s, 1);
    var j := NextAt(s, k + 1);
    NextAtCut(s, 1, n, u);
    NextAtCut(s, k + 1, n, u);
    NextAtCut(s, j + 1, n, u);
  }

  lemma TypeDefinitionLocal(s: Span, u: Span)
    requires TypeDefinitionLen(s).Some?
    ensures var n := TypeDefinitionLen(s).value;
      2 <= n <= |s| && IsFirm(s[n - 1]) && TypeDefinitionLen(s[..n] + u) == Some(n)
  {
    TypeBodyLocal(s, TypeHead(s).value, u);
    TypeHeadLocal(s, TypeBodyEnd(s, TypeHead(s).value).value, u);
  }

  lemma VerbatimLocal(s: Span, u: Span)
    requires VerbatimLen(s).Some?
    ensures var n := VerbatimLen(s).value;
      2 <= n <= |s| && IsFirm(s[n - 1]) && s[0].Word? && VerbatimLen(s[..n] + u) == Some(n)
  {
    if s[0] == Word("type") {
      TypeDefinitionLocal(s, u);
    } else {
      DefinitionLocal(s, u);
    }
  }
}
