/** The parser accepts exactly the spellings of the grammar, and reads each as the tree that it spells. */
module DslAcceptance {
  import opened Text
  import opened DslLexer
  import opened DslTree
  import opened DslParser
  import opened DslSpans
  import opened DslRoundTrip
  import opened DslGrammar
  import opened DslBrackets
  import opened DslSpelling

  /** No comma comes next. */
  predicate NoComma(s: Span) {
    SkipWs(s) == [] || SkipWs(s)[0] != COMMA
  }

  /** The list starts with `t`, which is no white space. */
  lemma GapTo(s: Span, t: Span)
    requires Gap(s, t) && t != [] && !t[0].Space?
    ensures SkipWs(s) == t && |t| <= |s| && (t[0] != COMMA ==> NoComma(s))
  {
    GapSkips(s, t);
  }

  // ---------------------------------------------------------------- metadata

  lemma PairAccepted(s: Span, key: Lexeme, sep: char, value: Span, a: Span, b: Span, c: Span, rest: Span)
    requires PairParts(s, key, sep, value, a, b, c) && OptionalComma(c, rest) && NoComma(rest)
    ensures ParseEntry(s) == Some((Pair(key, sep, value), rest)) && s != [] && s[0] == key && |rest| < |s|
  {
    assert s[0] == key && s[1..] == a;
    MarkSkips(a, Punct(sep), b);
    ValueBefore(value, true, c);
    GapTo(b, value + c);
    CommaSkips(c, rest);
    PairReads(s, a, b, value, c, rest);
  }

  lemma PairReads(s: Span, a: Span, b: Span, value: Span, c: Span, rest: Span)
    requires s != [] && IsIdent(s[0]) && s[1..] == a
    requires var t := SkipWs(a); t != [] && t[0].Punct? && IsSeparator(t[0].c) && t[1..] == b
    requires var v := SkipWs(b); ValueLen(v, true) == Some(|value|) && |value| <= |v| && v[..|value|] == value
                                 && v[|value|..] == c
    requires SkipComma(c) == rest
    ensures ParseEntry(s) == Some((Pair(s[0], SkipWs(a)[0].c, value), rest))
  {}

  lemma EntryAccepted(s: Span, e: Entry, rest: Span)
    requires SpellsEntry(s, e, rest) && NoComma(rest)
    ensures s != [] && !s[0].Space? && s[0] != CLOSE && s[0] != COMMA && |rest| < |s|
    ensures s[0].Comment? <==> e.EntryComment?
    ensures if e.Pair? then ParseEntry(s) == Some((e, rest)) else s[0] == e.comment && s[1..] == rest
  {
    if e.Pair? {
      var a, b, c :| PairParts(s, e.key, e.sep, e.value, a, b, c) && OptionalComma(c, rest);
      PairAccepted(s, e.key, e.sep, e.value, a, b, c, rest);
    }
  }

  /** White space, a value and perhaps a comma. */
  lemma ValuePartFound(b: Span, record: bool) returns (value: Span, c: Span)
    requires ValueLen(SkipWs(b), record).Some?
    ensures var v := SkipWs(b); var n := ValueLen(v, record).value;
      n <= |v| && value == v[..n] && c == v[n..] && |SkipComma(c)| < |b|
    ensures ValueSpan(value, record) && Gap(b, value + c) && OptionalComma(c, SkipComma(c))
  {
    var v := SkipWs(b);
    var n := ValueLen(v, record).value;
    SkipGap(b);
    ValueFound(v, record);
    value, c := v[..n], v[n..];
    SkipsComma(c);
    assert v == value + c;
  }

  lemma EntryFound(s: Span)
    requires ParseEntry(s).Some?
    ensures var (e, rest) := ParseEntry(s).value; SpellsEntry(s, e, rest) && e.Pair? && |rest| < |s|
  {
    var (e, rest) := ParseEntry(s).value;
    var a := s[1..];
    SkipMark(a);
    SkipGap(a);
    var b := SkipWs(a)[1..];
    var value, c := ValuePartFound(b, true);
    PairFrom(s, e, a, b, c, rest);
  }

  lemma PairFrom(s: Span, e: Entry, a: Span, b: Span, c: Span, rest: Span)
    requires e.Pair? && s != [] && s[0] == e.key && s[1..] == a && IsIdent(e.key) && IsSeparator(e.sep)
    requires Marked(a, Punct(e.sep), b) && ValueSpan(e.value, true) && Gap(b, e.value + c) && OptionalComma(c, rest)
    ensures SpellsEntry(s, e, rest)
  {
    assert s == [e.key] + a;
    assert PairParts(s, e.key, e.sep, e.value, a, b, c);
  }

  lemma {:induction false} EntriesAccepted(s: Span, es: seq<Entry>, rest: Span)
    requires SpellsEntries(s, es, rest)
    ensures ParseEntries(s) == Some((es, rest)) && NoComma(s) && |rest| < |s|
    decreases |es|
  {
    if es == [] {
      MarkSkips(s, CLOSE, rest);
    } else {
      var t, u :| Gap(s, t) && SpellsEntry(t, es[0], u) && SpellsEntries(u, es[1..], rest);
      EntriesAccepted(u, es[1..], rest);
      EntryAccepted(t, es[0], u);
      GapTo(s, t);
      EntriesStepBack(s, t, es[0], u, es[1..], rest);
      assert [es[0]] + es[1..] == es;
    }
  }

  lemma EntriesCons(s: Span, t: Span, e: Entry, u: Span, es: seq<Entry>, rest: Span)
    requires Gap(s, t) && SpellsEntry(t, e, u) && SpellsEntries(u, es, rest)
    ensures SpellsEntries(s, [e] + es, rest)
  {
    assert ([e] + es)[1..] == es;
  }

  lemma {:induction false} EntriesFound(s: Span)
    requires ParseEntries(s).Some?
    ensures var (es, rest) := ParseEntries(s).value; SpellsEntries(s, es, rest) && |rest| < |s|
    decreases |s|
  {
    var (es, rest) := ParseEntries(s).value;
    var t := SkipWs(s);
    SkipGap(s);
    if t[0] == CLOSE {
      SkipMark(s);
    } else if t[0].Comment? {
      EntriesFound(t[1..]);
      assert t == [t[0]] + t[1..];
      EntriesCons(s, t, EntryComment(t[0]), t[1..], ParseEntries(t[1..]).value.0, rest);
    } else {
      var (e, u) := ParseEntry(t).value;
      EntryFound(t);
      EntriesFound(u);
      EntriesCons(s, t, e, u, ParseEntries(u).value.0, rest);
    }
  }

  // ---------------------------------------------------------------- parameters

  /** What comes after a type is not the opening of type arguments. */
  lemma NotAngle(u: Span)
    requires SkipWs(u) != [] && SkipWs(u)[0] != Punct('<')
    ensures NoAngle(u)
  {
    SkipIsNext(u, 0);
    assert u[0..] == u;
  }

  lemma {:induction false} SkipIsNext(u: Span, k: nat)
    requires k <= |u|
    ensures SkipWs(u[k..]) == u[NextAt(u, k)..]
    decreases |u| - k
  {
    if k < |u| && u[k].Space? {
      SkipIsNext(u, k + 1);
      assert u[k..][1..] == u[k + 1..];
    }
  }

  lemma ParamAccepted(s: Span, p: Span, t: Span, u: Span, others: seq<Span>, rest: Span)
    requires Gap(s, p + t) && ParamSpan(p) && OptionalComma(t, u)
    requires StartsParams(u) && ParseParams(u) == Some((others, rest))
    ensures ParseParams(s) == Some(([p] + others, rest)) && |u| < |s| && StartsParams(s)
  {
    CommaSkips(t, u);
    if t != u {
      MarkSkips(t, COMMA, u);
    }
    NotAngle(t);
    ParamBefore(p, t);
    GapTo(s, p + t);
    ParamsStep(s, p, t, others, rest);
  }

  ghost predicate ParamsSplit(s: Span, p: Span, t: Span, u: Span, others: seq<Span>, rest: Span) {
    Gap(s, p + t) && ParamSpan(p) && OptionalComma(t, u) && SpellsParams(u, others, rest)
  }

  lemma ParamsUncons(s: Span, ps: seq<Span>, rest: Span) returns (p: Span, t: Span, u: Span, others: seq<Span>)
    requires SpellsParams(s, ps, rest) && ps != []
    ensures ps == [p] + others && |others| < |ps| && ParamsSplit(s, p, t, u, others, rest)
  {
    t, u := ParamsFirst(s, ps, rest);
    p, others := ps[0], ps[1..];
  }

  lemma ParamsFirst(s: Span, ps: seq<Span>, rest: Span) returns (t: Span, u: Span)
    requires SpellsParams(s, ps, rest) && ps != []
    ensures ParamsSplit(s, ps[0], t, u, ps[1..], rest)
  {
    t, u :| Gap(s, ps[0] + t) && ParamSpan(ps[0]) && OptionalComma(t, u) && SpellsParams(u, ps[1..], rest);
  }

  /** Parameters start with a name or end at once. */
  predicate StartsParams(s: Span) {
    SkipWs(s) != [] && (SkipWs(s)[0] == Punct(')') || IsIdent(SkipWs(s)[0]))
  }

  lemma {:induction false} ParamsAccepted(s: Span, ps: seq<Span>, rest: Span)
    requires SpellsParams(s, ps, rest)
    ensures ParseParams(s) == Some((ps, rest)) && |rest| < |s| && StartsParams(s)
    decreases |ps|
  {
    if ps == [] {
      MarkSkips(s, Punct(')'), rest);
    } else {
      var p, t, u, others := ParamsUncons(s, ps, rest);
      ParamsAccepted(u, others, rest);
      ParamAccepted(s, p, t, u, others, rest);
    }
  }

  lemma ParamsCons(s: Span, p: Span, t: Span, u: Span, ps: seq<Span>, rest: Span)
    requires Gap(s, p + t) && ParamSpan(p) && OptionalComma(t, u) && SpellsParams(u, ps, rest)
    ensures SpellsParams(s, [p] + ps, rest)
  {
    assert ([p] + ps)[0] == p && ([p] + ps)[1..] == ps;
  }

  /** A parameter and perhaps a comma. */
  lemma ParamPartFound(t: Span) returns (p: Span, c: Span)
    requires ParamLen(t).Some?
    ensures var n := ParamLen(t).value; n <= |t| && p == t[..n] && c == t[n..] && |SkipComma(c)| < |t|
    ensures ParamSpan(p) && t == p + c && OptionalComma(c, SkipComma(c))
  {
    var n := ParamLen(t).value;
    ParamFound(t);
    CutAt(t, n);
    p, c := t[..n], t[n..];
    SkipsComma(c);
  }

  lemma CutAt(t: Span, n: nat)
    requires n <= |t|
    ensures t == t[..n] + t[n..]
  {}

  lemma {:induction false} ParamsFound(s: Span)
    requires ParseParams(s).Some?
    ensures var (ps, rest) := ParseParams(s).value; SpellsParams(s, ps, rest) && |rest| < |s|
    decreases |s|
  {
    var (ps, rest) := ParseParams(s).value;
    var t := SkipWs(s);
    SkipGap(s);
    if t[0] == Punct(')') {
      SkipMark(s);
    } else {
      var p, c := ParamPartFound(t);
      ParamsFound(SkipComma(c));
      ParamsCons(s, p, c, SkipComma(c), ParseParams(SkipComma(c)).value.0, rest);
    }
  }

  lemma ExpectMark(s: Span, l: Lexeme, t: Span)
    requires Marked(s, l, t) && !l.Space?
    ensures Expect(s, l) == Some(t) && |t| < |s|
  {
    MarkSkips(s, l, t);
  }

  lemma OptionalParamsAccepted(s: Span, params: Option<seq<Span>>, rest: Span)
    requires SpellsOptionalParams(s, params, rest)
    requires params.None? ==> SkipWs(rest) == [] || SkipWs(rest)[0] != Punct('(')
    ensures ParseOptionalParams(s) == Some((params, rest)) && |rest| <= |s|
  {
    if params.Some? {
      var t :| Marked(s, Punct('('), t) && SpellsParams(t, params.value, rest);
      GivenParamsAccepted(s, params.value, t, rest);
    }
  }

  lemma GivenParamsAccepted(s: Span, ps: seq<Span>, t: Span, rest: Span)
    requires Marked(s, Punct('('), t) && SpellsParams(t, ps, rest)
    ensures ParseOptionalParams(s) == Some((Some(ps), rest)) && |rest| <= |s|
  {
    ExpectMark(s, Punct('('), t);
    ParamsAccepted(t, ps, rest);
  }

  lemma OptionalParamsFound(s: Span)
    requires ParseOptionalParams(s).Some?
    ensures var (params, rest) := ParseOptionalParams(s).value; SpellsOptionalParams(s, params, rest) && |rest| <= |s|
  {
    var t := Expect(s, Punct('('));
    if t.Some? {
      SkipGap(s);
      SkipMark(s);
      ParamsFound(t.value);
    }
  }

  lemma ReturnAccepted(s: Span, ret: Option<Span>, rest: Span)
    requires SpellsReturn(s, ret, rest) && SkipWs(rest) != [] && SkipWs(rest)[0] == OPEN
    ensures ParseReturn(s) == Some((ret, rest)) && |rest| <= |s|
    ensures SkipWs(s) != [] && SkipWs(s)[0] != Punct('(')
  {
    match ret
    case None =>
    case Some(t) =>
      var u :| Gap(s, [Punct('-'), Punct('>')] + u) && TypeSpan(t) && Gap(u, t + rest);
      GapTo(s, [Punct('-'), Punct('>')] + u);
      assert ([Punct('-'), Punct('>')] + u)[2..] == u;
      NotAngle(rest);
      TypeBefore(t, rest);
      GapTo(u, t + rest);
      ReturnReads(s, u, t, rest);
  }

  lemma ReturnReads(s: Span, u: Span, t: Span, rest: Span)
    requires var r := SkipWs(s); |r| >= 2 && r[0] == Punct('-') && r[1] == Punct('>') && r[2..] == u
    requires var v := SkipWs(u); TypeLen(v) == Some(|t|) && |t| <= |v| && v[..|t|] == t && v[|t|..] == rest
    ensures ParseReturn(s) == Some((Some(t), rest))
  {}

  lemma ReturnFound(s: Span)
    requires ParseReturn(s).Some?
    ensures var (ret, rest) := ParseReturn(s).value; SpellsReturn(s, ret, rest) && |rest| <= |s|
  {
    if ParseReturn(s).value.0.Some? {
      ReturnParsed(s);
      var u := SkipWs(s)[2..];
      SkipGap(s);
      SkipGap(u);
      ArrowFound(s, u, SkipWs(u), TypeLen(SkipWs(u)).value);
    }
  }

  lemma ReturnParsed(s: Span)
    requires ParseReturn(s).Some? && ParseReturn(s).value.0.Some?
    ensures |SkipWs(s)| >= 2
    ensures var u := SkipWs(s)[2..]; var v := SkipWs(u);
      && SkipWs(s) == [Punct('-'), Punct('>')] + u
      && TypeLen(v).Some? && TypeLen(v).value <= |v|
      && ParseReturn(s) == Some((Some(v[..TypeLen(v).value]), v[TypeLen(v).value..]))
  {}

  lemma ArrowFound(s: Span, u: Span, v: Span, n: nat)
    requires Gap(s, [Punct('-'), Punct('>')] + u) && Gap(u, v) && TypeLen(v) == Some(n)
    ensures n <= |v| && SpellsReturn(s, Some(v[..n]), v[n..])
  {
    TypeFound(v);
    CutAt(v, n);
    ReturnFrom(s, u, v[..n], v[n..]);
  }

  lemma ReturnFrom(s: Span, u: Span, t: Span, rest: Span)
    requires Gap(s, [Punct('-'), Punct('>')] + u) && TypeSpan(t) && Gap(u, t + rest)
    ensures SpellsReturn(s, Some(t), rest)
  {}

  // ---------------------------------------------------------------- array elements

  lemma LastElemAccepted(s: Span, e: Span, t: Span, rest: Span)
    requires Gap(s, e + t) && ElemSpan(e) && Marked(t, Punct(']'), rest)
    ensures ParseElems(s) == Some(([e], rest)) && |rest| < |s|
  {
    var w :| Blank(w) && t == w + ([Punct(']')] + rest);
    ElemEnds(s, e, w, Punct(']'), rest);
    ElemLast(s, e, rest);
  }

  lemma ElemLast(s: Span, e: Span, rest: Span)
    requires ElemStops(s, e, Punct(']'), rest)
    ensures ParseElems(s) == Some(([e], rest))
  {}

  /** What the parser finds where an element is spelled that `z` stops. */
  ghost predicate ElemStops(s: Span, e: Span, z: Lexeme, rest: Span) {
    var t := SkipWs(s);
    && 0 < |t| <= |s| && t[0] != Punct(']')
    && var n := Inside(t, [], true);
       && n.Some? && n.value < |t| && DropTrailingWs(t[..n.value]) == e && t[n.value] == z && t[n.value + 1..] == rest
       && e != [] && !e[0].Comment? && !e[|e| - 1].Comment?
  }

  lemma ElemEnds(s: Span, e: Span, w: Span, z: Lexeme, rest: Span)
    requires Gap(s, e + (w + ([z] + rest))) && ElemSpan(e) && Blank(w) && Stops(z, [], true)
    ensures ElemStops(s, e, z, rest) && |rest| < |s|
  {
    var t := e + (w + ([z] + rest));
    GapTo(s, t);
    ElemInside(e, w, z, rest, w + ([z] + rest));
    ElemTrims(e, w);
    ElemCuts(e, w, z, rest);
    ElemNoBracket(e);
  }

  lemma ElemNoBracket(e: Span)
    requires ElemSpan(e)
    ensures e[0] != Punct(']')
  {}

  lemma ElemInside(e: Span, w: Span, z: Lexeme, rest: Span, tail: Span)
    requires Balanced(e, true) && Blank(w) && Stops(z, [], true) && tail == w + ([z] + rest)
    ensures Inside(e + tail, [], true) == Some(|e| + |w|)
  {
    BlankThen(w, z, rest);
    PastElem(e, tail, |w|);
  }

  lemma BlankThen(w: Span, z: Lexeme, rest: Span)
    requires Blank(w) && Stops(z, [], true)
    ensures Inside(w + ([z] + rest), [], true) == Some(|w|)
  {
    BlankBalanced(w);
    BalancedThen(w, z, rest, true);
  }

  lemma PastElem(e: Span, tail: Span, n: nat)
    requires Balanced(e, true) && Inside(tail, [], true) == Some(n)
    ensures Inside(e + tail, [], true) == Some(|e| + n)
  {
    BalancedPasses(e, true, [], true, tail);
  }

  lemma {:induction false} BlankBalanced(w: Span)
    requires Blank(w)
    ensures Balanced(w, true)
    decreases |w|
  {
    if w != [] {
      BlankBalanced(w[1..]);
    }
  }

  lemma ElemCuts(e: Span, w: Span, z: Lexeme, rest: Span)
    ensures var t := e + (w + ([z] + rest)); var n := |e| + |w|;
      n < |t| && t[..n] == e + w && t[n] == z && t[n + 1..] == rest
  {}

  lemma {:induction false} ElemTrims(e: Span, w: Span)
    requires e != [] && !e[|e| - 1].Space? && Blank(w)
    ensures DropTrailingWs(e + w) == e
    decreases |w|
  {
    var s := e + w;
    if w == [] {
      assert s == e;
    } else {
      ElemTrims(e, w[..|w| - 1]);
      assert s[..|s| - 1] == e + w[..|w| - 1];
    }
  }

  lemma MoreElemsAccepted(s: Span, e: Span, t: Span, u: Span, others: seq<Span>, rest: Span)
    requires Gap(s, e + t) && ElemSpan(e) && Marked(t, COMMA, u) && ParseElems(u) == Some((others, rest))
    ensures ParseElems(s) == Some(([e] + others, rest)) && |u| < |s|
  {
    var w :| Blank(w) && t == w + ([COMMA] + u);
    ElemEnds(s, e, w, COMMA, u);
    ElemMore(s, e, u, others, rest);
  }

  lemma ElemMore(s: Span, e: Span, u: Span, others: seq<Span>, rest: Span)
    requires ElemStops(s, e, COMMA, u) && ParseElems(u) == Some((others, rest))
    ensures ParseElems(s) == Some(([e] + others, rest))
  {}

  lemma ElemsUncons(s: Span, es: seq<Span>, rest: Span) returns (e: Span, t: Span, u: Span, others: seq<Span>)
    requires SpellsElems(s, es, rest) && es != []
    ensures es == [e] + others && |others| < |es| && Gap(s, e + t) && ElemSpan(e)
    ensures (others == [] && Marked(t, Punct(']'), rest)) || (Marked(t, COMMA, u) && SpellsElems(u, others, rest))
  {
    e, others := es[0], es[1..];
    t :| Gap(s, es[0] + t) && ElemSpan(es[0])
      && ((|es| == 1 && Marked(t, Punct(']'), rest))
          || exists u :: Marked(t, COMMA, u) && SpellsElems(u, es[1..], rest));
    u := [];
    if !(|es| == 1 && Marked(t, Punct(']'), rest)) {
      u :| Marked(t, COMMA, u) && SpellsElems(u, es[1..], rest);
    }
  }

  lemma {:induction false} ElemsAccepted(s: Span, es: seq<Span>, rest: Span)
    requires SpellsElems(s, es, rest)
    ensures ParseElems(s) == Some((es, rest)) && |rest| < |s|
    decreases |es|
  {
    if es == [] {
      MarkSkips(s, Punct(']'), rest);
    } else {
      var e, t, u, others := ElemsUncons(s, es, rest);
      if others == [] && Marked(t, Punct(']'), rest) {
        LastElemAccepted(s, e, t, rest);
        assert es == [e];
      } else {
        ElemsAccepted(u, others, rest);
        MoreElemsAccepted(s, e, t, u, others, rest);
      }
    }
  }

  lemma ElemFound(t: Span)
    requires t != [] && !t[0].Space? && Inside(t, [], true).Some?
    ensures var n := Inside(t, [], true).value;
      && n < |t|
      && var e := DropTrailingWs(t[..n]);
         && |e| <= n && Blank(t[|e|..n]) && t == e + (t[|e|..n] + t[n..])
         && (e != [] && !e[0].Comment? && !e[|e| - 1].Comment? ==> ElemSpan(e))
  {
    var n := Inside(t, [], true).value;
    InsideIsBalanced(t, true);
    var e := DropTrailingWs(t[..n]);
    TrailingBlank(t[..n]);
    ElemCutBack(t, n, |e|);
    BalancedFront(e, t[|e|..n]);
  }

  lemma {:induction false} TrailingBlank(s: Span)
    ensures var e := DropTrailingWs(s);
      |e| <= |s| && e == s[..|e|] && Blank(s[|e|..]) && (e != [] ==> !e[|e| - 1].Space?)
  {
    if s != [] && s[|s| - 1].Space? {
      TrailingBlank(s[..|s| - 1]);
      var e := DropTrailingWs(s);
      assert s[|e|..] == s[..|s| - 1][|e|..] + [s[|s| - 1]];
    }
  }

  lemma ElemCutBack(t: Span, n: nat, k: nat)
    requires k <= n <= |t|
    ensures t[..n][..k] == t[..k] && t[..n][k..] == t[k..n]
    ensures t == t[..k] + (t[k..n] + t[n..]) && t[..n] == t[..k] + t[k..n]
  {}

  /** Without white space at its end, a balanced list is balanced. */
  lemma {:induction false} BalancedFront(e: Span, w: Span)
    requires Balanced(e + w, true) && Blank(w)
    ensures Balanced(e, true)
  {
    BalancedThen(e + w, Punct(']'), [], true);
    var s := e + w + ([Punct(']')] + []);
    forall i | |e| <= i < |e + w| ensures s[i].Space? { assert s[i] == w[i - |e|]; }
    assert s[..|e|] == e;
    InsideCut(s, [], true, |e|, Punct(']'), []);
    InsideIsBalanced(e + [Punct(']')] + [], true);
    assert (e + [Punct(']')] + [])[..|e|] == e;
  }

  lemma ElemsLast(s: Span, e: Span, t: Span, rest: Span)
    requires Gap(s, e + t) && ElemSpan(e) && Marked(t, Punct(']'), rest)
    ensures SpellsElems(s, [e], rest)
  {
    assert [e][0] == e;
  }

  lemma ElemsCons(s: Span, e: Span, t: Span, u: Span, es: seq<Span>, rest: Span)
    requires Gap(s, e + t) && ElemSpan(e) && Marked(t, COMMA, u) && SpellsElems(u, es, rest)
    ensures SpellsElems(s, [e] + es, rest)
  {
    assert ([e] + es)[0] == e && ([e] + es)[1..] == es;
  }

  /** An element, white space, and what stops the scan. */
  lemma ElemPartFound(t: Span) returns (e: Span, c: Span, u: Span)
    requires t != [] && !t[0].Space? && Inside(t, [], true).Some?
    ensures var n := Inside(t, [], true).value;
      n < |t| && e == DropTrailingWs(t[..n]) && t == e + c && u == t[n + 1..] && Marked(c, t[n], u)
    ensures e != [] && !e[0].Comment? && !e[|e| - 1].Comment? ==> ElemSpan(e)
  {
    var n := Inside(t, [], true).value;
    ElemFound(t);
    e := DropTrailingWs(t[..n]);
    u := t[n + 1..];
    c := t[|e|..n] + t[n..];
    assert t[n..] == [t[n]] + u;
  }

  /** What the parser does with `e`, which ends before `z`, and then `u`. */
  ghost predicate ElemParsed(s: Span, e: Span, z: Lexeme, u: Span) {
    || (z == Punct(']') && ParseElems(s) == Some(([e], u)))
    || (z == COMMA && ParseElems(u).Some?
        && ParseElems(s) == Some(([e] + ParseElems(u).value.0, ParseElems(u).value.1)))
  }

  lemma ElemParse(s: Span, t: Span)
    requires ParseElems(s).Some? && t == SkipWs(s) && t != [] && t[0] != Punct(']')
    ensures Inside(t, [], true).Some?
    ensures var n := Inside(t, [], true).value;
      && n < |t|
      && var e := DropTrailingWs(t[..n]);
         e != [] && !e[0].Comment? && !e[|e| - 1].Comment? && ElemParsed(s, e, t[n], t[n + 1..])
  {}

  /** The parser's first step into an array that is not empty. */
  lemma ElemStep(s: Span) returns (e: Span, c: Span, z: Lexeme, u: Span)
    requires ParseElems(s).Some? && SkipWs(s) != [] && SkipWs(s)[0] != Punct(']')
    ensures Gap(s, e + c) && ElemSpan(e) && |u| < |s| && Marked(c, z, u) && ElemParsed(s, e, z, u)
  {
    var t := SkipWs(s);
    SkipGap(s);
    ElemParse(s, t);
    z := t[Inside(t, [], true).value];
    e, c, u := ElemPartFound(t);
  }

  lemma {:induction false} ElemsFound(s: Span)
    requires ParseElems(s).Some?
    ensures var (es, rest) := ParseElems(s).value; SpellsElems(s, es, rest) && |rest| < |s|
    decreases |s|
  {
    SkipGap(s);
    if SkipWs(s)[0] == Punct(']') {
      SkipMark(s);
    } else {
      var e, c, z, u := ElemStep(s);
      if z == Punct(']') {
        ElemsLast(s, e, c, u);
      } else {
        ElemsFound(u);
        ElemsCons(s, e, c, u, ParseElems(u).value.0, ParseElems(u).value.1);
      }
    }
  }

  // ---------------------------------------------------------------- attributes and bodies

  lemma AttributeAccepted(s: Span, a: Attribute, rest: Span)
    requires SpellsAttribute(s, a, rest) && NoComma(rest)
    ensures ParseAttribute(s) == Some((a, rest)) && s != [] && IsIdent(s[0]) && |rest| < |s|
  {
    var t, u, c :| DslGrammar.AttributeParts(s, a, t, u, c) && OptionalComma(c, rest);
    assert s[0] == a.key && s[1..] == t;
    MarkSkips(t, Punct('='), u);
    ValueBefore(a.value, false, c);
    GapTo(u, a.value + c);
    CommaSkips(c, rest);
    DslRoundTrip.AttributeParts(s, a, u, a.value + c, c);
  }

  lemma AttributeFound(s: Span)
    requires ParseAttribute(s).Some?
    ensures var (a, rest) := ParseAttribute(s).value; SpellsAttribute(s, a, rest) && |rest| < |s|
  {
    var (a, rest) := ParseAttribute(s).value;
    var t := s[1..];
    SkipMark(t);
    SkipGap(t);
    var u := SkipWs(t)[1..];
    var value, c := ValuePartFound(u, false);
    AttributeFrom(s, a, t, u, c, rest);
  }

  lemma AttributeFrom(s: Span, a: Attribute, t: Span, u: Span, c: Span, rest: Span)
    requires s != [] && s[0] == a.key && s[1..] == t && IsIdent(a.key)
    requires Marked(t, Punct('='), u) && ValueSpan(a.value, false) && Gap(u, a.value + c) && OptionalComma(c, rest)
    ensures SpellsAttribute(s, a, rest)
  {
    assert s == [a.key] + t;
    assert DslGrammar.AttributeParts(s, a, t, u, c);
  }

  /** Attributes and the body behind them, read together. */
  ghost predicate ReadsWith(s: Span, attrs: seq<Attribute>, body: Span, rest: Span) {
    var r := ParseAttributes(s);
    r.Some? && r.value.0 == attrs && r.value.1 == body + rest && BracketedLen(body + rest) == Some(|body|)
  }

  lemma BodyAccepted(s: Span, body: Span, rest: Span)
    requires Gap(s, body + rest) && Bracketed(body) && body[0] == OPEN
    ensures ReadsWith(s, [], body, rest) && NoComma(s) && |rest| < |s|
  {
    GapTo(s, body + rest);
    BracketedBefore(body, rest);
  }

  lemma {:induction false} WithAccepted(s: Span, attrs: seq<Attribute>, body: Span, rest: Span)
    requires SpellsWith(s, attrs, body, rest)
    ensures ReadsWith(s, attrs, body, rest) && NoComma(s) && |rest| < |s|
    decreases |attrs|
  {
    if attrs == [] {
      BodyAccepted(s, body, rest);
    } else {
      var t, u :| Gap(s, t) && SpellsAttribute(t, attrs[0], u) && SpellsWith(u, attrs[1..], body, rest);
      WithAccepted(u, attrs[1..], body, rest);
      AttributeAccepted(t, attrs[0], u);
      GapTo(s, t);
      AttributesRead(s, t, attrs[0], u, attrs[1..], body + rest);
      assert [attrs[0]] + attrs[1..] == attrs;
    }
  }

  lemma AttributesRead(s: Span, t: Span, a: Attribute, u: Span, others: seq<Attribute>, b: Span)
    requires SkipWs(s) == t && 0 < |t| <= |s| && t[0] != OPEN && |u| < |t|
    requires ParseAttribute(t) == Some((a, u)) && ParseAttributes(u) == Some((others, b))
    ensures ParseAttributes(s) == Some(([a] + others, b))
  {}

  lemma WithCons(s: Span, t: Span, a: Attribute, u: Span, attrs: seq<Attribute>, body: Span, rest: Span)
    requires Gap(s, t) && SpellsAttribute(t, a, u) && SpellsWith(u, attrs, body, rest)
    ensures SpellsWith(s, [a] + attrs, body, rest)
  {
    assert ([a] + attrs)[0] == a && ([a] + attrs)[1..] == attrs;
  }

  lemma {:induction false} WithFound(s: Span, body: Span, rest: Span)
    requires ParseAttributes(s).Some? && ParseAttributes(s).value.1 == body + rest
    requires Bracketed(body) && body[0] == OPEN
    ensures SpellsWith(s, ParseAttributes(s).value.0, body, rest) && |rest| < |s|
    decreases |s|
  {
    var t := SkipWs(s);
    SkipGap(s);
    if t[0] != OPEN {
      var (a, u) := ParseAttribute(t).value;
      AttributeFound(t);
      WithFound(u, body, rest);
      WithCons(s, t, a, u, ParseAttributes(u).value.0, body, rest);
    }
  }

  // ---------------------------------------------------------------- agent items

  lemma CapabilitiesAccepted(s: Span, sep: char, elems: seq<Span>, rest: Span)
    requires SpellsAgentItem(s, Capabilities(sep, elems), rest)
    ensures s != [] && s[0] == Word("capabilities") && |rest| < |s|
    ensures ParseCapabilities(s[1..]) == Some((Capabilities(sep, elems), rest))
  {
    var a, b, c :| DslGrammar.CapabilitiesParts(s, sep, a, b, c) && SpellsElems(c, elems, rest);
    assert s[1..] == a;
    MarkSkips(a, Punct(sep), b);
    MarkSkips(b, Punct('['), c);
    ElemsAccepted(c, elems, rest);
  }

  lemma CapabilitiesFound(s: Span)
    requires s != [] && s[0] == Word("capabilities") && ParseCapabilities(s[1..]).Some?
    ensures var (item, rest) := ParseCapabilities(s[1..]).value; SpellsAgentItem(s, item, rest) && |rest| < |s|
  {
    var (item, rest) := ParseCapabilities(s[1..]).value;
    var a := s[1..];
    SkipGap(a);
    SkipMark(a);
    var b := SkipWs(a)[1..];
    SkipGap(b);
    SkipMark(b);
    var c := SkipWs(b)[1..];
    ElemsFound(c);
    CapabilitiesFrom(s, item, a, b, c, rest);
  }

  lemma CapabilitiesFrom(s: Span, item: AgentItem, a: Span, b: Span, c: Span, rest: Span)
    requires item.Capabilities? && s != [] && s[0] == Word("capabilities") && s[1..] == a && IsSeparator(item.sep)
    requires Marked(a, Punct(item.sep), b) && Marked(b, Punct('['), c) && SpellsElems(c, item.elems, rest)
    ensures SpellsAgentItem(s, item, rest)
  {
    assert s == [Word("capabilities")] + a;
    assert DslGrammar.CapabilitiesParts(s, item.sep, a, b, c);
  }

  lemma WithItemAccepted(s: Span, attrs: seq<Attribute>, body: Span, rest: Span)
    requires SpellsAgentItem(s, With(attrs, body), rest)
    ensures s != [] && s[0] == Word("with") && ParseWith(s[1..]) == Some((With(attrs, body), rest)) && |rest| < |s|
  {
    var a :| s == [Word("with")] + a && SpellsWith(a, attrs, body, rest);
    assert s[1..] == a;
    WithAccepted(a, attrs, body, rest);
    Rejoined(body, rest);
  }

  lemma WithItemFound(s: Span)
    requires s != [] && s[0] == Word("with") && ParseWith(s[1..]).Some?
    ensures var (item, rest) := ParseWith(s[1..]).value; SpellsAgentItem(s, item, rest) && |rest| < |s|
  {
    var (item, rest) := ParseWith(s[1..]).value;
    var b := ParseAttributes(s[1..]).value.1;
    BodyNext(s[1..]);
    var body := BodyFound(b);
    WithFound(s[1..], body, rest);
    assert s == [Word("with")] + s[1..];
  }

  lemma BodyFound(b: Span) returns (body: Span)
    requires b != [] && b[0] == OPEN && BracketedLen(b).Some?
    ensures var n := BracketedLen(b).value; n <= |b| && body == b[..n] && b == body + b[n..]
    ensures Bracketed(body) && body[0] == OPEN
  {
    BracketedFound(b);
    body := b[..BracketedLen(b).value];
  }

  lemma {:induction false} BodyNext(s: Span)
    requires ParseAttributes(s).Some?
    ensures var b := ParseAttributes(s).value.1; b != [] && b[0] == OPEN
    decreases |s|
  {
    var t := SkipWs(s);
    if t[0] != OPEN {
      BodyNext(ParseAttribute(t).value.1);
    }
  }

  lemma EchoedAccepted(s: Span, d: Span, rest: Span)
    requires SpellsAgentItem(s, Echoed(d), rest)
    ensures s != [] && s[0] == d[0] && IsAgentLevel(s[0])
    ensures ParseAgentItem(s) == Some((Echoed(d), rest)) && |rest| < |s|
  {
    DefinitionBefore(d, rest);
    EchoedReads(s, d, rest);
  }

  lemma DefinitionBefore(d: Span, rest: Span)
    requires DefinitionSpan(d)
    ensures var s := d + rest;
      d != [] && DefinitionLen(s) == Some(|d|) && s[..|d|] == d && s[|d|..] == rest && s[0] == d[0]
  {
    DefinitionExactly(d);
    DefinitionLocal(d, rest);
    Rejoined(d, rest);
  }

  lemma EchoedReads(s: Span, d: Span, rest: Span)
    requires s != [] && IsAgentLevel(s[0]) && DefinitionLen(s) == Some(|d|) && |d| <= |s|
    requires s[..|d|] == d && s[|d|..] == rest
    ensures ParseAgentItem(s) == Some((Echoed(d), rest))
  {}

  lemma EchoedFound(s: Span)
    requires s != [] && IsAgentLevel(s[0]) && DefinitionLen(s).Some?
    ensures var n := DefinitionLen(s).value; 0 < n <= |s| && SpellsAgentItem(s, Echoed(s[..n]), s[n..])
  {
    var n := DefinitionLen(s).value;
    DefinitionCut(s, n);
    DefinitionWhole(s[..n]);
  }

  lemma DefinitionCut(s: Span, n: nat)
    requires DefinitionLen(s) == Some(n)
    ensures 0 < n <= |s| && DefinitionLen(s[..n]) == Some(n) && s == s[..n] + s[n..]
  {
    DefinitionLocal(s, []);
    assert s[..n] + [] == s[..n];
  }

  lemma DefinitionWhole(d: Span)
    requires DefinitionLen(d) == Some(|d|)
    ensures DefinitionSpan(d)
  {
    DefinitionExactly(d);
  }

  lemma AgentItemAccepted(s: Span, item: AgentItem, rest: Span)
    requires SpellsAgentItem(s, item, rest)
    ensures ParseAgentItem(s) == Some((item, rest)) && |rest| < |s|
    ensures s != [] && !s[0].Space? && s[0] != CLOSE
  {
    match item
    case ItemComment(c) => assert s[0] == c && s[1..] == rest;
    case Capabilities(sep, elems) => CapabilitiesAccepted(s, sep, elems, rest);
    case With(attrs, body) => WithItemAccepted(s, attrs, body, rest);
    case Echoed(d) => EchoedAccepted(s, d, rest);
  }

  lemma AgentItemFound(s: Span)
    requires ParseAgentItem(s).Some?
    ensures var (item, rest) := ParseAgentItem(s).value; SpellsAgentItem(s, item, rest) && |rest| < |s|
  {
    if s[0].Comment? {
      assert s == [s[0]] + s[1..];
    } else if s[0] == Word("capabilities") {
      CapabilitiesFound(s);
    } else if s[0] == Word("with") {
      WithItemFound(s);
    } else {
      EchoedFound(s);
    }
  }

  lemma {:induction false} AgentItemsAccepted(s: Span, items: seq<AgentItem>, rest: Span)
    requires SpellsAgentItems(s, items, rest)
    ensures ParseAgentItems(s) == Some((items, rest)) && |rest| < |s|
    decreases |items|
  {
    if items == [] {
      MarkSkips(s, CLOSE, rest);
    } else {
      var t, u :| Gap(s, t) && SpellsAgentItem(t, items[0], u) && SpellsAgentItems(u, items[1..], rest);
      AgentItemsAccepted(u, items[1..], rest);
      AgentItemAccepted(t, items[0], u);
      GapTo(s, t);
      AgentItemsStep(s, t, items[0], u, items[1..], rest);
      assert [items[0]] + items[1..] == items;
    }
  }

  lemma AgentItemsCons(s: Span, t: Span, item: AgentItem, u: Span, items: seq<AgentItem>, rest: Span)
    requires Gap(s, t) && SpellsAgentItem(t, item, u) && SpellsAgentItems(u, items, rest)
    ensures SpellsAgentItems(s, [item] + items, rest)
  {
    assert ([item] + items)[0] == item && ([item] + items)[1..] == items;
  }

  lemma {:induction false} AgentItemsFound(s: Span)
    requires ParseAgentItems(s).Some?
    ensures var (items, rest) := ParseAgentItems(s).value; SpellsAgentItems(s, items, rest) && |rest| < |s|
    decreases |s|
  {
    var (items, rest) := ParseAgentItems(s).value;
    var t := SkipWs(s);
    SkipGap(s);
    if t[0] == CLOSE {
      SkipMark(s);
    } else {
      var (item, u) := ParseAgentItem(t).value;
      AgentItemFound(t);
      AgentItemsFound(u);
      AgentItemsCons(s, t, item, u, ParseAgentItems(u).value.0, rest);
    }
  }

  // ---------------------------------------------------------------- items

  lemma AgentAccepted(s: Span, item: Item, rest: Span)
    requires item.Agent? && SpellsItem(s, item, rest)
    ensures s != [] && s[0] == Word("agent") && ParseAgent(s[1..]) == Some((item, rest)) && |rest| < |s|
  {
    var a, b, c, d, e :| AgentParts(s, item.name, item.params, item.ret, a, b, c, d, e)
                         && SpellsAgentItems(e, item.items, rest);
    assert s[1..] == a;
    GapTo(a, [item.name] + b);
    assert ([item.name] + b)[1..] == b;
    MarkSkips(d, OPEN, e);
    ReturnAccepted(c, item.ret, d);
    OptionalParamsAccepted(b, item.params, c);
    AgentItemsAccepted(e, item.items, rest);
    AgentReads(a, item, b, c, d, e, rest);
  }

  lemma AgentReads(a: Span, item: Item, b: Span, c: Span, d: Span, e: Span, rest: Span)
    requires item.Agent? && SkipWs(a) != [] && SkipWs(a)[0] == item.name && SkipWs(a)[1..] == b && IsIdent(item.name)
    requires ParseOptionalParams(b) == Some((item.params, c)) && ParseReturn(c) == Some((item.ret, d))
    requires Expect(d, OPEN) == Some(e) && ParseAgentItems(e) == Some((item.items, rest))
    ensures ParseAgent(a) == Some((item, rest))
  {}

  lemma AgentFound(s: Span)
    requires s != [] && s[0] == Word("agent") && ParseAgent(s[1..]).Some?
    ensures var (item, rest) := ParseAgent(s[1..]).value; SpellsItem(s, item, rest) && |rest| < |s|
  {
    var (item, rest) := ParseAgent(s[1..]).value;
    var a := s[1..];
    SkipGap(a);
    SkipMark(a);
    var b := SkipWs(a)[1..];
    OptionalParamsFound(b);
    var c := ParseOptionalParams(b).value.1;
    ReturnFound(c);
    var d := ParseReturn(c).value.1;
    SkipGap(d);
    SkipMark(d);
    var e := Expect(d, OPEN).value;
    AgentItemsFound(e);
    AgentFrom(s, item, a, b, c, d, e, rest);
  }

  lemma AgentFrom(s: Span, item: Item, a: Span, b: Span, c: Span, d: Span, e: Span, rest: Span)
    requires item.Agent? && s != [] && s[0] == Word("agent") && s[1..] == a
    requires IsIdent(item.name) && Gap(a, [item.name] + b)
    requires SpellsOptionalParams(b, item.params, c) && SpellsReturn(c, item.ret, d) && Marked(d, OPEN, e)
    requires SpellsAgentItems(e, item.items, rest)
    ensures SpellsItem(s, item, rest)
  {
    assert s == [Word("agent")] + a;
    assert AgentParts(s, item.name, item.params, item.ret, a, b, c, d, e);
  }

  lemma MetadataAccepted(s: Span, es: seq<Entry>, rest: Span)
    requires SpellsItem(s, Metadata(es), rest)
    ensures s != [] && s[0] == Word("metadata") && ParseItem(s) == Some((Metadata(es), rest)) && |rest| < |s|
  {
    var a, b :| s == [Word("metadata")] + a && Marked(a, OPEN, b) && SpellsEntries(b, es, rest);
    assert s[1..] == a;
    MarkSkips(a, OPEN, b);
    EntriesAccepted(b, es, rest);
  }

  lemma MetadataFound(s: Span)
    requires s != [] && s[0] == Word("metadata") && ParseItem(s).Some?
    ensures var (item, rest) := ParseItem(s).value; SpellsItem(s, item, rest) && |rest| < |s|
  {
    var a := s[1..];
    SkipGap(a);
    SkipMark(a);
    var b := SkipWs(a)[1..];
    EntriesFound(b);
    MetadataFrom(s, a, b, ParseEntries(b).value.0, ParseEntries(b).value.1);
  }

  lemma MetadataFrom(s: Span, a: Span, b: Span, es: seq<Entry>, rest: Span)
    requires s != [] && s[0] == Word("metadata") && s[1..] == a && Marked(a, OPEN, b) && SpellsEntries(b, es, rest)
    ensures SpellsItem(s, Metadata(es), rest)
  {
    assert s == [Word("metadata")] + a;
  }

  lemma VerbatimAccepted(s: Span, d: Span, rest: Span)
    requires VerbatimSpan(d) && s == d + rest
    ensures ParseItem(s) == Some((Verbatim(d), rest)) && |rest| < |s| && s[0] == d[0] && s[0].Word?
  {
    VerbatimExactly(d);
    VerbatimBefore(d, rest);
    VerbatimReads(s, d, rest);
  }

  lemma VerbatimBefore(d: Span, rest: Span)
    requires d != [] && VerbatimLen(d) == Some(|d|)
    ensures var s := d + rest; VerbatimLen(s) == Some(|d|) && s[..|d|] == d && s[|d|..] == rest && s[0] == d[0]
  {
    VerbatimLocal(d, rest);
    Rejoined(d, rest);
  }

  lemma VerbatimReads(s: Span, d: Span, rest: Span)
    requires s != [] && VerbatimLen(s) == Some(|d|) && |d| <= |s| && s[..|d|] == d && s[|d|..] == rest
    ensures ParseItem(s) == Some((Verbatim(d), rest)) && s[0].Word?
  {}

  lemma VerbatimFound(s: Span)
    requires VerbatimLen(s).Some?
    ensures var n := VerbatimLen(s).value; 0 < n <= |s| && VerbatimSpan(s[..n]) && s == s[..n] + s[n..]
  {
    var n := VerbatimLen(s).value;
    VerbatimCut(s, n);
    VerbatimWhole(s[..n]);
  }

  lemma VerbatimCut(s: Span, n: nat)
    requires VerbatimLen(s) == Some(n)
    ensures 0 < n <= |s| && VerbatimLen(s[..n]) == Some(n) && s == s[..n] + s[n..]
  {
    VerbatimLocal(s, []);
    assert s[..n] + [] == s[..n];
  }

  lemma VerbatimWhole(d: Span)
    requires d != [] && VerbatimLen(d) == Some(|d|)
    ensures VerbatimSpan(d)
  {
    VerbatimExactly(d);
  }

  lemma ItemAccepted(s: Span, item: Item, rest: Span)
    requires SpellsItem(s, item, rest)
    ensures ParseItem(s) == Some((item, rest)) && |rest| < |s| && s != [] && !s[0].Space?
  {
    match item
    case TopComment(c) => assert s[0] == c && s[1..] == rest;
    case Metadata(es) => MetadataAccepted(s, es, rest);
    case Agent(_, _, _, _) => AgentAccepted(s, item, rest);
    case Verbatim(d) => VerbatimAccepted(s, d, rest);
  }

  lemma ItemFound(s: Span)
    requires ParseItem(s).Some?
    ensures var (item, rest) := ParseItem(s).value; SpellsItem(s, item, rest) && |rest| < |s|
  {
    if s[0].Comment? {
      assert s == [s[0]] + s[1..];
    } else if s[0] == Word("metadata") {
      MetadataFound(s);
    } else if s[0] == Word("agent") {
      AgentFound(s);
    } else {
      VerbatimFound(s);
    }
  }

  lemma {:induction false} ProgramAccepted(s: Span, p: Program)
    requires Spells(s, p)
    ensures Parse(s) == Some(p)
    decreases |p|
  {
    if p == [] {
      GapSkips(s, []);
    } else {
      var t, u :| Gap(s, t) && SpellsItem(t, p[0], u) && Spells(u, p[1..]);
      ProgramAccepted(u, p[1..]);
      ItemAccepted(t, p[0], u);
      GapTo(s, t);
      ProgramStep(s, t, p[0], u, p[1..]);
      assert [p[0]] + p[1..] == p;
    }
  }

  lemma ProgramCons(s: Span, t: Span, item: Item, u: Span, p: Program)
    requires Gap(s, t) && SpellsItem(t, item, u) && Spells(u, p)
    ensures Spells(s, [item] + p)
  {
    assert ([item] + p)[0] == item && ([item] + p)[1..] == p;
  }

  lemma {:induction false} ProgramFound(s: Span)
    requires Parse(s).Some?
    ensures Spells(s, Parse(s).value)
    decreases |s|
  {
    var t := SkipWs(s);
    SkipGap(s);
    if t != [] {
      var (item, u) := ParseItem(t).value;
      ItemFound(t);
      ProgramFound(u);
      ProgramCons(s, t, item, u, Parse(u).value);
    }
  }

  /** The parser accepts a list exactly if the list spells a program, and gives that program. */
  lemma ParsesExactly(s: Span, p: Program)
    ensures Parse(s) == Some(p) <==> Spells(s, p)
  {
    if Spells(s, p) {
      ProgramAccepted(s, p);
    }
    if Parse(s) == Some(p) {
      ProgramFound(s);
    }
  }
}
