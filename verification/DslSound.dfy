/**
 What the parser hands out is well formed, and the tree together with the unread rest says
 exactly what the source said.
 */
module DslSound {
  import opened Text
  import opened DslLexer
  import opened DslTree
  import opened DslParser
  import opened DslSpans

  ghost predicate IsComment(c: Lexeme) { c.Comment? && Valid(c) }

  ghost predicate IsName(l: Lexeme) { IsIdent(l) && Valid(l) }

  predicate IsSep(sep: char) { sep == '=' || sep == ':' }

  ghost predicate WellEntry(e: Entry) {
    match e
    case Pair(key, sep, value) => IsName(key) && IsSep(sep) && IsValue(value, true) && Stable(value)
    case EntryComment(c) => IsComment(c)
  }

  ghost predicate WellEntries(es: seq<Entry>) {
    forall i {:trigger WellEntry(es[i])} | 0 <= i < |es| :: WellEntry(es[i])
  }

  ghost predicate WellAttribute(a: Attribute) {
    IsName(a.key) && IsValue(a.value, false) && Stable(a.value)
  }

  ghost predicate WellAttributes(attrs: seq<Attribute>) {
    forall i {:trigger WellAttribute(attrs[i])} | 0 <= i < |attrs| :: WellAttribute(attrs[i])
  }

  ghost predicate WellElem(e: Span) { IsElem(e) && Stable(e) }

  ghost predicate WellElems(es: seq<Span>) {
    forall i {:trigger WellElem(es[i])} | 0 <= i < |es| :: WellElem(es[i])
  }

  ghost predicate WellParam(p: Span) { IsParam(p) && Stable(p) }

  ghost predicate WellParams(ps: seq<Span>) {
    forall i {:trigger WellParam(ps[i])} | 0 <= i < |ps| :: WellParam(ps[i])
  }

  ghost predicate WellAgentItem(item: AgentItem) {
    match item
    case Capabilities(sep, elems) => IsSep(sep) && WellElems(elems)
    case With(attrs, body) => WellAttributes(attrs) && IsBody(body) && Stable(body)
    case Echoed(span) => IsDefinition(span) && Stable(span)
    case ItemComment(c) => IsComment(c)
  }

  ghost predicate WellAgentItems(items: seq<AgentItem>) {
    forall i {:trigger WellAgentItem(items[i])} | 0 <= i < |items| :: WellAgentItem(items[i])
  }

  ghost predicate WellReturn(ret: Option<Span>) {
    ret.Some? ==> IsType(ret.value) && Stable(ret.value)
  }

  ghost predicate WellItem(item: Item) {
    match item
    case Metadata(entries) => WellEntries(entries)
    case Agent(name, params, ret, items) =>
      IsName(name) && (params.Some? ==> WellParams(params.value)) && WellReturn(ret) && WellAgentItems(items)
    case Verbatim(span) => IsVerbatim(span) && Stable(span)
    case TopComment(c) => IsComment(c)
  }

  ghost predicate WellProgram(p: Program) {
    forall i {:trigger WellItem(p[i])} | 0 <= i < |p| :: WellItem(p[i])
  }

  // ---------------------------------------------------------------- reading

  /** The significant lexemes of `s` are `said`, then those of the stable list `rest`. */
  ghost predicate Reads(s: Span, said: Span, rest: Span) {
    Stable(rest) && Essence(s) == said + Essence(rest)
  }

  lemma Then(s: Span, a: Span, t: Span, b: Span, rest: Span)
    requires Reads(s, a, t) && Reads(t, b, rest)
    ensures Reads(s, a + b, rest)
  {
    assert a + (b + Essence(rest)) == a + b + Essence(rest);
  }

  lemma ThenList(s: Span, t: Span, first: Span, u: Span, others: Span, end: Span, rest: Span)
    requires Reads(s, [], t) && Reads(t, first, u) && Reads(u, others + end, rest)
    ensures Reads(s, first + others + end, rest)
  {
    assert [] + first == first;
    Then(s, [], t, first, u);
    Then(s, first, u, others + end, rest);
    assert first + (others + end) == first + others + end;
  }

  lemma {:induction false} EssenceConcat(a: Span, b: Span)
    ensures Essence(a + b) == Essence(a) + Essence(b)
  {
    if a == [] {
      assert a + b == b;
    } else {
      EssenceConcat(a[1..], b);
      EssenceStep(a[0], a[1..], b);
      assert a == [a[0]] + a[1..];
    }
  }

  lemma EssenceStep(l: Lexeme, a: Span, b: Span)
    requires Essence(a + b) == Essence(a) + Essence(b)
    ensures Essence([l] + a + b) == Essence([l] + a) + Essence(b)
  {
    assert ([l] + a + b)[1..] == a + b && ([l] + a)[1..] == a;
    Associative([l], Essence(a), Essence(b));
  }

  lemma ReadCut(s: Span, n: nat)
    requires Stable(s) && n <= |s|
    ensures Stable(s[..n]) && Reads(s, Essence(s[..n]), s[n..])
  {
    assert s == s[..n] + s[n..];
    StableParts(s[..n], s[n..]);
    EssenceConcat(s[..n], s[n..]);
  }

  lemma ReadOne(s: Span)
    requires Stable(s) && s != []
    ensures Valid(s[0]) && Stable(s[1..])
    ensures !s[0].Space? && s[0] != COMMA ==> Reads(s, [s[0]], s[1..])
    ensures s[0].Space? || s[0] == COMMA ==> Reads(s, [], s[1..])
  {
    ReadCut(s, 1);
    assert [] + Essence(s[1..]) == Essence(s[1..]);
  }

  lemma {:induction false} ReadWs(s: Span)
    requires Stable(s)
    ensures var t := SkipWs(s); Reads(s, [], t) && |t| <= |s| && (t != [] ==> !t[0].Space?)
  {
    assert [] + Essence(s) == Essence(s);
    if s != [] && s[0].Space? {
      ReadOne(s);
      ReadWs(s[1..]);
      Then(s, [], s[1..], [], SkipWs(s));
    }
  }

  lemma ReadComma(s: Span)
    requires Stable(s)
    ensures Reads(s, [], SkipComma(s))
  {
    var t := SkipWs(s);
    ReadWs(s);
    assert [] + Essence(s) == Essence(s);
    if t != [] && t[0] == COMMA {
      ReadOne(t);
      Then(s, [], t, [], t[1..]);
    }
  }

  lemma ReadExpect(s: Span, l: Lexeme)
    requires Stable(s) && Expect(s, l).Some? && !l.Space? && l != COMMA
    ensures Reads(s, [l], Expect(s, l).value)
  {
    var t := SkipWs(s);
    ReadWs(s);
    ReadOne(t);
    Then(s, [], t, [l], t[1..]);
  }

  /** Past white space, then one lexeme. */
  lemma ReadNext(s: Span)
    requires Stable(s) && SkipWs(s) != [] && SkipWs(s)[0] != COMMA
    ensures var t := SkipWs(s); Valid(t[0]) && Stable(t) && Reads(s, [t[0]], t[1..])
  {
    var t := SkipWs(s);
    ReadWs(s);
    ReadOne(t);
    Then(s, [], t, [t[0]], t[1..]);
  }

  lemma ReadValue(s: Span, record: bool)
    requires Stable(s) && ValueLen(s, record).Some?
    ensures var n := ValueLen(s, record).value;
      n <= |s| && IsValue(s[..n], record) && Stable(s[..n]) && Reads(s, Essence(s[..n]), s[n..])
  {
    ValueLocal(s, record, []);
    var n := ValueLen(s, record).value;
    assert s[..n] + [] == s[..n];
    ReadCut(s, n);
  }

  lemma ReadType(s: Span)
    requires Stable(s) && TypeLen(s).Some?
    ensures var n := TypeLen(s).value; n <= |s| && IsType(s[..n]) && Stable(s[..n]) && Reads(s, Essence(s[..n]), s[n..])
  {
    TypeLocal(s, []);
    var n := TypeLen(s).value;
    assert s[..n] + [] == s[..n];
    ReadCut(s, n);
  }

  lemma ReadParam(s: Span)
    requires Stable(s) && ParamLen(s).Some?
    ensures var n := ParamLen(s).value; n <= |s| && WellParam(s[..n]) && Reads(s, Essence(s[..n]), s[n..])
  {
    ParamLocal(s, []);
    var n := ParamLen(s).value;
    assert s[..n] + [] == s[..n];
    ReadCut(s, n);
  }

  // ---------------------------------------------------------------- metadata

  lemma EntrySound(s: Span)
    requires Stable(s) && ParseEntry(s).Some?
    ensures var (e, rest) := ParseEntry(s).value; WellEntry(e) && Reads(s, EssenceOfEntry(e), rest)
  {
    var t := SkipWs(s[1..]);
    ReadOne(s);
    ReadNext(s[1..]);
    Then(s, [s[0]], s[1..], [t[0]], t[1..]);
    ReadValuePart(s, [s[0]] + [t[0]], t[1..], true);
    assert [s[0]] + [t[0]] == [s[0], Punct(t[0].c)];
  }

  lemma {:induction false} EntriesSound(s: Span)
    requires Stable(s) && ParseEntries(s).Some?
    ensures var (es, rest) := ParseEntries(s).value; WellEntries(es) && Reads(s, EssenceOfEntries(es) + [CLOSE], rest)
    decreases |s|
  {
    var (es, rest) := ParseEntries(s).value;
    var t := SkipWs(s);
    ReadWs(s);
    if t[0] == CLOSE {
      ReadNext(s);
      assert [] + [CLOSE] == [CLOSE];
    } else {
      if t[0].Comment? {
        ReadOne(t);
        EntriesStep(s, t[1..], es, rest);
      } else {
        EntrySound(t);
        EntriesStep(s, ParseEntry(t).value.1, es, rest);
      }
    }
  }

  lemma EntriesStep(s: Span, u: Span, es: seq<Entry>, rest: Span)
    requires Stable(s) && es != [] && WellEntry(es[0]) && Reads(SkipWs(s), EssenceOfEntry(es[0]), u) && |u| < |s|
    requires ParseEntries(u).Some? && ParseEntries(u).value == (es[1..], rest)
    ensures WellEntries(es) && Reads(s, EssenceOfEntries(es) + [CLOSE], rest)
    decreases |s|, 0
  {
    EntriesSound(u);
    ReadWs(s);
    ThenList(s, SkipWs(s), EssenceOfEntry(es[0]), u, EssenceOfEntries(es[1..]), [CLOSE], rest);
    forall i | 0 <= i < |es| ensures WellEntry(es[i]) {
      if i > 0 { assert WellEntry(es[1..][i - 1]); }
    }
  }

  // ---------------------------------------------------------------- parameters and elements

  lemma {:induction false} ParamsSound(s: Span)
    requires Stable(s) && ParseParams(s).Some?
    ensures var (ps, rest) := ParseParams(s).value; WellParams(ps) && Reads(s, EssenceOfSpans(ps) + [Punct(')')], rest)
    decreases |s|
  {
    var (ps, rest) := ParseParams(s).value;
    var t := SkipWs(s);
    ReadWs(s);
    if t[0] == Punct(')') {
      ReadNext(s);
      assert [] + [Punct(')')] == [Punct(')')];
    } else {
      var n := ParamLen(t).value;
      var u := SkipComma(t[n..]);
      ReadParam(t);
      ReadComma(t[n..]);
      ParamsSound(u);
      Then(t, Essence(t[..n]), t[n..], [], u);
      assert Essence(t[..n]) + [] == Essence(t[..n]);
      ThenList(s, t, Essence(t[..n]), u, EssenceOfSpans(ps[1..]), [Punct(')')], rest);
      forall i | 0 <= i < |ps| ensures WellParam(ps[i]) {
        if i > 0 { assert WellParam(ps[1..][i - 1]); }
      }
    }
  }

  lemma {:induction false} TrailingWs(s: Span)
    ensures var e := DropTrailingWs(s);
      && |e| <= |s| && e == s[..|e|] && (e != [] ==> !e[|e| - 1].Space?)
      && (forall i | |e| <= i < |s| :: s[i].Space?)
      && Essence(s) == Essence(e)
  {
    if s != [] && s[|s| - 1].Space? {
      var r := s[..|s| - 1];
      TrailingWs(r);
      assert s == r + [s[|s| - 1]];
      EssenceConcat(r, [s[|s| - 1]]);
      forall i | |DropTrailingWs(s)| <= i < |s| ensures s[i].Space? {
        if i < |r| { assert r[i].Space?; }
      }
    }
  }

  /** One array element, read from a list that starts with it. */
  lemma {:induction false} ReadElem(t: Span)
    requires Stable(t) && t != [] && !t[0].Space? && Inside(t, [], true).Some?
    ensures var n := Inside(t, [], true).value;
      && n < |t|
      && var e := DropTrailingWs(t[..n]);
      && Reads(t, Essence(e), t[n..])
      && (e != [] && !e[0].Comment? && !e[|e| - 1].Comment? ==> WellElem(e))
  {
    var z := Punct(']');
    InsideLocal(t, [], true, z, []);
    var n := Inside(t, [], true).value;
    var e := DropTrailingWs(t[..n]);
    TrailingWs(t[..n]);
    ReadCut(t, n);
    if e != [] && !e[0].Comment? && !e[|e| - 1].Comment? {
      forall i | |e| <= i < n ensures t[i].Space? { assert t[..n][i].Space?; }
      InsideCut(t, [], true, |e|, z, []);
      assert t[..|e|] == e;
      assert t[..|e|] + [z] + [] == e + [z];
      ReadCut(t, |e|);
    }
  }

  lemma {:induction false} ElemsSound(s: Span)
    requires Stable(s) && ParseElems(s).Some?
    ensures var (es, rest) := ParseElems(s).value; WellElems(es) && Reads(s, EssenceOfSpans(es) + [Punct(']')], rest)
    decreases |s|
  {
    var (es, rest) := ParseElems(s).value;
    var t := SkipWs(s);
    ReadWs(s);
    if t[0] == Punct(']') {
      ReadNext(s);
      assert [] + [Punct(']')] == [Punct(']')];
    } else {
      var n := Inside(t, [], true).value;
      ReadElem(t);
      var e := DropTrailingWs(t[..n]);
      ReadOne(t[n..]);
      assert t[n..][1..] == t[n + 1..];
      if t[n] == Punct(']') {
        LastElem(s, t, e, t[n..], t[n + 1..]);
      } else {
        ElemsSound(t[n + 1..]);
        Then(t, Essence(e), t[n..], [], t[n + 1..]);
        assert Essence(e) + [] == Essence(e);
        ThenList(s, t, Essence(e), t[n + 1..], EssenceOfSpans(es[1..]), [Punct(']')], rest);
        forall i | 0 <= i < |es| ensures WellElem(es[i]) {
          if i > 0 { assert WellElem(es[1..][i - 1]); }
        }
      }
    }
  }

  lemma LastElem(s: Span, t: Span, e: Span, u: Span, rest: Span)
    requires Reads(s, [], t) && Reads(t, Essence(e), u) && Reads(u, [Punct(']')], rest)
    ensures Reads(s, EssenceOfSpans([e]) + [Punct(']')], rest)
  {
    assert EssenceOfSpans([e]) == Essence(e) + EssenceOfSpans([]);
    ThenList(s, t, Essence(e), u, [], [Punct(']')], rest);
  }

  // ---------------------------------------------------------------- agent items

  lemma AttributeSound(s: Span)
    requires Stable(s) && ParseAttribute(s).Some?
    ensures var (a, rest) := ParseAttribute(s).value;
      WellAttribute(a) && Reads(s, [a.key, Punct('=')] + Essence(a.value), rest)
  {
    var t := Expect(s[1..], Punct('=')).value;
    ReadOne(s);
    ReadExpect(s[1..], Punct('='));
    Then(s, [s[0]], s[1..], [Punct('=')], t);
    ReadValuePart(s, [s[0]] + [Punct('=')], t, false);
    assert [s[0]] + [Punct('=')] == [s[0], Punct('=')];
  }

  /** White space, a value and a comma behind what was read before. */
  lemma ReadValuePart(s: Span, said: Span, t: Span, record: bool)
    requires Stable(t) && Reads(s, said, t) && ValueLen(SkipWs(t), record).Some?
    ensures var v := SkipWs(t); var n := ValueLen(v, record).value;
      && n <= |v| && IsValue(v[..n], record) && Stable(v[..n])
      && Reads(s, said + Essence(v[..n]), SkipComma(v[n..]))
  {
    var v := SkipWs(t);
    var n := ValueLen(v, record).value;
    ReadWs(t);
    ReadValue(v, record);
    ReadComma(v[n..]);
    Then(s, said, t, [], v);
    Then(s, said + [], v, Essence(v[..n]), v[n..]);
    Then(s, said + [] + Essence(v[..n]), v[n..], [], SkipComma(v[n..]));
    NothingBetween(said, Essence(v[..n]));
  }

  lemma NothingBetween(said: Span, value: Span)
    ensures said + [] + value + [] == said + value
  {}

  lemma {:induction false} AttributesSound(s: Span)
    requires Stable(s) && ParseAttributes(s).Some?
    ensures var (attrs, rest) := ParseAttributes(s).value;
            WellAttributes(attrs) && Reads(s, EssenceOfAttributes(attrs), rest)
    decreases |s|
  {
    var (attrs, rest) := ParseAttributes(s).value;
    var t := SkipWs(s);
    ReadWs(s);
    if t[0] != OPEN {
      var (a, u) := ParseAttribute(t).value;
      AttributeSound(t);
      AttributesSound(u);
      var first := [a.key, Punct('=')] + Essence(a.value);
      Then(t, first, u, EssenceOfAttributes(attrs[1..]), rest);
      Then(s, [], t, EssenceOfAttributes(attrs), rest);
      assert [] + EssenceOfAttributes(attrs) == EssenceOfAttributes(attrs);
      forall i | 0 <= i < |attrs| ensures WellAttribute(attrs[i]) {
        if i > 0 { assert WellAttribute(attrs[1..][i - 1]); }
      }
    }
  }

  lemma CapabilitiesSound(s: Span)
    requires Stable(s) && s != [] && s[0] == Word("capabilities") && ParseCapabilities(s[1..]).Some?
    ensures var (item, rest) := ParseCapabilities(s[1..]).value;
            WellAgentItem(item) && Reads(s, EssenceOfAgentItem(item), rest)
  {
    var (item, rest) := ParseCapabilities(s[1..]).value;
    var t := SkipWs(s[1..]);
    var bracket := Punct('[');
    var a := Expect(t[1..], bracket).value;
    ReadOne(s);
    ReadNext(s[1..]);
    Then(s, [s[0]], s[1..], [t[0]], t[1..]);
    ReadExpect(t[1..], bracket);
    Then(s, [s[0]] + [t[0]], t[1..], [bracket], a);
    ElemsSound(a);
    Then(s, [s[0]] + [t[0]] + [bracket], a, EssenceOfSpans(item.elems) + [Punct(']')], rest);
    CapabilitiesEssence(s[0], t[0], EssenceOfSpans(item.elems));
  }

  lemma CapabilitiesEssence(kw: Lexeme, sep: Lexeme, elems: Span)
    ensures [kw] + [sep] + [Punct('[')] + (elems + [Punct(']')]) == [kw, sep, Punct('[')] + elems + [Punct(']')]
  {}

  lemma WithSound(s: Span)
    requires Stable(s) && s != [] && s[0] == Word("with") && ParseWith(s[1..]).Some?
    ensures var (item, rest) := ParseWith(s[1..]).value; WellAgentItem(item) && Reads(s, EssenceOfAgentItem(item), rest)
  {
    var (item, rest) := ParseWith(s[1..]).value;
    var (attrs, u) := ParseAttributes(s[1..]).value;
    ReadOne(s);
    AttributesSound(s[1..]);
    Then(s, [s[0]], s[1..], EssenceOfAttributes(attrs), u);
    AttributesStopAtBody(s[1..]);
    BracketedLocal(u, []);
    var n := BracketedLen(u).value;
    assert u[..n] + [] == u[..n];
    ReadCut(u, n);
    Then(s, [s[0]] + EssenceOfAttributes(attrs), u, Essence(u[..n]), rest);
  }

  lemma {:induction false} AttributesStopAtBody(s: Span)
    requires ParseAttributes(s).Some?
    ensures var rest := ParseAttributes(s).value.1; rest != [] && rest[0] == OPEN
    decreases |s|
  {
    var t := SkipWs(s);
    if t[0] != OPEN {
      AttributesStopAtBody(ParseAttribute(t).value.1);
    }
  }

  lemma AgentItemSound(s: Span)
    requires Stable(s) && s != [] && !s[0].Space? && ParseAgentItem(s).Some?
    ensures var (item, rest) := ParseAgentItem(s).value; WellAgentItem(item) && Reads(s, EssenceOfAgentItem(item), rest)
  {
    if s[0].Comment? {
      ReadOne(s);
    } else if s[0] == Word("capabilities") {
      CapabilitiesSound(s);
    } else if s[0] == Word("with") {
      WithSound(s);
    } else {
      DefinitionLocal(s, []);
      var n := DefinitionLen(s).value;
      assert s[..n] + [] == s[..n];
      ReadCut(s, n);
    }
  }

  lemma {:induction false} AgentItemsSound(s: Span)
    requires Stable(s) && ParseAgentItems(s).Some?
    ensures var (items, rest) := ParseAgentItems(s).value;
      WellAgentItems(items) && Reads(s, EssenceOfAgentItems(items) + [CLOSE], rest)
    decreases |s|
  {
    var (items, rest) := ParseAgentItems(s).value;
    var t := SkipWs(s);
    ReadWs(s);
    if t[0] == CLOSE {
      ReadNext(s);
      assert [] + [CLOSE] == [CLOSE];
    } else {
      var (item, u) := ParseAgentItem(t).value;
      AgentItemSound(t);
      AgentItemsSound(u);
      ThenList(s, t, EssenceOfAgentItem(item), u, EssenceOfAgentItems(items[1..]), [CLOSE], rest);
      forall i | 0 <= i < |items| ensures WellAgentItem(items[i]) {
        if i > 0 { assert WellAgentItem(items[1..][i - 1]); }
      }
    }
  }

  // ---------------------------------------------------------------- items

  lemma OptionalParamsSound(s: Span)
    requires Stable(s) && ParseOptionalParams(s).Some?
    ensures var (params, rest) := ParseOptionalParams(s).value;
      (params.Some? ==> WellParams(params.value)) && Reads(s, EssenceOfParams(params), rest)
  {
    var paren := Punct('(');
    var t := Expect(s, paren);
    if t.None? {
      assert [] + Essence(s) == Essence(s);
    } else {
      var (ps, rest) := ParseParams(t.value).value;
      ReadExpect(s, paren);
      ParamsSound(t.value);
      Then(s, [paren], t.value, EssenceOfSpans(ps) + [Punct(')')], rest);
      assert [paren] + (EssenceOfSpans(ps) + [Punct(')')]) == [paren] + EssenceOfSpans(ps) + [Punct(')')];
    }
  }

  lemma ReturnSound(s: Span)
    requires Stable(s) && ParseReturn(s).Some?
    ensures var (ret, rest) := ParseReturn(s).value; WellReturn(ret) && Reads(s, EssenceOfReturn(ret), rest)
  {
    var t := SkipWs(s);
    assert [] + Essence(s) == Essence(s);
    if |t| >= 2 && t[0] == Punct('-') && t[1] == Punct('>') {
      var u := SkipWs(t[2..]);
      var n := TypeLen(u).value;
      ReadNext(s);
      ReadOne(t[1..]);
      assert t[1..][1..] == t[2..];
      Then(s, [t[0]], t[1..], [t[1]], t[2..]);
      ReadWs(t[2..]);
      Then(s, [t[0]] + [t[1]], t[2..], [], u);
      ReadType(u);
      Then(s, [t[0]] + [t[1]] + [], u, Essence(u[..n]), u[n..]);
      assert [t[0]] + [t[1]] + [] == [Punct('-'), Punct('>')];
    }
  }

  lemma AgentSound(s: Span)
    requires Stable(s) && s != [] && s[0] == Word("agent") && ParseAgent(s[1..]).Some?
    ensures var (item, rest) := ParseAgent(s[1..]).value; WellItem(item) && Reads(s, EssenceOfItem(item), rest)
  {
    var (item, rest) := ParseAgent(s[1..]).value;
    var t := SkipWs(s[1..]);
    var (params, u) := ParseOptionalParams(t[1..]).value;
    var (ret, v) := ParseReturn(u).value;
    var b := Expect(v, OPEN).value;
    ReadOne(s);
    ReadNext(s[1..]);
    Then(s, [s[0]], s[1..], [t[0]], t[1..]);
    OptionalParamsSound(t[1..]);
    Then(s, [s[0]] + [t[0]], t[1..], EssenceOfParams(params), u);
    ReturnSound(u);
    Then(s, [s[0]] + [t[0]] + EssenceOfParams(params), u, EssenceOfReturn(ret), v);
    ReadExpect(v, OPEN);
    Then(s, [s[0]] + [t[0]] + EssenceOfParams(params) + EssenceOfReturn(ret), v, [OPEN], b);
    AgentItemsSound(b);
    Then(s, [s[0]] + [t[0]] + EssenceOfParams(params) + EssenceOfReturn(ret) + [OPEN], b,
         EssenceOfAgentItems(item.items) + [CLOSE], rest);
    AgentEssence(item, s[0], t[0]);
  }

  lemma AgentEssence(item: Item, kw: Lexeme, name: Lexeme)
    requires item.Agent? && kw == Word("agent") && name == item.name
    ensures [kw] + [name] + EssenceOfParams(item.params) + EssenceOfReturn(item.ret) + [OPEN]
            + (EssenceOfAgentItems(item.items) + [CLOSE]) == EssenceOfItem(item)
  {
    assert [kw] + [name] == [Word("agent"), item.name];
  }

  lemma MetadataSound(s: Span)
    requires Stable(s) && s != [] && s[0] == Word("metadata") && ParseItem(s).Some?
    ensures var (item, rest) := ParseItem(s).value; WellItem(item) && Reads(s, EssenceOfItem(item), rest)
  {
    var b := Expect(s[1..], OPEN).value;
    var (es, rest) := ParseEntries(b).value;
    ReadOne(s);
    ReadExpect(s[1..], OPEN);
    Then(s, [s[0]], s[1..], [OPEN], b);
    EntriesSound(b);
    Then(s, [s[0]] + [OPEN], b, EssenceOfEntries(es) + [CLOSE], rest);
    MetadataEssence(s[0], EssenceOfEntries(es));
  }

  lemma MetadataEssence(kw: Lexeme, entries: Span)
    requires kw == Word("metadata")
    ensures [kw] + [OPEN] + (entries + [CLOSE]) == [Word("metadata"), OPEN] + entries + [CLOSE]
  {
    assert [kw] + [OPEN] == [Word("metadata"), OPEN];
  }

  lemma ItemSound(s: Span)
    requires Stable(s) && s != [] && !s[0].Space? && ParseItem(s).Some?
    ensures var (item, rest) := ParseItem(s).value; WellItem(item) && Reads(s, EssenceOfItem(item), rest)
  {
    if s[0].Comment? {
      ReadOne(s);
    } else if s[0] == Word("metadata") {
      MetadataSound(s);
    } else if s[0] == Word("agent") {
      AgentSound(s);
    } else {
      VerbatimLocal(s, []);
      var n := VerbatimLen(s).value;
      assert s[..n] + [] == s[..n];
      ReadCut(s, n);
    }
  }

  /** The parser reads every significant lexeme into the tree, in order, and nothing else. */
  lemma {:induction false} ParseSound(s: Span)
    requires Stable(s) && Parse(s).Some?
    ensures WellProgram(Parse(s).value) && Essence(s) == EssenceOfProgram(Parse(s).value)
    decreases |s|
  {
    var p := Parse(s).value;
    var t := SkipWs(s);
    ReadWs(s);
    if t != [] {
      var (item, u) := ParseItem(t).value;
      ItemSound(t);
      ParseSound(u);
      Then(s, [], t, EssenceOfItem(item), u);
      assert [] + EssenceOfItem(item) == EssenceOfItem(item);
      forall i | 0 <= i < |p| ensures WellItem(p[i]) {
        if i > 0 { assert WellItem(p[1..][i - 1]); }
      }
    }
  }
}
