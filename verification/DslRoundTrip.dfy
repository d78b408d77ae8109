/** Parsing the printed lexemes of a well-formed tree gives the canonical tree. */
module DslRoundTrip {
  import opened Text
  import opened DslLexer
  import opened DslTree
  import opened DslParser
  import opened DslSpans
  import opened DslSound

  lemma {:induction false} SkipBlank(w: Span, s: Span)
    requires Blank(w)
    ensures SkipWs(w + s) == SkipWs(s)
    ensures s != [] && !s[0].Space? ==> SkipWs(w + s) == s
  {
    if w == [] {
      assert w + s == s;
    } else {
      SkipBlank(w[1..], s);
      assert (w + s)[1..] == w[1..] + s;
    }
  }

  /** Cutting a concatenation where it was joined. */
  lemma Rejoined(v: Span, u: Span)
    ensures (v + u)[..|v|] == v && (v + u)[|v|..] == u && v[..|v|] == v
    ensures v != [] ==> (v + u)[0] == v[0]
  {}

  lemma ValueBack(v: Span, record: bool, u: Span)
    requires IsValue(v, record)
    ensures ValueLen(v + u, record) == Some(|v|) && (v + u)[..|v|] == v && (v + u)[|v|..] == u
  {
    Rejoined(v, u);
    ValueLocal(v, record, u);
  }

  // ---------------------------------------------------------------- metadata

  lemma PairBack(e: Entry, u: Span)
    requires WellEntry(e) && e.Pair?
    ensures ParseEntry(EntryText(e) + u) == Some((e, u))
  {
    var tail := [COMMA] + u;
    PairInside(e.key, Separator(e.sep), e.value, u);
    AfterSeparator(e.sep, e.value + tail);
    ValueBack(e.value, true, tail);
    assert SkipComma(tail) == u;
  }

  lemma PairInside(key: Lexeme, sep: Span, value: Span, u: Span)
    ensures var s := [key] + sep + value + [COMMA] + u; s[0] == key && s[1..] == sep + (value + ([COMMA] + u))
  {}

  lemma AfterSeparator(sep: char, v: Span)
    requires IsSep(sep) && v != [] && !v[0].Space?
    ensures var t := SkipWs(Separator(sep) + v); t != [] && t[0] == Punct(sep) && SkipWs(t[1..]) == v
  {
    var w: Span := if sep == '=' then [SP] else [];
    SkipBlank(w, [Punct(sep)] + ([SP] + v));
    SeparatorInside(sep, w, v);
    SkipBlank([SP], v);
  }

  lemma SeparatorInside(sep: char, w: Span, v: Span)
    requires IsSep(sep) && w == if sep == '=' then [SP] else []
    ensures Separator(sep) + v == w + ([Punct(sep)] + ([SP] + v)) && ([Punct(sep)] + ([SP] + v))[1..] == [SP] + v
  {}

  /** Nothing but the closing mark is left. */
  lemma BackToEnd(w: Span, end: Span)
    requires Blank(w) && end != [] && !end[0].Space?
    ensures SkipWs(w + ([] + end)) == end
  {
    assert [] + end == end;
    SkipBlank(w, end);
  }

  lemma TailEntries(es: seq<Entry>)
    requires WellEntries(es) && es != []
    ensures WellEntries(es[1..])
  {
    forall i | 0 <= i < |es| - 1 ensures WellEntry(es[1..][i]) { assert WellEntry(es[i + 1]); }
  }

  lemma EntryBack(e: Entry, u: Span)
    requires WellEntry(e)
    ensures var t := EntryText(e) + u;
      && t[0] == EntryText(e)[0] && !t[0].Space? && t[0] != CLOSE && (t[0].Comment? <==> e.EntryComment?)
      && (if e.Pair? then ParseEntry(t) == Some((e, u)) else t[0] == e.comment && t[1..] == u)
  {
    if e.Pair? {
      PairBack(e, u);
    }
  }

  lemma {:induction false} EntriesBack(w: Span, es: seq<Entry>, u: Span)
    requires Blank(w) && WellEntries(es)
    ensures ParseEntries(w + (PrintEntries(es) + ([CLOSE] + u))) == Some((es, u))
    decreases |es|
  {
    var end := [CLOSE] + u;
    if es == [] {
      BackToEnd(w, end);
    } else {
      assert WellEntry(es[0]);
      TailEntries(es);
      var rest := [NL] + (PrintEntries(es[1..]) + end);
      EntriesBack([NL], es[1..], u);
      LineInside(w, EntryText(es[0]), PrintEntries(es[1..]), end);
      EntryBack(es[0], rest);
      SkipBlank(w + INDENT, EntryText(es[0]) + rest);
      EntriesStepBack(w + INDENT + (EntryText(es[0]) + rest), EntryText(es[0]) + rest, es[0], rest, es[1..], u);
      assert [es[0]] + es[1..] == es;
    }
  }

  lemma EntriesStepBack(s: Span, t: Span, e: Entry, rest: Span, others: seq<Entry>, u: Span)
    requires SkipWs(s) == t && 0 < |t| <= |s| && t[0] != CLOSE && |rest| < |t|
    requires t[0].Comment? <==> e.EntryComment?
    requires if e.Pair? then ParseEntry(t) == Some((e, rest)) else t[0] == e.comment && t[1..] == rest
    requires ParseEntries(rest) == Some((others, u))
    ensures ParseEntries(s) == Some(([e] + others, u))
  {}

  /** Regrouping a printed line and what stands around it. */
  lemma LineInside(w: Span, text: Span, others: Span, end: Span)
    ensures w + (INDENT + text + [NL] + others + end) == w + INDENT + (text + ([NL] + (others + end)))
  {}

  // ---------------------------------------------------------------- parameters and elements

  /** A type is not followed by the opening of type arguments in printed text. */
  lemma NoAngleHere(u: Span)
    requires |u| >= 2 && u[0] != Punct('<') && (u[0].Space? ==> !u[1].Space? && u[1] != Punct('<'))
    ensures NoAngle(u)
  {
    if u[0].Space? {
      assert NextAt(u, 1) == 1;
    }
  }

  lemma ParamBack(w: Span, p: Span, tail: Span)
    requires Blank(w) && WellParam(p) && NoAngle(tail)
    ensures var t := SkipWs(w + (p + tail));
      && t == p + tail && t != [] && t[0] != Punct(')') && ParamLen(t) == Some(|p|)
      && t[..|p|] == p && t[|p|..] == tail
  {
    Rejoined(p, tail);
    SkipBlank(w, p + tail);
    ParamLocal(p, tail);
  }

  lemma ParamsStep(s: Span, p: Span, tail: Span, others: seq<Span>, u: Span)
    requires var t := SkipWs(s);
      && 0 < |t| <= |s| && t[0] != Punct(')') && ParamLen(t) == Some(|p|) && t == p + tail
      && t[..|p|] == p && t[|p|..] == tail
    requires p != [] && ParseParams(SkipComma(tail)) == Some((others, u)) && |SkipComma(tail)| <= |tail|
    ensures ParseParams(s) == Some(([p] + others, u))
  {}

  lemma {:induction false} ParamsBack(w: Span, ps: seq<Span>, u: Span)
    requires Blank(w) && WellParams(ps) && u != []
    ensures ParseParams(w + (Joined(ps) + ([Punct(')')] + u))) == Some((ps, u))
    decreases |ps|
  {
    var end := [Punct(')')] + u;
    if ps == [] {
      BackToEnd(w, end);
    } else {
      assert WellParam(ps[0]);
      TailParams(ps);
      if |ps| == 1 {
        LastParam(w, ps[0], u);
        assert ps == [ps[0]];
      } else {
        ParamsBack([SP], ps[1..], u);
        MoreParams(w, ps[0], ps[1..], u);
        assert [ps[0]] + ps[1..] == ps;
      }
    }
  }

  lemma TailParams(ps: seq<Span>)
    requires WellParams(ps) && ps != []
    ensures WellParams(ps[1..])
  {
    forall i | 0 <= i < |ps| - 1 ensures WellParam(ps[1..][i]) { assert WellParam(ps[i + 1]); }
  }

  lemma NoMoreParams(u: Span)
    ensures var end := [Punct(')')] + u; SkipComma(end) == end && ParseParams(end) == Some(([], u))
  {
    var end := [Punct(')')] + u;
    assert end[0] == Punct(')') && end[1..] == u && SkipWs(end) == end;
  }

  lemma LastParam(w: Span, p: Span, u: Span)
    requires Blank(w) && WellParam(p) && u != []
    ensures ParseParams(w + (Joined([p]) + ([Punct(')')] + u))) == Some(([p], u))
  {
    var end := [Punct(')')] + u;
    NoAngleHere(end);
    ParamBack(w, p, end);
    NoMoreParams(u);
    assert Joined([p]) == p;
    ParamsStep(w + (p + end), p, end, [], u);
    assert [p] + [] == [p];
  }

  lemma MoreParams(w: Span, p: Span, others: seq<Span>, u: Span)
    requires Blank(w) && WellParam(p) && others != []
    requires ParseParams([SP] + (Joined(others) + ([Punct(')')] + u))) == Some((others, u))
    ensures ParseParams(w + (Joined([p] + others) + ([Punct(')')] + u))) == Some(([p] + others, u))
  {
    var rest := Joined(others) + ([Punct(')')] + u);
    var tail := [COMMA, SP] + rest;
    NoAngleHere(tail);
    ParamBack(w, p, tail);
    AfterComma(rest);
    ParamsStep(w + (p + tail), p, tail, others, u);
    JoinedMore(p, others, [Punct(')')] + u);
  }

  lemma AfterComma(rest: Span)
    ensures SkipComma([COMMA, SP] + rest) == [SP] + rest
  {
    assert ([COMMA, SP] + rest)[1..] == [SP] + rest;
  }

  lemma JoinedMore(p: Span, others: seq<Span>, end: Span)
    requires others != []
    ensures Joined([p] + others) + end == p + ([COMMA, SP] + (Joined(others) + end))
  {
    assert ([p] + others)[1..] == others;
  }

  lemma ElemBack(e: Span, z: Lexeme, u: Span)
    requires WellElem(e) && Stops(z, [], true)
    ensures var t := e + ([z] + u);
      Inside(t, [], true) == Some(|e|) && t[..|e|] == e && t[|e|] == z && t[|e| + 1..] == u
      && DropTrailingWs(e) == e && t[0] == e[0] && t[0] != Punct(']') && !t[0].Space?
  {
    var s := e + [Punct(']')];
    Rejoined(e, [z] + u);
    Rejoined(e, [Punct(']')]);
    InsideLocal(s, [], true, z, u);
    SameGrouping(e, z, u);
    assert s[0] == e[0];
  }

  lemma SameGrouping(e: Span, z: Lexeme, u: Span)
    ensures e + [z] + u == e + ([z] + u) && (e + ([z] + u))[|e|] == z && (e + ([z] + u))[|e| + 1..] == u
  {}

  lemma {:induction false} ElemsBack(w: Span, es: seq<Span>, u: Span)
    requires Blank(w) && WellElems(es)
    ensures ParseElems(w + (Joined(es) + ([Punct(']')] + u))) == Some((es, u))
    decreases |es|
  {
    var end := [Punct(']')] + u;
    if es == [] {
      assert [] + end == end;
      SkipBlank(w, end);
    } else {
      var e, others := es[0], es[1..];
      assert WellElem(e);
      if others == [] {
        assert Joined(es) + end == e + end;
        ElemBack(e, Punct(']'), u);
        SkipBlank(w, e + end);
        assert [e] == es;
      } else {
        forall i | 0 <= i < |others| ensures WellElem(others[i]) { assert WellElem(es[i + 1]); }
        var rest := [SP] + (Joined(others) + end);
        var t := e + ([COMMA] + rest);
        assert Joined(es) + end == t;
        ElemBack(e, COMMA, rest);
        SkipBlank(w, t);
        ElemsBack([SP], others, u);
        assert [e] + others == es;
      }
    }
  }

  // ---------------------------------------------------------------- agent items

  lemma AttributeBack(a: Attribute, u: Span)
    requires WellAttribute(a)
    ensures ParseAttribute(PrintAttribute(a) + u) == Some((a, SkipComma(u)))
  {
    var s := PrintAttribute(a) + u;
    var v := a.value + u;
    assert s[0] == a.key && s[1..] == [SP] + ([Punct('=')] + ([SP] + v));
    EqualsBack(v);
    ValueBack(a.value, false, u);
    SkipBlank([SP], v);
    AttributeParts(s, a, [SP] + v, v, u);
  }

  lemma EqualsBack(v: Span)
    ensures Expect([SP] + ([Punct('=')] + ([SP] + v)), Punct('=')) == Some([SP] + v)
  {
    var t := [Punct('=')] + ([SP] + v);
    SkipBlank([SP], t);
    assert t[1..] == [SP] + v;
  }

  lemma AttributeParts(s: Span, a: Attribute, t: Span, v: Span, u: Span)
    requires s != [] && IsIdent(s[0]) && s[0] == a.key && Expect(s[1..], Punct('=')) == Some(t) && SkipWs(t) == v
    requires ValueLen(v, false) == Some(|a.value|) && |a.value| <= |v| && v[..|a.value|] == a.value
            && v[|a.value|..] == u
    ensures ParseAttribute(s) == Some((a, SkipComma(u)))
  {}

  lemma AttributesStep(s: Span, a: Attribute, tail: Span, others: seq<Attribute>, b: Span)
    requires var t := PrintAttribute(a) + tail; SkipWs(s) == t && |t| <= |s| && t[0] != OPEN
    requires ParseAttribute(PrintAttribute(a) + tail) == Some((a, SkipComma(tail)))
    requires ParseAttributes(SkipComma(tail)) == Some((others, b)) && |SkipComma(tail)| <= |tail|
    ensures ParseAttributes(s) == Some(([a] + others, b))
  {}

  lemma TailAttributes(attrs: seq<Attribute>)
    requires WellAttributes(attrs) && attrs != []
    ensures WellAttributes(attrs[1..])
  {
    forall i | 0 <= i < |attrs| - 1 ensures WellAttribute(attrs[1..][i]) { assert WellAttribute(attrs[i + 1]); }
  }

  lemma LastAttribute(w: Span, a: Attribute, b: Span)
    requires Blank(w) && WellAttribute(a) && b != [] && b[0] == OPEN
    ensures ParseAttributes(w + (PrintAttribute(a) + ([SP] + b))) == Some(([a], b))
  {
    var tail := [SP] + b;
    AttributeStarts(a, tail);
    SkipBlank(w, PrintAttribute(a) + tail);
    AttributeBack(a, tail);
    SkipBlank([SP], b);
    AttributesStep(w + (PrintAttribute(a) + tail), a, tail, [], b);
    assert [a] + [] == [a];
  }

  lemma AttributeStarts(a: Attribute, tail: Span)
    requires WellAttribute(a)
    ensures var t := PrintAttribute(a) + tail; t[0] == a.key && !t[0].Space? && t[0] != OPEN
  {}

  lemma MoreAttributes(w: Span, a: Attribute, others: seq<Attribute>, b: Span)
    requires Blank(w) && WellAttribute(a)
    requires ParseAttributes([SP] + (PrintAttributes(others) + ([SP] + b))) == Some((others, b))
    ensures ParseAttributes(w + (PrintAttribute(a) + [COMMA, SP] + PrintAttributes(others) + ([SP] + b)))
            == Some(([a] + others, b))
  {
    var rest := PrintAttributes(others) + ([SP] + b);
    var tail := [COMMA, SP] + rest;
    AttributeStarts(a, tail);
    SkipBlank(w, PrintAttribute(a) + tail);
    AttributeBack(a, tail);
    AfterComma(rest);
    AttributesStep(w + (PrintAttribute(a) + tail), a, tail, others, b);
    AttributesInside(PrintAttribute(a), PrintAttributes(others), [SP] + b);
  }

  lemma AttributesInside(a: Span, others: Span, end: Span)
    ensures a + [COMMA, SP] + others + end == a + ([COMMA, SP] + (others + end))
  {}

  lemma NoAttributes(w: Span, b: Span)
    requires Blank(w) && b != [] && b[0] == OPEN
    ensures ParseAttributes(w + ([] + ([SP] + b))) == Some(([], b))
  {
    assert w + ([] + ([SP] + b)) == w + [SP] + b;
    SkipBlank(w + [SP], b);
  }

  lemma {:induction false} AttributesBack(w: Span, attrs: seq<Attribute>, b: Span)
    requires Blank(w) && WellAttributes(attrs) && b != [] && b[0] == OPEN
    ensures ParseAttributes(w + (PrintAttributes(attrs) + ([SP] + b))) == Some((attrs, b))
    decreases |attrs|
  {
    if attrs == [] {
      NoAttributes(w, b);
    } else {
      assert WellAttribute(attrs[0]);
      TailAttributes(attrs);
      HeadAndTail(attrs);
      if |attrs| == 1 {
        OneAttributeText(attrs);
        LastAttribute(w, attrs[0], b);
      } else {
        FirstAttributeText(attrs);
        AttributesBack([SP], attrs[1..], b);
        MoreAttributes(w, attrs[0], attrs[1..], b);
      }
    }
  }

  lemma OneAttributeText(attrs: seq<Attribute>)
    requires |attrs| == 1
    ensures PrintAttributes(attrs) == PrintAttribute(attrs[0])
  {}

  lemma FirstAttributeText(attrs: seq<Attribute>)
    requires |attrs| > 1
    ensures PrintAttributes(attrs) == PrintAttribute(attrs[0]) + [COMMA, SP] + PrintAttributes(attrs[1..])
  {}

  lemma HeadAndTail<T>(xs: seq<T>)
    requires xs != []
    ensures xs == [xs[0]] + xs[1..] && (|xs| == 1 ==> xs == [xs[0]])
  {}

  lemma CapabilitiesBack(sep: char, elems: seq<Span>, u: Span)
    requires IsSep(sep) && WellElems(elems)
    ensures ParseAgentItem(CapabilitiesText(sep, elems) + u) == Some((Capabilities(sep, elems), u))
  {
    var inner := Joined(elems) + ([Punct(']')] + u);
    var s := CapabilitiesText(sep, elems) + u;
    CapabilitiesInside(Separator(sep), Joined(elems), u);
    StartsCapabilities(s);
    ElemsBack([], elems, u);
    AfterSeparator(sep, [Punct('[')] + inner);
    CapabilitiesParts(s[1..], sep, inner, elems, u);
  }

  lemma StartsCapabilities(s: Span)
    requires s != [] && s[0] == Word("capabilities")
    ensures ParseAgentItem(s) == ParseCapabilities(s[1..])
  {}

  lemma CapabilitiesParts(s: Span, sep: char, inner: Span, elems: seq<Span>, u: Span)
    requires IsSep(sep) && ParseElems(inner) == Some((elems, u))
    requires var t := SkipWs(s); t != [] && t[0] == Punct(sep) && SkipWs(t[1..]) == [Punct('[')] + inner
    ensures ParseCapabilities(s) == Some((Capabilities(sep, elems), u))
  {
    assert ([Punct('[')] + inner)[1..] == inner;
  }

  lemma CapabilitiesInside(sep: Span, elems: Span, u: Span)
    ensures var s := [Word("capabilities")] + sep + [Punct('[')] + elems + [Punct(']')] + u;
      var inner := elems + ([Punct(']')] + u);
      && s[0] == Word("capabilities") && s[1..] == sep + ([Punct('[')] + inner)
      && ([Punct('[')] + inner)[1..] == inner && [] + inner == inner
  {}

  /** The body that is printed is a body, and printing does not change it again. */
  lemma CanonBodyIsBody(body: Span)
    requires IsBody(body)
    ensures IsBody(CanonBody(body)) && CanonBody(CanonBody(body)) == CanonBody(body)
  {
    EmptyBody();
  }

  lemma {:induction false} BlankInside(w: Span)
    requires Blank(w)
    ensures Inside(w + [CLOSE], [], false) == Some(|w|) && Essence(w + [CLOSE]) == [CLOSE]
  {
    if w == [] {
      assert w + [CLOSE] == [CLOSE];
      assert Essence([CLOSE]) == [CLOSE] + Essence([]);
    } else {
      BlankInside(w[1..]);
      assert (w + [CLOSE])[1..] == w[1..] + [CLOSE];
    }
  }

  lemma EmptyBody()
    ensures IsBody(EMPTY_BODY) && Hollow(EMPTY_BODY) && Essence(EMPTY_BODY) == [OPEN, CLOSE]
  {
    var w := [NL] + INDENT;
    BlankInside(w);
    assert EMPTY_BODY == [OPEN] + (w + [CLOSE]);
    assert EMPTY_BODY[1..] == w + [CLOSE];
    EmptyBodyHollow();
  }

  lemma EmptyBodyHollow()
    ensures Hollow(EMPTY_BODY)
  {
    assert EMPTY_BODY == [OPEN, NL, SP, SP, SP, SP, CLOSE];
    FlatMarks([OPEN, NL, SP, SP, SP, SP, CLOSE], "{\n    }");
    TrimAround("\n    ", "", "");
    assert "\n    " + "" + "" == "\n    ";
    assert TrimOpening("\n    }") == "\n    }";
    assert "{\n    }"[1..] == "\n    }";
    assert "\n    }"[..5] == "\n    ";
  }

  /** The text of a list of one-character lexemes. */
  lemma {:induction false} FlatMarks(ls: Span, t: string)
    requires |ls| == |t| && forall i | 0 <= i < |ls| :: TextOf(ls[i]) == [t[i]]
    ensures Flat(ls) == t
  {
    if ls != [] {
      FlatMarks(ls[1..], t[1..]);
      assert [t[0]] + t[1..] == t;
    }
  }

  lemma WithBack(attrs: seq<Attribute>, body: Span, u: Span)
    requires WellAttributes(attrs) && IsBody(body)
    ensures ParseAgentItem(WithText(attrs, body) + u) == Some((With(attrs, CanonBody(body)), u))
  {
    var b := CanonBody(body);
    CanonBodyIsBody(body);
    Rejoined(b, u);
    WithInside(PrintAttributes(attrs), b, u);
    AttributesBack([SP], attrs, b + u);
    BracketedLocal(b, u);
  }

  lemma WithInside(attrs: Span, b: Span, u: Span)
    ensures var s := [Word("with"), SP] + attrs + [SP] + b + u;
      s[0] == Word("with") && s[1..] == [SP] + (attrs + ([SP] + (b + u)))
  {}

  lemma AgentItemBack(item: AgentItem, u: Span)
    requires WellAgentItem(item)
    ensures ParseAgentItem(AgentItemText(item) + u) == Some((CanonAgentItem(item), u))
  {
    match item
    case Capabilities(sep, elems) => CapabilitiesBack(sep, elems, u);
    case With(attrs, body) => WithBack(attrs, body, u);
    case Echoed(d) => EchoedBack(d, u);
    case ItemComment(c) => assert ([c] + u)[1..] == u;
  }

  lemma EchoedBack(d: Span, u: Span)
    requires IsDefinition(d)
    ensures ParseAgentItem(d + u) == Some((Echoed(d), u))
  {
    Rejoined(d, u);
    DefinitionLocal(d, u);
  }

  lemma AgentItemStarts(item: AgentItem)
    requires WellAgentItem(item)
    ensures var t := AgentItemText(item); t != [] && !t[0].Space? && t[0] != CLOSE
  {}

  lemma TailItems(items: seq<AgentItem>)
    requires WellAgentItems(items) && items != []
    ensures WellAgentItems(items[1..]) && CanonItems(items) == [CanonAgentItem(items[0])] + CanonItems(items[1..])
  {
    var others := items[1..];
    forall i | 0 <= i < |others| ensures WellAgentItem(others[i]) { assert WellAgentItem(items[i + 1]); }
  }

  lemma AgentItemsStep(s: Span, t: Span, item: AgentItem, rest: Span, others: seq<AgentItem>, u: Span)
    requires SkipWs(s) == t && 0 < |t| <= |s| && t[0] != CLOSE && |rest| < |t|
    requires ParseAgentItem(t) == Some((item, rest)) && ParseAgentItems(rest) == Some((others, u))
    ensures ParseAgentItems(s) == Some(([item] + others, u))
  {}

  lemma {:induction false} AgentItemsBack(w: Span, items: seq<AgentItem>, u: Span)
    requires Blank(w) && WellAgentItems(items)
    ensures ParseAgentItems(w + (PrintAgentItems(items) + ([CLOSE] + u))) == Some((CanonItems(items), u))
    decreases |items|
  {
    var end := [CLOSE] + u;
    if items == [] {
      assert [] + end == end && CanonItems(items) == [];
      SkipBlank(w, end);
    } else {
      var item, others := items[0], items[1..];
      assert WellAgentItem(item);
      TailItems(items);
      var gap: Span := if |items| > 1 && !item.ItemComment? then [NL] else [];
      var blanks := [NL] + gap;
      AgentItemsBack(blanks, others, u);
      ItemInside(w, AgentItemText(item), gap, PrintAgentItems(others), end);
      FirstAgentItem(w, item, blanks + (PrintAgentItems(others) + end), CanonItems(others), u);
    }
  }

  lemma FirstAgentItem(w: Span, item: AgentItem, rest: Span, others: seq<AgentItem>, u: Span)
    requires Blank(w) && WellAgentItem(item) && ParseAgentItems(rest) == Some((others, u))
    requires rest != [] && rest[0] == NL
    ensures ParseAgentItems(w + INDENT + (AgentItemText(item) + rest)) == Some(([CanonAgentItem(item)] + others, u))
  {
    AgentItemStarts(item);
    SkipBlank(w + INDENT, AgentItemText(item) + rest);
    AgentItemBack(item, rest);
    AgentItemsStep(w + INDENT + (AgentItemText(item) + rest), AgentItemText(item) + rest,
                   CanonAgentItem(item), rest, others, u);
  }

  lemma ItemInside(w: Span, text: Span, gap: Span, others: Span, end: Span)
    ensures w + (INDENT + text + [NL] + gap + others + end) == w + INDENT + (text + ([NL] + gap + (others + end)))
  {}

  // ---------------------------------------------------------------- items

  lemma OptionalParamsBack(params: Option<seq<Span>>, r: Span)
    requires params.Some? ==> WellParams(params.value)
    requires SkipWs(r) != [] && SkipWs(r)[0] != Punct('(')
    ensures ParseOptionalParams(PrintParams(params) + r) == Some((CanonParams(params), r))
  {
    if params.None? || params.value == [] {
      assert [] + r == r;
    } else {
      var inner := Joined(params.value) + ([Punct(')')] + r);
      ParenInside(Joined(params.value), r);
      ParamsBack([], params.value, r);
      ParamsOpen(params, inner, r);
    }
  }

  lemma ParenInside(ps: Span, r: Span)
    ensures var inner := ps + ([Punct(')')] + r);
      [Punct('(')] + ps + [Punct(')')] + r == [Punct('(')] + inner && [] + inner == inner
  {}

  lemma ParamsOpen(params: Option<seq<Span>>, inner: Span, r: Span)
    requires params.Some? && ParseParams(inner) == Some((params.value, r))
    ensures ParseOptionalParams([Punct('(')] + inner) == Some((params, r))
  {
    assert ([Punct('(')] + inner)[1..] == inner;
  }

  lemma ReturnBack(ret: Option<Span>, body: Span)
    requires WellReturn(ret)
    ensures var b := [SP, OPEN, NL] + body; ParseReturn(PrintReturn(ret) + b) == Some((ret, b))
    ensures var r := SkipWs(PrintReturn(ret) + ([SP, OPEN, NL] + body)); r != [] && r[0] != Punct('(')
  {
    var b := [SP, OPEN, NL] + body;
    if ret.None? {
      assert [] + b == b;
      assert b == [SP] + ([OPEN, NL] + body);
      SkipBlank([SP], [OPEN, NL] + body);
    } else {
      ReturnTypeBack(ret.value, b, body);
    }
  }

  lemma ReturnTypeBack(t: Span, b: Span, body: Span)
    requires WellReturn(Some(t)) && b == [SP, OPEN, NL] + body
    ensures ParseReturn(ARROW + t + b) == Some((Some(t), b))
    ensures var r := SkipWs(ARROW + t + b); r != [] && r[0] != Punct('(')
  {
    var u := [SP] + (t + b);
    assert ARROW + t + b == [SP] + ([Punct('-'), Punct('>')] + u);
    SkipBlank([SP], [Punct('-'), Punct('>')] + u);
    assert ([Punct('-'), Punct('>')] + u)[2..] == u;
    Rejoined(t, b);
    SkipBlank([SP], t + b);
    NoAngleHere(b);
    TypeLocal(t, b);
  }

  lemma AgentBack(name: Lexeme, params: Option<seq<Span>>, ret: Option<Span>, items: seq<AgentItem>, u: Span)
    requires IsName(name) && (params.Some? ==> WellParams(params.value)) && WellReturn(ret) && WellAgentItems(items)
    ensures ParseItem(PrintAgent(name, params, ret, items) + u)
            == Some((Agent(name, CanonParams(params), ret, CanonItems(items)), u))
  {
    var inner := PrintAgentItems(items) + ([CLOSE] + u);
    var b := [SP, OPEN, NL] + inner;
    var r := PrintReturn(ret) + b;
    AgentInside(name, PrintParams(params), PrintReturn(ret), PrintAgentItems(items), u);
    ReturnBack(ret, inner);
    OptionalParamsBack(params, r);
    BodyOpens(inner);
    AgentItemsBack([NL], items, u);
    AgentStep(name, PrintParams(params) + r, CanonParams(params), r, ret, b, [NL] + inner, CanonItems(items), u);
  }

  /** The parts of an agent definition, parsed one behind the other. */
  lemma AgentStep(name: Lexeme, s: Span, params: Option<seq<Span>>, r: Span, ret: Option<Span>, b: Span, body: Span,
                  items: seq<AgentItem>, u: Span)
    requires IsName(name) && ParseOptionalParams(s) == Some((params, r)) && ParseReturn(r) == Some((ret, b))
    requires Expect(b, OPEN) == Some(body) && ParseAgentItems(body) == Some((items, u))
    ensures ParseAgent([SP] + ([name] + s)) == Some((Agent(name, params, ret, items), u))
  {
    SkipBlank([SP], [name] + s);
    assert ([name] + s)[1..] == s;
  }

  lemma BodyOpens(inner: Span)
    ensures Expect([SP, OPEN, NL] + inner, OPEN) == Some([NL] + inner)
  {
    var t := [OPEN, NL] + inner;
    assert [SP, OPEN, NL] + inner == [SP] + t;
    SkipBlank([SP], t);
    assert t[1..] == [NL] + inner;
  }

  lemma AgentInside(name: Lexeme, params: Span, ret: Span, items: Span, u: Span)
    ensures var s := [Word("agent"), SP] + [name] + params + ret + [SP, OPEN, NL] + items + [CLOSE] + u;
      && s[0] == Word("agent")
      && s[1..] == [SP] + ([name] + (params + (ret + ([SP, OPEN, NL] + (items + ([CLOSE] + u))))))
  {}

  lemma MetadataBack(es: seq<Entry>, u: Span)
    requires WellEntries(es)
    ensures ParseItem(PrintMetadata(es) + u) == Some((Metadata(es), u))
  {
    var inner := PrintEntries(es) + ([CLOSE] + u);
    MetadataInside(PrintEntries(es), u);
    BodyOpens(inner);
    EntriesBack([NL], es, u);
  }

  lemma MetadataInside(es: Span, u: Span)
    ensures var s := METADATA_OPEN + es + [CLOSE] + u;
      s[0] == Word("metadata") && s[1..] == [SP, OPEN, NL] + (es + ([CLOSE] + u))
  {}

  lemma ItemBack(item: Item, u: Span)
    requires WellItem(item)
    ensures ParseItem(ItemText(item) + u) == Some((CanonItem(item), u))
    ensures var t := ItemText(item); t != [] && !t[0].Space?
  {
    match item
    case Metadata(es) => MetadataBack(es, u);
    case Agent(name, params, ret, items) => AgentBack(name, params, ret, items, u);
    case Verbatim(d) => VerbatimBack(d, u);
    case TopComment(c) => assert ([c] + u)[1..] == u;
  }

  lemma VerbatimBack(d: Span, u: Span)
    requires IsVerbatim(d)
    ensures ParseItem(d + u) == Some((Verbatim(d), u))
  {
    Rejoined(d, u);
    VerbatimLocal(d, u);
  }

  lemma TailProgram(p: Program)
    requires WellProgram(p) && p != []
    ensures WellProgram(p[1..]) && Canon(p) == [CanonItem(p[0])] + Canon(p[1..])
  {
    var others := p[1..];
    forall i | 0 <= i < |others| ensures WellItem(others[i]) { assert WellItem(p[i + 1]); }
  }

  lemma ProgramStep(s: Span, t: Span, item: Item, rest: Span, others: Program)
    requires SkipWs(s) == t && 0 < |t| <= |s| && |rest| < |t|
    requires ParseItem(t) == Some((item, rest)) && Parse(rest) == Some(others)
    ensures Parse(s) == Some([item] + others)
  {}

  lemma ProgramInside(w: Span, text: Span, gap: Span, others: Span)
    ensures w + (text + [NL] + gap + others) == w + (text + ([NL] + gap + others))
  {}

  /** Parsing what was printed gives the canonical tree. */
  lemma {:induction false} ParsePrinted(w: Span, p: Program)
    requires Blank(w) && WellProgram(p)
    ensures Parse(w + PrintProgram(p)) == Some(Canon(p))
    decreases |p|
  {
    if p == [] {
      assert Canon(p) == [];
      SkipBlank(w, []);
    } else {
      var item, others := p[0], p[1..];
      assert WellItem(item);
      TailProgram(p);
      var gap: Span := if |p| > 1 && !item.TopComment? then [NL] else [];
      var blanks := [NL] + gap;
      var rest := blanks + PrintProgram(others);
      ParsePrinted(blanks, others);
      ProgramInside(w, ItemText(item), gap, PrintProgram(others));
      ItemBack(item, rest);
      SkipBlank(w, ItemText(item) + rest);
      ProgramStep(w + (ItemText(item) + rest), ItemText(item) + rest, CanonItem(item), rest, Canon(others));
    }
  }
}
