/** The printed lexemes are what the printed text lexes to. */
module DslRelex {
  import opened Text
  import opened DslLexer
  import opened DslTree
  import opened DslParser
  import opened DslSpans
  import opened DslSound

  /** A lexeme that anything may follow. */
  predicate IsOpenEnd(l: Lexeme) {
    l.Space? || (l.Punct? && l.c != '/' && l.c != ':')
  }

  /** A lexeme that may follow anything but a comment. */
  predicate IsFence(l: Lexeme) {
    l.Space? || (l.Punct? && !IsWordChar(l.c) && l.c != '.' && l.c != '-' && l.c != '/')
  }

  lemma OpenEndFits(l: Lexeme, m: Lexeme)
    requires IsOpenEnd(l)
    ensures Fits(l, m)
  {}

  lemma FenceFits(l: Lexeme, m: Lexeme)
    requires IsFence(m) && Valid(l) && Valid(m) && IsFirm(l)
    ensures Fits(l, m)
  {
    assert m.Space? ==> IsSpace(m.c);
  }

  /** A stable list that any stable list may follow. */
  ghost predicate Chunk(a: Span) {
    Stable(a) && (a != [] ==> IsOpenEnd(a[|a| - 1]))
  }

  lemma ChunkThen(a: Span, b: Span)
    requires Chunk(a) && Stable(b)
    ensures Stable(a + b)
    ensures Chunk(b) ==> Chunk(a + b)
  {
    if a != [] && b != [] {
      OpenEndFits(a[|a| - 1], b[0]);
    }
    StableJoin(a, b);
  }

  /** A firm end, then something that starts with a fence. */
  lemma FirmThen(a: Span, b: Span)
    requires Stable(a) && a != [] && IsFirm(a[|a| - 1])
    requires Stable(b) && b != [] && IsFence(b[0])
    ensures Stable(a + b)
    ensures Chunk(b) ==> Chunk(a + b)
  {
    assert Valid(a[|a| - 1]) && Valid(b[0]);
    FenceFits(a[|a| - 1], b[0]);
    StableJoin(a, b);
  }

  lemma Sandwich(a: Span, span: Span, b: Span)
    requires Chunk(a) && Stable(span) && span != [] && IsFirm(span[|span| - 1])
    requires Stable(b) && b != [] && IsFence(b[0])
    ensures Stable(a + span + b)
    ensures Chunk(b) ==> Chunk(a + span + b)
  {
    ChunkThen(a, span);
    FirmThen(a + span, b);
  }

  // ---------------------------------------------------------------- the printer's own lexemes

  /** Layout and punctuation marks that the printer writes. */
  predicate IsMark(l: Lexeme) {
    l == SP || l == NL || (l.Punct? && l.c in "{}[](),=:->")
  }

  lemma MarkValid(l: Lexeme)
    requires IsMark(l)
    ensures Valid(l)
  {
    var t := TextOf(l);
    assert t[..1] == t;
  }

  /** A run of marks is stable, if no mark but the last one is a colon. */
  lemma {:induction false} MarksStable(ls: Span)
    requires forall i | 0 <= i < |ls| :: IsMark(ls[i]) && (ls[i] == Punct(':') ==> i == |ls| - 1 || ls[i + 1] == SP)
    ensures Stable(ls)
    ensures ls != [] && ls[|ls| - 1] != Punct(':') ==> Chunk(ls)
  {
    forall i | 0 <= i < |ls| ensures Valid(ls[i]) {
      MarkValid(ls[i]);
    }
    forall i | 0 <= i < |ls| - 1 ensures FitsAt(ls, i) {}
  }

  lemma WordValid(t: string)
    requires t != "" && !IsDigit(t[0]) && forall i | 0 <= i < |t| :: IsWordChar(t[i])
    ensures Valid(Word(t)) && Stable([Word(t)])
  {
    assert IsWordChar(t[0]);
    RunLenIs(t, "", Letters);
    assert t + "" == t && t[..|t|] == t;
  }

  lemma KeywordsValid()
    ensures Stable([Word("metadata")]) && Stable([Word("agent")]) && Stable([Word("capabilities")])
            && Stable([Word("with")])
  {
    KeywordValid("metadata");
    KeywordValid("agent");
    KeywordValid("capabilities");
    KeywordValid("with");
  }

  lemma KeywordValid(t: string)
    requires t == "metadata" || t == "agent" || t == "capabilities" || t == "with"
    ensures Stable([Word(t)])
  {
    WordValid(t);
  }

  lemma OneStable(l: Lexeme)
    requires Valid(l)
    ensures Stable([l])
  {}

  lemma SeparatorStable(sep: char)
    requires IsSep(sep)
    ensures Chunk(Separator(sep)) && Separator(sep) != [] && IsFence(Separator(sep)[0])
  {
    MarksStable(Separator(sep));
  }

  /** What may stand on a line before its end. */
  ghost predicate LineText(a: Span) {
    Stable(a) && a != [] && !a[|a| - 1].Unterminated?
  }

  lemma LineStable(indent: Span, a: Span)
    requires Chunk(indent) && LineText(a)
    ensures Chunk(indent + a + [NL])
  {
    MarksStable([NL]);
    ChunkThen(indent, a);
    var b := indent + a;
    assert Valid(a[|a| - 1]);
    assert b[|b| - 1] == a[|a| - 1] && Fits(a[|a| - 1], NL);
    StableJoin(b, [NL]);
  }

  // ---------------------------------------------------------------- metadata

  lemma EntryTextStable(e: Entry)
    requires WellEntry(e)
    ensures LineText(EntryText(e))
  {
    match e
    case EntryComment(c) =>
      OneStable(c);
    case Pair(key, sep, value) =>
      OneStable(key);
      SeparatorStable(sep);
      MarksStable([COMMA]);
      FirmThen([key], Separator(sep));
      Sandwich([key] + Separator(sep), value, [COMMA]);
  }

  lemma EntryStable(e: Entry)
    requires WellEntry(e)
    ensures Chunk(PrintEntry(e))
  {
    EntryTextStable(e);
    MarksStable(INDENT);
    LineStable(INDENT, EntryText(e));
  }

  lemma {:induction false} EntriesStable(es: seq<Entry>)
    requires WellEntries(es)
    ensures Chunk(PrintEntries(es))
  {
    if es != [] {
      assert WellEntry(es[0]);
      forall i | 0 <= i < |es[1..]| ensures WellEntry(es[1..][i]) { assert WellEntry(es[i + 1]); }
      EntryStable(es[0]);
      EntriesStable(es[1..]);
      ChunkThen(PrintEntry(es[0]), PrintEntries(es[1..]));
    }
  }

  lemma MetadataStable(es: seq<Entry>)
    requires WellEntries(es)
    ensures Chunk(PrintMetadata(es))
  {
    KeywordsValid();
    MarksStable([SP, OPEN, NL]);
    FirmThen([Word("metadata")], [SP, OPEN, NL]);
    assert [Word("metadata")] + [SP, OPEN, NL] == METADATA_OPEN;
    EntriesStable(es);
    MarksStable([CLOSE]);
    ChunkThen(METADATA_OPEN, PrintEntries(es));
    ChunkThen(METADATA_OPEN + PrintEntries(es), [CLOSE]);
  }

  // ---------------------------------------------------------------- spans with commas between them

  ghost predicate FirmSpans(spans: seq<Span>) {
    forall i {:trigger FirmSpan(spans[i])} | 0 <= i < |spans| :: FirmSpan(spans[i])
  }

  ghost predicate FirmSpan(span: Span) {
    Stable(span) && span != [] && IsFirm(span[|span| - 1])
  }

  lemma {:induction false} JoinedStable(spans: seq<Span>)
    requires FirmSpans(spans) && spans != []
    ensures FirmSpan(Joined(spans))
  {
    assert FirmSpan(spans[0]);
    if |spans| > 1 {
      forall i | 0 <= i < |spans[1..]| ensures FirmSpan(spans[1..][i]) { assert FirmSpan(spans[i + 1]); }
      JoinedStable(spans[1..]);
      CommaJoin(spans[0], Joined(spans[1..]));
    }
  }

  lemma CommaJoin(a: Span, b: Span)
    requires FirmSpan(a) && FirmSpan(b)
    ensures FirmSpan(a + [COMMA, SP] + b)
  {
    MarksStable([COMMA, SP]);
    FirmThen(a, [COMMA, SP]);
    ChunkThen(a + [COMMA, SP], b);
  }

  /** Joined spans between brackets. */
  lemma BracketsStable(open: char, spans: seq<Span>, close: char)
    requires FirmSpans(spans) && open in "[(" && close in "])"
    ensures Chunk([Punct(open)] + Joined(spans) + [Punct(close)])
  {
    MarksStable([Punct(open)]);
    MarksStable([Punct(close)]);
    if spans == [] {
      ChunkThen([Punct(open)], [Punct(close)]);
      assert [Punct(open)] + [] + [Punct(close)] == [Punct(open)] + [Punct(close)];
    } else {
      JoinedStable(spans);
      Sandwich([Punct(open)], Joined(spans), [Punct(close)]);
    }
  }

  // ---------------------------------------------------------------- agent items

  lemma CapabilitiesStable(sep: char, elems: seq<Span>)
    requires IsSep(sep) && WellElems(elems)
    ensures LineText(CapabilitiesText(sep, elems))
  {
    forall i | 0 <= i < |elems| ensures FirmSpan(elems[i]) { assert WellElem(elems[i]); }
    KeywordsValid();
    SeparatorStable(sep);
    FirmThen([Word("capabilities")], Separator(sep));
    BracketsStable('[', elems, ']');
    var a, b := [Word("capabilities")] + Separator(sep), [Punct('[')] + Joined(elems) + [Punct(']')];
    ChunkThen(a, b);
    assert a + b == CapabilitiesText(sep, elems);
  }

  lemma AttributeStable(a: Attribute)
    requires WellAttribute(a)
    ensures FirmSpan(PrintAttribute(a))
  {
    OneStable(a.key);
    MarksStable([SP, Punct('='), SP]);
    FirmThen([a.key], [SP, Punct('='), SP]);
    ChunkThen([a.key] + [SP, Punct('='), SP], a.value);
  }

  lemma {:induction false} AttributesStable(attrs: seq<Attribute>)
    requires WellAttributes(attrs) && attrs != []
    ensures FirmSpan(PrintAttributes(attrs))
  {
    assert WellAttribute(attrs[0]);
    AttributeStable(attrs[0]);
    if |attrs| > 1 {
      forall i | 0 <= i < |attrs[1..]| ensures WellAttribute(attrs[1..][i]) { assert WellAttribute(attrs[i + 1]); }
      AttributesStable(attrs[1..]);
      CommaJoin(PrintAttribute(attrs[0]), PrintAttributes(attrs[1..]));
    }
  }

  lemma CanonBodyStable(body: Span)
    requires IsBody(body) && Stable(body)
    ensures FirmSpan(CanonBody(body))
  {
    MarksStable(EMPTY_BODY);
  }

  lemma WithStable(attrs: seq<Attribute>, body: Span)
    requires WellAttributes(attrs) && IsBody(body) && Stable(body)
    ensures LineText(WithText(attrs, body))
  {
    MarksStable([SP]);
    KeywordsValid();
    FirmThen([Word("with")], [SP]);
    var a := [Word("with"), SP];
    assert [Word("with")] + [SP] == a;
    if attrs == [] {
      assert a + [] == a;
      ChunkThen(a, [SP]);
    } else {
      AttributesStable(attrs);
      Sandwich(a, PrintAttributes(attrs), [SP]);
    }
    CanonBodyStable(body);
    ChunkThen(a + PrintAttributes(attrs) + [SP], CanonBody(body));
  }

  lemma AgentItemStable(item: AgentItem)
    requires WellAgentItem(item)
    ensures Chunk(PrintAgentItem(item))
  {
    match item {
      case Capabilities(sep, elems) => CapabilitiesStable(sep, elems);
      case With(attrs, body) => WithStable(attrs, body);
      case Echoed(span) => assert FirmSpan(span);
      case ItemComment(c) => OneStable(c);
    }
    assert LineText(AgentItemText(item));
    LineIndented(AgentItemText(item));
  }

  lemma LineIndented(t: Span)
    requires LineText(t)
    ensures Chunk(INDENT + t + [NL])
  {
    MarksStable(INDENT);
    LineStable(INDENT, t);
  }

  lemma {:induction false} AgentItemsStable(items: seq<AgentItem>)
    requires WellAgentItems(items)
    ensures Chunk(PrintAgentItems(items))
  {
    if items != [] {
      assert WellAgentItem(items[0]);
      forall i | 0 <= i < |items[1..]| ensures WellAgentItem(items[1..][i]) { assert WellAgentItem(items[i + 1]); }
      AgentItemStable(items[0]);
      AgentItemsStable(items[1..]);
      BlankBetween(PrintAgentItem(items[0]), |items| > 1 && !items[0].ItemComment?, PrintAgentItems(items[1..]));
    }
  }

  lemma BlankBetween(a: Span, blank: bool, b: Span)
    requires Chunk(a) && Chunk(b)
    ensures Chunk(a + (if blank then [NL] else []) + b)
  {
    MarksStable([NL]);
    if blank {
      ChunkThen(a, [NL]);
      ChunkThen(a + [NL], b);
    } else {
      assert a + [] == a;
      ChunkThen(a, b);
    }
  }

  // ---------------------------------------------------------------- items

  lemma ParamsStable(params: Option<seq<Span>>)
    requires params.Some? ==> WellParams(params.value)
    ensures Chunk(PrintParams(params)) && (PrintParams(params) != [] ==> IsFence(PrintParams(params)[0]))
  {
    if params.Some? && params.value != [] {
      forall i | 0 <= i < |params.value| ensures FirmSpan(params.value[i]) { assert WellParam(params.value[i]); }
      BracketsStable('(', params.value, ')');
    }
  }

  /** The head of an agent definition: a firm or open end, before the opening brace. */
  lemma AgentHeadStable(name: Lexeme, params: Option<seq<Span>>, ret: Option<Span>)
    requires IsName(name) && (params.Some? ==> WellParams(params.value)) && WellReturn(ret)
    ensures FirmSpan([Word("agent"), SP] + [name] + PrintParams(params) + PrintReturn(ret))
  {
    AgentNameStable(name);
    var a := [Word("agent"), SP] + [name];
    ParamsStable(params);
    if PrintParams(params) == [] {
      assert a + [] == a;
    } else {
      FirmThen(a, PrintParams(params));
    }
    ReturnStable(a + PrintParams(params), ret);
  }

  lemma AgentNameStable(name: Lexeme)
    requires IsName(name)
    ensures FirmSpan([Word("agent"), SP] + [name])
  {
    KeywordsValid();
    MarksStable([SP]);
    FirmThen([Word("agent")], [SP]);
    assert [Word("agent")] + [SP] == [Word("agent"), SP];
    OneStable(name);
    ChunkThen([Word("agent"), SP], [name]);
  }

  lemma ReturnStable(b: Span, ret: Option<Span>)
    requires FirmSpan(b) && WellReturn(ret)
    ensures FirmSpan(b + PrintReturn(ret))
  {
    if ret.None? {
      assert b + [] == b;
    } else {
      MarksStable(ARROW);
      FirmThen(b, ARROW);
      ChunkThen(b + ARROW, ret.value);
      assert b + ARROW + ret.value == b + (ARROW + ret.value);
    }
  }

  lemma AgentStable(name: Lexeme, params: Option<seq<Span>>, ret: Option<Span>, items: seq<AgentItem>)
    requires IsName(name) && (params.Some? ==> WellParams(params.value)) && WellReturn(ret) && WellAgentItems(items)
    ensures Chunk(PrintAgent(name, params, ret, items))
  {
    var a := [Word("agent"), SP] + [name] + PrintParams(params) + PrintReturn(ret);
    AgentHeadStable(name, params, ret);
    MarksStable([SP, OPEN, NL]);
    MarksStable([CLOSE]);
    FirmThen(a, [SP, OPEN, NL]);
    AgentItemsStable(items);
    ChunkThen(a + [SP, OPEN, NL], PrintAgentItems(items));
    ChunkThen(a + [SP, OPEN, NL] + PrintAgentItems(items), [CLOSE]);
  }

  lemma ItemStable(item: Item)
    requires WellItem(item)
    ensures Chunk(PrintItem(item))
  {
    match item {
      case Metadata(entries) => MetadataStable(entries);
      case Agent(name, params, ret, items) => AgentStable(name, params, ret, items);
      case Verbatim(span) => assert FirmSpan(span);
      case TopComment(c) => OneStable(c);
    }
    assert LineText(ItemText(item));
    LineAlone(ItemText(item));
  }

  lemma LineAlone(t: Span)
    requires LineText(t)
    ensures Chunk(t + [NL])
  {
    LineStable([], t);
    assert [] + t + [NL] == t + [NL];
  }

  lemma {:induction false} ProgramStable(p: Program)
    requires WellProgram(p)
    ensures Chunk(PrintProgram(p))
  {
    if p != [] {
      assert WellItem(p[0]);
      forall i | 0 <= i < |p[1..]| ensures WellItem(p[1..][i]) { assert WellItem(p[i + 1]); }
      ItemStable(p[0]);
      ProgramStable(p[1..]);
      BlankBetween(PrintItem(p[0]), |p| > 1 && !p[0].TopComment?, PrintProgram(p[1..]));
    }
  }

  /** Lexing the printed text gives back the printed lexemes. */
  lemma PrintedLexesBack(p: Program)
    requires WellProgram(p)
    ensures Lex(Flat(PrintProgram(p))) == PrintProgram(p)
  {
    ProgramStable(p);
    LexFlat(PrintProgram(p));
  }
}
