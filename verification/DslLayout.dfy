/** The formatter's output as text: what stands on every line, how far it is indented, and where blank lines go. */
module DslLayout {
  import opened Text
  import opened DslLexer
  import opened DslTree
  import opened DslParser
  import opened DslSound
  import opened DslRoundTrip
  import opened DslFormat
  import opened DslGrammar
  import opened DslAcceptance

  // ---------------------------------------------------------------- joining

  /** Strings with a separator between them. */
  function Join(parts: seq<string>, sep: string): string {
    if parts == [] then ""
    else if |parts| == 1 then parts[0]
    else parts[0] + sep + Join(parts[1..], sep)
  }

  lemma {:induction false} JoinIsJoined(parts: seq<string>, spans: seq<Span>)
    requires |parts| == |spans| && forall i | 0 <= i < |parts| :: parts[i] == Flat(spans[i])
    ensures Join(parts, ", ") == Flat(Joined(spans))
  {
    if |parts| > 1 {
      JoinIsJoined(parts[1..], spans[1..]);
      FlatConcat(spans[0] + [COMMA, SP], Joined(spans[1..]));
      FlatConcat(spans[0], [COMMA, SP]);
      CommaText();
    }
  }

  lemma CommaText()
    ensures Flat([COMMA, SP]) == ", "
  {
    FlatMarks([COMMA, SP], ", ");
  }

  lemma {:induction false} AttributesJoined(parts: seq<string>, attrs: seq<Attribute>)
    requires |parts| == |attrs| && forall i | 0 <= i < |parts| :: parts[i] == Flat(PrintAttribute(attrs[i]))
    ensures Join(parts, ", ") == Flat(PrintAttributes(attrs))
  {
    if |parts| > 1 {
      AttributesJoined(parts[1..], attrs[1..]);
      FlatConcat(PrintAttribute(attrs[0]) + [COMMA, SP], PrintAttributes(attrs[1..]));
      FlatConcat(PrintAttribute(attrs[0]), [COMMA, SP]);
      CommaText();
    }
  }

  lemma SeparatorText(sep: char)
    requires IsSep(sep)
    ensures Flat(Separator(sep)) == if sep == '=' then " = " else ": "
  {
    FlatMarks(Separator(sep), if sep == '=' then " = " else ": ");
  }

  lemma OneText(l: Lexeme)
    ensures Flat([l]) == TextOf(l)
  {
    assert Flat([l]) == TextOf(l) + Flat([]);
  }

  /** Pushing the text of `b` behind that of `a`. */
  lemma Push(out: string, a: Span, b: Span)
    ensures out + Flat(a) + Flat(b) == out + Flat(a + b)
  {
    FlatConcat(a, b);
  }

  // ---------------------------------------------------------------- the layout

  function SeparatorLayout(sep: char): string {
    if sep == '=' then " = " else ": "
  }

  function EntryLayout(e: Entry): string {
    match e
    case Pair(key, sep, value) => "    " + (TextOf(key) + (SeparatorLayout(sep) + (Flat(value) + ",\n")))
    case EntryComment(c) => "    " + (TextOf(c) + "\n")
  }

  function EntriesLayout(es: seq<Entry>): string {
    if es == [] then "" else EntryLayout(es[0]) + EntriesLayout(es[1..])
  }

  function SpanTexts(spans: seq<Span>): seq<string> {
    seq(|spans|, i requires 0 <= i < |spans| => Flat(spans[i]))
  }

  function AttributeLayout(a: Attribute): string {
    TextOf(a.key) + (" = " + Flat(a.value))
  }

  function AttributeTexts(attrs: seq<Attribute>): seq<string> {
    seq(|attrs|, i requires 0 <= i < |attrs| => AttributeLayout(attrs[i]))
  }

  /** Braces, white space and braces, and nothing else. */
  ghost predicate NoBody(t: string) {
    exists a, w, b :: NoBodyParts(t, a, w, b)
  }

  ghost predicate NoBodyParts(t: string, a: string, w: string, b: string) {
    && t == a + (w + b) && AllSpace(w)
    && (forall i | 0 <= i < |a| :: a[i] == '{') && (forall i | 0 <= i < |b| :: b[i] == '}')
  }

  ghost function BodyLayout(body: Span): string {
    if NoBody(Flat(body)) then "{\n    }" else Flat(body)
  }

  ghost function AgentItemLayout(item: AgentItem): string {
    match item
    case Capabilities(sep, elems) =>
      "    capabilities" + (SeparatorLayout(sep) + ("[" + (Join(SpanTexts(elems), ", ") + "]\n")))
    case With(attrs, body) => "    with " + (Join(AttributeTexts(attrs), ", ") + (" " + (BodyLayout(body) + "\n")))
    case Echoed(span) => "    " + (Flat(span) + "\n")
    case ItemComment(c) => "    " + (TextOf(c) + "\n")
  }

  /** A blank line stands behind every item but a comment and the last one. */
  ghost function AgentItemsLayout(items: seq<AgentItem>): string {
    if items == [] then ""
    else AgentItemLayout(items[0]) + ((if |items| > 1 && !items[0].ItemComment? then "\n" else "")
                                      + AgentItemsLayout(items[1..]))
  }

  function ParamsLayout(params: Option<seq<Span>>): string {
    if params.None? || params.value == [] then "" else "(" + (Join(SpanTexts(params.value), ", ") + ")")
  }

  function ReturnLayout(ret: Option<Span>): string {
    if ret.None? then "" else " -> " + Flat(ret.value)
  }

  ghost function ItemLayout(item: Item): string {
    match item
    case TopComment(c) => TextOf(c) + "\n"
    case Verbatim(span) => Flat(span) + "\n"
    case Metadata(es) => "metadata {\n" + (EntriesLayout(es) + "}\n")
    case Agent(name, params, ret, items) =>
      "agent " + (TextOf(name) + (ParamsLayout(params) + (ReturnLayout(ret)
                                                         + (" {\n" + (AgentItemsLayout(items) + "}\n")))))
  }

  ghost function Layout(p: Program): string {
    if p == [] then ""
    else ItemLayout(p[0]) + ((if |p| > 1 && !p[0].TopComment? then "\n" else "") + Layout(p[1..]))
  }

  /** The file that is written. */
  ghost function Document(p: Program): string {
    if p == [] then "\n" else Layout(p)
  }

  // ---------------------------------------------------------------- the printed lexemes have that text

  lemma IndentText()
    ensures Flat(INDENT) == "    "
  {
    FlatMarks(INDENT, "    ");
  }

  lemma EntryLaidOut(e: Entry)
    requires WellEntry(e)
    ensures Flat(PrintEntry(e)) == EntryLayout(e)
  {
    IndentText();
    match e
    case Pair(key, sep, value) =>
      SeparatorText(sep);
      FlatMarks([COMMA, NL], ",\n");
      OneText(key);
      PairGrouping(key, Separator(sep), value);
      FlatConcat(value, [COMMA, NL]);
      FlatConcat(Separator(sep), value + [COMMA, NL]);
      FlatConcat([key], Separator(sep) + (value + [COMMA, NL]));
      FlatConcat(INDENT, [key] + (Separator(sep) + (value + [COMMA, NL])));
    case EntryComment(c) =>
      LineLaidOut([c]);
      OneText(c);
  }

  lemma PairGrouping(key: Lexeme, sep: Span, value: Span)
    ensures INDENT + ([key] + sep + value + [COMMA]) + [NL] == INDENT + ([key] + (sep + (value + [COMMA, NL])))
  {}

  lemma LineLaidOut(span: Span)
    ensures Flat(INDENT + span + [NL]) == "    " + (Flat(span) + "\n")
  {
    IndentText();
    OneText(NL);
    Associative(INDENT, span, [NL]);
    FlatConcat(span, [NL]);
    FlatConcat(INDENT, span + [NL]);
  }

  lemma {:induction false} EntriesLaidOut(es: seq<Entry>)
    requires WellEntries(es)
    ensures Flat(PrintEntries(es)) == EntriesLayout(es)
  {
    if es != [] {
      assert WellEntry(es[0]);
      TailEntries(es);
      EntryLaidOut(es[0]);
      EntriesLaidOut(es[1..]);
      FlatConcat(PrintEntry(es[0]), PrintEntries(es[1..]));
    }
  }

  lemma SpansLaidOut(spans: seq<Span>)
    ensures Flat(Joined(spans)) == Join(SpanTexts(spans), ", ")
  {
    JoinIsJoined(SpanTexts(spans), spans);
  }

  lemma AttributeLaidOut(a: Attribute)
    ensures Flat(PrintAttribute(a)) == AttributeLayout(a)
  {
    var mid := [SP, Punct('='), SP];
    OneText(a.key);
    FlatMarks(mid, " = ");
    Associative([a.key], mid, a.value);
    FlatConcat(mid, a.value);
    FlatConcat([a.key], mid + a.value);
  }

  lemma AttributesLaidOut(attrs: seq<Attribute>)
    ensures Flat(PrintAttributes(attrs)) == Join(AttributeTexts(attrs), ", ")
  {
    forall i | 0 <= i < |attrs| ensures AttributeTexts(attrs)[i] == Flat(PrintAttribute(attrs[i])) {
      AttributeLaidOut(attrs[i]);
    }
    AttributesJoined(AttributeTexts(attrs), attrs);
  }

  // ---------------------------------------------------------------- bodies

  lemma {:induction false} TrimOpeningShape(t: string)
    ensures var r := TrimOpening(t); |r| <= |t| && r == t[|t| - |r|..] && (r == "" || r[0] != '{')
    ensures forall i | 0 <= i < |t| - |TrimOpening(t)| :: t[i] == '{'
  {
    if t != "" && t[0] == '{' {
      TrimOpeningShape(t[1..]);
      var r := TrimOpening(t);
      forall i | 0 <= i < |t| - |r| ensures t[i] == '{' {
        if i > 0 { assert t[1..][i - 1] == t[i]; }
      }
    }
  }

  lemma {:induction false} TrimClosingShape(t: string)
    ensures var r := TrimClosing(t); r <= t && (r == "" || r[|r| - 1] != '}')
    ensures forall i | |TrimClosing(t)| <= i < |t| :: t[i] == '}'
  {
    if t != "" && t[|t| - 1] == '}' {
      TrimClosingShape(t[..|t| - 1]);
    }
  }

  lemma {:induction false} TrimOpeningPasses(a: string, r: string)
    requires (forall i | 0 <= i < |a| :: a[i] == '{') && (r == "" || r[0] != '{')
    ensures TrimOpening(a + r) == r
  {
    if a == "" {
      assert a + r == r;
    } else {
      TrimOpeningPasses(a[1..], r);
      assert (a + r)[1..] == a[1..] + r;
    }
  }

  lemma {:induction false} TrimClosingPasses(r: string, b: string)
    requires (forall i | 0 <= i < |b| :: b[i] == '}') && (r == "" || r[|r| - 1] != '}')
    ensures TrimClosing(r + b) == r
  {
    if b == "" {
      assert r + b == r;
    } else {
      TrimClosingPasses(r, b[..|b| - 1]);
      assert (r + b)[..|r + b| - 1] == r + b[..|b| - 1];
    }
  }

  /** Stripping leaves nothing exactly of braces, white space and braces. */
  lemma HollowExactly(body: Span)
    ensures Hollow(body) <==> NoBody(Flat(body))
  {
    var t := Flat(body);
    if NoBody(t) {
      var a, w, b :| NoBodyParts(t, a, w, b);
      NoBodyHollow(a, w, b);
    }
    if Hollow(body) {
      HollowNoBody(t);
    }
  }

  lemma NoBodyHollow(a: string, w: string, b: string)
    requires NoBodyParts(a + (w + b), a, w, b)
    ensures Trim(TrimClosing(TrimOpening(a + (w + b)))) == ""
  {
    assert w + b == "" || (w + b)[0] == (if w == "" then b else w)[0];
    TrimOpeningPasses(a, w + b);
    TrimClosingPasses(w, b);
    TrimAround(w, "", "");
    assert w + "" + "" == w;
  }

  lemma HollowNoBody(t: string)
    requires Trim(TrimClosing(TrimOpening(t))) == ""
    ensures NoBody(t)
  {
    var r := TrimOpening(t);
    var w := TrimClosing(r);
    TrimOpeningShape(t);
    TrimClosingShape(r);
    TrimmedAway(w);
    Stripped(t, r, w);
  }

  lemma TrimmedAway(w: string)
    requires Trim(w) == ""
    ensures AllSpace(w)
  {
    var x, y := TrimSplit(w);
    assert w == x + y;
  }

  lemma Stripped(t: string, r: string, w: string)
    requires |r| <= |t| && r == t[|t| - |r|..] && forall i | 0 <= i < |t| - |r| :: t[i] == '{'
    requires w <= r && (forall i | |w| <= i < |r| :: r[i] == '}') && AllSpace(w)
    ensures NoBody(t)
  {
    var a, b := t[..|t| - |r|], r[|w|..];
    assert r == w + b && t == a + r;
    assert NoBodyParts(t, a, w, b);
  }

  lemma BodyLaidOut(body: Span)
    ensures Flat(CanonBody(body)) == BodyLayout(body)
  {
    HollowExactly(body);
    EmptyBodyIs();
  }

  lemma EmptyBodyIs()
    ensures Flat(EMPTY_BODY) == "{\n    }"
  {
    assert EMPTY_BODY == [OPEN, NL, SP, SP, SP, SP, CLOSE];
    FlatMarks([OPEN, NL, SP, SP, SP, SP, CLOSE], "{\n    }");
  }

  // ---------------------------------------------------------------- agents

  lemma KeywordText(k: string, marks: Span, t: string)
    requires |marks| == |t| && forall i | 0 <= i < |marks| :: TextOf(marks[i]) == [t[i]]
    ensures Flat([Word(k)] + marks) == k + t
  {
    OneText(Word(k));
    FlatMarks(marks, t);
    FlatConcat([Word(k)], marks);
  }

  lemma CapabilitiesLaidOut(sep: char, elems: seq<Span>)
    requires IsSep(sep)
    ensures Flat(PrintAgentItem(Capabilities(sep, elems))) == AgentItemLayout(Capabilities(sep, elems))
  {
    var kw := Word("capabilities");
    var tail := [Punct(']'), NL];
    SeparatorText(sep);
    SpansLaidOut(elems);
    OneText(Punct('['));
    OneText(kw);
    IndentText();
    FlatMarks(tail, "]\n");
    CapabilitiesGroups(kw, Separator(sep), Joined(elems));
    FiveTexts(INDENT + [kw], Separator(sep), [Punct('[')], Joined(elems), tail);
    FlatConcat(INDENT, [kw]);
    assert "    " + "capabilities" == "    capabilities";
  }

  lemma FiveTexts(a: Span, b: Span, c: Span, d: Span, e: Span)
    ensures Flat(a + (b + (c + (d + e)))) == Flat(a) + (Flat(b) + (Flat(c) + (Flat(d) + Flat(e))))
  {
    FlatConcat(d, e);
    FlatConcat(c, d + e);
    FlatConcat(b, c + (d + e));
    FlatConcat(a, b + (c + (d + e)));
  }

  lemma CapabilitiesGroups(kw: Lexeme, sep: Span, elems: Span)
    ensures INDENT + ([kw] + sep + [Punct('[')] + elems + [Punct(']')]) + [NL]
            == INDENT + [kw] + (sep + ([Punct('[')] + (elems + [Punct(']'), NL])))
  {}

  lemma WithLaidOut(attrs: seq<Attribute>, body: Span)
    ensures Flat(PrintAgentItem(With(attrs, body))) == AgentItemLayout(With(attrs, body))
  {
    var kw := [Word("with"), SP];
    var a, b := PrintAttributes(attrs), CanonBody(body);
    AttributesLaidOut(attrs);
    BodyLaidOut(body);
    IndentText();
    KeywordText("with", [SP], " ");
    assert [Word("with")] + [SP] == kw;
    OneText(SP);
    OneText(NL);
    WithGroups(kw, a, b);
    FiveTexts(INDENT + kw, a, [SP], b, [NL]);
    FlatConcat(INDENT, kw);
    assert "    " + ("with" + " ") == "    with ";
  }

  lemma WithGroups(kw: Span, a: Span, b: Span)
    ensures INDENT + (kw + a + [SP] + b) + [NL] == INDENT + kw + (a + ([SP] + (b + [NL])))
  {}

  lemma AgentItemLaidOut(item: AgentItem)
    requires WellAgentItem(item)
    ensures Flat(PrintAgentItem(item)) == AgentItemLayout(item)
  {
    match item
    case Capabilities(sep, elems) => CapabilitiesLaidOut(sep, elems);
    case With(attrs, body) => WithLaidOut(attrs, body);
    case Echoed(span) => LineLaidOut(span);
    case ItemComment(c) =>
      LineLaidOut([c]);
      OneText(c);
  }

  lemma GapText(blank: bool)
    ensures Flat(if blank then [NL] else []) == if blank then "\n" else ""
  {
    OneText(NL);
  }

  /** An item, the gap behind it, and the rest. */
  lemma GapLaidOut(item: Span, blank: bool, rest: Span)
    ensures Flat(item + (if blank then [NL] else []) + rest)
            == Flat(item) + ((if blank then "\n" else "") + Flat(rest))
  {
    var gap: Span := if blank then [NL] else [];
    GapText(blank);
    Associative(item, gap, rest);
    FlatConcat(gap, rest);
    FlatConcat(item, gap + rest);
  }

  lemma {:induction false} AgentItemsLaidOut(items: seq<AgentItem>)
    requires WellAgentItems(items)
    ensures Flat(PrintAgentItems(items)) == AgentItemsLayout(items)
  {
    if items != [] {
      assert WellAgentItem(items[0]);
      TailItems(items);
      AgentItemLaidOut(items[0]);
      AgentItemsLaidOut(items[1..]);
      GapLaidOut(PrintAgentItem(items[0]), |items| > 1 && !items[0].ItemComment?, PrintAgentItems(items[1..]));
    }
  }

  lemma ParamsLaidOut(params: Option<seq<Span>>)
    ensures Flat(PrintParams(params)) == ParamsLayout(params)
  {
    if params.Some? && params.value != [] {
      var ps := Joined(params.value);
      SpansLaidOut(params.value);
      OneText(Punct('('));
      OneText(Punct(')'));
      Associative([Punct('(')], ps, [Punct(')')]);
      FlatConcat(ps, [Punct(')')]);
      FlatConcat([Punct('(')], ps + [Punct(')')]);
    }
  }

  lemma ReturnLaidOut(ret: Option<Span>)
    ensures Flat(PrintReturn(ret)) == ReturnLayout(ret)
  {
    if ret.Some? {
      FlatMarks(ARROW, " -> ");
      FlatConcat(ARROW, ret.value);
    }
  }

  lemma AgentLaidOut(item: Item)
    requires WellItem(item) && item.Agent?
    ensures Flat(PrintItem(item)) == ItemLayout(item)
  {
    var kw, name := [Word("agent"), SP], [item.name];
    var ps, ret, items := PrintParams(item.params), PrintReturn(item.ret), PrintAgentItems(item.items);
    var open, tail := [SP, OPEN, NL], [CLOSE, NL];
    KeywordText("agent", [SP], " ");
    assert [Word("agent")] + [SP] == kw;
    assert "agent" + " " == "agent ";
    OneText(item.name);
    ParamsLaidOut(item.params);
    ReturnLaidOut(item.ret);
    AgentItemsLaidOut(item.items);
    FlatMarks(open, " {\n");
    FlatMarks(tail, "}\n");
    AgentGroups(kw, name, ps, ret, items);
    SixTexts(kw, name, ps, ret, open, items, tail);
  }

  lemma AgentGroups(kw: Span, name: Span, ps: Span, ret: Span, items: Span)
    ensures kw + name + ps + ret + [SP, OPEN, NL] + items + [CLOSE] + [NL]
            == kw + (name + (ps + (ret + ([SP, OPEN, NL] + (items + [CLOSE, NL])))))
  {}

  lemma SixTexts(a: Span, b: Span, c: Span, d: Span, e: Span, f: Span, g: Span)
    ensures Flat(a + (b + (c + (d + (e + (f + g))))))
            == Flat(a) + (Flat(b) + (Flat(c) + (Flat(d) + (Flat(e) + (Flat(f) + Flat(g))))))
  {
    FlatConcat(f, g);
    FlatConcat(e, f + g);
    FlatConcat(d, e + (f + g));
    FlatConcat(c, d + (e + (f + g)));
    FlatConcat(b, c + (d + (e + (f + g))));
    FlatConcat(a, b + (c + (d + (e + (f + g)))));
  }

  lemma MetadataLaidOut(es: seq<Entry>)
    requires WellEntries(es)
    ensures Flat(PrintItem(Metadata(es))) == ItemLayout(Metadata(es))
  {
    var tail := [CLOSE, NL];
    KeywordText("metadata", [SP, OPEN, NL], " {\n");
    assert [Word("metadata")] + [SP, OPEN, NL] == METADATA_OPEN;
    assert "metadata" + " {\n" == "metadata {\n";
    EntriesLaidOut(es);
    FlatMarks(tail, "}\n");
    assert METADATA_OPEN + PrintEntries(es) + [CLOSE] + [NL] == METADATA_OPEN + (PrintEntries(es) + tail);
    FlatConcat(PrintEntries(es), tail);
    FlatConcat(METADATA_OPEN, PrintEntries(es) + tail);
  }

  lemma ItemLaidOut(item: Item)
    requires WellItem(item)
    ensures Flat(PrintItem(item)) == ItemLayout(item)
  {
    match item
    case TopComment(c) =>
      OneText(c);
      OneText(NL);
      FlatConcat([c], [NL]);
    case Verbatim(span) =>
      OneText(NL);
      FlatConcat(span, [NL]);
    case Metadata(es) => MetadataLaidOut(es);
    case Agent(_, _, _, _) => AgentLaidOut(item);
  }

  lemma {:induction false} ProgramLaidOut(p: Program)
    requires WellProgram(p)
    ensures Flat(PrintProgram(p)) == Layout(p)
  {
    if p != [] {
      assert WellItem(p[0]);
      TailProgram(p);
      ItemLaidOut(p[0]);
      ProgramLaidOut(p[1..]);
      GapLaidOut(PrintItem(p[0]), |p| > 1 && !p[0].TopComment?, PrintProgram(p[1..]));
    }
  }

  /** A source that spells a program is laid out as that program's document; any other source stays as it is. */
  lemma FormatLaysOut(source: string)
    ensures forall p | Spells(Lex(source), p) :: Format(source) == Document(p)
    ensures (forall p :: !Spells(Lex(source), p)) ==> Format(source) == source
  {
    forall p | Spells(Lex(source), p) ensures Format(source) == Document(p) {
      ParsesExactly(Lex(source), p);
      SourceTree(source);
      RenderIsPrinted(p);
      ProgramLaidOut(p);
    }
    if Parse(Lex(source)).Some? {
      ParsesExactly(Lex(source), Parse(Lex(source)).value);
    }
  }
}
