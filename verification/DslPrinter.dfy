/** The formatter as it is written: methods that push text onto an output string. */
module DslPrinter {
  import opened Text
  import opened DslLexer
  import opened DslTree
  import opened DslParser
  import opened DslSpans
  import opened DslSound
  import opened DslRoundTrip
  import opened DslFormat
  import opened DslGrammar
  import opened DslAcceptance
  import opened DslLayout

  const INDENT_TEXT: string := "    "

  // ---------------------------------------------------------------- trimming echoed text

  /** Trimming the text of an echoed span changes nothing. */
  lemma SpanTrimmed(span: Span)
    requires Framed(span) && Stable(span)
    ensures Trim(Flat(span)) == Flat(span)
  {
    var n := |span| - 1;
    assert Valid(span[0]) && Valid(span[n]);
    assert span == [span[0]] + span[1..] == span[..n] + [span[n]];
    FlatConcat([span[0]], span[1..]);
    FlatConcat(span[..n], [span[n]]);
    assert Flat([span[0]]) == TextOf(span[0]) && Flat([span[n]]) == TextOf(span[n]);
    LexemeEnds(span[0]);
    LexemeEnds(span[n]);
    TrimAround("", Flat(span), "");
    assert "" + Flat(span) + "" == Flat(span);
  }

  lemma LexemeEnds(l: Lexeme)
    requires Valid(l) && !l.Space?
    ensures var t := TextOf(l); t != "" && !IsSpace(t[0]) && (IsFirm(l) ==> !IsSpace(t[|t| - 1]))
  {
    var t := TextOf(l);
    FirstText(t);
    if l.Word? {
      RunLenLongest(t, RunOf(t[0]));
    } else if l.Quoted? {
      QuoteEnds(t[1..]);
    } else if l.Scheme? {
      SchemeLen(t);
      assert In(Url, t[1..][|t| - 2]);
    }
  }

  lemma {:induction false} QuoteEnds(s: string)
    requires QuoteLen(s) == Some(|s|)
    ensures s != "" && s[|s| - 1] == '"'
  {
    if s[0] != '"' {
      var k := if s[0] == '\\' then 2 else 1;
      QuoteLenLocal(s[k..], "");
      QuoteEnds(s[k..]);
    } else {
      assert |s| == 1;
    }
  }

  /** The trimmed texts of echoed spans. */
  method TrimmedTexts(spans: seq<Span>) returns (parts: seq<string>)
    requires forall i | 0 <= i < |spans| :: Framed(spans[i]) && Stable(spans[i])
    ensures |parts| == |spans| && forall i | 0 <= i < |parts| :: parts[i] == Flat(spans[i])
  {
    parts := [];
    for i := 0 to |spans|
      invariant |parts| == i && forall j | 0 <= j < i :: parts[j] == Flat(spans[j])
    {
      SpanTrimmed(spans[i]);
      parts := parts + [Trim(Flat(spans[i]))];
    }
  }

  // ---------------------------------------------------------------- leaves

  function Indentation(depth: nat): Span {
    if depth == 0 then [] else Indentation(depth - 1) + INDENT
  }

  method WriteIndent(out: string, depth: nat) returns (r: string)
    ensures r == out + Flat(Indentation(depth))
  {
    r := out;
    for i := 0 to depth
      invariant r == out + Flat(Indentation(i))
    {
      FlatConcat(Indentation(i), INDENT);
      FlatMarks(INDENT, INDENT_TEXT);
      r := r + INDENT_TEXT;
    }
  }

  lemma IndentationOne()
    ensures Indentation(0) == [] && Indentation(1) == INDENT
  {
    assert Indentation(1) == Indentation(0) + INDENT == INDENT;
  }

  /** A comment or an echoed node on a line of its own. */
  method EmitLine(span: Span, depth: nat, out: string) returns (r: string)
    ensures r == out + Flat(Indentation(depth) + span + [NL])
  {
    r := WriteIndent(out, depth);
    r := r + Flat(span);
    r := r + "\n";
    LineText(out, Indentation(depth), span);
  }

  lemma LineText(out: string, indent: Span, span: Span)
    ensures out + Flat(indent) + Flat(span) + "\n" == out + Flat(indent + span + [NL])
  {
    Push(out, indent, span);
    Push(out, indent + span, [NL]);
    OneText(NL);
  }

  // ---------------------------------------------------------------- metadata

  method PrintMetadataPair(e: Entry, out: string) returns (r: string)
    requires WellEntry(e) && e.Pair?
    ensures r == out + Flat([e.key] + Separator(e.sep) + e.value)
  {
    r := out + TextOf(e.key);
    OneText(e.key);
    SeparatorText(e.sep);
    Push(out, [e.key], Separator(e.sep));
    if e.sep == '=' {
      r := r + " = ";
    } else {
      r := r + ": ";
    }
    SpanTrimmed(e.value);
    Push(out, [e.key] + Separator(e.sep), e.value);
    r := r + Trim(Flat(e.value));
  }

  method PrintMetadataEntry(e: Entry, depth: nat, out: string) returns (r: string)
    requires WellEntry(e) && depth == 0
    ensures r == out + Flat(PrintEntry(e))
  {
    IndentationOne();
    match e {
      case Pair(key, sep, value) =>
        r := WriteIndent(out, depth + 1);
        var start := r;
        r := PrintMetadataPair(e, r);
        r := r + ",\n";
        FlatMarks([COMMA, NL], ",\n");
        PairLine(out, [key] + Separator(sep) + value);
      case EntryComment(c) =>
        r := EmitLine([c], depth + 1, out);
    }
  }

  lemma PairLine(out: string, text: Span)
    ensures out + Flat(INDENT) + Flat(text) + Flat([COMMA, NL]) == out + Flat(INDENT + (text + [COMMA]) + [NL])
  {
    Push(out, INDENT, text);
    Push(out, INDENT + text, [COMMA, NL]);
    assert INDENT + text + [COMMA, NL] == INDENT + (text + [COMMA]) + [NL];
  }

  method PrintMetadataBlock(es: seq<Entry>, depth: nat, out: string) returns (r: string)
    requires WellEntries(es) && depth == 0
    ensures r == out + Flat(PrintMetadata(es))
  {
    r := WriteIndent(out, depth);
    r := r + "metadata {\n";
    MetadataText();
    for i := 0 to |es|
      invariant r == out + Flat(METADATA_OPEN + PrintEntries(es[..i]))
    {
      assert WellEntry(es[i]);
      EntriesSnoc(es, i);
      Push(out, METADATA_OPEN + PrintEntries(es[..i]), PrintEntry(es[i]));
      r := PrintMetadataEntry(es[i], depth, r);
    }
    assert es[..|es|] == es;
    Push(out, METADATA_OPEN + PrintEntries(es), [CLOSE]);
    OneText(CLOSE);
    r := WriteIndent(r, depth);
    r := r + "}";
  }

  lemma MetadataText()
    ensures Flat(METADATA_OPEN + PrintEntries([])) == "metadata {\n"
  {
    var marks := [SP, OPEN, NL];
    assert METADATA_OPEN + PrintEntries([]) == [Word("metadata")] + marks;
    FlatConcat([Word("metadata")], marks);
    FlatMarks(marks, " {\n");
    OneText(Word("metadata"));
  }

  lemma {:induction false} EntriesSnoc(es: seq<Entry>, i: nat)
    requires i < |es|
    ensures METADATA_OPEN + PrintEntries(es[..i + 1]) == METADATA_OPEN + PrintEntries(es[..i]) + PrintEntry(es[i])
  {
    EntriesPrefix(es, i);
  }

  lemma {:induction false} EntriesPrefix(es: seq<Entry>, i: nat)
    requires i < |es|
    ensures PrintEntries(es[..i + 1]) == PrintEntries(es[..i]) + PrintEntry(es[i])
  {
    if i == 0 {
      var one := es[..1];
      assert one[1..] == [];
      assert PrintEntries(one) == PrintEntry(one[0]) + PrintEntries(one[1..]);
    } else {
      EntriesPrefix(es[1..], i - 1);
      assert es[..i + 1][1..] == es[1..][..i] && es[..i][1..] == es[1..][..i - 1];
      EntriesShift(es[..i + 1], es[..i], es[1..][..i], es[1..][..i - 1], es[i]);
    }
  }

  lemma EntriesShift(all: seq<Entry>, front: seq<Entry>, rest: seq<Entry>, middle: seq<Entry>, last: Entry)
    requires all != [] && front != [] && all[0] == front[0] && all[1..] == rest && front[1..] == middle
    requires PrintEntries(rest) == PrintEntries(middle) + PrintEntry(last)
    ensures PrintEntries(all) == PrintEntries(front) + PrintEntry(last)
  {
    Associative(PrintEntry(all[0]), PrintEntries(middle), PrintEntry(last));
  }

  // ---------------------------------------------------------------- agent items

  method PrintCapabilities(sep: char, elems: seq<Span>, depth: nat, out: string) returns (r: string)
    requires WellAgentItem(Capabilities(sep, elems)) && depth == 1
    ensures r == out + Flat(PrintAgentItem(Capabilities(sep, elems)))
  {
    IndentationOne();
    r := WriteIndent(out, depth);
    r := r + "capabilities";
    OneText(Word("capabilities"));
    SeparatorText(sep);
    if sep == '=' {
      r := r + " = ";
    } else {
      r := r + ": ";
    }
    forall i | 0 <= i < |elems| ensures Framed(elems[i]) && Stable(elems[i]) { assert WellElem(elems[i]); }
    var parts := TrimmedTexts(elems);
    JoinIsJoined(parts, elems);
    r := r + "[";
    r := r + Join(parts, ", ");
    r := r + "]";
    r := r + "\n";
    CapabilitiesLine(out, sep, elems);
  }

  lemma CapabilitiesLine(out: string, sep: char, elems: seq<Span>)
    ensures out + Flat(INDENT) + Flat([Word("capabilities")]) + Flat(Separator(sep)) + "["
            + Flat(Joined(elems)) + "]" + "\n"
            == out + Flat(PrintAgentItem(Capabilities(sep, elems)))
  {
    var a := INDENT + [Word("capabilities")] + Separator(sep);
    Push(out, INDENT, [Word("capabilities")]);
    Push(out, INDENT + [Word("capabilities")], Separator(sep));
    OneText(Punct('['));
    OneText(Punct(']'));
    OneText(NL);
    Push(out, a, [Punct('[')]);
    Push(out, a + [Punct('[')], Joined(elems));
    Push(out, a + [Punct('[')] + Joined(elems), [Punct(']')]);
    Push(out, a + [Punct('[')] + Joined(elems) + [Punct(']')], [NL]);
    CapabilitiesGrouping([Word("capabilities")], Separator(sep), Joined(elems));
  }

  lemma CapabilitiesGrouping(kw: Span, sep: Span, elems: Span)
    ensures INDENT + kw + sep + [Punct('[')] + elems + [Punct(']')] + [NL]
            == INDENT + (kw + sep + [Punct('[')] + elems + [Punct(']')]) + [NL]
  {}

  method FormatWithAttribute(a: Attribute) returns (r: string)
    requires WellAttribute(a)
    ensures r == Flat(PrintAttribute(a))
  {
    SpanTrimmed(a.value);
    var mid := [SP, Punct('='), SP];
    FlatMarks(mid, " = ");
    OneText(a.key);
    FlatConcat([a.key], mid);
    FlatConcat([a.key] + mid, a.value);
    r := TextOf(a.key) + " = " + Trim(Flat(a.value));
  }

  method PrintWithBlock(attrs: seq<Attribute>, body: Span, depth: nat, out: string) returns (r: string)
    requires WellAgentItem(With(attrs, body)) && depth == 1
    ensures r == out + Flat(PrintAgentItem(With(attrs, body)))
  {
    var strings: seq<string> := [];
    for i := 0 to |attrs|
      invariant |strings| == i && forall j | 0 <= j < i :: strings[j] == Flat(PrintAttribute(attrs[j]))
    {
      assert WellAttribute(attrs[i]);
      var text := FormatWithAttribute(attrs[i]);
      strings := strings + [text];
    }
    AttributesJoined(strings, attrs);
    IndentationOne();
    r := WriteIndent(out, depth);
    r := r + "with ";
    r := r + Join(strings, ", ");
    r := r + " ";
    var text := Flat(body);
    var inner := Trim(TrimClosing(TrimOpening(text)));
    if inner == "" {
      r := r + "{\n";
      r := WriteIndent(r, depth);
      r := r + "}";
      EmptyBodyText(out + Flat(INDENT) + "with " + Flat(PrintAttributes(attrs)) + " ");
    } else {
      r := r + text;
    }
    r := r + "\n";
    WithLine(out, attrs, body);
  }

  lemma EmptyBodyText(out: string)
    ensures out + "{\n" + Flat(INDENT) + "}" == out + Flat(EMPTY_BODY)
  {
    FlatMarks([OPEN, NL], "{\n");
    OneText(CLOSE);
    Push(out, [OPEN, NL], INDENT);
    Push(out, [OPEN, NL] + INDENT, [CLOSE]);
  }

  lemma WithLine(out: string, attrs: seq<Attribute>, body: Span)
    ensures out + Flat(INDENT) + "with " + Flat(PrintAttributes(attrs)) + " " + Flat(CanonBody(body)) + "\n"
            == out + Flat(PrintAgentItem(With(attrs, body)))
  {
    var kw, a, b := [Word("with"), SP], PrintAttributes(attrs), CanonBody(body);
    FlatConcat([Word("with")], [SP]);
    assert [Word("with")] + [SP] == kw;
    OneText(Word("with"));
    OneText(SP);
    OneText(NL);
    assert Flat(kw) == "with ";
    Push(out, INDENT, kw);
    Push(out, INDENT + kw, a);
    Push(out, INDENT + kw + a, [SP]);
    Push(out, INDENT + kw + a + [SP], b);
    Push(out, INDENT + kw + a + [SP] + b, [NL]);
    WithGrouping(kw, a, b);
  }

  lemma WithGrouping(kw: Span, a: Span, b: Span)
    ensures INDENT + kw + a + [SP] + b + [NL] == INDENT + (kw + a + [SP] + b) + [NL]
  {}

  method PrintAgentItemText(item: AgentItem, depth: nat, out: string) returns (r: string)
    requires WellAgentItem(item) && depth == 1
    ensures r == out + Flat(PrintAgentItem(item))
  {
    IndentationOne();
    match item {
      case Capabilities(sep, elems) => r := PrintCapabilities(sep, elems, depth, out);
      case With(attrs, body) => r := PrintWithBlock(attrs, body, depth, out);
      case Echoed(span) => r := EmitLine(span, depth, out);
      case ItemComment(c) => r := EmitLine([c], depth, out);
    }
  }

  // ---------------------------------------------------------------- agents

  method PrintParamList(params: seq<Span>, out: string) returns (r: string)
    requires WellParams(params)
    ensures r == out + Flat(PrintParams(Some(params)))
  {
    r := out;
    if params != [] {
      r := r + "(";
      forall i | 0 <= i < |params| ensures Framed(params[i]) && Stable(params[i]) { assert WellParam(params[i]); }
      var parts := TrimmedTexts(params);
      JoinIsJoined(parts, params);
      r := r + Join(parts, ", ");
      r := r + ")";
      ParenText(out, params);
    }
  }

  method PrintReturnType(ret: Option<Span>, out: string) returns (r: string)
    requires WellReturn(ret)
    ensures r == out + Flat(PrintReturn(ret))
  {
    r := out;
    if ret.Some? {
      SpanTrimmed(ret.value);
      FlatMarks(ARROW, " -> ");
      Push(out, ARROW, ret.value);
      r := r + " -> ";
      r := r + Trim(Flat(ret.value));
    }
  }

  method PrintAgentHead(name: Lexeme, params: seq<Span>, ret: Option<Span>, depth: nat, out: string) returns (r: string)
    requires IsName(name) && WellParams(params) && WellReturn(ret) && depth == 0
    ensures r == out + Flat([Word("agent"), SP] + [name] + PrintParams(Some(params)) + PrintReturn(ret)
            + [SP, OPEN, NL])
  {
    r := WriteIndent(out, depth);
    r := r + "agent ";
    r := r + TextOf(name);
    AgentText(out, name);
    r := PrintParamList(params, r);
    r := PrintReturnType(ret, r);
    r := r + " {\n";
    AgentHeadText(out, [Word("agent"), SP] + [name], PrintParams(Some(params)), PrintReturn(ret));
  }

  lemma AgentHeadText(out: string, name: Span, params: Span, ret: Span)
    ensures out + Flat(name) + Flat(params) + Flat(ret) + " {\n" == out + Flat(name + params + ret + [SP, OPEN, NL])
  {
    Push(out, name, params);
    Push(out, name + params, ret);
    FlatMarks([SP, OPEN, NL], " {\n");
    Push(out, name + params + ret, [SP, OPEN, NL]);
  }

  lemma AgentText(out: string, name: Lexeme)
    ensures out + "agent " + TextOf(name) == out + Flat([Word("agent"), SP] + [name])
  {
    assert [Word("agent"), SP] == [Word("agent")] + [SP];
    FlatConcat([Word("agent")], [SP]);
    OneText(Word("agent"));
    OneText(SP);
    OneText(name);
    Push(out, [Word("agent"), SP], [name]);
  }

  lemma ParenText(out: string, params: seq<Span>)
    requires params != []
    ensures out + "(" + Flat(Joined(params)) + ")" == out + Flat(PrintParams(Some(params)))
  {
    OneText(Punct('('));
    OneText(Punct(')'));
    Push(out, [Punct('(')], Joined(params));
    Push(out, [Punct('(')] + Joined(params), [Punct(')')]);
  }

  /** The node kind that decides whether a blank line comes next. */
  datatype Kind = CommentKind | OtherKind

  function ItemKind(item: AgentItem): Kind {
    if item.ItemComment? then CommentKind else OtherKind
  }

  predicate BlankBefore(items: seq<AgentItem>, i: nat)
    requires i < |items|
  {
    i > 0 && ItemKind(items[i - 1]) != CommentKind
  }

  /** The output once the agent items from `i` on are written behind `out`. */
  function ItemsOutput(out: string, items: seq<AgentItem>, i: nat): string
    requires i <= |items|
    decreases |items| - i
  {
    if i == |items| then out
    else ItemsOutput((if BlankBefore(items, i) then out + "\n" else out) + Flat(PrintAgentItem(items[i])), items, i + 1)
  }

  method PrintAgentBody(items: seq<AgentItem>, depth: nat, out: string) returns (r: string)
    requires WellAgentItems(items) && depth == 0
    ensures r == out + Flat(PrintAgentItems(items))
  {
    r := out;
    var prev: Option<Kind> := None;
    for i := 0 to |items|
      invariant prev == if i == 0 then None else Some(ItemKind(items[i - 1]))
      invariant ItemsOutput(r, items, i) == ItemsOutput(out, items, 0)
    {
      assert WellAgentItem(items[i]);
      if prev.Some? && prev.value != CommentKind {
        r := r + "\n";
      }
      prev := Some(ItemKind(items[i]));
      r := PrintAgentItemText(items[i], depth + 1, r);
    }
    AllItemsWritten(out, items);
  }

  lemma AllItemsWritten(out: string, items: seq<AgentItem>)
    ensures ItemsOutput(out, items, 0) == out + Flat(PrintAgentItems(items))
  {
    ItemsWritten(out, items, 0);
    assert items[0..] == items;
    WholeOutput(out, PrintAgentItems(items));
    assert items == [] ==> PrintAgentItems(items) == [];
  }

  /** What is still to be written before item `i` and from it on. */
  function ItemsRest(items: seq<AgentItem>, i: nat): Span
    requires i <= |items|
  {
    if i == |items| then [] else (if BlankBefore(items, i) then [NL] else []) + PrintAgentItems(items[i..])
  }

  lemma ItemsRestStep(items: seq<AgentItem>, i: nat)
    requires i < |items|
    ensures ItemsRest(items, i)
            == (if BlankBefore(items, i) then [NL] else []) + (PrintAgentItem(items[i]) + ItemsRest(items, i + 1))
  {
    var item, others := PrintAgentItem(items[i]), PrintAgentItems(items[i + 1..]);
    assert items[i..][1..] == items[i + 1..] && items[i..][0] == items[i];
    if i + 1 == |items| {
      assert others == [] && item + [] + [] == item + [];
    } else {
      Regroup(item, if BlankBefore(items, i + 1) then [NL] else [], others);
    }
  }

  lemma Regroup(a: Span, g: Span, b: Span)
    ensures a + (g + b) == a + g + b
  {}

  lemma {:induction false} ItemsWritten(out: string, items: seq<AgentItem>, i: nat)
    requires i <= |items|
    ensures ItemsOutput(out, items, i) == out + Flat(ItemsRest(items, i))
    decreases |items| - i
  {
    if i == |items| {
      NothingLeft(out);
    } else {
      var next := (if BlankBefore(items, i) then out + "\n" else out) + Flat(PrintAgentItem(items[i]));
      ItemsWritten(next, items, i + 1);
      ItemsRestStep(items, i);
      PushRest(out, BlankBefore(items, i), PrintAgentItem(items[i]), ItemsRest(items, i + 1));
    }
  }

  lemma NothingLeft(out: string)
    ensures out + Flat([]) == out
  {}

  /** One item and the blank line before it, then the rest. */
  lemma PushRest(out: string, blank: bool, item: Span, rest: Span)
    ensures out + Flat((if blank then [NL] else []) + (item + rest))
            == (if blank then out + "\n" else out) + Flat(item) + Flat(rest)
  {
    var gap: Span := if blank then [NL] else [];
    Push(out, gap, item + rest);
    OneText(NL);
    assert !blank ==> out + "" == out;
    Push(out + Flat(gap), item, rest);
  }

  lemma WholeOutput(out: string, rest: Span)
    ensures out + Flat([] + rest) == out + Flat(rest)
  {
    assert [] + rest == rest;
  }

  method PrintAgentDefinition(name: Lexeme, params: Option<seq<Span>>, ret: Option<Span>, items: seq<AgentItem>,
                              depth: nat, out: string) returns (r: string)
    requires WellItem(Agent(name, params, ret, items)) && depth == 0
    ensures r == out + Flat(PrintAgent(name, params, ret, items))
  {
    var list := if params.Some? then params.value else [];
    assert PrintParams(Some(list)) == PrintParams(params);
    r := PrintAgentHead(name, list, ret, depth, out);
    var head := [Word("agent"), SP] + [name] + PrintParams(params) + PrintReturn(ret) + [SP, OPEN, NL];
    Push(out, head, PrintAgentItems(items));
    r := PrintAgentBody(items, depth, r);
    Push(out, head + PrintAgentItems(items), [CLOSE]);
    OneText(CLOSE);
    r := WriteIndent(r, depth);
    r := r + "}";
  }

  // ---------------------------------------------------------------- programs

  method PrintTopItem(item: Item, depth: nat, out: string) returns (r: string)
    requires WellItem(item) && depth == 0
    ensures r == out + Flat(PrintItem(item))
  {
    OneText(NL);
    Push(out, ItemText(item), [NL]);
    match item {
      case TopComment(c) =>
        r := EmitLine([c], depth, out);
        assert [] + [c] + [NL] == PrintItem(item);
      case Metadata(es) =>
        r := PrintMetadataBlock(es, depth, out);
        r := r + "\n";
      case Agent(name, params, ret, items) =>
        r := PrintAgentDefinition(name, params, ret, items, depth, out);
        r := r + "\n";
      case Verbatim(span) =>
        r := EmitLine(span, depth, out);
        assert [] + span + [NL] == PrintItem(item);
    }
  }

  function TopKind(item: Item): Kind {
    if item.TopComment? then CommentKind else OtherKind
  }

  predicate BlankBeforeTop(p: Program, i: nat)
    requires i < |p|
  {
    i > 0 && TopKind(p[i - 1]) != CommentKind
  }

  /** The output once the top-level items from `i` on are written behind `out`. */
  function TopOutput(out: string, p: Program, i: nat): string
    requires i <= |p|
    decreases |p| - i
  {
    if i == |p| then out
    else TopOutput((if BlankBeforeTop(p, i) then out + "\n" else out) + Flat(PrintItem(p[i])), p, i + 1)
  }

  method PrintProgramText(p: Program, out: string) returns (r: string)
    requires WellProgram(p)
    ensures r == out + Flat(PrintProgram(p))
  {
    r := out;
    var prev: Option<Kind> := None;
    for i := 0 to |p|
      invariant prev == if i == 0 then None else Some(TopKind(p[i - 1]))
      invariant TopOutput(r, p, i) == TopOutput(out, p, 0)
    {
      assert WellItem(p[i]);
      assert BlankBeforeTop(p, i) <==> prev.Some? && prev.value != CommentKind;
      ghost var before := r;
      if prev.Some? && prev.value != CommentKind {
        r := r + "\n";
      }
      prev := Some(TopKind(p[i]));
      r := PrintTopItem(p[i], 0, r);
      TopOutputUnfolds(before, r, p, i);
    }
    AllTopWritten(out, p);
  }

  lemma TopOutputUnfolds(before: string, after: string, p: Program, i: nat)
    requires i < |p| && after == (if BlankBeforeTop(p, i) then before + "\n" else before) + Flat(PrintItem(p[i]))
    ensures TopOutput(before, p, i) == TopOutput(after, p, i + 1)
  {}

  lemma AllTopWritten(out: string, p: Program)
    ensures TopOutput(out, p, 0) == out + Flat(PrintProgram(p))
  {
    TopWritten(out, p, 0);
    assert p[0..] == p;
    WholeOutput(out, PrintProgram(p));
    assert p == [] ==> PrintProgram(p) == [];
  }

  function TopRest(p: Program, i: nat): Span
    requires i <= |p|
  {
    if i == |p| then [] else (if BlankBeforeTop(p, i) then [NL] else []) + PrintProgram(p[i..])
  }

  lemma TopRestStep(p: Program, i: nat)
    requires i < |p|
    ensures TopRest(p, i) == (if BlankBeforeTop(p, i) then [NL] else []) + (PrintItem(p[i]) + TopRest(p, i + 1))
  {
    var item, others := PrintItem(p[i]), PrintProgram(p[i + 1..]);
    assert p[i..][1..] == p[i + 1..] && p[i..][0] == p[i];
    if i + 1 == |p| {
      assert others == [] && item + [] + [] == item + [];
    } else {
      Regroup(item, if BlankBeforeTop(p, i + 1) then [NL] else [], others);
    }
  }

  lemma {:induction false} TopWritten(out: string, p: Program, i: nat)
    requires i <= |p|
    ensures TopOutput(out, p, i) == out + Flat(TopRest(p, i))
    decreases |p| - i
  {
    if i == |p| {
      NothingLeft(out);
    } else {
      var next := (if BlankBeforeTop(p, i) then out + "\n" else out) + Flat(PrintItem(p[i]));
      TopWritten(next, p, i + 1);
      TopRestStep(p, i);
      PushRest(out, BlankBeforeTop(p, i), PrintItem(p[i]), TopRest(p, i + 1));
    }
  }

  method FormatText(input: string) returns (out: string)
    ensures out == Format(input)
  {
    var tree := Parse(Lex(input));
    if tree.None? {
      return input;
    }
    SourceTree(input);
    out := PrintProgramText(tree.value, "");
    assert out == Flat(PrintProgram(tree.value));
    if out == "" || out[|out| - 1] != '\n' {
      out := out + "\n";
    }
  }

  /** The formatter writes exactly what `Format` says: the layout of the program that the source spells, and the source
      itself if it spells none. */
  method FormatSource(input: string) returns (out: string)
    ensures out == Format(input)
    ensures forall p | Spells(Lex(input), p) :: out == Document(p)
    ensures (forall p :: !Spells(Lex(input), p)) ==> out == input
  {
    out := FormatText(input);
    FormatLaysOut(input);
  }
}
