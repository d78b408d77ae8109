/**
 The structural layer of a DSL source: what the formatter rewrites, with the echoed parts
 held as lexeme spans. The printer is given as the lexeme list it writes.
 */
module DslTree {
  import opened Text
  import opened DslLexer

  type Span = seq<Lexeme>

  datatype Entry =
    | Pair(key: Lexeme, sep: char, value: Span)
    | EntryComment(comment: Lexeme)

  datatype Attribute = Attribute(key: Lexeme, value: Span)

  datatype AgentItem =
    | Capabilities(sep: char, elems: seq<Span>)
    | With(attrs: seq<Attribute>, body: Span)
    | Echoed(span: Span)
    | ItemComment(comment: Lexeme)

  datatype Item =
    | Metadata(entries: seq<Entry>)
    | Agent(name: Lexeme, params: Option<seq<Span>>, ret: Option<Span>, items: seq<AgentItem>)
    | Verbatim(span: Span)
    | TopComment(comment: Lexeme)

  type Program = seq<Item>

  const SP: Lexeme := Space(' ')
  const NL: Lexeme := Space('\n')
  const INDENT: Span := [SP, SP, SP, SP]
  const OPEN: Lexeme := Punct('{')
  const CLOSE: Lexeme := Punct('}')
  const COMMA: Lexeme := Punct(',')

  ghost predicate Blank(w: Span) {
    forall i | 0 <= i < |w| :: w[i].Space?
  }

  // ---------------------------------------------------------------- the printer

  function Separator(sep: char): Span {
    if sep == '=' then [SP, Punct('='), SP] else [Punct(':'), SP]
  }

  function EntryText(e: Entry): Span {
    match e
    case Pair(key, sep, value) => [key] + Separator(sep) + value + [COMMA]
    case EntryComment(c) => [c]
  }

  function PrintEntry(e: Entry): Span {
    INDENT + EntryText(e) + [NL]
  }

  function PrintEntries(es: seq<Entry>): Span {
    if es == [] then [] else PrintEntry(es[0]) + PrintEntries(es[1..])
  }

  const METADATA_OPEN: Span := [Word("metadata"), SP, OPEN, NL]

  function PrintMetadata(es: seq<Entry>): Span {
    METADATA_OPEN + PrintEntries(es) + [CLOSE]
  }

  /** Spans joined by a comma and a blank. */
  function Joined(spans: seq<Span>): Span {
    if spans == [] then []
    else if |spans| == 1 then spans[0]
    else spans[0] + [COMMA, SP] + Joined(spans[1..])
  }

  function CapabilitiesText(sep: char, elems: seq<Span>): Span {
    [Word("capabilities")] + Separator(sep) + [Punct('[')] + Joined(elems) + [Punct(']')]
  }

  function PrintAttribute(a: Attribute): Span {
    [a.key] + [SP, Punct('='), SP] + a.value
  }

  function PrintAttributes(attrs: seq<Attribute>): Span {
    if attrs == [] then []
    else if |attrs| == 1 then PrintAttribute(attrs[0])
    else PrintAttribute(attrs[0]) + [COMMA, SP] + PrintAttributes(attrs[1..])
  }

  function TrimOpening(s: string): string {
    if s != "" && s[0] == '{' then TrimOpening(s[1..]) else s
  }

  function TrimClosing(s: string): string {
    if s != "" && s[|s| - 1] == '}' then TrimClosing(s[..|s| - 1]) else s
  }

  /** Nothing is left of the body when braces and then white space are stripped from its ends. */
  predicate Hollow(body: Span) {
    Trim(TrimClosing(TrimOpening(Flat(body)))) == ""
  }

  /** What a hollow `with` body is replaced by. */
  const EMPTY_BODY: Span := [OPEN, NL] + INDENT + [CLOSE]

  function CanonBody(body: Span): Span {
    if Hollow(body) then EMPTY_BODY else body
  }

  function WithText(attrs: seq<Attribute>, body: Span): Span {
    [Word("with"), SP] + PrintAttributes(attrs) + [SP] + CanonBody(body)
  }

  function AgentItemText(item: AgentItem): Span {
    match item
    case Capabilities(sep, elems) => CapabilitiesText(sep, elems)
    case With(attrs, body) => WithText(attrs, body)
    case Echoed(span) => span
    case ItemComment(c) => [c]
  }

  function PrintAgentItem(item: AgentItem): Span {
    INDENT + AgentItemText(item) + [NL]
  }

  /** Items, each but the first and those behind a comment with a blank line before it. */
  function PrintAgentItems(items: seq<AgentItem>): Span {
    if items == [] then []
    else PrintAgentItem(items[0])
         + (if |items| > 1 && !items[0].ItemComment? then [NL] else [])
         + PrintAgentItems(items[1..])
  }

  function PrintParams(params: Option<seq<Span>>): Span {
    if params.None? || params.value == [] then []
    else [Punct('(')] + Joined(params.value) + [Punct(')')]
  }

  const ARROW: Span := [SP, Punct('-'), Punct('>'), SP]

  function PrintReturn(ret: Option<Span>): Span {
    if ret.None? then [] else ARROW + ret.value
  }

  function PrintAgent(name: Lexeme, params: Option<seq<Span>>, ret: Option<Span>, items: seq<AgentItem>): Span {
    [Word("agent"), SP] + [name] + PrintParams(params) + PrintReturn(ret) + [SP, OPEN, NL] + PrintAgentItems(items)
      + [CLOSE]
  }

  function ItemText(item: Item): Span {
    match item
    case Metadata(entries) => PrintMetadata(entries)
    case Agent(name, params, ret, items) => PrintAgent(name, params, ret, items)
    case Verbatim(span) => span
    case TopComment(c) => [c]
  }

  function PrintItem(item: Item): Span {
    ItemText(item) + [NL]
  }

  function PrintProgram(p: Program): Span {
    if p == [] then []
    else PrintItem(p[0]) + (if |p| > 1 && !p[0].TopComment? then [NL] else []) + PrintProgram(p[1..])
  }

  /** The formatter's output for a parsed source. */
  function Render(p: Program): string {
    var out := Flat(PrintProgram(p));
    if out != "" && out[|out| - 1] == '\n' then out else out + "\n"
  }

  // ---------------------------------------------------------------- the canonical tree

  /** The tree that the printed text has: no empty parameter list, no hollow body but the empty one. */
  function Canon(p: Program): Program {
    seq(|p|, i requires 0 <= i < |p| => CanonItem(p[i]))
  }

  function CanonItem(item: Item): Item {
    match item
    case Agent(name, params, ret, items) => Agent(name, CanonParams(params), ret, CanonItems(items))
    case Metadata(_) => item
    case Verbatim(_) => item
    case TopComment(_) => item
  }

  function CanonParams(params: Option<seq<Span>>): Option<seq<Span>> {
    if params == Some([]) then None else params
  }

  function CanonItems(items: seq<AgentItem>): seq<AgentItem> {
    seq(|items|, i requires 0 <= i < |items| => CanonAgentItem(items[i]))
  }

  function CanonAgentItem(item: AgentItem): AgentItem {
    if item.With? then item.(body := CanonBody(item.body)) else item
  }

  // ---------------------------------------------------------------- what a tree says

  /** Significant lexemes: everything but white space and commas. */
  function Essence(ls: Span): Span {
    if ls == [] then []
    else (if ls[0].Space? || ls[0] == COMMA then [] else [ls[0]]) + Essence(ls[1..])
  }

  function EssenceOfSpans(spans: seq<Span>): Span {
    if spans == [] then [] else Essence(spans[0]) + EssenceOfSpans(spans[1..])
  }

  function EssenceOfEntry(e: Entry): Span {
    match e
    case Pair(key, sep, value) => [key, Punct(sep)] + Essence(value)
    case EntryComment(c) => [c]
  }

  function EssenceOfEntries(es: seq<Entry>): Span {
    if es == [] then [] else EssenceOfEntry(es[0]) + EssenceOfEntries(es[1..])
  }

  function EssenceOfAttributes(attrs: seq<Attribute>): Span {
    if attrs == [] then []
    else [attrs[0].key, Punct('=')] + Essence(attrs[0].value) + EssenceOfAttributes(attrs[1..])
  }

  function EssenceOfAgentItem(item: AgentItem): Span {
    match item
    case Capabilities(sep, elems) =>
      [Word("capabilities"), Punct(sep), Punct('[')] + EssenceOfSpans(elems) + [Punct(']')]
    case With(attrs, body) => [Word("with")] + EssenceOfAttributes(attrs) + Essence(body)
    case Echoed(span) => Essence(span)
    case ItemComment(c) => [c]
  }

  function EssenceOfAgentItems(items: seq<AgentItem>): Span {
    if items == [] then [] else EssenceOfAgentItem(items[0]) + EssenceOfAgentItems(items[1..])
  }

  function EssenceOfParams(params: Option<seq<Span>>): Span {
    if params.None? then [] else [Punct('(')] + EssenceOfSpans(params.value) + [Punct(')')]
  }

  function EssenceOfReturn(ret: Option<Span>): Span {
    if ret.None? then [] else [Punct('-'), Punct('>')] + Essence(ret.value)
  }

  function EssenceOfItem(item: Item): Span {
    match item
    case Metadata(entries) => [Word("metadata"), OPEN] + EssenceOfEntries(entries) + [CLOSE]
    case Agent(name, params, ret, items) =>
      [Word("agent"), name] + EssenceOfParams(params) + EssenceOfReturn(ret) + [OPEN] + EssenceOfAgentItems(items)
        + [CLOSE]
    case Verbatim(span) => Essence(span)
    case TopComment(c) => [c]
  }

  function EssenceOfProgram(p: Program): Span {
    if p == [] then [] else EssenceOfItem(p[0]) + EssenceOfProgram(p[1..])
  }

  /** The formatter drops no significant lexeme of the tree: no empty parameter list, and no `with` body
      made of more than one pair of braces and white space. */
  predicate Lossless(p: Program) {
    forall i | 0 <= i < |p| :: LosslessItem(p[i])
  }

  predicate LosslessItem(item: Item) {
    item.Agent? ==> item.params != Some([]) && forall i | 0 <= i < |item.items| :: LosslessAgentItem(item.items[i])
  }

  predicate LosslessAgentItem(item: AgentItem) {
    item.With? && Hollow(item.body) ==> Essence(item.body) == [OPEN, CLOSE]
  }
}
