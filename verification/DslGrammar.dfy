/**
 The grammar of the structural layer as a relation: which lexeme lists spell which tree. White space may stand
 between any two structural lexemes, and the comma behind a pair, a parameter or an attribute may be left out.
 Each `Spells` predicate says of a list that it spells something and that `rest` comes behind.
 */
module DslGrammar {
  import opened Text
  import opened DslLexer
  import opened DslTree
  import opened DslParser

  // ---------------------------------------------------------------- echoed spans

  /** A lexeme that is no bracket, and with `flat` set no comma. */
  predicate IsLeaf(l: Lexeme, flat: bool) {
    !l.Unterminated? && !(l.Punct? && (IsOpener(l.c) || IsCloser(l.c))) && (flat ==> l != COMMA)
  }

  /** Brackets are in balance; with `flat` set, no comma stands outside of them. */
  ghost predicate Balanced(s: Span, flat: bool)
    decreases |s|
  {
    || s == []
    || (IsLeaf(s[0], flat) && Balanced(s[1..], flat))
    || exists k | 1 <= k < |s| :: ClosesAt(s, k) && Balanced(s[1..k], false) && Balanced(s[k + 1..], flat)
  }

  /** The first lexeme is a bracket, and the one at `k` could close it. */
  predicate ClosesAt(s: Span, k: nat)
    requires k < |s|
  {
    s[0].Punct? && IsOpener(s[0].c) && s[k] == Punct(CloserOf(s[0].c))
  }

  /** A pair of brackets with something balanced between them. */
  ghost predicate Bracketed(s: Span) {
    |s| >= 2 && ClosesAt(s, |s| - 1) && Balanced(s[1..|s| - 1], false)
  }

  /** A name, a number, a duration or a string; an array; and where `record` says so, a record. */
  ghost predicate ValueSpan(v: Span, record: bool) {
    || (|v| == 1 && (IsValueWord(v[0]) || v[0].Quoted?))
    || (Bracketed(v) && (v[0] == Punct('[') || (record && v[0] == OPEN)))
  }

  /** An array element, with nothing but itself at its two ends. */
  ghost predicate ElemSpan(e: Span) {
    && e != [] && !e[0].Space? && !e[0].Comment? && !e[|e| - 1].Space? && !e[|e| - 1].Comment?
    && Balanced(e, true)
  }

  /** Type arguments: names, commas and white space with angle brackets in balance. */
  ghost predicate Angled(s: Span)
    decreases |s|
  {
    || s == []
    || ((s[0] == COMMA || s[0].Space? || IsIdent(s[0])) && Angled(s[1..]))
    || exists k | 1 <= k < |s| ::
         s[0] == Punct('<') && s[k] == Punct('>') && Angled(s[1..k]) && Angled(s[k + 1..])
  }

  /** A name, which type arguments may follow if it is not built in. */
  ghost predicate TypeSpan(t: Span) {
    || (|t| == 1 && IsIdent(t[0]))
    || exists w, u :: TypeParts(t, w, u)
  }

  ghost predicate TypeParts(t: Span, w: Span, u: Span) {
    && t != [] && IsIdent(t[0]) && !IsBuiltinType(t[0])
    && Blank(w) && Angled(u) && t == [t[0]] + (w + ([Punct('<')] + (u + [Punct('>')])))
  }

  /** Something up to a pair of braces, with no other brace before them. */
  ghost predicate DefinitionSpan(d: Span) {
    exists h | 0 <= h < |d| :: d[h] == OPEN && Braceless(d[..h]) && Bracketed(d[h..])
  }

  ghost predicate Braceless(s: Span) {
    forall i | 0 <= i < |s| :: s[i] != OPEN && s[i] != CLOSE
  }

  // ---------------------------------------------------------------- white space and marks

  /** White space, then `t`. */
  ghost predicate Gap(s: Span, t: Span) {
    exists w :: Blank(w) && s == w + t
  }

  /** White space, the mark `l`, then `t`. */
  ghost predicate Marked(s: Span, l: Lexeme, t: Span) {
    Gap(s, [l] + t)
  }

  ghost predicate OptionalComma(s: Span, rest: Span) {
    s == rest || Marked(s, COMMA, rest)
  }

  predicate IsSeparator(c: char) {
    c == '=' || c == ':'
  }

  // ---------------------------------------------------------------- metadata

  ghost predicate SpellsEntry(s: Span, e: Entry, rest: Span) {
    match e
    case EntryComment(c) => c.Comment? && s == [c] + rest
    case Pair(key, sep, value) => exists a, b, c :: PairParts(s, key, sep, value, a, b, c) && OptionalComma(c, rest)
  }

  ghost predicate PairParts(s: Span, key: Lexeme, sep: char, value: Span, a: Span, b: Span, c: Span) {
    && IsIdent(key) && s == [key] + a
    && IsSeparator(sep) && Marked(a, Punct(sep), b)
    && ValueSpan(value, true) && Gap(b, value + c)
  }

  /** Metadata entries and the closing brace. */
  ghost predicate SpellsEntries(s: Span, es: seq<Entry>, rest: Span)
    decreases |es|
  {
    if es == [] then Marked(s, CLOSE, rest)
    else exists t, u :: Gap(s, t) && SpellsEntry(t, es[0], u) && SpellsEntries(u, es[1..], rest)
  }

  // ---------------------------------------------------------------- agents

  /** `name : type` */
  ghost predicate ParamSpan(p: Span) {
    exists a, b, t :: ParamParts(p, a, b, t)
  }

  ghost predicate ParamParts(p: Span, a: Span, b: Span, t: Span) {
    p != [] && IsIdent(p[0]) && p == [p[0]] + a && Marked(a, Punct(':'), b) && TypeSpan(t) && Gap(b, t)
  }

  /** Parameters and the closing parenthesis. */
  ghost predicate SpellsParams(s: Span, ps: seq<Span>, rest: Span)
    decreases |ps|
  {
    if ps == [] then Marked(s, Punct(')'), rest)
    else
      exists t, u :: Gap(s, ps[0] + t) && ParamSpan(ps[0]) && OptionalComma(t, u) && SpellsParams(u, ps[1..], rest)
  }

  ghost predicate SpellsOptionalParams(s: Span, params: Option<seq<Span>>, rest: Span) {
    match params
    case None => s == rest
    case Some(ps) => exists t :: Marked(s, Punct('('), t) && SpellsParams(t, ps, rest)
  }

  ghost predicate SpellsReturn(s: Span, ret: Option<Span>, rest: Span) {
    match ret
    case None => s == rest
    case Some(t) => exists u :: Gap(s, [Punct('-'), Punct('>')] + u) && TypeSpan(t) && Gap(u, t + rest)
  }

  /** Array elements and the closing bracket: a comma between any two, and one more if wanted. */
  ghost predicate SpellsElems(s: Span, es: seq<Span>, rest: Span)
    decreases |es|
  {
    if es == [] then Marked(s, Punct(']'), rest)
    else
      exists t :: Gap(s, es[0] + t) && ElemSpan(es[0])
        && ((|es| == 1 && Marked(t, Punct(']'), rest))
            || exists u :: Marked(t, COMMA, u) && SpellsElems(u, es[1..], rest))
  }

  ghost predicate SpellsAttribute(s: Span, a: Attribute, rest: Span) {
    exists t, u, c :: AttributeParts(s, a, t, u, c) && OptionalComma(c, rest)
  }

  ghost predicate AttributeParts(s: Span, a: Attribute, t: Span, u: Span, c: Span) {
    && IsIdent(a.key) && s == [a.key] + t
    && Marked(t, Punct('='), u)
    && ValueSpan(a.value, false) && Gap(u, a.value + c)
  }

  /** Attributes, then a body in braces. */
  ghost predicate SpellsWith(s: Span, attrs: seq<Attribute>, body: Span, rest: Span)
    decreases |attrs|
  {
    if attrs == [] then Gap(s, body + rest) && Bracketed(body) && body[0] == OPEN
    else exists t, u :: Gap(s, t) && SpellsAttribute(t, attrs[0], u) && SpellsWith(u, attrs[1..], body, rest)
  }

  ghost predicate SpellsAgentItem(s: Span, item: AgentItem, rest: Span) {
    match item
    case ItemComment(c) => c.Comment? && s == [c] + rest
    case Capabilities(sep, elems) => exists a, b, c :: CapabilitiesParts(s, sep, a, b, c) && SpellsElems(c, elems, rest)
    case With(attrs, body) => exists a :: s == [Word("with")] + a && SpellsWith(a, attrs, body, rest)
    case Echoed(span) => span != [] && IsAgentLevel(span[0]) && DefinitionSpan(span) && s == span + rest
  }

  ghost predicate CapabilitiesParts(s: Span, sep: char, a: Span, b: Span, c: Span) {
    && s == [Word("capabilities")] + a
    && IsSeparator(sep) && Marked(a, Punct(sep), b) && Marked(b, Punct('['), c)
  }

  /** Agent items and the closing brace. */
  ghost predicate SpellsAgentItems(s: Span, items: seq<AgentItem>, rest: Span)
    decreases |items|
  {
    if items == [] then Marked(s, CLOSE, rest)
    else exists t, u :: Gap(s, t) && SpellsAgentItem(t, items[0], u) && SpellsAgentItems(u, items[1..], rest)
  }

  // ---------------------------------------------------------------- items

  ghost predicate SpellsItem(s: Span, item: Item, rest: Span) {
    match item
    case TopComment(c) => c.Comment? && s == [c] + rest
    case Metadata(es) => exists a, b :: s == [Word("metadata")] + a && Marked(a, OPEN, b) && SpellsEntries(b, es, rest)
    case Agent(name, params, ret, items) =>
      exists a, b, c, d, e :: AgentParts(s, name, params, ret, a, b, c, d, e) && SpellsAgentItems(e, items, rest)
    case Verbatim(span) => VerbatimSpan(span) && s == span + rest
  }

  ghost predicate AgentParts(s: Span, name: Lexeme, params: Option<seq<Span>>, ret: Option<Span>,
                             a: Span, b: Span, c: Span, d: Span, e: Span) {
    && s == [Word("agent")] + a && IsIdent(name) && Gap(a, [name] + b)
    && SpellsOptionalParams(b, params, c) && SpellsReturn(c, ret, d) && Marked(d, OPEN, e)
  }

  /** A definition that is echoed: `type name = ...`, or another one with a body in braces. */
  ghost predicate VerbatimSpan(span: Span) {
    && span != []
    && if span[0] == Word("type") then exists a, b, c :: TypeDefinitionParts(span, a, b, c)
       else IsTopLevel(span[0]) && DefinitionSpan(span)
  }

  ghost predicate TypeDefinitionParts(span: Span, a: Span, b: Span, c: Span) {
    && span != [] && span == [span[0]] + a
    && b != [] && IsIdent(b[0]) && Gap(a, b)
    && Marked(b[1..], Punct('='), c)
    && exists t :: Gap(c, t) && TypeBody(t)
  }

  /** A name, or fields in braces. */
  ghost predicate TypeBody(t: Span) {
    (|t| == 1 && IsIdent(t[0])) || (Bracketed(t) && t[0] == OPEN)
  }

  /** The list spells the program. */
  ghost predicate Spells(s: Span, p: Program)
    decreases |p|
  {
    if p == [] then Gap(s, [])
    else exists t, u :: Gap(s, t) && SpellsItem(t, p[0], u) && Spells(u, p[1..])
  }
}
