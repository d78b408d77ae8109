/** The reference parser of the structural layer, over lexemes. */
module DslParser {
  import opened Text
  import opened DslLexer
  import opened DslTree

  // ---------------------------------------------------------------- scanners: how far a span reaches

  /** The position of the first lexeme at or after `k` that is not white space. */
  function NextAt(s: Span, k: nat): (r: nat)
    requires k <= |s|
    ensures k <= r <= |s|
    decreases |s| - k
  {
    if k < |s| && s[k].Space? then NextAt(s, k + 1) else k
  }

  function SkipWs(s: Span): Span {
    if s != [] && s[0].Space? then SkipWs(s[1..]) else s
  }

  predicate IsIdent(l: Lexeme) {
    l.Word? && l.text != "" && !IsDigit(l.text[0])
  }

  /** `\d+(_\d+)*(\.\d+)?`, read from a state that says what was just read. */
  datatype NumberState = NumberStart | IntDigit | Underscore | Dot | FracDigit

  predicate IsNumber(s: string, st: NumberState) {
    if s == "" then st == IntDigit || st == FracDigit
    else if IsDigit(s[0]) then IsNumber(s[1..], if st == Dot || st == FracDigit then FracDigit else IntDigit)
    else if s[0] == '_' then st == IntDigit && IsNumber(s[1..], Underscore)
    else s[0] == '.' && st == IntDigit && IsNumber(s[1..], Dot)
  }

  function DropDigits(s: string): string {
    if s != "" && IsDigit(s[0]) then DropDigits(s[1..]) else s
  }

  /** `\d+` and a unit. */
  predicate IsDuration(s: string) {
    s != "" && IsDigit(s[0])
    && DropDigits(s) in [".seconds", ".minutes", ".hours", "s", "m", "h", "d", "w", "months", "y"]
  }

  predicate IsValueWord(l: Lexeme) {
    IsIdent(l) || (l.Word? && (IsNumber(l.text, NumberStart) || IsDuration(l.text)))
  }

  predicate IsOpener(c: char) { c == '(' || c == '[' || c == '{' }

  predicate IsCloser(c: char) { c == ')' || c == ']' || c == '}' }

  function CloserOf(c: char): char {
    if c == '(' then ')' else if c == '[' then ']' else '}'
  }

  /** The number of lexemes before the first closer that is not matched inside, with the closers still
      awaited in `stack`; with `comma` set, before the first unnested comma if that comes earlier. */
  function Inside(s: Span, stack: seq<char>, comma: bool): Option<nat> {
    if s == [] || s[0].Unterminated? then None
    else if Stops(s[0], stack, comma) then Some(0)
    else if s[0].Punct? && IsCloser(s[0].c) && s[0].c != stack[0] then None
    else
      var n := Inside(s[1..], StackAfter(s[0], stack), comma);
      if n.None? then None else Some(1 + n.value)
  }

  predicate Stops(l: Lexeme, stack: seq<char>, comma: bool) {
    stack == [] && l.Punct? && (IsCloser(l.c) || (comma && l.c == ','))
  }

  function StackAfter(l: Lexeme, stack: seq<char>): seq<char>
    requires l.Punct? && IsCloser(l.c) ==> stack != []
  {
    if l.Punct? && IsOpener(l.c) then [CloserOf(l.c)] + stack
    else if l.Punct? && IsCloser(l.c) then stack[1..]
    else stack
  }

  /** A balanced run from an opening bracket through the bracket that closes it. */
  function BracketedLen(s: Span): Option<nat> {
    if s == [] || !s[0].Punct? || !IsOpener(s[0].c) then None
    else
      var n := Inside(s[1..], [], false);
      if n.None? || n.value + 1 >= |s| || s[n.value + 1] != Punct(CloserOf(s[0].c)) then None
      else Some(n.value + 2)
  }

  function ValueLen(s: Span, record: bool): Option<nat> {
    if s == [] then None
    else if IsValueWord(s[0]) || s[0].Quoted? then Some(1)
    else if s[0] == Punct('[') || (record && s[0] == OPEN) then BracketedLen(s)
    else None
  }

  /** Type arguments up to the angle bracket that closes `depth` of them. */
  function AnglesLen(s: Span, depth: nat): Option<nat> {
    if s == [] then None
    else if s[0] == Punct('>') && depth <= 1 then Some(1)
    else if s[0] == Punct('<') || s[0] == Punct('>') || s[0] == COMMA || s[0].Space? || IsIdent(s[0]) then
      var d := if s[0] == Punct('<') then depth + 1 else if s[0] == Punct('>') then depth - 1 else depth;
      var n := AnglesLen(s[1..], d);
      if n.None? then None else Some(1 + n.value)
    else None
  }

  predicate IsBuiltinType(l: Lexeme) {
    l == Word("String") || l == Word("int") || l == Word("float") || l == Word("bool")
  }

  function TypeLen(s: Span): Option<nat> {
    if s == [] || !IsIdent(s[0]) then None
    else
      var k := ArgumentsAt(s);
      if k.None? then Some(1)
      else
        var n := AnglesLen(s[k.value..], 1);
        if n.None? then None else Some(k.value + n.value)
  }

  /** Where the type arguments start, past their opening angle. */
  function ArgumentsAt(s: Span): (k: Option<nat>)
    requires s != []
    ensures k.Some? ==> 2 <= k.value <= |s|
  {
    var k := NextAt(s, 1);
    if !IsBuiltinType(s[0]) && k < |s| && s[k] == Punct('<') then Some(k + 1) else None
  }

  /** `name :`, up to where the type starts. */
  function ParamHead(s: Span): (j: Option<nat>)
    ensures j.Some? ==> j.value <= |s|
  {
    if s == [] || !IsIdent(s[0]) then None
    else
      var k := NextAt(s, 1);
      if k == |s| || s[k] != Punct(':') then None else Some(NextAt(s, k + 1))
  }

  /** `name : type` */
  function ParamLen(s: Span): Option<nat> {
    var j := ParamHead(s);
    if j.None? then None
    else
      var n := TypeLen(s[j.value..]);
      if n.None? then None else Some(j.value + n.value)
  }

  /** The lexemes before the first brace, which must be an opening one. */
  function HeaderLen(s: Span): Option<nat> {
    if s == [] || s[0] == CLOSE then None
    else if s[0] == OPEN then Some(0)
    else
      var n := HeaderLen(s[1..]);
      if n.None? then None else Some(1 + n.value)
  }

  function DefinitionLen(s: Span): Option<nat> {
    var h := HeaderLen(s);
    if h.None? || h.value > |s| then None
    else
      var n := BracketedLen(s[h.value..]);
      if n.None? then None else Some(h.value + n.value)
  }

  /** `type name = name` or `type name = { ... }` */
  function TypeDefinitionLen(s: Span): Option<nat> {
    var i := TypeHead(s);
    if i.None? then None else TypeBodyEnd(s, i.value)
  }

  function TypeHead(s: Span): (i: Option<nat>)
    ensures i.Some? ==> 2 <= i.value <= |s|
  {
    if s == [] then None
    else
      var k := NextAt(s, 1);
      if k == |s| || !IsIdent(s[k]) then None
      else
        var j := NextAt(s, k + 1);
        if j == |s| || s[j] != Punct('=') then None else Some(NextAt(s, j + 1))
  }

  function TypeBodyEnd(s: Span, i: nat): Option<nat>
    requires i <= |s|
  {
    if i == |s| then None
    else if IsIdent(s[i]) then Some(i + 1)
    else if s[i] != OPEN then None
    else
      var n := BracketedLen(s[i..]);
      if n.None? then None else Some(i + n.value)
  }

  predicate IsAgentLevel(l: Lexeme) {
    l == Word("policy") || l == Word("function")
  }

  predicate IsTopLevel(l: Lexeme) {
    IsAgentLevel(l) || l == Word("schedule") || l == Word("channel") || l == Word("memory") || l == Word("webhook")
  }

  function VerbatimLen(s: Span): Option<nat> {
    if s == [] then None
    else if s[0] == Word("type") then TypeDefinitionLen(s)
    else if IsTopLevel(s[0]) then DefinitionLen(s)
    else None
  }

  // ---------------------------------------------------------------- nodes
  // The comparisons of lengths below are there for termination.

  /** Past white space and one given mark. */
  function Expect(s: Span, l: Lexeme): Option<Span> {
    var t := SkipWs(s);
    if t != [] && t[0] == l then Some(t[1..]) else None
  }

  function SkipComma(s: Span): Span {
    var t := SkipWs(s);
    if t != [] && t[0] == COMMA then t[1..] else s
  }

  function ParseEntry(s: Span): Option<(Entry, Span)> {
    if s == [] || !IsIdent(s[0]) then None
    else
      var t := SkipWs(s[1..]);
      if t == [] || (t[0] != Punct('=') && t[0] != Punct(':')) then None
      else
        var v := SkipWs(t[1..]);
        var n := ValueLen(v, true);
        if n.None? || n.value > |v| then None
        else Some((Pair(s[0], t[0].c, v[..n.value]), SkipComma(v[n.value..])))
  }

  function ParseEntries(s: Span): Option<(seq<Entry>, Span)>
    decreases |s|
  {
    var t := SkipWs(s);
    if t == [] || |t| > |s| then None
    else if t[0] == CLOSE then Some(([], t[1..]))
    else if t[0].Comment? then
      var r := ParseEntries(t[1..]);
      if r.None? then None else Some(([EntryComment(t[0])] + r.value.0, r.value.1))
    else
      var e := ParseEntry(t);
      if e.None? || |e.value.1| >= |t| then None
      else
        var r := ParseEntries(e.value.1);
        if r.None? then None else Some(([e.value.0] + r.value.0, r.value.1))
  }

  /** Parameters after the opening parenthesis. */
  function ParseParams(s: Span): Option<(seq<Span>, Span)>
    decreases |s|
  {
    var t := SkipWs(s);
    if t == [] || |t| > |s| then None
    else if t[0] == Punct(')') then Some(([], t[1..]))
    else
      var n := ParamLen(t);
      if n.None? || n.value > |t| then None
      else
        var rest := SkipComma(t[n.value..]);
        if |rest| >= |t| then None
        else
          var r := ParseParams(rest);
          if r.None? then None else Some(([t[..n.value]] + r.value.0, r.value.1))
  }

  function DropTrailingWs(s: Span): Span {
    if s != [] && s[|s| - 1].Space? then DropTrailingWs(s[..|s| - 1]) else s
  }

  /** Array elements after the opening bracket; a comment may not stand at an end of one. */
  function ParseElems(s: Span): Option<(seq<Span>, Span)>
    decreases |s|
  {
    var t := SkipWs(s);
    if t == [] || |t| > |s| then None
    else if t[0] == Punct(']') then Some(([], t[1..]))
    else
      var n := Inside(t, [], true);
      if n.None? || n.value >= |t| then None
      else
        var e := DropTrailingWs(t[..n.value]);
        if e == [] || e[0].Comment? || e[|e| - 1].Comment? then None
        else if t[n.value] == Punct(']') then Some(([e], t[n.value + 1..]))
        else if t[n.value] != COMMA then None
        else
          var r := ParseElems(t[n.value + 1..]);
          if r.None? then None else Some(([e] + r.value.0, r.value.1))
  }

  function ParseAttribute(s: Span): Option<(Attribute, Span)> {
    if s == [] || !IsIdent(s[0]) then None
    else
      var t := Expect(s[1..], Punct('='));
      if t.None? then None
      else
        var v := SkipWs(t.value);
        var n := ValueLen(v, false);
        if n.None? || n.value > |v| then None
        else Some((Attribute(s[0], v[..n.value]), SkipComma(v[n.value..])))
  }

  /** Attributes up to the body, which is left in the rest. */
  function ParseAttributes(s: Span): Option<(seq<Attribute>, Span)>
    decreases |s|
  {
    var t := SkipWs(s);
    if t == [] || |t| > |s| then None
    else if t[0] == OPEN then Some(([], t))
    else
      var a := ParseAttribute(t);
      if a.None? || |a.value.1| >= |t| then None
      else
        var r := ParseAttributes(a.value.1);
        if r.None? then None else Some(([a.value.0] + r.value.0, r.value.1))
  }

  function ParseCapabilities(s: Span): Option<(AgentItem, Span)> {
    var t := SkipWs(s);
    if t == [] || (t[0] != Punct('=') && t[0] != Punct(':')) then None
    else
      var a := Expect(t[1..], Punct('['));
      if a.None? then None
      else
        var r := ParseElems(a.value);
        if r.None? then None else Some((Capabilities(t[0].c, r.value.0), r.value.1))
  }

  function ParseWith(s: Span): Option<(AgentItem, Span)> {
    var a := ParseAttributes(s);
    if a.None? then None
    else
      var n := BracketedLen(a.value.1);
      if n.None? || n.value > |a.value.1| then None
      else Some((With(a.value.0, a.value.1[..n.value]), a.value.1[n.value..]))
  }

  function ParseAgentItem(s: Span): Option<(AgentItem, Span)> {
    if s == [] then None
    else if s[0].Comment? then Some((ItemComment(s[0]), s[1..]))
    else if s[0] == Word("capabilities") then ParseCapabilities(s[1..])
    else if s[0] == Word("with") then ParseWith(s[1..])
    else if IsAgentLevel(s[0]) then
      var n := DefinitionLen(s);
      if n.None? || n.value > |s| then None else Some((Echoed(s[..n.value]), s[n.value..]))
    else None
  }

  function ParseAgentItems(s: Span): Option<(seq<AgentItem>, Span)>
    decreases |s|
  {
    var t := SkipWs(s);
    if t == [] || |t| > |s| then None
    else if t[0] == CLOSE then Some(([], t[1..]))
    else
      var i := ParseAgentItem(t);
      if i.None? || |i.value.1| >= |t| then None
      else
        var r := ParseAgentItems(i.value.1);
        if r.None? then None else Some(([i.value.0] + r.value.0, r.value.1))
  }

  function ParseOptionalParams(s: Span): Option<(Option<seq<Span>>, Span)> {
    var t := Expect(s, Punct('('));
    if t.None? then Some((None, s))
    else
      var r := ParseParams(t.value);
      if r.None? then None else Some((Some(r.value.0), r.value.1))
  }

  function ParseReturn(s: Span): Option<(Option<Span>, Span)> {
    var t := SkipWs(s);
    if |t| < 2 || t[0] != Punct('-') || t[1] != Punct('>') then Some((None, s))
    else
      var u := SkipWs(t[2..]);
      var n := TypeLen(u);
      if n.None? || n.value > |u| then None else Some((Some(u[..n.value]), u[n.value..]))
  }

  /** An agent definition after its keyword. */
  function ParseAgent(s: Span): Option<(Item, Span)> {
    var t := SkipWs(s);
    if t == [] || !IsIdent(t[0]) then None
    else
      var p := ParseOptionalParams(t[1..]);
      if p.None? then None
      else
        var ret := ParseReturn(p.value.1);
        if ret.None? then None
        else
          var b := Expect(ret.value.1, OPEN);
          if b.None? then None
          else
            var r := ParseAgentItems(b.value);
            if r.None? then None else Some((Agent(t[0], p.value.0, ret.value.0, r.value.0), r.value.1))
  }

  function ParseItem(s: Span): Option<(Item, Span)> {
    if s == [] then None
    else if s[0].Comment? then Some((TopComment(s[0]), s[1..]))
    else if s[0] == Word("metadata") then
      var b := Expect(s[1..], OPEN);
      if b.None? then None
      else
        var r := ParseEntries(b.value);
        if r.None? then None else Some((Metadata(r.value.0), r.value.1))
    else if s[0] == Word("agent") then ParseAgent(s[1..])
    else
      var n := VerbatimLen(s);
      if n.None? || n.value > |s| then None else Some((Verbatim(s[..n.value]), s[n.value..]))
  }

  function Parse(s: Span): Option<Program>
    decreases |s|
  {
    var t := SkipWs(s);
    if |t| > |s| then None
    else if t == [] then Some([])
    else
      var i := ParseItem(t);
      if i.None? || |i.value.1| >= |t| then None
      else
        var r := Parse(i.value.1);
        if r.None? then None else Some([i.value.0] + r.value)
  }

  /** Formatting a source: a source that does not parse is echoed. */
  function Format(source: string): string {
    var tree := Parse(Lex(source));
    if tree.None? then source else Render(tree.value)
  }
}
