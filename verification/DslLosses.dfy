/** Sources that formatting does not leave saying the same. */
module DslLosses {
  import opened Text
  import opened DslLexer
  import opened DslTree
  import opened DslParser
  import opened DslSpans
  import opened DslSound
  import opened DslRelex
  import opened DslRoundTrip
  import opened DslFormat

  predicate IsWordName(name: string) {
    name != "" && !IsDigit(name[0]) && forall i | 0 <= i < |name| :: IsWordChar(name[i])
  }

  /** `agent name`, and what follows the name. */
  function AgentSource(name: string, rest: Span): Span {
    [Word("agent"), SP, Word(name)] + rest
  }

  lemma WordFits(t: string, m: Lexeme)
    requires t != "" && !IsDigit(t[0]) && IsMark(m)
    ensures Fits(Word(t), m)
  {}

  /** A name between lists of lexemes, marks behind it. */
  lemma NameThen(t: string, rest: Span)
    requires IsWordName(t) && Stable(rest) && rest != [] && IsMark(rest[0])
    ensures Stable([Word(t)] + rest)
  {
    WordValid(t);
    WordFits(t, rest[0]);
    StableCons(Word(t), rest);
  }

  lemma AgentSourceStable(name: string, rest: Span)
    requires IsWordName(name) && Stable(rest) && rest != [] && IsMark(rest[0])
    ensures Stable(AgentSource(name, rest))
  {
    NameThen(name, rest);
    MarkValid(SP);
    StableCons(SP, [Word(name)] + rest);
    NameThen("agent", [SP] + ([Word(name)] + rest));
    assert AgentSource(name, rest) == [Word("agent")] + ([SP] + ([Word(name)] + rest));
  }

  lemma TextThen(l: Lexeme, rest: Span)
    ensures Flat([l] + rest) == TextOf(l) + Flat(rest)
  {
    assert ([l] + rest)[1..] == rest;
  }

  lemma AgentSourceText(name: string, rest: Span)
    ensures Flat(AgentSource(name, rest)) == "agent " + name + Flat(rest)
  {
    TextThen(Word(name), rest);
    TextThen(SP, [Word(name)] + rest);
    TextThen(Word("agent"), [SP] + ([Word(name)] + rest));
    assert AgentSource(name, rest) == [Word("agent")] + ([SP] + ([Word(name)] + rest));
    HeadText(name, Flat(rest));
  }

  lemma HeadText(name: string, rest: string)
    ensures "agent" + (" " + (name + rest)) == "agent " + name + rest
  {
    assert "agent" + " " == "agent ";
  }

  /** The only item of a source. */
  lemma OnlyItem(s: Span, item: Item)
    requires s != [] && !s[0].Space? && ParseItem(s) == Some((item, []))
    ensures Parse(s) == Some([item])
  {
    assert Parse([]) == Some([]);
    assert [item] + [] == [item];
  }

  lemma AgentParses(name: string, rest: Span)
    requires IsWordName(name)
    ensures ParseItem(AgentSource(name, rest)) == ParseAgent([SP, Word(name)] + rest)
    ensures SkipWs([SP, Word(name)] + rest) == [Word(name)] + rest
  {
    var s := AgentSource(name, rest);
    assert s[0] == Word("agent") && s[1..] == [SP, Word(name)] + rest;
    assert ([SP, Word(name)] + rest)[1..] == [Word(name)] + rest;
  }

  // ---------------------------------------------------------------- an empty parameter list

  const EMPTY_PARENS: Span := [Punct('('), Punct(')'), OPEN, CLOSE]

  lemma EmptyParensParse(name: string)
    requires IsWordName(name)
    ensures ParseAgent([SP, Word(name)] + EMPTY_PARENS) == Some((Agent(Word(name), Some([]), None, []), []))
  {
    AgentParses(name, EMPTY_PARENS);
    var t := [Word(name)] + EMPTY_PARENS;
    assert t[1..] == EMPTY_PARENS;
    EmptyParens();
    EmptyBraces();
  }

  lemma EmptyParens()
    ensures ParseOptionalParams(EMPTY_PARENS) == Some((Some([]), [OPEN, CLOSE]))
  {
    assert EMPTY_PARENS[1..] == [Punct(')'), OPEN, CLOSE];
    assert [Punct(')'), OPEN, CLOSE][1..] == [OPEN, CLOSE];
    assert ParseParams([Punct(')'), OPEN, CLOSE]) == Some(([], [OPEN, CLOSE]));
  }

  lemma EmptyBraces()
    ensures ParseReturn([OPEN, CLOSE]) == Some((None, [OPEN, CLOSE]))
    ensures Expect([OPEN, CLOSE], OPEN) == Some([CLOSE]) && ParseAgentItems([CLOSE]) == Some(([], []))
  {
    assert [OPEN, CLOSE][1..] == [CLOSE] && [CLOSE][1..] == [];
  }

  /** Whatever its name, an agent with an empty parameter list loses its parentheses. */
  lemma EmptyParametersAreLost(name: string)
    requires IsWordName(name)
    ensures var source := "agent " + name + "(){}";
      && Parse(Lex(source)) == Some([Agent(Word(name), Some([]), None, [])])
      && !Lossless(Parse(Lex(source)).value)
      && Essence(Lex(Format(source))) != Essence(Lex(source))
  {
    var agent := Agent(Word(name), Some([]), None, []);
    EmptyParensSource(name);
    AgentParses(name, EMPTY_PARENS);
    EmptyParensParse(name);
    OnlyItem(AgentSource(name, EMPTY_PARENS), agent);
    Loses("agent " + name + "(){}", agent);
  }

  lemma EmptyParensSource(name: string)
    requires IsWordName(name)
    ensures Lex("agent " + name + "(){}") == AgentSource(name, EMPTY_PARENS)
  {
    MarksStable(EMPTY_PARENS);
    AgentSourceStable(name, EMPTY_PARENS);
    AgentSourceText(name, EMPTY_PARENS);
    FlatMarks(EMPTY_PARENS, "(){}");
    LexFlat(AgentSource(name, EMPTY_PARENS));
  }

  lemma Loses(source: string, item: Item)
    requires Parse(Lex(source)) == Some([item]) && !LosslessItem(item)
    ensures !Lossless(Parse(Lex(source)).value) && Essence(Lex(Format(source))) != Essence(Lex(source))
  {
    assert !LosslessItem([item][0]);
    TokensSurvive(source);
  }

  // ---------------------------------------------------------------- a body of nested braces

  const NESTED_BRACES: Span := [OPEN, OPEN, CLOSE, CLOSE]

  function WithNested(): Span {
    [OPEN] + ([Word("with")] + (NESTED_BRACES + [CLOSE]))
  }

  lemma NestedBody()
    ensures BracketedLen(NESTED_BRACES + [CLOSE]) == Some(4) && Hollow(NESTED_BRACES) && |Essence(NESTED_BRACES)| == 4
  {
    NestedLen();
    NestedHollow();
    NestedEssence();
  }

  lemma NestedLen()
    ensures BracketedLen(NESTED_BRACES + [CLOSE]) == Some(4)
  {
    var s := NESTED_BRACES + [CLOSE];
    assert s[1..] == [OPEN, CLOSE, CLOSE, CLOSE];
    assert [OPEN, CLOSE, CLOSE, CLOSE][1..] == [CLOSE, CLOSE, CLOSE];
    assert [CLOSE, CLOSE, CLOSE][1..] == [CLOSE, CLOSE];
    assert Inside([CLOSE, CLOSE], [], false) == Some(0);
    assert StackAfter(CLOSE, ['}']) == [];
    assert Inside([CLOSE, CLOSE, CLOSE], ['}'], false) == Some(1);
    assert StackAfter(OPEN, []) == ['}'];
    assert Inside([OPEN, CLOSE, CLOSE, CLOSE], [], false) == Some(2);
  }

  lemma NestedHollow()
    ensures Hollow(NESTED_BRACES)
  {
    FlatMarks(NESTED_BRACES, "{{}}");
    assert "{{}}"[1..] == "{}}" && "{}}"[1..] == "}}";
    assert TrimOpening("}}") == "}}";
    assert TrimOpening("{}}") == "}}";
    assert "}}"[..1] == "}" && "}"[..0] == "";
    assert TrimClosing("") == "" && TrimClosing("}") == "";
    TrimAround("", "", "");
    assert "" + "" + "" == "";
  }

  lemma NestedEssence()
    ensures |Essence(NESTED_BRACES)| == 4
  {
    assert NESTED_BRACES[1..] == [OPEN, CLOSE, CLOSE] && [OPEN, CLOSE, CLOSE][1..] == [CLOSE, CLOSE];
    assert [CLOSE, CLOSE][1..] == [CLOSE] && [CLOSE][1..] == [];
    assert |Essence([CLOSE])| == 1;
    assert |Essence([CLOSE, CLOSE])| == 2;
    assert |Essence([OPEN, CLOSE, CLOSE])| == 3;
  }

  lemma WithNestedParses()
    ensures ParseAgentItems([Word("with")] + (NESTED_BRACES + [CLOSE])) == Some(([With([], NESTED_BRACES)], []))
  {
    var s := [Word("with")] + (NESTED_BRACES + [CLOSE]);
    var w := NESTED_BRACES + [CLOSE];
    assert s[1..] == w && w[..4] == NESTED_BRACES && w[4..] == [CLOSE] && [CLOSE][1..] == [];
    NestedBody();
    assert ParseAttributes(w) == Some(([], w));
    assert ParseAgentItem(s) == Some((With([], NESTED_BRACES), [CLOSE]));
    assert ParseAgentItems([CLOSE]) == Some(([], []));
    AgentItemsStep(s, s, With([], NESTED_BRACES), [CLOSE], [], []);
    assert [With([], NESTED_BRACES)] + [] == [With([], NESTED_BRACES)];
  }

  lemma NestedParses(name: string)
    requires IsWordName(name)
    ensures ParseAgent([SP, Word(name)] + WithNested())
            == Some((Agent(Word(name), None, None, [With([], NESTED_BRACES)]), []))
  {
    AgentParses(name, WithNested());
    var t := [Word(name)] + WithNested();
    var u := [Word("with")] + (NESTED_BRACES + [CLOSE]);
    assert t[1..] == WithNested() && WithNested()[1..] == u;
    NoHead(WithNested(), u);
    WithNestedParses();
  }

  lemma NoHead(s: Span, u: Span)
    requires s != [] && s[0] == OPEN && s[1..] == u
    ensures ParseOptionalParams(s) == Some((None, s)) && ParseReturn(s) == Some((None, s)) && Expect(s, OPEN) == Some(u)
  {}

  lemma WithNestedStable()
    ensures Stable(WithNested())
  {
    var w := NESTED_BRACES + [CLOSE];
    MarksStable(w);
    NameThen("with", w);
    MarkValid(OPEN);
    StableCons(OPEN, [Word("with")] + w);
  }

  lemma WithNestedText()
    ensures Flat(WithNested()) == "{with{{}}}"
  {
    var w := NESTED_BRACES + [CLOSE];
    FlatMarks(w, "{{}}}");
    TextThen(Word("with"), w);
    TextThen(OPEN, [Word("with")] + w);
  }

  /** Whatever its name, an agent whose `with` body is a pair of braces in braces loses the inner pair. */
  lemma NestedBracesAreLost(name: string)
    requires IsWordName(name)
    ensures var source := "agent " + name + "{with{{}}}";
      && Parse(Lex(source)) == Some([Agent(Word(name), None, None, [With([], NESTED_BRACES)])])
      && !Lossless(Parse(Lex(source)).value)
      && Essence(Lex(Format(source))) != Essence(Lex(source))
  {
    var item := With([], NESTED_BRACES);
    var agent := Agent(Word(name), None, None, [item]);
    NestedSource(name);
    AgentParses(name, WithNested());
    NestedParses(name);
    OnlyItem(AgentSource(name, WithNested()), agent);
    NestedBody();
    assert agent.items[0] == item && !LosslessAgentItem(item);
    Loses("agent " + name + "{with{{}}}", agent);
  }

  lemma NestedSource(name: string)
    requires IsWordName(name)
    ensures Lex("agent " + name + "{with{{}}}") == AgentSource(name, WithNested())
  {
    WithNestedStable();
    WithNestedText();
    AgentSourceStable(name, WithNested());
    AgentSourceText(name, WithNested());
    LexFlat(AgentSource(name, WithNested()));
  }
}
