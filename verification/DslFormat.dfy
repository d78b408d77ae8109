/** What formatting a DSL source does and does not change. */
module DslFormat {
  import opened Text
  import opened DslLexer
  import opened DslTree
  import opened DslParser
  import opened DslSpans
  import opened DslSound
  import opened DslRelex
  import opened DslRoundTrip

  // ---------------------------------------------------------------- printing the canonical tree

  lemma CanonItemPrints(item: Item)
    requires WellItem(item)
    ensures ItemText(CanonItem(item)) == ItemText(item) && CanonItem(item).TopComment? == item.TopComment?
  {
    if item.Agent? {
      CanonItemsPrint(item.items);
    }
  }

  lemma {:induction false} CanonItemsPrint(items: seq<AgentItem>)
    requires WellAgentItems(items)
    ensures PrintAgentItems(CanonItems(items)) == PrintAgentItems(items)
  {
    if items != [] {
      assert WellAgentItem(items[0]);
      TailItems(items);
      CanonItemsPrint(items[1..]);
      var item := CanonAgentItem(items[0]);
      if item.With? {
        EmptyBodyHollow();
      }
      assert AgentItemText(item) == AgentItemText(items[0]);
      assert CanonItems(items)[0] == item && CanonItems(items)[1..] == CanonItems(items[1..]);
    }
  }

  lemma {:induction false} CanonPrints(p: Program)
    requires WellProgram(p)
    ensures PrintProgram(Canon(p)) == PrintProgram(p)
  {
    if p != [] {
      assert WellItem(p[0]);
      TailProgram(p);
      CanonPrints(p[1..]);
      CanonItemPrints(p[0]);
      assert Canon(p)[0] == CanonItem(p[0]) && Canon(p)[1..] == Canon(p[1..]);
    }
  }

  // ---------------------------------------------------------------- round trip and idempotence

  lemma SourceTree(source: string)
    requires Parse(Lex(source)).Some?
    ensures WellProgram(Parse(Lex(source)).value)
    ensures Essence(Lex(source)) == EssenceOfProgram(Parse(Lex(source)).value)
  {
    LexStable(source);
    ParseSound(Lex(source));
  }

  lemma PrintedEnds(p: Program)
    requires p != []
    ensures var s := PrintProgram(p); s != [] && s[|s| - 1] == NL
    decreases |p|
  {
    if |p| > 1 {
      PrintedEnds(p[1..]);
    }
  }

  lemma FlatEnds(s: Span)
    requires s != [] && s[|s| - 1] == NL
    ensures var t := Flat(s); t != "" && t[|t| - 1] == '\n'
  {
    var r := s[..|s| - 1];
    assert s == r + [NL];
    FlatConcat(r, [NL]);
    assert Flat([NL]) == "\n" + Flat([]);
  }

  /** The formatter's own check for a final line end only matters for an empty program. */
  lemma RenderIsPrinted(p: Program)
    ensures Render(p) == if p == [] then "\n" else Flat(PrintProgram(p))
  {
    if p != [] {
      PrintedEnds(p);
      FlatEnds(PrintProgram(p));
    }
  }

  /** Re-reading a rendered tree gives its canonical form. */
  lemma RenderedTree(p: Program)
    requires WellProgram(p)
    ensures Parse(Lex(Render(p))) == Some(Canon(p))
  {
    RenderIsPrinted(p);
    if p == [] {
      var ls := [NL];
      MarksStable(ls);
      LexFlat(ls);
      assert Flat(ls) == "\n" + Flat([]) == "\n";
      ParsePrinted([NL], p);
      assert [NL] + [] == ls;
    } else {
      PrintedLexesBack(p);
      ParsePrinted([], p);
      assert [] + PrintProgram(p) == PrintProgram(p);
    }
  }

  /** Formatting keeps the tree: items and their order, names, parameters, return types, every key,
      separator and value, and all echoed text, up to empty parameter lists and hollow bodies. */
  lemma RoundTrip(source: string)
    requires Parse(Lex(source)).Some?
    ensures Parse(Lex(Format(source))) == Some(Canon(Parse(Lex(source)).value))
  {
    SourceTree(source);
    RenderedTree(Parse(Lex(source)).value);
  }

  /** Formatting a formatted source changes nothing, for every source. */
  lemma FormatIdempotent(source: string)
    ensures Format(Format(source)) == Format(source)
  {
    if Parse(Lex(source)).Some? {
      SourceTree(source);
      RoundTrip(source);
      CanonRenders(Parse(Lex(source)).value);
    }
  }

  lemma CanonRenders(p: Program)
    requires WellProgram(p)
    ensures Render(Canon(p)) == Render(p)
  {
    CanonPrints(p);
  }

  /** Layout does not matter: two sources are formatted alike exactly when their trees have the same
      canonical form. */
  lemma {:induction false} FormatDependsOnTree(a: string, b: string)
    requires Parse(Lex(a)).Some? && Parse(Lex(b)).Some?
    ensures Format(a) == Format(b) <==> Canon(Parse(Lex(a)).value) == Canon(Parse(Lex(b)).value)
  {
    var p, q := Parse(Lex(a)).value, Parse(Lex(b)).value;
    SourceTree(a);
    SourceTree(b);
    RoundTrip(a);
    RoundTrip(b);
    CanonPrints(p);
    CanonPrints(q);
  }

  // ---------------------------------------------------------------- layout

  function Spaced(a: Span, comment: bool, b: Span): Span {
    a + (if comment then [NL] else [NL, NL]) + b + [NL]
  }

  function SpacedPair(a: Item, b: Item): Span {
    Spaced(ItemText(a), a.TopComment?, ItemText(b))
  }

  /** The line of an item, and whether it is a comment. */
  datatype ItemLine = ItemLine(text: Span, comment: bool)

  function LineOf(item: Item): (l: ItemLine)
    ensures l.text == ItemText(item) + [NL]
  {
    ItemLine(PrintItem(item), item.TopComment?)
  }

  function LinesOf(p: Program): (ls: seq<ItemLine>)
    ensures |ls| == |p| && forall i | 0 <= i < |p| :: ls[i] == LineOf(p[i])
  {
    seq(|p|, i requires 0 <= i < |p| => LineOf(p[i]))
  }

  /** Lines one below the other, a blank line after all but comments. */
  function Stacked(ls: seq<ItemLine>): Span {
    if ls == [] then []
    else ls[0].text + (if |ls| > 1 && !ls[0].comment then [NL] else []) + Stacked(ls[1..])
  }

  lemma {:induction false} ProgramStacks(p: Program)
    ensures PrintProgram(p) == Stacked(LinesOf(p))
  {
    if p != [] {
      ProgramStacks(p[1..]);
      assert LinesOf(p)[1..] == LinesOf(p[1..]);
    }
  }

  predicate EndsLine(s: Span) {
    s != [] && s[|s| - 1] == NL
  }

  /** Every line starts behind the end of another. */
  lemma {:induction false} LinesBefore(ls: seq<ItemLine>, i: nat) returns (before: Span)
    requires i < |ls| && forall k | 0 <= k < |ls| :: EndsLine(ls[k].text)
    ensures Stacked(ls) == before + Stacked(ls[i..]) && (before == [] || EndsLine(before))
  {
    if i == 0 {
      before := [];
      assert ls[0..] == ls;
    } else {
      var b := LinesBefore(ls[1..], i - 1);
      assert ls[1..][i - 1..] == ls[i..];
      var first := ls[0].text + (if |ls| > 1 && !ls[0].comment then [NL] else []);
      before := first + b;
      Associative(first, b, Stacked(ls[i..]));
    }
  }

  /** Neighbouring items stand on lines of their own, with one blank line between them unless the first is
      a comment. */
  lemma ItemsAreSpaced(p: Program, i: nat) returns (before: Span, after: Span)
    requires i + 1 < |p|
    ensures PrintProgram(p) == before + (SpacedPair(p[i], p[i + 1]) + after)
    ensures before == [] || EndsLine(before)
  {
    var ls := LinesOf(p);
    ProgramStacks(p);
    before := LinesBefore(ls, i);
    after := FirstTwo(ls[i..], ItemText(p[i]), ItemText(p[i + 1]));
  }

  lemma FirstTwo(ls: seq<ItemLine>, a: Span, b: Span) returns (after: Span)
    requires |ls| > 1 && ls[0].text == a + [NL] && ls[1].text == b + [NL]
    ensures Stacked(ls) == Spaced(a, ls[0].comment, b) + after
  {
    assert ls[1..][0] == ls[1];
    var gap: Span := if |ls| > 2 && !ls[1].comment then [NL] else [];
    after := gap + Stacked(ls[1..][1..]);
    TwoTexts(a, ls[0].comment, b, gap, Stacked(ls[1..][1..]));
  }

  lemma TwoTexts(a: Span, comment: bool, b: Span, gap: Span, rest: Span)
    ensures a + [NL] + (if comment then [] else [NL]) + (b + [NL] + gap + rest) == Spaced(a, comment, b) + (gap + rest)
  {
    if comment {
      assert a + [NL] + [] + (b + [NL] + gap + rest) == a + [NL] + b + [NL] + (gap + rest);
    } else {
      assert a + [NL] + [NL] == a + [NL, NL];
      assert a + [NL, NL] + (b + [NL] + gap + rest) == a + [NL, NL] + b + [NL] + (gap + rest);
    }
  }

  // ---------------------------------------------------------------- what survives

  lemma {:induction false} EssenceBounds(s: Span)
    ensures |Essence(s)| <= |s|
    ensures s != [] && s[0] == OPEN ==> |Essence(s)| >= 1 && Essence(s)[0] == OPEN
  {
    if s != [] {
      EssenceBounds(s[1..]);
    }
  }

  lemma BodyEssence(body: Span)
    requires IsBody(body)
    ensures |Essence(body)| >= 2 && (|Essence(body)| == 2 ==> Essence(body) == [OPEN, CLOSE])
  {
    BracketedLocal(body, []);
    var n := |body| - 1;
    assert body == [body[0]] + body[1..n] + [body[n]];
    EssenceConcat([body[0]] + body[1..n], [body[n]]);
    EssenceConcat([body[0]], body[1..n]);
    assert Essence([CLOSE]) == [CLOSE] + Essence([]);
    assert Essence([OPEN]) == [OPEN] + Essence([]);
  }

  lemma AgentItemEssence(item: AgentItem)
    requires WellAgentItem(item)
    ensures LosslessAgentItem(item) ==> EssenceOfAgentItem(CanonAgentItem(item)) == EssenceOfAgentItem(item)
    ensures |EssenceOfAgentItem(CanonAgentItem(item))| <= |EssenceOfAgentItem(item)|
    ensures !LosslessAgentItem(item) ==> |EssenceOfAgentItem(CanonAgentItem(item))| < |EssenceOfAgentItem(item)|
  {
    if item.With? {
      BodyEssence(item.body);
      EmptyBody();
    }
  }

  predicate LosslessItems(items: seq<AgentItem>) {
    forall i | 0 <= i < |items| :: LosslessAgentItem(items[i])
  }

  lemma {:induction false} AgentItemsEssence(items: seq<AgentItem>)
    requires WellAgentItems(items)
    ensures LosslessItems(items) ==> EssenceOfAgentItems(CanonItems(items)) == EssenceOfAgentItems(items)
    ensures |EssenceOfAgentItems(CanonItems(items))| <= |EssenceOfAgentItems(items)|
    ensures !LosslessItems(items) ==> |EssenceOfAgentItems(CanonItems(items))| < |EssenceOfAgentItems(items)|
  {
    if items != [] {
      assert WellAgentItem(items[0]);
      TailItems(items);
      AgentItemEssence(items[0]);
      AgentItemsEssence(items[1..]);
      assert LosslessItems(items) <==> LosslessAgentItem(items[0]) && LosslessItems(items[1..]) by {
        forall i | 0 < i < |items| ensures items[i] == items[1..][i - 1] {}
      }
      assert CanonItems(items)[1..] == CanonItems(items[1..]);
    }
  }

  lemma ItemEssence(item: Item)
    requires WellItem(item)
    ensures LosslessItem(item) ==> EssenceOfItem(CanonItem(item)) == EssenceOfItem(item)
    ensures |EssenceOfItem(CanonItem(item))| <= |EssenceOfItem(item)|
    ensures !LosslessItem(item) ==> |EssenceOfItem(CanonItem(item))| < |EssenceOfItem(item)|
  {
    if item.Agent? {
      AgentItemsEssence(item.items);
    }
  }

  lemma {:induction false} ProgramEssence(p: Program)
    requires WellProgram(p)
    ensures Lossless(p) ==> EssenceOfProgram(Canon(p)) == EssenceOfProgram(p)
    ensures |EssenceOfProgram(Canon(p))| <= |EssenceOfProgram(p)|
    ensures !Lossless(p) ==> |EssenceOfProgram(Canon(p))| < |EssenceOfProgram(p)|
  {
    if p != [] {
      assert WellItem(p[0]);
      TailProgram(p);
      ItemEssence(p[0]);
      ProgramEssence(p[1..]);
      assert Lossless(p) <==> LosslessItem(p[0]) && Lossless(p[1..]) by {
        forall i | 0 < i < |p| ensures p[i] == p[1..][i - 1] {}
      }
      assert Canon(p)[1..] == Canon(p[1..]);
    }
  }

  /** The significant lexemes of a source, everything but white space and commas, survive formatting in
      their order, exactly for sources without an empty agent parameter list and without nested braces as
      a whole `with` body. */
  lemma TokensSurvive(source: string)
    requires Parse(Lex(source)).Some?
    ensures Essence(Lex(Format(source))) == Essence(Lex(source)) <==> Lossless(Parse(Lex(source)).value)
  {
    var p := Parse(Lex(source)).value;
    SourceTree(source);
    RoundTrip(source);
    SourceTree(Format(source));
    ProgramEssence(p);
  }
}
