/** The formatter at work on the smallest block that it lays out. */
module DslExamples {
  import opened Text
  import opened DslLexer
  import opened DslTree
  import opened DslParser
  import opened DslRoundTrip
  import opened DslLosses
  import opened DslTokens
  import opened DslGrammar
  import opened DslLayout

  lemma NoGap(s: Span)
    ensures Gap(s, s)
  {
    assert Blank([]) && s == [] + s;
  }

  /** `metadata{key=value}`, behind its keyword. */
  function PairTail(key: string, value: string): Span {
    [OPEN] + ([Word(key)] + ([Punct('=')] + ([Word(value)] + [CLOSE])))
  }

  lemma NameWellFormed(t: string)
    requires IsWordName(t)
    ensures WellFormed(Word(t)) && IsIdent(Word(t))
  {}

  lemma PairTokens(key: string, value: string)
    requires IsWordName(key) && IsWordName(value)
    ensures Tokens([Word("metadata")] + PairTail(key, value))
  {
    var ls := [Word("metadata")] + PairTail(key, value);
    NameWellFormed(key);
    NameWellFormed(value);
    MetadataWord();
    assert ls == [Word("metadata"), OPEN, Word(key), Punct('='), Word(value), CLOSE];
    assert forall i | 0 <= i < |ls| :: WellFormed(ls[i]);
    forall i | 0 <= i < |ls| - 1 ensures FitsAt(ls, i) {}
  }

  lemma MetadataWord()
    ensures WellFormed(Word("metadata"))
  {
    var t: string := "metadata";
    assert forall i | 0 <= i < |t| :: IsWordChar(t[i]);
  }

  lemma PairText(key: string, value: string)
    ensures Flat([Word("metadata")] + PairTail(key, value)) == "metadata{" + key + "=" + value + "}"
  {
    OneText(CLOSE);
    TextThen(Word(value), [CLOSE]);
    TextThen(Punct('='), [Word(value)] + [CLOSE]);
    TextThen(Word(key), [Punct('=')] + ([Word(value)] + [CLOSE]));
    TextThen(OPEN, [Word(key)] + ([Punct('=')] + ([Word(value)] + [CLOSE])));
    TextThen(Word("metadata"), PairTail(key, value));
    assert "metadata" + "{" == "metadata{";
    TextGrouping("metadata", "{", key, "=", value, "}");
  }

  lemma TextGrouping(a: string, b: string, c: string, d: string, e: string, f: string)
    ensures a + (b + (c + (d + (e + f)))) == a + b + c + d + e + f
  {}

  function OnePair(key: string, value: string): Program {
    [Metadata([Pair(Word(key), '=', [Word(value)])])]
  }

  lemma PairSpells(key: string, value: string)
    requires IsWordName(key) && IsWordName(value)
    ensures Spells([Word("metadata")] + PairTail(key, value), OnePair(key, value))
  {
    var e := Pair(Word(key), '=', [Word(value)]);
    var c: Span := [CLOSE];
    var b := [Word(value)] + c;
    var a := [Punct('=')] + b;
    var t := [Word(key)] + a;
    var s := [Word("metadata")] + PairTail(key, value);
    NameWellFormed(key);
    NameWellFormed(value);
    NoGap(a);
    NoGap(b);
    assert PairParts(t, Word(key), '=', [Word(value)], a, b, c);
    assert SpellsEntry(t, e, c);
    NoGap(c);
    assert c == [CLOSE] + [];
    assert SpellsEntries(c, [], []);
    NoGap(t);
    assert [e][1..] == [];
    assert SpellsEntries(t, [e], []);
    NoGap([OPEN] + t);
    assert SpellsItem(s, Metadata([e]), []);
    NoGap(s);
    NoGap([]);
    assert Spells([], []);
    assert OnePair(key, value)[1..] == [];
  }

  /** Whatever the names, one pair without white space and without its comma is laid out on a line of its own. */
  lemma PairIsLaidOut(key: string, value: string)
    requires IsWordName(key) && IsWordName(value)
    ensures Format("metadata{" + key + "=" + value + "}") == "metadata {\n    " + key + " = " + value + ",\n}\n"
  {
    var source := "metadata{" + key + "=" + value + "}";
    PairTokens(key, value);
    PairText(key, value);
    LexExactly(source, [Word("metadata")] + PairTail(key, value));
    PairSpells(key, value);
    FormatLaysOut(source);
    PairDocument(key, value);
  }

  lemma PairDocument(key: string, value: string)
    ensures Document(OnePair(key, value)) == "metadata {\n    " + key + " = " + value + ",\n}\n"
  {
    var e := Pair(Word(key), '=', [Word(value)]);
    OneText(Word(value));
    assert [e][1..] == [] && OnePair(key, value)[1..] == [];
    assert EntriesLayout([e]) == EntryLayout(e) + EntriesLayout([]) == EntryLayout(e);
    assert Layout([]) == "";
    var l := ItemLayout(Metadata([e]));
    assert Layout(OnePair(key, value)) == l + ("" + "") == l;
    LayoutGrouping("metadata {\n", "    ", key, " = ", value, ",\n", "}\n");
    assert "metadata {\n" + "    " == "metadata {\n    " && ",\n" + "}\n" == ",\n}\n";
  }

  lemma LayoutGrouping(a: string, b: string, c: string, d: string, e: string, f: string, g: string)
    ensures a + (b + (c + (d + (e + f))) + g) == a + b + c + d + e + (f + g)
  {}
}
