/**
 Comments between the elements of a capabilities array. The printer joins all children of the array on one line,
 comments included; the reference parser refuses such sources, so the formatter of this model echoes them.
 */
module DslComments {
  import opened Text
  import opened DslLexer
  import opened DslTree
  import opened DslSpans
  import opened DslSound
  import opened DslRelex

  /** A child of the array that is a comment. */
  ghost predicate CommentChild(p: Span) {
    |p| == 1 && IsComment(p[0])
  }

  ghost predicate Child(p: Span) {
    WellElem(p) || CommentChild(p)
  }

  /** Spans with a comma behind each. */
  function Led(before: seq<Span>): Span {
    if before == [] then [] else Joined(before) + [COMMA, SP]
  }

  /** The printed declaration up to a child behind the children `before`. */
  function FrontOf(sep: char, before: seq<Span>): Span {
    HeadOf(sep) + Led(before)
  }

  function HeadOf(sep: char): Span {
    [Word("capabilities")] + Separator(sep) + [Punct('[')]
  }

  function Trailed(after: seq<Span>): Span {
    if after == [] then [] else [COMMA, SP] + Joined(after)
  }

  /** The printed declaration behind a child that the children `after` follow. */
  function Behind(after: seq<Span>): Span {
    Trailed(after) + [Punct(']')]
  }

  lemma JoinedCons(h: Span, rest: seq<Span>)
    requires rest != []
    ensures Joined([h] + rest) == h + [COMMA, SP] + Joined(rest)
  {
    assert ([h] + rest)[1..] == rest;
  }

  lemma LedCons(h: Span, rest: seq<Span>)
    ensures Led([h] + rest) == h + [COMMA, SP] + Led(rest)
  {
    if rest == [] {
      assert [h] + rest == [h];
    } else {
      JoinedCons(h, rest);
      Associative(h + [COMMA, SP], Joined(rest), [COMMA, SP]);
    }
  }

  lemma {:induction false} JoinedAround(before: seq<Span>, p: Span, after: seq<Span>)
    ensures Joined(before + ([p] + after)) == Led(before) + (p + Trailed(after))
  {
    if before == [] {
      assert before + ([p] + after) == [p] + after;
      FirstJoined(p, after);
    } else {
      var h, rest := before[0], before[1..];
      JoinedAround(rest, p, after);
      assert before == [h] + rest;
      Associative([h], rest, [p] + after);
      JoinedCons(h, rest + ([p] + after));
      LedCons(h, rest);
      Associative(h + [COMMA, SP], Led(rest), p + Trailed(after));
    }
  }

  lemma FirstJoined(p: Span, after: seq<Span>)
    ensures Joined([p] + after) == p + Trailed(after)
  {
    if after == [] {
      assert [p] + after == [p];
    } else {
      JoinedCons(p, after);
      Associative(p, [COMMA, SP], Joined(after));
    }
  }

  lemma PrintedAround(sep: char, before: seq<Span>, p: Span, after: seq<Span>)
    ensures CapabilitiesText(sep, before + ([p] + after)) == FrontOf(sep, before) + (p + Behind(after))
  {
    JoinedAround(before, p, after);
    Regrouped(HeadOf(sep), Led(before), p, Trailed(after), [Punct(']')]);
    WordFirst([Word("capabilities")], Separator(sep), [Punct('[')], Led(before) + (p + Trailed(after)), [Punct(']')]);
  }

  lemma Regrouped(a: Span, b: Span, c: Span, d: Span, e: Span)
    ensures a + (b + (c + d)) + e == a + b + (c + (d + e))
  {}

  lemma WordFirst(a: Span, b: Span, c: Span, d: Span, e: Span)
    ensures a + b + (c + d + e) == a + b + c + d + e
  {}

  lemma FrontIsChunk(sep: char, before: seq<Span>)
    requires IsSep(sep) && WellElems(before)
    ensures Chunk(FrontOf(sep, before))
  {
    forall i | 0 <= i < |before| ensures FirmSpan(before[i]) { assert WellElem(before[i]); }
    HeadIsChunk(sep);
    if before != [] {
      JoinedStable(before);
      MarksStable([COMMA, SP]);
      FirmThen(Joined(before), [COMMA, SP]);
      ChunkThen(HeadOf(sep), Joined(before) + [COMMA, SP]);
    }
  }

  lemma HeadIsChunk(sep: char)
    requires IsSep(sep)
    ensures Chunk(HeadOf(sep))
  {
    KeywordsValid();
    SeparatorStable(sep);
    FirmThen([Word("capabilities")], Separator(sep));
    MarksStable([Punct('[')]);
    ChunkThen([Word("capabilities")] + Separator(sep), [Punct('[')]);
  }

  lemma LexBehind(a: Span, s: string)
    requires Chunk(a)
    ensures Lex(Flat(a) + s) == a + Lex(s)
  {
    LexStable(s);
    ChunkThen(a, Lex(s));
    FlatConcat(a, Lex(s));
    LexFlat(a + Lex(s));
  }

  lemma LongerComment(c: Lexeme, x: string)
    requires IsComment(c) && AllIn(x, Line)
    ensures Valid(Comment(c.text + x))
  {
    var t := c.text;
    var u := t + x;
    FirstText(t);
    RunLenLongest(t, Line);
    RunLenIs(u, "", Line);
    assert u + "" == u && t[..|t|] == t && u[..|u|] == u && u[0] == t[0];
    assert StartsComment(t);
    assert StartsComment(u);
  }

  /** A comment takes in the rest of the line behind it. */
  lemma LexComment(c: Lexeme, r: string)
    requires IsComment(c)
    ensures var n := RunLen(r, Line);
      n <= |r| && Lex(c.text + r) == [Comment(c.text + r[..n])] + Lex(r[n..])
  {
    var n := RunLen(r, Line);
    RunLenLongest(r, Line);
    assert r == r[..n] + r[n..];
    LexLine(c, r[..n], r[n..]);
  }

  lemma LexLine(c: Lexeme, x: string, r: string)
    requires IsComment(c) && AllIn(x, Line) && Ends(r, Line)
    ensures Lex(c.text + (x + r)) == [Comment(c.text + x)] + Lex(r)
  {
    LongerComment(c, x);
    Associative(c.text, x, r);
    LexFirst(Comment(c.text + x), r);
  }

  lemma LexFirst(l: Lexeme, r: string)
    requires Valid(l) && FitsText(l, r)
    ensures Lex(TextOf(l) + r) == [l] + Lex(r)
  {
    FirstOfText(l, r);
    assert (TextOf(l) + r)[|TextOf(l)|..] == r;
  }

  /** What the printed declaration splits into when its first comment child is `c`: up to there what was printed,
      then one comment that holds the rest of that line, the closing bracket with it unless an element before that
      has a line break. */
  lemma CommentSwallowsLine(sep: char, before: seq<Span>, c: Lexeme, after: seq<Span>, tail: string)
    requires IsSep(sep) && WellElems(before) && IsComment(c)
    ensures var r := Flat(Behind(after)) + tail; var n := RunLen(r, Line);
      && n <= |r|
      && Lex(Flat(CapabilitiesText(sep, before + ([[c]] + after))) + tail)
         == FrontOf(sep, before) + ([Comment(c.text + r[..n])] + Lex(r[n..]))
  {
    var front, r := FrontOf(sep, before), Flat(Behind(after)) + tail;
    PrintedAround(sep, before, [c], after);
    FlatConcat(front, [c] + Behind(after));
    FlatConcat([c], Behind(after));
    assert Flat([c]) == c.text + Flat([]) == c.text;
    Associative(c.text, Flat(Behind(after)), tail);
    Associative(Flat(front), c.text + Flat(Behind(after)), tail);
    FrontIsChunk(sep, before);
    LexBehind(front, c.text + r);
    LexComment(c, r);
  }

  /** Without line breaks behind it, the comment takes in all other elements and the closing bracket. */
  lemma CommentSwallowsBracket(sep: char, before: seq<Span>, c: Lexeme, after: seq<Span>, tail: string)
    requires IsSep(sep) && WellElems(before) && IsComment(c) && AllIn(Flat(Behind(after)), Line)
    ensures Lex(Flat(CapabilitiesText(sep, before + ([[c]] + after))) + ("\n" + tail))
            == FrontOf(sep, before) + ([Comment(c.text + Flat(Behind(after)))] + Lex("\n" + tail))
  {
    var b := Flat(Behind(after));
    CommentSwallowsLine(sep, before, c, after, "\n" + tail);
    RunLenIs(b, "\n" + tail, Line);
    assert (b + ("\n" + tail))[..|b|] == b && (b + ("\n" + tail))[|b|..] == "\n" + tail;
  }

  lemma BehindStarts(after: seq<Span>)
    ensures var b := Flat(Behind(after)); b != "" && b[0] != '\n'
  {
    var b := Behind(after);
    assert b[0] == (if after == [] then Punct(']') else COMMA);
  }

  /** The printed declaration splits into what was printed exactly if no child of the array is a comment. */
  lemma JoinedLexesBackExactly(sep: char, children: seq<Span>)
    requires IsSep(sep) && forall i | 0 <= i < |children| :: Child(children[i])
    ensures Lex(Flat(CapabilitiesText(sep, children))) == CapabilitiesText(sep, children)
            <==> forall i | 0 <= i < |children| :: !CommentChild(children[i])
  {
    if forall i | 0 <= i < |children| :: !CommentChild(children[i]) {
      forall i | 0 <= i < |children| ensures WellElem(children[i]) { assert Child(children[i]); }
      CapabilitiesStable(sep, children);
      LexFlat(CapabilitiesText(sep, children));
    } else {
      var before, c, after := FirstComment(children, 0);
      FirstCommentGrows(sep, before, c, after);
    }
  }

  lemma FirstComment(children: seq<Span>, k: nat) returns (before: seq<Span>, c: Lexeme, after: seq<Span>)
    requires forall i | 0 <= i < |children| :: Child(children[i])
    requires k <= |children| && WellElems(children[..k]) && exists i | k <= i < |children| :: CommentChild(children[i])
    ensures children == before + ([[c]] + after) && WellElems(before) && IsComment(c)
    decreases |children| - k
  {
    if CommentChild(children[k]) {
      before, c, after := children[..k], children[k][0], children[k + 1..];
      assert children == children[..k] + ([children[k]] + children[k + 1..]) && children[k] == [c];
    } else {
      assert Child(children[k]);
      assert children[..k + 1] == children[..k] + [children[k]];
      before, c, after := FirstComment(children, k + 1);
    }
  }

  lemma FirstCommentGrows(sep: char, before: seq<Span>, c: Lexeme, after: seq<Span>)
    requires IsSep(sep) && WellElems(before) && IsComment(c)
    ensures var printed := CapabilitiesText(sep, before + ([[c]] + after)); Lex(Flat(printed)) != printed
  {
    var front, b := FrontOf(sep, before), Flat(Behind(after));
    var printed := CapabilitiesText(sep, before + ([[c]] + after));
    CommentSwallowsLine(sep, before, c, after, "");
    PrintedAround(sep, before, [c], after);
    BehindStarts(after);
    assert b + "" == b && Flat(printed) + "" == Flat(printed);
    assert printed[|front|] == c;
    assert RunLen(b, Line) > 0;
  }
}
