/**
 Lexemes of the agent DSL. A lexeme list keeps every character, white space included, so
 that a tree can hold the exact source text of the parts that are echoed.
 */
module DslLexer {
  import opened Text

  datatype Lexeme =
    | Space(c: char)
    | Word(text: string)
    | Quoted(text: string)
    | Comment(text: string)
    | Scheme(text: string)
    | Punct(c: char)
    | Unterminated(text: string)

  function TextOf(l: Lexeme): string {
    match l
    case Space(c) => [c]
    case Punct(c) => [c]
    case Word(t) => t
    case Quoted(t) => t
    case Comment(t) => t
    case Scheme(t) => t
    case Unterminated(t) => t
  }

  /** The source text of a lexeme list. */
  function Flat(ls: seq<Lexeme>): string {
    if ls == [] then "" else TextOf(ls[0]) + Flat(ls[1..])
  }

  lemma {:induction false} FlatConcat(a: seq<Lexeme>, b: seq<Lexeme>)
    ensures Flat(a + b) == Flat(a) + Flat(b)
  {
    if a == [] {
      assert a + b == b;
    } else {
      FlatConcat(a[1..], b);
      FlatCons(a, b);
      Associative(TextOf(a[0]), Flat(a[1..]), Flat(b));
    }
  }

  lemma FlatCons(a: seq<Lexeme>, b: seq<Lexeme>)
    requires a != []
    ensures Flat(a + b) == TextOf(a[0]) + Flat(a[1..] + b)
  {
    assert (a + b)[1..] == a[1..] + b;
  }

  /** Character classes that a lexeme takes a longest run of. */
  datatype Run = Letters | Numeral | Url | Line

  predicate In(r: Run, c: char) {
    match r
    case Letters => IsWordChar(c)
    case Numeral => IsWordChar(c) || c == '.'
    case Url => IsWordChar(c) || c == '-' || c == '/' || c == '.'
    case Line => c != '\n'
  }

  function RunOf(first: char): Run {
    if IsDigit(first) then Numeral else Letters
  }

  function RunLen(s: string, r: Run): nat {
    if s != "" && In(r, s[0]) then 1 + RunLen(s[1..], r) else 0
  }

  ghost predicate AllIn(s: string, r: Run) {
    forall i | 0 <= i < |s| :: In(r, s[i])
  }

  ghost predicate Ends(s: string, r: Run) {
    s == "" || !In(r, s[0])
  }

  lemma {:induction false} RunLenLongest(s: string, r: Run)
    ensures var n := RunLen(s, r); n <= |s| && AllIn(s[..n], r) && Ends(s[n..], r)
  {
    if s != "" && In(r, s[0]) {
      RunLenLongest(s[1..], r);
      var n := RunLen(s, r);
      assert s[..n] == [s[0]] + s[1..][..n - 1];
    }
  }

  lemma {:induction false} RunLenIs(a: string, b: string, r: Run)
    requires AllIn(a, r) && Ends(b, r)
    ensures RunLen(a + b, r) == |a|
  {
    if a == "" {
      assert a + b == b;
    } else {
      RunLenIs(a[1..], b, r);
      assert (a + b)[1..] == a[1..] + b;
    }
  }

  /** The length of a string literal's rest, from behind its opening quote. */
  function QuoteLen(s: string): Option<nat> {
    if s == "" then None
    else if s[0] == '"' then Some(1)
    else if s[0] == '\\' then
      if |s| < 2 || s[1] == '\n' then None
      else if QuoteLen(s[2..]).None? then None else Some(2 + QuoteLen(s[2..]).value)
    else if QuoteLen(s[1..]).None? then None else Some(1 + QuoteLen(s[1..]).value)
  }

  lemma {:induction false} QuoteLenLocal(s: string, u: string)
    requires QuoteLen(s).Some?
    ensures var n := QuoteLen(s).value; 0 < n <= |s| && QuoteLen(s[..n] + u) == Some(n)
  {
    if s[0] == '"' {
    } else {
      var k := if s[0] == '\\' then 2 else 1;
      QuoteLenLocal(s[k..], u);
      var n := QuoteLen(s).value;
      assert (s[..n] + u)[k..] == s[k..][..n - k] + u;
    }
  }

  function FirstLen(s: string): nat
    requires s != ""
  {
    var c := s[0];
    if IsSpace(c) then 1
    else if IsWordChar(c) then RunLen(s, RunOf(c))
    else if c == '"' then
      if QuoteLen(s[1..]).Some? then 1 + QuoteLen(s[1..]).value else |s|
    else if StartsComment(s) then RunLen(s, Line)
    else if c == ':' && StartsSlashes(s[1..]) then 1 + RunLen(s[1..], Url)
    else 1
  }

  predicate StartsSlashes(s: string) {
    |s| >= 2 && s[0] == '/' && s[1] == '/'
  }

  predicate StartsComment(s: string) {
    s != "" && (s[0] == '#' || StartsSlashes(s))
  }

  lemma FirstLenBounds(s: string)
    requires s != ""
    ensures 0 < FirstLen(s) <= |s|
  {
    RunLenLongest(s, RunOf(s[0]));
    RunLenLongest(s, Line);
    RunLenLongest(s[1..], Url);
    if QuoteLen(s[1..]).Some? {
      QuoteLenLocal(s[1..], "");
    }
  }

  /** The lexeme that a text starts with, given its text. */
  function Classify(s: string, t: string): Lexeme
    requires s != "" && t != ""
  {
    var c := s[0];
    if IsSpace(c) then Space(c)
    else if IsWordChar(c) then Word(t)
    else if c == '"' then
      if QuoteLen(s[1..]).Some? then Quoted(t) else Unterminated(t)
    else if StartsComment(s) then Comment(t)
    else if c == ':' && StartsSlashes(s[1..]) then Scheme(t)
    else Punct(c)
  }

  function First(s: string): Lexeme
    requires s != ""
  {
    FirstLenBounds(s);
    Classify(s, s[..FirstLen(s)])
  }

  lemma FirstText(s: string)
    requires s != ""
    ensures 0 < FirstLen(s) <= |s| && TextOf(First(s)) == s[..FirstLen(s)]
  {
    FirstLenBounds(s);
  }

  /** Splitting a source text into its lexemes. */
  function Lex(s: string): seq<Lexeme> {
    if s == "" then [] else
      FirstLenBounds(s);
      [First(s)] + Lex(s[FirstLen(s)..])
  }

  ghost predicate Valid(l: Lexeme) {
    TextOf(l) != "" && First(TextOf(l)) == l
  }

  /** The text `r` behind lexeme `l` does not lengthen or change it. */
  ghost predicate FitsText(l: Lexeme, r: string) {
    match l
    case Word(t) => t != "" && Ends(r, RunOf(t[0]))
    case Comment(_) => Ends(r, Line)
    case Scheme(_) => Ends(r, Url)
    case Unterminated(_) => r == ""
    case Punct(c) => (c == '/' ==> r == "" || r[0] != '/') && (c == ':' ==> !StartsSlashes(r))
    case Space(_) => true
    case Quoted(_) => true
  }

  ghost predicate Fits(l: Lexeme, m: Lexeme) {
    FitsText(l, TextOf(m))
  }

  /** A list that is what its own text lexes to. */
  ghost predicate Stable(ls: seq<Lexeme>) {
    && (forall i {:trigger Valid(ls[i])} | 0 <= i < |ls| :: Valid(ls[i]))
    && (forall i {:trigger FitsAt(ls, i)} | 0 <= i < |ls| - 1 :: FitsAt(ls, i))
  }

  ghost predicate FitsAt(ls: seq<Lexeme>, i: int)
    requires 0 <= i < |ls| - 1
  {
    Fits(ls[i], ls[i + 1])
  }

  lemma FirstFits(s: string)
    requires s != ""
    ensures 0 < FirstLen(s) <= |s| && Valid(First(s)) && FitsText(First(s), s[FirstLen(s)..])
  {
    FirstText(s);
    var n := FirstLen(s);
    var t, r := s[..n], s[n..];
    assert s == t + r;
    var c := s[0];
    if IsSpace(c) {
    } else if IsWordChar(c) {
      RunLenLongest(s, RunOf(c));
      RunLenIs(t, "", RunOf(c));
      assert t + "" == t;
    } else if c == '"' {
      if QuoteLen(s[1..]).Some? {
        QuoteLenLocal(s[1..], "");
        assert t[1..] == s[1..][..n - 1] + "";
      } else {
        assert t == s;
      }
    } else if StartsComment(s) {
      RunLenLongest(s, Line);
      RunLenIs(t, "", Line);
      assert t + "" == t;
    } else if c == ':' && StartsSlashes(s[1..]) {
      SchemeLen(s);
      RunLenIs(t[1..], "", Url);
      assert t[1..] + "" == t[1..];
    }
  }

  lemma SchemeLen(s: string)
    requires s != "" && s[0] == ':' && StartsSlashes(s[1..])
    ensures var n := FirstLen(s); 3 <= n <= |s| && AllIn(s[..n][1..], Url) && Ends(s[n..], Url)
  {
    var u := s[1..];
    RunLenLongest(u, Url);
    assert RunLen(u, Url) == 1 + RunLen(u[1..], Url) && RunLen(u[1..], Url) == 1 + RunLen(u[1..][1..], Url);
    var n := FirstLen(s);
    assert s[..n][1..] == u[..n - 1] && s[n..] == u[n - 1..];
  }

  /** A valid lexeme is what a text starting with it lexes to first, if the rest fits. */
  lemma FirstOfText(l: Lexeme, r: string)
    requires Valid(l) && FitsText(l, r)
    ensures First(TextOf(l) + r) == l && FirstLen(TextOf(l) + r) == |TextOf(l)|
  {
    match l
    case Space(_) => FirstOfMark(l, r);
    case Punct(_) => FirstOfMark(l, r);
    case Word(_) => FirstOfWord(l, r);
    case Quoted(_) => FirstOfQuoted(l, r);
    case Unterminated(_) => FirstOfQuoted(l, r);
    case Comment(_) => FirstOfComment(l, r);
    case Scheme(_) => FirstOfScheme(l, r);
  }

  lemma FirstOfMark(l: Lexeme, r: string)
    requires (l.Space? || l.Punct?) && Valid(l) && FitsText(l, r)
    ensures First(TextOf(l) + r) == l && FirstLen(TextOf(l) + r) == |TextOf(l)|
  {
    var t := TextOf(l);
    var s := t + r;
    FirstText(t);
    assert t[..|t|] == t && s[0] == t[0];
    assert t == [l.c] && s[1..] == r;
  }

  lemma FirstOfWord(l: Lexeme, r: string)
    requires l.Word? && Valid(l) && FitsText(l, r)
    ensures First(TextOf(l) + r) == l && FirstLen(TextOf(l) + r) == |TextOf(l)|
  {
    var t := TextOf(l);
    var s := t + r;
    FirstText(t);
    assert t[..|t|] == t && s[0] == t[0];
    RunLenLongest(t, RunOf(t[0]));
    RunLenIs(t, r, RunOf(t[0]));
  }

  lemma FirstOfQuoted(l: Lexeme, r: string)
    requires (l.Quoted? || l.Unterminated?) && Valid(l) && FitsText(l, r)
    ensures First(TextOf(l) + r) == l && FirstLen(TextOf(l) + r) == |TextOf(l)|
  {
    var t := TextOf(l);
    var s := t + r;
    FirstText(t);
    assert t[..|t|] == t && s[0] == t[0];
    if l.Quoted? {
      QuoteLenLocal(t[1..], r);
      assert s[1..] == t[1..][..|t| - 1] + r;
    } else {
      assert s == t;
    }
  }

  lemma FirstOfComment(l: Lexeme, r: string)
    requires l.Comment? && Valid(l) && FitsText(l, r)
    ensures First(TextOf(l) + r) == l && FirstLen(TextOf(l) + r) == |TextOf(l)|
  {
    var t := TextOf(l);
    var s := t + r;
    FirstText(t);
    assert t[..|t|] == t && s[0] == t[0];
    RunLenLongest(t, Line);
    RunLenIs(t, r, Line);
  }

  lemma FirstOfScheme(l: Lexeme, r: string)
    requires l.Scheme? && Valid(l) && FitsText(l, r)
    ensures First(TextOf(l) + r) == l && FirstLen(TextOf(l) + r) == |TextOf(l)|
  {
    var t := TextOf(l);
    var s := t + r;
    FirstText(t);
    assert t[..|t|] == t && s[0] == t[0];
    SchemeLen(t);
    RunLenIs(t[1..], r, Url);
    assert s[1..] == t[1..] + r;
  }

  lemma StableTail(ls: seq<Lexeme>)
    requires Stable(ls) && ls != []
    ensures Valid(ls[0]) && Stable(ls[1..]) && (|ls| > 1 ==> Fits(ls[0], ls[1]))
  {
    assert ls == [ls[0]] + ls[1..];
    StableParts([ls[0]], ls[1..]);
    assert |ls| > 1 ==> FitsAt(ls, 0);
  }

  lemma StableCons(l: Lexeme, ls: seq<Lexeme>)
    requires Valid(l) && Stable(ls) && (ls != [] ==> Fits(l, ls[0]))
    ensures Stable([l] + ls)
  {
    StableJoin([l], ls);
  }

  lemma FitsPrefix(l: Lexeme, r: string, n: nat)
    requires FitsText(l, r) && 0 < n <= |r|
    ensures FitsText(l, r[..n])
  {}

  /** Lexing loses nothing and its result is stable. */
  lemma {:induction false} LexStable(s: string)
    ensures Flat(Lex(s)) == s && Stable(Lex(s))
  {
    if s != "" {
      FirstFits(s);
      LexStable(s[FirstLen(s)..]);
      LexOneMore(s, s[FirstLen(s)..]);
    }
  }

  lemma LexOneMore(s: string, rest: string)
    requires s != "" && FirstLen(s) <= |s| && rest == s[FirstLen(s)..] && Flat(Lex(rest)) == rest && Stable(Lex(rest))
    ensures Flat([First(s)] + Lex(rest)) == s && Stable([First(s)] + Lex(rest))
  {
    FirstFits(s);
    FirstText(s);
    assert s == s[..FirstLen(s)] + rest;
    assert ([First(s)] + Lex(rest))[1..] == Lex(rest);
    if rest != "" {
      FirstText(rest);
      FitsPrefix(First(s), rest, FirstLen(rest));
    }
    StableCons(First(s), Lex(rest));
  }

  /** A stable list is what its text lexes to, so `Lex` and `Flat` are inverse to each other. */
  lemma {:induction false} LexFlat(ls: seq<Lexeme>)
    requires Stable(ls)
    ensures Lex(Flat(ls)) == ls
  {
    if ls != [] {
      var rest := ls[1..];
      StableTail(ls);
      LexFlat(rest);
      FitsRest(ls);
      FirstOfText(ls[0], Flat(rest));
      var s := Flat(ls);
      assert s[|TextOf(ls[0])|..] == Flat(rest);
    }
  }

  lemma FitsRest(ls: seq<Lexeme>)
    requires Stable(ls) && ls != []
    ensures FitsText(ls[0], Flat(ls[1..]))
  {
    var rest := ls[1..];
    assert Valid(ls[0]);
    if rest != [] {
      StableTail(ls);
      assert Valid(rest[0]);
      var t := TextOf(rest[0]);
      assert Flat(rest)[0] == t[0];
      if ls[0] == Punct(':') && t == "/" && |rest| > 1 {
        FirstLenBounds(t);
        assert rest[0] == Punct('/');
        StableTail(rest);
        assert Valid(rest[1]);
        assert rest[1..][0] == rest[1];
        assert Flat(rest)[1] == TextOf(rest[1])[0];
      }
    }
  }

  lemma StableParts(a: seq<Lexeme>, b: seq<Lexeme>)
    requires Stable(a + b)
    ensures Stable(a) && Stable(b)
  {
    var s := a + b;
    forall i | 0 <= i < |a| ensures Valid(a[i]) { assert Valid(s[i]); }
    forall i | 0 <= i < |b| ensures Valid(b[i]) { assert Valid(s[|a| + i]); }
    forall i | 0 <= i < |a| - 1 ensures FitsAt(a, i) { assert FitsAt(s, i); }
    forall i | 0 <= i < |b| - 1 ensures FitsAt(b, i) {
      assert FitsAt(s, |a| + i);
    }
  }

  lemma StableJoin(a: seq<Lexeme>, b: seq<Lexeme>)
    requires Stable(a) && Stable(b) && (a != [] && b != [] ==> Fits(a[|a| - 1], b[0]))
    ensures Stable(a + b)
  {
    var s := a + b;
    forall i | 0 <= i < |s| ensures Valid(s[i]) {
      assert if i < |a| then Valid(a[i]) else Valid(b[i - |a|]);
    }
    forall i | 0 <= i < |s| - 1 ensures FitsAt(s, i) {
      FitsJoined(a, b, i);
    }
  }

  lemma FitsJoined(a: seq<Lexeme>, b: seq<Lexeme>, i: nat)
    requires Stable(a) && Stable(b) && (a != [] && b != [] ==> Fits(a[|a| - 1], b[0])) && i < |a + b| - 1
    ensures FitsAt(a + b, i)
  {
    if i < |a| - 1 {
      assert FitsAt(a, i);
    } else if i >= |a| {
      assert FitsAt(b, i - |a|);
    }
  }
}
