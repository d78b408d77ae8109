/** What the lexemes are, character by character, and that a source splits into them in one way only. */
module DslTokens {
  import opened Text
  import opened DslLexer

  /** Between the quotes of a string: no quote, and a backslash only before a character of the same line. */
  predicate Escaped(s: string) {
    s == ""
    || (if s[0] == '\\' then |s| >= 2 && s[1] != '\n' && Escaped(s[2..]) else s[0] != '"' && Escaped(s[1..]))
  }

  ghost predicate IsString(t: string) {
    |t| >= 2 && t[0] == '"' && t[|t| - 1] == '"' && Escaped(t[1..|t| - 1])
  }

  /** A string that is never closed. */
  ghost predicate IsOpenString(t: string) {
    t != "" && t[0] == '"' && forall n {:trigger ClosedAt(t, n)} | 1 <= n < |t| :: !ClosedAt(t, n)
  }

  predicate ClosedAt(t: string, n: nat)
    requires 1 <= n < |t|
  {
    t[n] == '"' && Escaped(t[1..n])
  }

  /** `#` or `//`, and the rest of a line. */
  ghost predicate IsLineComment(t: string) {
    t != "" && (t[0] == '#' || (|t| >= 2 && t[0] == '/' && t[1] == '/')) && forall i | 0 <= i < |t| :: t[i] != '\n'
  }

  /** A name, or a number with what sticks to it. */
  ghost predicate IsWord(t: string) {
    && t != "" && IsWordChar(t[0])
    && forall i | 0 <= i < |t| :: IsWordChar(t[i]) || (t[i] == '.' && IsDigit(t[0]))
  }

  /** `://` and what may stand behind it in a vault address. */
  ghost predicate IsScheme(t: string) {
    && |t| >= 3 && t[0] == ':' && t[1] == '/' && t[2] == '/'
    && forall i | 3 <= i < |t| :: IsWordChar(t[i]) || t[i] == '-' || t[i] == '/' || t[i] == '.'
  }

  ghost predicate WellFormed(l: Lexeme) {
    match l
    case Space(c) => IsSpace(c)
    case Word(t) => IsWord(t)
    case Quoted(t) => IsString(t)
    case Unterminated(t) => IsOpenString(t)
    case Comment(t) => IsLineComment(t)
    case Scheme(t) => IsScheme(t)
    case Punct(c) => !IsSpace(c) && !IsWordChar(c) && c != '"' && c != '#'
  }

  // ---------------------------------------------------------------- strings

  lemma {:induction false} QuoteFinds(s: string, n: nat)
    requires n < |s| && s[n] == '"' && Escaped(s[..n])
    ensures QuoteLen(s) == Some(n + 1)
  {
    if n > 0 {
      if s[0] == '\\' {
        assert s[..n][2..] == s[2..][..n - 2] && s[..n][1] == s[1];
        QuoteFinds(s[2..], n - 2);
      } else {
        assert s[..n][1..] == s[1..][..n - 1];
        QuoteFinds(s[1..], n - 1);
      }
    }
  }

  lemma {:induction false} QuoteFound(s: string)
    requires QuoteLen(s).Some?
    ensures var n := QuoteLen(s).value; 0 < n <= |s| && s[n - 1] == '"' && Escaped(s[..n - 1])
  {
    var n := QuoteLen(s).value;
    if s[0] == '"' {
    } else if s[0] == '\\' {
      QuoteFound(s[2..]);
      assert s[..n - 1][2..] == s[2..][..n - 3] && s[..n - 1][1] == s[1];
    } else {
      QuoteFound(s[1..]);
      assert s[..n - 1][1..] == s[1..][..n - 2];
    }
  }

  lemma StringExactly(t: string)
    requires t != "" && t[0] == '"'
    ensures QuoteLen(t[1..]) == Some(|t| - 1) <==> IsString(t)
    ensures QuoteLen(t[1..]).None? <==> IsOpenString(t)
  {
    var s := t[1..];
    if IsString(t) {
      assert s[..|t| - 2] == t[1..|t| - 1];
      QuoteFinds(s, |t| - 2);
    }
    if QuoteLen(s).Some? {
      var n := QuoteLen(s).value;
      QuoteFound(s);
      assert s[..n - 1] == t[1..n];
      assert ClosedAt(t, n);
    } else {
      forall n | 1 <= n < |t| ensures !ClosedAt(t, n) {
        if ClosedAt(t, n) {
          assert s[..n - 1] == t[1..n];
          QuoteFinds(s, n - 1);
        }
      }
    }
  }

  // ---------------------------------------------------------------- every kind of lexeme

  lemma AllRun(t: string, r: Run)
    ensures RunLen(t, r) == |t| <==> AllIn(t, r)
  {
    RunLenLongest(t, r);
    assert t[..|t|] == t;
    if AllIn(t, r) {
      RunLenIs(t, "", r);
      assert t + "" == t;
    }
  }

  lemma FirstWhole(t: string)
    requires t != ""
    ensures 0 < FirstLen(t) <= |t| && First(t) == Classify(t, t[..FirstLen(t)]) && t[..|t|] == t
    ensures |t[..FirstLen(t)]| == FirstLen(t)
  {
    FirstLenBounds(t);
  }

  lemma WordExactly(t: string)
    ensures Valid(Word(t)) <==> IsWord(t)
  {
    if t != "" {
      FirstWhole(t);
      AllRun(t, RunOf(t[0]));
    }
  }

  lemma CommentExactly(t: string)
    ensures Valid(Comment(t)) <==> IsLineComment(t)
  {
    if t != "" {
      FirstWhole(t);
      AllRun(t, Line);
    }
  }

  lemma QuotedExactly(t: string)
    ensures Valid(Quoted(t)) <==> IsString(t)
    ensures Valid(Unterminated(t)) <==> IsOpenString(t)
  {
    if t != "" {
      FirstWhole(t);
      if t[0] == '"' {
        StringExactly(t);
      }
    }
  }

  lemma SchemeExactly(t: string)
    ensures Valid(Scheme(t)) <==> IsScheme(t)
  {
    if t != "" {
      FirstWhole(t);
      AllRun(t[1..], Url);
      UrlChars(t);
    }
  }

  lemma UrlChars(t: string)
    requires t != ""
    ensures AllIn(t[1..], Url) <==> forall i | 1 <= i < |t| :: In(Url, t[i])
  {
    forall i | 1 <= i < |t| ensures t[1..][i - 1] == t[i] {}
  }

  lemma MarkExactly(c: char)
    ensures Valid(Space(c)) <==> IsSpace(c)
    ensures Valid(Punct(c)) <==> WellFormed(Punct(c))
  {
    var t := [c];
    FirstWhole(t);
    assert t[1..] == "";
    RunLenLongest(t, RunOf(c));
  }

  /** The lexemes of the lexer are exactly the well-formed ones. */
  lemma ValidExactly(l: Lexeme)
    ensures Valid(l) <==> WellFormed(l)
  {
    match l
    case Space(c) => MarkExactly(c);
    case Punct(c) => MarkExactly(c);
    case Word(t) => WordExactly(t);
    case Comment(t) => CommentExactly(t);
    case Scheme(t) => SchemeExactly(t);
    case Quoted(t) => QuotedExactly(t);
    case Unterminated(t) => QuotedExactly(t);
  }

  /** A list of well-formed lexemes, none of which the next one could lengthen. */
  ghost predicate Tokens(ls: seq<Lexeme>) {
    && (forall i {:trigger WellFormed(ls[i])} | 0 <= i < |ls| :: WellFormed(ls[i]))
    && (forall i {:trigger FitsAt(ls, i)} | 0 <= i < |ls| - 1 :: FitsAt(ls, i))
  }

  /** The lexer splits a source into its only list of such lexemes. */
  lemma LexExactly(s: string, ls: seq<Lexeme>)
    ensures Lex(s) == ls <==> Tokens(ls) && Flat(ls) == s
  {
    forall i | 0 <= i < |ls| ensures Valid(ls[i]) <==> WellFormed(ls[i]) {
      ValidExactly(ls[i]);
    }
    TokensStable(ls);
    LexStable(s);
    if Stable(ls) {
      LexFlat(ls);
    }
  }

  lemma TokensStable(ls: seq<Lexeme>)
    requires forall i | 0 <= i < |ls| :: Valid(ls[i]) <==> WellFormed(ls[i])
    ensures Tokens(ls) <==> Stable(ls)
  {}
}
