/** String operations of the host language that the modelled code relies on, each with
    the contract its callers need. Positions count characters. */
module Text {

  datatype Option<+T> = None | Some(value: T)

  datatype Result<+T, +E> = Ok(value: T) | Err(error: E)

  lemma Associative<T>(a: seq<T>, b: seq<T>, c: seq<T>)
    ensures a + (b + c) == a + b + c
  {}

  /** ASCII white space. */
  predicate IsSpace(c: char) {
    c == ' ' || '\t' <= c <= '\r'
  }

  predicate IsDigit(c: char) {
    '0' <= c <= '9'
  }

  /** `[A-Za-z0-9_]`, the characters of an identifier. */
  predicate IsWordChar(c: char) {
    'a' <= c <= 'z' || 'A' <= c <= 'Z' || IsDigit(c) || c == '_'
  }

  ghost predicate AllSpace(s: string) {
    forall i | 0 <= i < |s| :: IsSpace(s[i])
  }

  /** No white space at either end. */
  predicate Trimmed(s: string) {
    s == "" || (!IsSpace(s[0]) && !IsSpace(s[|s| - 1]))
  }

  function TrimStart(s: string): string {
    if s != "" && IsSpace(s[0]) then TrimStart(s[1..]) else s
  }

  function TrimEnd(s: string): string {
    if s != "" && IsSpace(s[|s| - 1]) then TrimEnd(s[..|s| - 1]) else s
  }

  function Trim(s: string): string {
    TrimEnd(TrimStart(s))
  }

  lemma {:induction false} TrimStartShape(s: string)
    ensures var r := TrimStart(s);
      && |r| <= |s| && r == s[|s| - |r|..] && AllSpace(s[..|s| - |r|])
      && (r == "" || !IsSpace(r[0]))
  {
    if s != "" && IsSpace(s[0]) {
      TrimStartShape(s[1..]);
      var r := TrimStart(s);
      assert s[..|s| - |r|] == [s[0]] + s[1..][..|s| - 1 - |r|];
    }
  }

  lemma {:induction false} TrimEndShape(s: string)
    ensures var r := TrimEnd(s);
      && r <= s && AllSpace(s[|r|..])
      && (r == "" || !IsSpace(r[|r| - 1]))
  {
    if s != "" && IsSpace(s[|s| - 1]) {
      TrimEndShape(s[..|s| - 1]);
      var r := TrimEnd(s);
      assert s[|r|..] == s[..|s| - 1][|r|..] + [s[|s| - 1]];
    }
  }

  lemma TrimSplit(s: string) returns (a: string, b: string)
    ensures AllSpace(a) && AllSpace(b) && s == a + Trim(s) + b && Trimmed(Trim(s))
  {
    var u := TrimStart(s);
    TrimStartShape(s);
    TrimEndShape(u);
    a, b := s[..|s| - |u|], u[|Trim(s)|..];
    assert Trim(s) != "" ==> Trim(s)[0] == u[0];
  }

  /** Trimming removes exactly the white space around a trimmed core. */
  lemma {:induction false} TrimAround(a: string, core: string, b: string)
    requires AllSpace(a) && AllSpace(b) && Trimmed(core)
    ensures Trim(a + core + b) == core
  {
    var rest := core + b;
    assert a + core + b == a + rest;
    TrimStartAround(a, rest);
    if core == "" {
      TrimStartAround(b, "");
      assert rest == b == b + "";
    } else {
      assert rest[0] == core[0];
      TrimEndAround(core, b);
    }
  }

  lemma {:induction false} TrimStartAround(a: string, rest: string)
    requires AllSpace(a)
    ensures rest == "" || !IsSpace(rest[0]) ==> TrimStart(a + rest) == rest
    ensures TrimStart(a + rest) == TrimStart(rest)
  {
    if a == "" {
      assert a + rest == rest;
    } else {
      TrimStartAround(a[1..], rest);
      assert (a + rest)[1..] == a[1..] + rest;
    }
  }

  lemma {:induction false} TrimEndAround(core: string, b: string)
    requires AllSpace(b)
    ensures core == "" || !IsSpace(core[|core| - 1]) ==> TrimEnd(core + b) == core
    ensures TrimEnd(core + b) == TrimEnd(core)
  {
    if b == "" {
      assert core + b == core;
    } else {
      TrimEndAround(core, b[..|b| - 1]);
      assert (core + b)[..|core + b| - 1] == core + b[..|b| - 1];
    }
  }

  /** Without the double quotes at either end. */
  function TrimQuotes(s: string): string {
    if s != "" && s[0] == '"' then TrimQuotes(s[1..])
    else if s != "" && s[|s| - 1] == '"' then TrimQuotes(s[..|s| - 1])
    else s
  }

  /** `v` between double quotes, and without one at its own ends. */
  ghost predicate Unquoted(s: string, v: string) {
    (v == "" || (v[0] != '"' && v[|v| - 1] != '"')) && exists a, b :: QuotesAround(s, a, v, b)
  }

  ghost predicate QuotesAround(s: string, a: string, v: string, b: string) {
    && s == a + v + b
    && (forall i | 0 <= i < |a| :: a[i] == '"') && (forall i | 0 <= i < |b| :: b[i] == '"')
  }

  lemma {:induction false} TrimQuotesUnquotes(s: string)
    ensures Unquoted(s, TrimQuotes(s))
  {
    var v := TrimQuotes(s);
    if s != "" && s[0] == '"' {
      TrimQuotesUnquotes(s[1..]);
      var a, b :| QuotesAround(s[1..], a, v, b);
      assert s == ([s[0]] + a) + v + b;
      assert QuotesAround(s, [s[0]] + a, v, b);
    } else if s != "" && s[|s| - 1] == '"' {
      TrimQuotesUnquotes(s[..|s| - 1]);
      var a, b :| QuotesAround(s[..|s| - 1], a, v, b);
      assert s == a + v + (b + [s[|s| - 1]]);
      assert QuotesAround(s, a, v, b + [s[|s| - 1]]);
    } else {
      assert QuotesAround(s, "", s, "");
    }
  }

  /** Trimming quotes gives the only text that quotes were put around. */
  lemma TrimQuotesExactly(s: string, v: string)
    ensures TrimQuotes(s) == v <==> Unquoted(s, v)
  {
    TrimQuotesUnquotes(s);
    if Unquoted(s, v) {
      var a, b :| QuotesAround(s, a, v, b);
      TrimQuotesAround(a, v, b);
    }
  }

  lemma {:induction false} TrimQuotesAround(a: string, v: string, b: string)
    requires v == "" || (v[0] != '"' && v[|v| - 1] != '"')
    requires (forall i | 0 <= i < |a| :: a[i] == '"') && (forall i | 0 <= i < |b| :: b[i] == '"')
    ensures TrimQuotes(a + v + b) == v
    decreases |a| + |b|
  {
    var s := a + v + b;
    if a != "" {
      assert s[1..] == a[1..] + v + b;
      TrimQuotesAround(a[1..], v, b);
    } else if b != "" {
      if v == "" {
        assert s[1..] == "" + v + b[1..];
        TrimQuotesAround("", v, b[1..]);
      } else {
        assert s[0] == v[0] && s[..|s| - 1] == a + v + b[..|b| - 1];
        TrimQuotesAround("", v, b[..|b| - 1]);
      }
    } else {
      assert s == v;
    }
  }

  /** Where the first line ends. */
  function LineLen(s: string): (n: nat)
    ensures n <= |s|
  {
    if s == "" || s[0] == '\n' then 0 else 1 + LineLen(s[1..])
  }

  predicate OneLine(s: string) {
    forall i | 0 <= i < |s| :: s[i] != '\n'
  }

  lemma {:induction false} LineLenIs(l: string, rest: string)
    requires OneLine(l) && (rest == "" || rest[0] == '\n')
    ensures LineLen(l + rest) == |l|
  {
    if l == "" {
      assert l + rest == rest;
    } else {
      LineLenIs(l[1..], rest);
      assert (l + rest)[1..] == l[1..] + rest;
    }
  }

  lemma {:induction false} FirstLine(s: string)
    ensures OneLine(s[..LineLen(s)]) && (LineLen(s) < |s| ==> s[LineLen(s)] == '\n')
  {
    if s != "" && s[0] != '\n' {
      FirstLine(s[1..]);
      assert s[..LineLen(s)] == [s[0]] + s[1..][..LineLen(s) - 1];
    }
  }

  function ToLower(s: string): (r: string)
    ensures |r| == |s|
    ensures forall i | 0 <= i < |s| :: r[i] == LowerChar(s[i])
  {
    seq(|s|, i requires 0 <= i < |s| => LowerChar(s[i]))
  }

  /** ASCII case folding. */
  function LowerChar(c: char): char {
    if 'A' <= c <= 'Z' then c - 'A' + 'a' else c
  }

  /** `p` occurs in `s` at position `i`. */
  predicate At(s: string, i: int, p: string) {
    0 <= i <= |s| - |p| && forall k | 0 <= k < |p| :: SameChar(s, i, p, k)
  }

  predicate SameChar(s: string, i: int, p: string, k: int) {
    0 <= i + k < |s| && 0 <= k < |p| && s[i + k] == p[k]
  }

  lemma AtChar(s: string, i: int, p: string, k: int)
    ensures At(s, i, p) && 0 <= k < |p| ==> SameChar(s, i, p, k)
  {}

  lemma AtSlice(s: string, i: int, p: string)
    ensures At(s, i, p) <==> 0 <= i <= |s| - |p| && s[i..i + |p|] == p
  {
    if At(s, i, p) {
      forall k | 0 <= k < |p|
        ensures s[i..i + |p|][k] == p[k]
      {
        AtChar(s, i, p, k);
      }
    }
    if 0 <= i <= |s| - |p| && s[i..i + |p|] == p {
      forall k | 0 <= k < |p|
        ensures SameChar(s, i, p, k)
      {
        assert s[i..i + |p|][k] == s[i + k];
      }
    }
  }

  lemma AtPrefix(a: string, b: string, i: int, p: string)
    requires 0 <= i && i + |p| <= |a|
    ensures At(a + b, i, p) <==> At(a, i, p)
  {
    if At(a + b, i, p) {
      forall k | 0 <= k < |p| ensures SameChar(a, i, p, k) { AtChar(a + b, i, p, k); }
    }
    if At(a, i, p) {
      forall k | 0 <= k < |p| ensures SameChar(a + b, i, p, k) { AtChar(a, i, p, k); }
    }
  }

  lemma AtSuffix(a: string, b: string, i: int, p: string)
    requires 0 <= i
    ensures At(a + b, |a| + i, p) <==> At(b, i, p)
  {
    if At(a + b, |a| + i, p) {
      forall k | 0 <= k < |p| ensures SameChar(b, i, p, k) { AtChar(a + b, |a| + i, p, k); }
    }
    if At(b, i, p) {
      var j := |a| + i;
      forall k | 0 <= k < |p| ensures SameChar(a + b, j, p, k) { AtChar(b, i, p, k); }
    }
  }

  predicate Contains(s: string, p: string) {
    exists i | 0 <= i <= |s| :: At(s, i, p)
  }

  /** The first position at or after `from` where `p` occurs. */
  function FindFrom(s: string, p: string, from: nat): (r: Option<nat>)
    requires from <= |s|
    ensures r.Some? ==> from <= r.value && At(s, r.value, p) && forall j | from <= j < r.value :: !At(s, j, p)
    ensures r.None? ==> forall j | from <= j <= |s| :: !At(s, j, p)
    decreases |s| - from
  {
    if At(s, from, p) then Some(from)
    else if from == |s| then None
    else FindFrom(s, p, from + 1)
  }

  function Find(s: string, p: string): (r: Option<nat>)
    ensures r.Some? ==> At(s, r.value, p) && forall j | 0 <= j < r.value :: !At(s, j, p)
    ensures r.None? <==> !Contains(s, p)
  {
    FindFrom(s, p, 0)
  }
}
