/**
 Expanding a command template: placeholders are replaced one key after the other, in
 whatever order the maps yield their keys.
 */
module ToolTemplate {
  import opened Text

  /** Replacing every occurrence of `pat`, from left to right. */
  function Replace(s: string, pat: string, v: string): string
    requires pat != ""
  {
    if s == "" then ""
    else if pat <= s then v + Replace(s[|pat|..], pat, v)
    else [s[0]] + Replace(s[1..], pat, v)
  }

  function Placeholder(key: string): string {
    "{" + key + "}"
  }

  datatype Binding = Binding(key: string, value: string)

  /** One replacement after the other. */
  function ReplaceAll(s: string, bs: seq<Binding>): string
    decreases bs
  {
    if bs == [] then s else ReplaceAll(Replace(s, Placeholder(bs[0].key), bs[0].value), bs[1..])
  }

  lemma OneReplacement(s: string, b: Binding)
    ensures ReplaceAll(s, [b]) == Replace(s, Placeholder(b.key), b.value)
  {
    assert [b][1..] == [];
    assert ReplaceAll(s, [b]) == ReplaceAll(Replace(s, Placeholder(b.key), b.value), []);
  }

  lemma TwoReplacements(s: string, a: Binding, b: Binding)
    ensures ReplaceAll(s, [a, b]) == Replace(Replace(s, Placeholder(a.key), a.value), Placeholder(b.key), b.value)
  {
    assert [a, b][1..] == [b];
    OneReplacement(Replace(s, Placeholder(a.key), a.value), b);
  }

  lemma {:induction false} ReplaceAllConcat(s: string, a: seq<Binding>, b: seq<Binding>)
    ensures ReplaceAll(s, a + b) == ReplaceAll(ReplaceAll(s, a), b)
    decreases a
  {
    if a == [] {
      assert a + b == b;
    } else {
      ReplaceAllConcat(Replace(s, Placeholder(a[0].key), a[0].value), a[1..], b);
      assert (a + b)[1..] == a[1..] + b;
    }
  }

  // ---------------------------------------------------------------- templates as literals and holes

  datatype Piece = Lit(text: string) | Hole(name: string)

  predicate BraceFree(s: string) {
    forall i | 0 <= i < |s| :: s[i] != '{' && s[i] != '}'
  }

  predicate OpenFree(s: string) {
    forall i | 0 <= i < |s| :: s[i] != '{'
  }

  /** A template in which every opening brace starts a hole. */
  predicate Simple(ps: seq<Piece>) {
    forall i | 0 <= i < |ps| :: if ps[i].Lit? then OpenFree(ps[i].text) else BraceFree(ps[i].name)
  }

  /** No placeholder of `key` starts in `t`, whatever follows it. */
  predicate Safe(t: string, key: string) {
    forall i {:trigger t[i]} | 0 <= i < |t| && t[i] == '{' ::
      !(t[i..] <= Placeholder(key)) && !(Placeholder(key) <= t[i..])
  }

  /** A template whose literals cannot be mistaken for the placeholder of `key`. */
  predicate Clear(ps: seq<Piece>, key: string) {
    forall i | 0 <= i < |ps| :: ClearPiece(ps[i], key)
  }

  predicate ClearPiece(p: Piece, key: string) {
    match p
    case Lit(t) => Safe(t, key)
    case Hole(n) => BraceFree(n)
  }

  predicate ClearAll(ps: seq<Piece>, bs: seq<Binding>) {
    forall b <- bs :: Clear(ps, b.key)
  }

  lemma OpenFreeSafe(t: string, key: string)
    requires OpenFree(t)
    ensures Safe(t, key)
  {}

  lemma SimpleClear(ps: seq<Piece>, bs: seq<Binding>)
    requires Simple(ps)
    ensures ClearAll(ps, bs)
  {
    forall b <- bs, i | 0 <= i < |ps| ensures ClearPiece(ps[i], b.key) {
      if ps[i].Lit? {
        OpenFreeSafe(ps[i].text, b.key);
      }
    }
  }

  function PieceText(p: Piece): string {
    match p
    case Lit(t) => t
    case Hole(n) => Placeholder(n)
  }

  function TextOf(ps: seq<Piece>): string {
    if ps == [] then "" else PieceText(ps[0]) + TextOf(ps[1..])
  }

  /** Every hole `key` filled with `v`. */
  function Fill(ps: seq<Piece>, key: string, v: string): seq<Piece> {
    seq(|ps|, i requires 0 <= i < |ps| => if ps[i] == Hole(key) then Lit(v) else ps[i])
  }

  /** The value of a name: that of the first binding for it. */
  function FirstFor(bs: seq<Binding>, name: string): Option<string> {
    if bs == [] then None
    else if bs[0].key == name then Some(bs[0].value)
    else FirstFor(bs[1..], name)
  }

  /** All holes filled at once. */
  function Substitute(ps: seq<Piece>, bs: seq<Binding>): seq<Piece> {
    seq(|ps|, i requires 0 <= i < |ps| => FillPiece(ps[i], bs))
  }

  function FillPiece(p: Piece, bs: seq<Binding>): Piece {
    if p.Hole? && FirstFor(bs, p.name).Some? then Lit(FirstFor(bs, p.name).value) else p
  }

  // ---------------------------------------------------------------- one replacement

  lemma {:induction false} ReplaceLiteral(t: string, rest: string, key: string, v: string)
    requires Safe(t, key)
    ensures Replace(t + rest, Placeholder(key), v) == t + Replace(rest, Placeholder(key), v)
  {
    if t == "" {
      assert t + rest == rest;
    } else {
      SafeTail(t, key);
      ReplaceLiteral(t[1..], rest, key, v);
      NotHere(t, rest, key);
      ReplaceSkips(t[0], t[1..] + rest, Placeholder(key), v);
      assert [t[0]] + (t[1..] + rest) == t + rest;
      assert [t[0]] + (t[1..] + Replace(rest, Placeholder(key), v)) == t + Replace(rest, Placeholder(key), v);
    }
  }

  lemma ReplaceSkips(c: char, rest: string, pat: string, v: string)
    requires pat != "" && !(pat <= [c] + rest)
    ensures Replace([c] + rest, pat, v) == [c] + Replace(rest, pat, v)
  {
    assert ([c] + rest)[1..] == rest;
  }

  lemma SafeTail(t: string, key: string)
    requires Safe(t, key) && t != ""
    ensures Safe(t[1..], key)
  {
    forall i | 0 <= i < |t| - 1 && t[1..][i] == '{'
      ensures !(t[1..][i..] <= Placeholder(key)) && !(Placeholder(key) <= t[1..][i..])
    {
      assert t[1..][i..] == t[i + 1..] && t[i + 1] == '{';
    }
  }

  lemma NotHere(t: string, rest: string, key: string)
    requires Safe(t, key) && t != ""
    ensures !(Placeholder(key) <= [t[0]] + (t[1..] + rest))
  {
    assert [t[0]] + (t[1..] + rest) == t + rest && t[0..] == t;
    if Placeholder(key) <= t + rest {
      assert (t + rest)[0] == Placeholder(key)[0] == '{';
      Comparable(Placeholder(key), t, t + rest);
    }
  }

  /** Two starts of one text: one is a start of the other. */
  lemma Comparable(a: string, b: string, s: string)
    requires a <= s && b <= s
    ensures a <= b || b <= a
  {
    assert a == s[..|a|] && b == s[..|b|];
    if |a| <= |b| {
      assert a == b[..|a|];
    } else {
      assert b == a[..|b|];
    }
  }

  /** The first closing brace of a text that starts with a placeholder. */
  lemma FirstClose(n: string, rest: string)
    requires BraceFree(n)
    ensures var s := Placeholder(n) + rest;
      s[|n| + 1] == '}' && s[1..|n| + 1] == n && forall j {:trigger s[j]} | 0 <= j <= |n| :: s[j] != '}'
  {
    var s := Placeholder(n) + rest;
    forall j | 0 <= j <= |n| ensures s[j] != '}' {
      assert j > 0 ==> s[j] == n[j - 1];
    }
  }

  /** A placeholder starts a text that starts with a hole only if it is that hole's. */
  lemma SamePlaceholder(n: string, rest: string, key: string)
    requires BraceFree(n) && BraceFree(key)
    ensures Placeholder(key) <= Placeholder(n) + rest <==> key == n
  {
    var s, pat := Placeholder(n) + rest, Placeholder(key);
    FirstClose(n, rest);
    FirstClose(key, "");
    assert pat + "" == pat;
    if pat <= s {
      assert forall i {:trigger pat[i]} {:trigger s[i]} | 0 <= i < |pat| :: pat[i] == s[i];
      assert |key| >= |n|;
      assert |key| <= |n|;
      assert pat[1..|key| + 1] == s[1..|n| + 1];
    }
  }

  lemma ReplaceHole(n: string, rest: string, key: string, v: string)
    requires BraceFree(n) && BraceFree(key)
    ensures Replace(Placeholder(n) + rest, Placeholder(key), v)
            == (if n == key then v else Placeholder(n)) + Replace(rest, Placeholder(key), v)
  {
    var s, pat := Placeholder(n) + rest, Placeholder(key);
    SamePlaceholder(n, rest, key);
    if n == key {
      assert s[|pat|..] == rest;
    } else {
      var tail := n + "}";
      assert s[1..] == tail + rest;
      OpenFreeSafe(tail, key);
      ReplaceLiteral(tail, rest, key, v);
      assert ['{'] + (tail + Replace(rest, pat, v)) == Placeholder(n) + Replace(rest, pat, v);
    }
  }

  /** Replacing one placeholder in a template's text fills its holes and touches nothing else. */
  lemma {:induction false} ReplaceFills(ps: seq<Piece>, key: string, v: string)
    requires Clear(ps, key) && BraceFree(key)
    ensures Replace(TextOf(ps), Placeholder(key), v) == TextOf(Fill(ps, key, v))
  {
    if ps != [] {
      ClearTail(ps, key);
      ReplaceFills(ps[1..], key, v);
      ReplacePiece(ps[0], TextOf(ps[1..]), key, v);
      FillText(ps, key, v);
    }
  }

  lemma FillText(ps: seq<Piece>, key: string, v: string)
    requires ps != []
    ensures TextOf(Fill(ps, key, v))
            == PieceText(if ps[0] == Hole(key) then Lit(v) else ps[0]) + TextOf(Fill(ps[1..], key, v))
  {
    assert Fill(ps, key, v)[1..] == Fill(ps[1..], key, v);
  }

  lemma ClearTail(ps: seq<Piece>, key: string)
    requires Clear(ps, key) && ps != []
    ensures ClearPiece(ps[0], key) && Clear(ps[1..], key)
  {
    forall i | 0 <= i < |ps| - 1 ensures ClearPiece(ps[1..][i], key) { assert ClearPiece(ps[i + 1], key); }
  }

  lemma ReplacePiece(p: Piece, rest: string, key: string, v: string)
    requires ClearPiece(p, key) && BraceFree(key)
    ensures Replace(PieceText(p) + rest, Placeholder(key), v)
            == PieceText(if p == Hole(key) then Lit(v) else p) + Replace(rest, Placeholder(key), v)
  {
    match p
    case Lit(t) => ReplaceLiteral(t, rest, key, v);
    case Hole(n) => ReplaceHole(n, rest, key, v);
  }

  // ---------------------------------------------------------------- all replacements

  /** No value that is put in completes the placeholder of a key that is still to be replaced. */
  ghost predicate SafeInOrder(bs: seq<Binding>) {
    && (forall i | 0 <= i < |bs| :: BraceFree(bs[i].key))
    && (forall i, j | 0 <= i < j < |bs| :: Safe(bs[i].value, bs[j].key))
  }

  lemma SafeInOrderTail(bs: seq<Binding>)
    requires SafeInOrder(bs) && bs != []
    ensures SafeInOrder(bs[1..])
  {
    forall i, j | 0 <= i < j < |bs| - 1 ensures Safe(bs[1..][i].value, bs[1..][j].key) {
      assert Safe(bs[i + 1].value, bs[j + 1].key);
    }
  }

  lemma FilledClear(ps: seq<Piece>, key: string, v: string, other: string)
    requires Clear(ps, other) && Safe(v, other)
    ensures Clear(Fill(ps, key, v), other)
  {
    forall i | 0 <= i < |ps| ensures ClearPiece(Fill(ps, key, v)[i], other) { assert ClearPiece(ps[i], other); }
  }

  /** Filling holes one key after the other is filling all of them at once. */
  lemma {:induction false} SequentialIsSimultaneous(ps: seq<Piece>, bs: seq<Binding>)
    requires ClearAll(ps, bs) && SafeInOrder(bs)
    ensures ReplaceAll(TextOf(ps), bs) == TextOf(Substitute(ps, bs))
    decreases |bs|
  {
    if bs == [] {
      assert Substitute(ps, bs) == ps;
    } else {
      var b, rest := bs[0], bs[1..];
      var filled := Fill(ps, b.key, b.value);
      ReplaceFills(ps, b.key, b.value);
      FilledClearAll(ps, bs);
      SafeInOrderTail(bs);
      SequentialIsSimultaneous(filled, rest);
      SubstituteSteps(ps, bs);
    }
  }

  lemma FilledClearAll(ps: seq<Piece>, bs: seq<Binding>)
    requires ClearAll(ps, bs) && SafeInOrder(bs) && bs != []
    ensures ClearAll(Fill(ps, bs[0].key, bs[0].value), bs[1..])
  {
    forall c <- bs[1..] ensures Clear(Fill(ps, bs[0].key, bs[0].value), c.key) {
      var j :| 0 <= j < |bs| - 1 && bs[1..][j] == c;
      assert bs[j + 1] == c && Safe(bs[0].value, bs[j + 1].key);
      FilledClear(ps, bs[0].key, bs[0].value, c.key);
    }
  }

  lemma SubstituteSteps(ps: seq<Piece>, bs: seq<Binding>)
    requires bs != []
    ensures Substitute(ps, bs) == Substitute(Fill(ps, bs[0].key, bs[0].value), bs[1..])
  {}

  ghost predicate DistinctKeys(bs: seq<Binding>) {
    forall i, j | 0 <= i < j < |bs| :: bs[i].key != bs[j].key
  }

  lemma {:induction false} FirstForIs(bs: seq<Binding>, name: string)
    ensures var r := FirstFor(bs, name);
      && (r.Some? ==> Binding(name, r.value) in bs)
      && (r.None? <==> forall b <- bs :: b.key != name)
  {
    if bs != [] {
      FirstForIs(bs[1..], name);
      assert bs == [bs[0]] + bs[1..];
    }
  }

  /** Bindings of one name all carry one value. */
  ghost predicate Agree(bs: seq<Binding>, name: string) {
    forall b, c | b in bs && c in bs && b.key == name && c.key == name :: b.value == c.value
  }

  /** The map's iteration order does not matter when each name has one value. */
  lemma OrderDoesNotMatter(ps: seq<Piece>, bs: seq<Binding>, cs: seq<Binding>)
    requires multiset(bs) == multiset(cs)
    requires forall i | 0 <= i < |ps| && ps[i].Hole? :: Agree(bs, ps[i].name)
    ensures Substitute(ps, bs) == Substitute(ps, cs)
  {
    forall b ensures b in bs <==> b in cs {
      assert b in multiset(bs) <==> b in multiset(cs);
    }
    forall i | 0 <= i < |ps| ensures FillPiece(ps[i], bs) == FillPiece(ps[i], cs) {
      if ps[i].Hole? {
        FirstForIs(bs, ps[i].name);
        FirstForIs(cs, ps[i].name);
      }
    }
  }

  lemma DistinctAgree(bs: seq<Binding>, name: string)
    requires DistinctKeys(bs)
    ensures Agree(bs, name)
  {}

  /** No value completes the placeholder of another key. */
  ghost predicate Independent(bs: seq<Binding>) {
    && (forall b <- bs :: BraceFree(b.key))
    && (forall b, c | b in bs && c in bs && b.key != c.key :: Safe(b.value, c.key))
  }

  lemma IndependentInOrder(bs: seq<Binding>)
    requires Independent(bs) && DistinctKeys(bs)
    ensures SafeInOrder(bs)
  {
    forall i, j | 0 <= i < j < |bs| ensures Safe(bs[i].value, bs[j].key) {
      assert bs[i] in bs && bs[j] in bs;
    }
    forall i | 0 <= i < |bs| ensures BraceFree(bs[i].key) { assert bs[i] in bs; }
  }

  lemma SameMembers<T>(a: seq<T>, b: seq<T>)
    requires multiset(a) == multiset(b)
    ensures forall x :: x in a <==> x in b
  {
    forall x ensures x in a <==> x in b {
      assert x in multiset(a) <==> x in multiset(b);
    }
  }

  lemma DistinctByKey(ds: seq<Binding>, d: Binding, e: Binding)
    requires DistinctKeys(ds) && d in ds && e in ds && d.key == e.key
    ensures d == e
  {
    var i :| 0 <= i < |ds| && ds[i] == d;
    var j :| 0 <= j < |ds| && ds[j] == e;
    assert i == j;
  }

  lemma Twice<T>(s: seq<T>, i: nat, j: nat)
    requires i < j < |s| && s[i] == s[j]
    ensures multiset(s)[s[i]] >= 2
  {
    assert s == s[..i] + [s[i]] + s[i + 1..j] + [s[j]] + s[j + 1..];
  }

  lemma {:induction false} Once(ds: seq<Binding>, d: Binding)
    requires DistinctKeys(ds)
    ensures multiset(ds)[d] <= 1
  {
    if ds != [] {
      Once(ds[1..], d);
      assert ds == [ds[0]] + ds[1..];
      if d == ds[0] { assert d !in ds[1..]; }
    }
  }

  lemma DistinctReordered(ds: seq<Binding>, ds': seq<Binding>)
    requires DistinctKeys(ds) && multiset(ds) == multiset(ds')
    ensures DistinctKeys(ds')
  {
    SameMembers(ds, ds');
    forall i, j | 0 <= i < j < |ds'| ensures ds'[i].key != ds'[j].key {
      if ds'[i].key == ds'[j].key {
        DistinctByKey(ds, ds'[i], ds'[j]);
        Twice(ds', i, j);
        Once(ds, ds'[i]);
      }
    }
  }

  /** Sequential replacement over a map's entries gives one result for every iteration order, if no literal of the
      template can be mistaken for a placeholder, or for the start of one. */
  lemma MapOrderDoesNotMatter(ps: seq<Piece>, bs: seq<Binding>, cs: seq<Binding>)
    requires ClearAll(ps, bs) && Independent(bs) && DistinctKeys(bs) && multiset(bs) == multiset(cs)
    ensures ReplaceAll(TextOf(ps), bs) == ReplaceAll(TextOf(ps), cs) == TextOf(Substitute(ps, bs))
  {
    SameMembers(bs, cs);
    DistinctReordered(bs, cs);
    IndependentInOrder(bs);
    IndependentInOrder(cs);
    forall i | 0 <= i < |ps| && ps[i].Hole? ensures Agree(bs, ps[i].name) {
      DistinctAgree(bs, ps[i].name);
    }
    SequentialIsSimultaneous(ps, bs);
    SequentialIsSimultaneous(ps, cs);
    OrderDoesNotMatter(ps, bs, cs);
  }

  // ---------------------------------------------------------------- when the order of two entries matters

  /** Replacing the key by its own placeholder. */
  predicate Idle(b: Binding) {
    b.value == Placeholder(b.key)
  }

  lemma {:induction false} IdleReplacement(s: string, pat: string)
    requires pat != ""
    ensures Replace(s, pat, pat) == s
  {
    if s == "" {
    } else if pat <= s {
      IdleReplacement(s[|pat|..], pat);
      assert s == pat + s[|pat|..];
    } else {
      IdleReplacement(s[1..], pat);
    }
  }

  /** A replacement makes a text longer or shorter by as much as the value is longer or shorter. */
  lemma {:induction false} ReplaceLength(s: string, pat: string, v: string)
    requires pat != "" && |v| != |pat|
    ensures |v| > |pat| ==> |Replace(s, pat, v)| >= |s| && (Contains(s, pat) ==> |Replace(s, pat, v)| > |s|)
    ensures |v| < |pat| ==> |Replace(s, pat, v)| <= |s| && (Contains(s, pat) ==> |Replace(s, pat, v)| < |s|)
  {
    if s == "" {
    } else if pat <= s {
      ReplaceLength(s[|pat|..], pat, v);
    } else {
      ReplaceLength(s[1..], pat, v);
      if Contains(s, pat) {
        ContainedInTail(s, pat);
      }
    }
  }

  lemma ContainedInTail(s: string, pat: string)
    requires s != "" && pat != "" && !(pat <= s) && Contains(s, pat)
    ensures Contains(s[1..], pat)
  {
    var i :| 0 <= i <= |s| && At(s, i, pat);
    AtSlice(s, i, pat);
    if i > 0 {
      AtSuffix([s[0]], s[1..], i - 1, pat);
      assert [s[0]] + s[1..] == s;
    }
  }

  lemma {:induction false} ReplaceChanges(s: string, pat: string, v: string)
    requires pat != "" && v != pat && Contains(s, pat)
    ensures Replace(s, pat, v) != s
  {
    if |v| != |pat| {
      ReplaceLength(s, pat, v);
    } else if pat <= s {
      assert s[..|pat|] == pat && Replace(s, pat, v)[..|pat|] == v;
    } else {
      ContainedInTail(s, pat);
      ReplaceChanges(s[1..], pat, v);
    }
  }

  /** Two entries give the same text in either order, for every template in which each opening brace starts a hole. */
  ghost predicate SimpleCommute(a: Binding, b: Binding) {
    forall ps | Simple(ps) :: ReplaceAll(TextOf(ps), [a, b]) == ReplaceAll(TextOf(ps), [b, a])
  }

  lemma IdleCommutes(s: string, a: Binding, b: Binding)
    requires Idle(a)
    ensures ReplaceAll(s, [a, b]) == ReplaceAll(s, [b, a])
  {
    TwoReplacements(s, a, b);
    TwoReplacements(s, b, a);
    IdleReplacement(s, a.value);
    IdleReplacement(Replace(s, Placeholder(b.key), b.value), a.value);
  }

  lemma SafeCommutes(ps: seq<Piece>, a: Binding, b: Binding)
    requires Simple(ps) && a.key != b.key && BraceFree(a.key) && BraceFree(b.key)
    requires Safe(a.value, b.key) && Safe(b.value, a.key)
    ensures ReplaceAll(TextOf(ps), [a, b]) == ReplaceAll(TextOf(ps), [b, a])
  {
    SimpleClear(ps, [a, b]);
    assert multiset([a, b]) == multiset([b, a]);
    MapOrderDoesNotMatter(ps, [a, b], [b, a]);
  }

  /** The rest of a placeholder that starts in `v` at `i`. */
  lemma CompletesPlaceholder(v: string, i: nat, key: string) returns (tail: string)
    requires BraceFree(key) && i < |v| && (v[i..] <= Placeholder(key) || Placeholder(key) <= v[i..])
    ensures OpenFree(tail) && Contains(v + tail, Placeholder(key))
  {
    var pat := Placeholder(key);
    if pat <= v[i..] {
      tail := "";
      assert v + tail == v && v[i..][..|pat|] == v[i..i + |pat|];
      AtSlice(v, i, pat);
    } else {
      tail := pat[|v| - i..];
      assert pat == v[i..] + tail;
      assert (v + tail)[i..] == v[i..] + tail;
      assert (v + tail)[i..i + |pat|] == pat;
      AtSlice(v + tail, i, pat);
    }
  }

  lemma HoleThen(name: string, tail: string, key: string, v: string)
    requires BraceFree(name) && BraceFree(key) && OpenFree(tail)
    ensures TextOf([Hole(name), Lit(tail)]) == Placeholder(name) + tail
    ensures Replace(Placeholder(name) + tail, Placeholder(key), v)
            == (if name == key then v else Placeholder(name)) + tail
  {
    assert [Hole(name), Lit(tail)][1..] == [Lit(tail)];
    assert TextOf([Lit(tail)]) == tail + TextOf([Lit(tail)][1..]) == tail;
    ReplaceHole(name, tail, key, v);
    OpenFreeSafe(tail, key);
    ReplaceLiteral(tail, "", key, v);
    assert tail + "" == tail && tail + Replace("", Placeholder(key), v) == tail;
  }

  /** A value that completes the placeholder of a second key that is replaced by something else. */
  lemma UnsafeOrderMatters(a: Binding, b: Binding) returns (ps: seq<Piece>)
    requires a.key != b.key && BraceFree(a.key) && BraceFree(b.key) && !Safe(a.value, b.key) && !Idle(b)
    ensures Simple(ps) && ReplaceAll(TextOf(ps), [a, b]) != ReplaceAll(TextOf(ps), [b, a])
  {
    var i: nat :| i < |a.value| && a.value[i] == '{'
                  && (a.value[i..] <= Placeholder(b.key) || Placeholder(b.key) <= a.value[i..]);
    var tail := CompletesPlaceholder(a.value, i, b.key);
    ps := [Hole(a.key), Lit(tail)];
    var s := Placeholder(a.key) + tail;
    HoleThen(a.key, tail, a.key, a.value);
    HoleThen(a.key, tail, b.key, b.value);
    TwoReplacements(s, a, b);
    TwoReplacements(s, b, a);
    ReplaceChanges(a.value + tail, Placeholder(b.key), b.value);
  }

  /** The order of two entries does not matter, for templates in which each opening brace starts a hole, exactly when
      one of them replaces a placeholder by itself or neither value completes the placeholder of the other key. */
  lemma SimplePairOrderMattersExactly(a: Binding, b: Binding)
    requires a.key != b.key && BraceFree(a.key) && BraceFree(b.key)
    ensures SimpleCommute(a, b) <==> Idle(a) || Idle(b) || (Safe(a.value, b.key) && Safe(b.value, a.key))
  {
    if Idle(a) || Idle(b) || (Safe(a.value, b.key) && Safe(b.value, a.key)) {
      forall ps | Simple(ps) ensures ReplaceAll(TextOf(ps), [a, b]) == ReplaceAll(TextOf(ps), [b, a]) {
        if Idle(a) {
          IdleCommutes(TextOf(ps), a, b);
        } else if Idle(b) {
          IdleCommutes(TextOf(ps), b, a);
        } else {
          SafeCommutes(ps, a, b);
        }
      }
    } else if !Safe(a.value, b.key) {
      var ps := UnsafeOrderMatters(a, b);
    } else {
      var ps := UnsafeOrderMatters(b, a);
    }
  }

  /** A value that is another key's placeholder. Such a value can come from an argument of type `agent_summary`, a
      resolved path, a default or a mapping's flags; the other argument types reject braces
      (crates/runtime/src/toolclad/validator.rs:11-13). */
  lemma BracesMakeOrderMatter()
    ensures var a, b := Binding("a", "{b}"), Binding("b", "x");
      ReplaceAll("{a}", [a, b]) == "x" && ReplaceAll("{a}", [b, a]) == "{b}"
  {
    var a, b := Binding("a", "{b}"), Binding("b", "x");
    TwoReplacements("{a}", a, b);
    TwoReplacements("{a}", b, a);
    assert Placeholder("a") == "{a}" && Placeholder("b") == "{b}";
    ReplaceWhole("a", "{b}");
    ReplaceWhole("b", "x");
    ReplaceHole("a", "", "b", "x");
    assert Placeholder("a") + "" == "{a}";
  }

  lemma ReplaceWhole(key: string, v: string)
    requires BraceFree(key)
    ensures Replace(Placeholder(key), Placeholder(key), v) == v
  {
    ReplaceHole(key, "", key, v);
    assert Placeholder(key) + "" == Placeholder(key);
    assert v + "" == v;
  }
}
