/**
 Placeholders in arbitrary template text. A template need not be made of literals and holes: its text may put a
 placeholder together around another one, as `{{a}}` does.
 */
module ToolTemplateTexts {
  import opened Text
  import opened ToolTemplate

  /** `v` and `p` can share characters of one text: one holds the other, which an empty `v` does not escape, or one
      begins where the other ends. */
  predicate Overlaps(v: string, p: string) {
    Contains(v, p) || Contains(p, v) || EndsInto(v, p) || StartsFrom(v, p)
  }

  /** A proper end of `v` is a start of `p`. */
  predicate EndsInto(v: string, p: string) {
    exists i | 0 < i < |v| :: TailStarts(v, i, p)
  }

  predicate TailStarts(v: string, i: nat, p: string)
    requires i <= |v|
  {
    v[i..] <= p
  }

  /** A proper start of `v` is an end of `p`. */
  predicate StartsFrom(v: string, p: string) {
    exists i | 0 < i < |v| && i <= |p| :: HeadEnds(v, i, p)
  }

  predicate HeadEnds(v: string, i: nat, p: string)
    requires i <= |v| && i <= |p|
  {
    v[..i] == p[|p| - i..]
  }

  function Put(s: string, b: Binding): string {
    Replace(s, Placeholder(b.key), b.value)
  }

  /** A value that does not overlap a placeholder does not complete it either. */
  lemma ApartIsSafe(v: string, key: string)
    requires !Overlaps(v, Placeholder(key))
    ensures Safe(v, key)
  {
    var pat := Placeholder(key);
    forall i | 0 <= i < |v| && v[i] == '{'
      ensures !(v[i..] <= pat) && !(pat <= v[i..])
    {
      if pat <= v[i..] {
        OccursAt(v, i, pat);
      }
      if v[i..] <= pat && i == 0 {
        assert v[0..] == v;
        OccursAt(pat, 0, v);
      }
      assert i > 0 ==> (v[i..] <= pat <==> TailStarts(v, i, pat));
    }
  }

  lemma OccursAt(s: string, i: nat, p: string)
    requires i <= |s| && p <= s[i..]
    ensures At(s, i, p) && Contains(s, p)
  {
    assert s[i..][..|p|] == s[i..i + |p|];
    AtSlice(s, i, p);
  }

  // ---------------------------------------------------------------- what one replacement does to another placeholder

  /** A replacement completes `q` behind `x` only with a value that overlaps it. */
  lemma {:induction false} NoNewFront(x: string, s: string, pat: string, v: string, q: string)
    requires pat != "" && x != "" && q <= x + Replace(s, pat, v) && !(q <= x + s)
    ensures Overlaps(v, q)
    decreases s
  {
    BeyondFront(x, Replace(s, pat, v), s, q);
    if s == "" {
    } else if pat <= s {
      CompletedInside(x, v, Replace(s[|pat|..], pat, v), q);
    } else {
      var t := Replace(s[1..], pat, v);
      Associative(x, [s[0]], t);
      Associative(x, [s[0]], s[1..]);
      assert s == [s[0]] + s[1..];
      NoNewFront(x + [s[0]], s[1..], pat, v, q);
    }
  }

  lemma BeyondFront(x: string, r: string, s: string, q: string)
    requires q <= x + r && !(q <= x + s)
    ensures |x| < |q|
  {
    if |q| <= |x| {
      WithinFront(x, r, s, q);
    }
  }

  lemma WithinFront(x: string, r: string, s: string, q: string)
    requires q <= x + r && |q| <= |x|
    ensures q <= x + s
  {
    assert q == (x + r)[..|q|] == x[..|q|] == (x + s)[..|q|];
  }

  lemma CompletedInside(x: string, v: string, r: string, q: string)
    requires 0 < |x| < |q| && q <= x + (v + r)
    ensures Overlaps(v, q)
  {
    var n := |q| - |x|;
    assert q == (x + (v + r))[..|q|];
    assert q[|x|..] == (v + r)[..n];
    if |v| <= n {
      assert q[|x|..][..|v|] == v;
      OccursAt(q, |x|, v);
    } else {
      assert HeadEnds(v, n, q);
    }
  }

  // ---------------------------------------------------------------- two entries that commute on every text

  lemma FrontCommutes(s: string, a: Binding, b: Binding)
    requires a.key != b.key && BraceFree(a.key) && BraceFree(b.key) && Safe(a.value, b.key)
    requires Put(Put(s, a), b) == Put(Put(s, b), a)
    ensures var t := Placeholder(a.key) + s; Put(Put(t, a), b) == Put(Put(t, b), a)
  {
    ReplaceHole(a.key, s, a.key, a.value);
    ReplaceLiteral(a.value, Put(s, a), b.key, b.value);
    ReplaceHole(a.key, s, b.key, b.value);
    ReplaceHole(a.key, Put(s, b), a.key, a.value);
  }

  lemma CharStep(c: char, s: string, a: Binding, b: Binding)
    requires !(Placeholder(a.key) <= [c] + s) && !(Placeholder(b.key) <= [c] + s)
    requires !Overlaps(a.value, Placeholder(b.key))
    ensures Put(Put([c] + s, a), b) == [c] + Put(Put(s, a), b)
  {
    ReplaceSkips(c, s, Placeholder(a.key), a.value);
    if Placeholder(b.key) <= [c] + Put(s, a) {
      NoNewFront([c], s, Placeholder(a.key), a.value, Placeholder(b.key));
    }
    ReplaceSkips(c, Put(s, a), Placeholder(b.key), b.value);
  }

  lemma {:induction false} ApartCommute(s: string, a: Binding, b: Binding)
    requires a.key != b.key && BraceFree(a.key) && BraceFree(b.key)
    requires !Overlaps(a.value, Placeholder(b.key)) && !Overlaps(b.value, Placeholder(a.key))
    ensures Put(Put(s, a), b) == Put(Put(s, b), a)
    decreases s
  {
    ApartIsSafe(a.value, b.key);
    ApartIsSafe(b.value, a.key);
    if s == "" {
    } else if Placeholder(a.key) <= s {
      var rest := s[|Placeholder(a.key)|..];
      assert s == Placeholder(a.key) + rest;
      ApartCommute(rest, a, b);
      FrontCommutes(rest, a, b);
    } else if Placeholder(b.key) <= s {
      var rest := s[|Placeholder(b.key)|..];
      assert s == Placeholder(b.key) + rest;
      ApartCommute(rest, a, b);
      FrontCommutes(rest, b, a);
    } else {
      assert s == [s[0]] + s[1..];
      ApartCommute(s[1..], a, b);
      CharStep(s[0], s[1..], a, b);
      CharStep(s[0], s[1..], b, a);
    }
  }

  // ---------------------------------------------------------------- two entries that do not

  lemma NotClosed(u: string, rest: string, key: string)
    requires BraceFree(u) && BraceFree(key) && rest != "" && rest[0] == '{'
    ensures !(Placeholder(key) <= "{" + u + rest)
  {
    var s, pat := "{" + u + rest, Placeholder(key);
    var i := if |key| < |u| then |key| else |u|;
    assert s[i + 1] == if i < |u| then u[i] else '{';
    assert pat[i + 1] == if i < |key| then key[i] else '}';
  }

  /** An opening brace that does not start a placeholder, before another one. */
  lemma OpenThen(u: string, rest: string, key: string, v: string)
    requires BraceFree(u) && BraceFree(key) && rest != "" && rest[0] == '{'
    ensures Replace("{" + u + rest, Placeholder(key), v) == "{" + u + Replace(rest, Placeholder(key), v)
  {
    var pat := Placeholder(key);
    NotClosed(u, rest, key);
    Associative("{", u, rest);
    Associative("{", u, Replace(rest, pat, v));
    ReplaceSkips('{', u + rest, pat, v);
    OpenFreeSafe(u, key);
    ReplaceLiteral(u, rest, key, v);
  }

  /** A text in which the value of `a` completes the placeholder of `b`. */
  function Around(u: string, key: string, y: string): string {
    "{" + u + (Placeholder(key) + y)
  }

  lemma PutAround(u: string, key: string, y: string, b: Binding)
    requires BraceFree(u) && BraceFree(key) && BraceFree(b.key) && OpenFree(y)
    ensures Put(Around(u, key, y), b) == if key == b.key then "{" + u + (b.value + y) else Around(u, key, y)
  {
    OpenThen(u, Placeholder(key) + y, b.key, b.value);
    HoleThen(key, y, b.key, b.value);
  }

  lemma CompletedDiffer(a: Binding, b: Binding, u: string, y: string)
    requires a.key != b.key && BraceFree(a.key) && BraceFree(b.key) && !Idle(b) && BraceFree(u) && OpenFree(y)
    requires Contains("{" + u + (a.value + y), Placeholder(b.key))
    ensures var s := Around(u, a.key, y); ReplaceAll(s, [a, b]) != ReplaceAll(s, [b, a])
  {
    var s := Around(u, a.key, y);
    PutAround(u, a.key, y, a);
    PutAround(u, a.key, y, b);
    TwoReplacements(s, a, b);
    TwoReplacements(s, b, a);
    ReplaceChanges("{" + u + (a.value + y), Placeholder(b.key), b.value);
  }

  lemma ContainedUnsafe(v: string, i: nat, key: string)
    requires At(v, i, Placeholder(key))
    ensures !Safe(v, key)
  {
    var pat := Placeholder(key);
    AtSlice(v, i, pat);
    assert v[i..i + |pat|][0] == v[i] == '{' && v[i..][..|pat|] == pat;
  }

  lemma TailUnsafe(v: string, i: nat, key: string)
    requires i < |v| && TailStarts(v, i, Placeholder(key))
    ensures !Safe(v, key)
  {
    assert v[i..][0] == v[i] == Placeholder(key)[0] == '{';
  }

  /** How a value can overlap a placeholder without completing it by itself. */
  lemma SafeOverlap(v: string, key: string)
    requires Overlaps(v, Placeholder(key)) && Safe(v, key)
    ensures Contains(Placeholder(key), v) || StartsFrom(v, Placeholder(key))
  {
    if !Contains(Placeholder(key), v) && !StartsFrom(v, Placeholder(key)) {
      OverlapUnsafe(v, key);
    }
  }

  lemma OverlapUnsafe(v: string, key: string)
    requires Contains(v, Placeholder(key)) || EndsInto(v, Placeholder(key))
    ensures !Safe(v, key)
  {
    if Contains(v, Placeholder(key)) {
      var i: nat :| i <= |v| && At(v, i, Placeholder(key));
      ContainedUnsafe(v, i, key);
    } else {
      var i: nat :| 0 < i < |v| && TailStarts(v, i, Placeholder(key));
      TailUnsafe(v, i, key);
    }
  }

  lemma KeyPart(key: string, i: nat, j: nat)
    requires BraceFree(key) && 1 <= i <= j <= |key| + 1
    ensures BraceFree(Placeholder(key)[i..j])
  {
    var part := Placeholder(key)[i..j];
    forall k | 0 <= k < |part| ensures part[k] != '{' && part[k] != '}' {
      assert part[k] == key[i + k - 1];
    }
  }

  lemma KeyEnd(key: string, i: nat)
    requires BraceFree(key) && 1 <= i <= |key| + 2
    ensures OpenFree(Placeholder(key)[i..])
  {
    var part := Placeholder(key)[i..];
    forall k | 0 <= k < |part| ensures part[k] != '{' {
      assert part[k] == if i + k <= |key| then key[i + k - 1] else '}';
    }
  }

  lemma WholeUnsafe(v: string, key: string)
    requires v != "" && (At(Placeholder(key), 0, v) || Placeholder(key) <= v)
    ensures !Safe(v, key)
  {
    var pat := Placeholder(key);
    AtSlice(pat, 0, v);
    assert v[0..] == v && v[0] == pat[0] == '{';
  }

  lemma InsideCompletes(v: string, key: string) returns (u: string, y: string)
    requires Contains(Placeholder(key), v) && Safe(v, key) && BraceFree(key)
    ensures BraceFree(u) && OpenFree(y) && "{" + u + (v + y) == Placeholder(key)
  {
    var pat := Placeholder(key);
    if v == "" {
      u, y := "", pat[1..];
      KeyEnd(key, 1);
    } else {
      var i: nat :| i <= |pat| && At(pat, i, v);
      AtSlice(pat, i, v);
      if i == 0 {
        WholeUnsafe(v, key);
      }
      KeyPart(key, 1, i);
      KeyEnd(key, i + |v|);
      u, y := pat[1..i], pat[i + |v|..];
      assert pat == pat[..1] + pat[1..i] + (pat[i..i + |v|] + pat[i + |v|..]);
    }
  }

  lemma StartCompletes(v: string, key: string) returns (u: string)
    requires StartsFrom(v, Placeholder(key)) && Safe(v, key) && BraceFree(key)
    ensures BraceFree(u) && Placeholder(key) <= "{" + u + v
  {
    var pat := Placeholder(key);
    var i: nat :| 0 < i < |v| && i <= |pat| && HeadEnds(v, i, pat);
    if i == |pat| {
      WholeUnsafe(v, key);
    }
    u := pat[1..|pat| - i];
    KeyPart(key, 1, |pat| - i);
    Joint(pat, v, i);
    assert pat[..1] == "{";
  }

  lemma Joint(pat: string, v: string, i: nat)
    requires i <= |v| && i < |pat| && HeadEnds(v, i, pat)
    ensures pat[..1] + pat[1..|pat| - i] + v == pat + v[i..]
  {
    assert v == pat[|pat| - i..] + v[i..];
    assert pat == pat[..1] + pat[1..|pat| - i] + pat[|pat| - i..];
    Associative(pat[..1] + pat[1..|pat| - i], pat[|pat| - i..], v[i..]);
  }

  lemma OverlapCompletes(v: string, key: string) returns (u: string, y: string)
    requires Overlaps(v, Placeholder(key)) && Safe(v, key) && BraceFree(key)
    ensures BraceFree(u) && OpenFree(y) && Contains("{" + u + (v + y), Placeholder(key))
  {
    SafeOverlap(v, key);
    if Contains(Placeholder(key), v) {
      u, y := InsideCompletes(v, key);
    } else {
      y := "";
      u := StartCompletes(v, key);
      assert v + y == v;
    }
    OccursAt("{" + u + (v + y), 0, Placeholder(key));
  }

  lemma OverlapOrderMatters(a: Binding, b: Binding) returns (s: string)
    requires a.key != b.key && BraceFree(a.key) && BraceFree(b.key) && !Idle(b)
    requires Overlaps(a.value, Placeholder(b.key))
    ensures ReplaceAll(s, [a, b]) != ReplaceAll(s, [b, a])
  {
    if Safe(a.value, b.key) {
      var u, y := OverlapCompletes(a.value, b.key);
      CompletedDiffer(a, b, u, y);
      s := Around(u, a.key, y);
    } else {
      var ps := UnsafeOrderMatters(a, b);
      s := TextOf(ps);
    }
  }

  // ---------------------------------------------------------------- the order of entries, on every text

  /** One of two entries replaces a placeholder by itself, or neither value overlaps the other's placeholder. */
  predicate Compatible(a: Binding, b: Binding) {
    Idle(a) || Idle(b) || (!Overlaps(a.value, Placeholder(b.key)) && !Overlaps(b.value, Placeholder(a.key)))
  }

  /** Two entries give the same text in either order, for every text, exactly when they are compatible. */
  lemma PairOrderMattersExactly(a: Binding, b: Binding)
    requires a.key != b.key && BraceFree(a.key) && BraceFree(b.key)
    ensures (forall s :: ReplaceAll(s, [a, b]) == ReplaceAll(s, [b, a])) <==> Compatible(a, b)
  {
    if Compatible(a, b) {
      forall s ensures ReplaceAll(s, [a, b]) == ReplaceAll(s, [b, a]) {
        CompatibleCommute(s, a, b);
      }
    } else if Overlaps(a.value, Placeholder(b.key)) {
      var s := OverlapOrderMatters(a, b);
    } else {
      var s := OverlapOrderMatters(b, a);
    }
  }

  lemma CompatibleCommute(s: string, a: Binding, b: Binding)
    requires a.key != b.key && BraceFree(a.key) && BraceFree(b.key) && Compatible(a, b)
    ensures ReplaceAll(s, [a, b]) == ReplaceAll(s, [b, a])
  {
    if Idle(a) {
      IdleCommutes(s, a, b);
    } else if Idle(b) {
      IdleCommutes(s, b, a);
    } else {
      ApartCommute(s, a, b);
      TwoReplacements(s, a, b);
      TwoReplacements(s, b, a);
    }
  }

  /** A value without braces overlaps a placeholder exactly if it occurs in the key. */
  lemma BraceFreeOverlaps(v: string, key: string)
    requires BraceFree(v) && BraceFree(key)
    ensures Overlaps(v, Placeholder(key)) <==> Contains(key, v)
  {
    var pat := Placeholder(key);
    OpenFreeSafe(v, key);
    if Overlaps(v, pat) {
      SafeOverlap(v, key);
      NoStart(v, key);
      InKey(v, key);
    }
    if Contains(key, v) {
      var i: nat :| i <= |key| && At(key, i, v);
      AtPrefix(key, "}", i, v);
      AtSuffix("{", key + "}", i, v);
      assert pat == "{" + (key + "}") && At(pat, 1 + i, v);
    }
  }

  lemma NoStart(v: string, key: string)
    requires BraceFree(v)
    ensures !StartsFrom(v, Placeholder(key))
  {
    var pat := Placeholder(key);
    forall i | 0 < i < |v| && i <= |pat| ensures !HeadEnds(v, i, pat) {
      assert v[..i][i - 1] == v[i - 1] && pat[|pat| - i..][i - 1] == '}';
    }
  }

  lemma InKey(v: string, key: string)
    requires BraceFree(v) && Contains(Placeholder(key), v)
    ensures Contains(key, v)
  {
    var pat := Placeholder(key);
    if v == "" {
      assert At(key, 0, v);
    } else {
      var i: nat :| i <= |pat| && At(pat, i, v);
      AtChar(pat, i, v, 0);
      AtChar(pat, i, v, |v| - 1);
      assert pat[0] == '{' && pat[|pat| - 1] == '}';
      assert pat == "{" + (key + "}") && 0 < i && i + |v| < |pat|;
      AtSuffix("{", key + "}", i - 1, v);
      AtPrefix(key, "}", i - 1, v);
    }
  }

  /** Two entries whose values have no braces, as those of most argument types: they give the same text in either
      order, for every text, exactly when neither value occurs in the other's key. */
  lemma PlainPairOrderMattersExactly(a: Binding, b: Binding)
    requires a.key != b.key && BraceFree(a.key) && BraceFree(b.key) && BraceFree(a.value) && BraceFree(b.value)
    ensures (forall s :: ReplaceAll(s, [a, b]) == ReplaceAll(s, [b, a]))
            <==> !Contains(b.key, a.value) && !Contains(a.key, b.value)
  {
    PairOrderMattersExactly(a, b);
    BraceFreeOverlaps(a.value, b.key);
    BraceFreeOverlaps(b.value, a.key);
    assert Placeholder(a.key)[0] == '{' && Placeholder(b.key)[0] == '{';
  }

  ghost predicate AllCompatible(bs: seq<Binding>) {
    && (forall b <- bs :: BraceFree(b.key))
    && (forall b, c | b in bs && c in bs && b != c :: b.key != c.key && Compatible(b, c))
  }

  lemma CompatibleMembers(bs: seq<Binding>, cs: seq<Binding>)
    requires AllCompatible(bs) && forall c :: c in cs ==> c in bs
    ensures AllCompatible(cs)
  {}

  lemma SwapFront(s: string, a: Binding, b: Binding, rest: seq<Binding>)
    requires AllCompatible([a, b])
    ensures ReplaceAll(s, [a] + ([b] + rest)) == ReplaceAll(s, [b] + ([a] + rest))
  {
    assert [a] + ([b] + rest) == [a, b] + rest && [b] + ([a] + rest) == [b, a] + rest;
    ReplaceAllConcat(s, [a, b], rest);
    ReplaceAllConcat(s, [b, a], rest);
    if a != b {
      assert a in [a, b] && b in [a, b];
      CompatibleCommute(s, a, b);
    }
  }

  /** An entry can be moved before the ones that it is compatible with. */
  lemma {:induction false} MoveFirst(s: string, pre: seq<Binding>, b: Binding, post: seq<Binding>)
    requires AllCompatible(pre + [b])
    ensures ReplaceAll(s, pre + ([b] + post)) == ReplaceAll(s, [b] + (pre + post))
    decreases pre
  {
    if pre == [] {
      assert pre + ([b] + post) == [b] + post && pre + post == post;
    } else {
      var a, rest := pre[0], pre[1..];
      CompatibleMembers(pre + [b], rest + [b]);
      CompatibleMembers(pre + [b], [a, b]);
      assert pre + ([b] + post) == [a] + (rest + ([b] + post)) && pre + post == [a] + (rest + post);
      ReplaceAllConcat(s, [a], rest + ([b] + post));
      MoveFirst(ReplaceAll(s, [a]), rest, b, post);
      ReplaceAllConcat(s, [a], [b] + (rest + post));
      SwapFront(s, a, b, rest + post);
    }
  }

  /** The entries of a map of compatible entries give one text in every order, whatever the text they fill. */
  lemma {:induction false} MapOrderAnyText(s: string, bs: seq<Binding>, cs: seq<Binding>)
    requires AllCompatible(bs) && multiset(bs) == multiset(cs)
    ensures ReplaceAll(s, bs) == ReplaceAll(s, cs)
    decreases bs
  {
    SameMembers(bs, cs);
    if bs == [] {
      SameLength(bs, cs);
    } else {
      var b, rest := bs[0], bs[1..];
      var pre, post := TakenOut(bs, cs);
      CompatibleMembers(bs, rest);
      CompatibleMembers(bs, pre + [b]);
      MoveFirst(s, pre, b, post);
      ReplaceAllConcat(s, [b], pre + post);
      ReplaceAllConcat(s, [b], rest);
      MapOrderAnyText(ReplaceAll(s, [b]), rest, pre + post);
    }
  }

  lemma SameLength<T>(a: seq<T>, b: seq<T>)
    requires multiset(a) == multiset(b)
    ensures |a| == |b|
  {
    assert |multiset(a)| == |a| && |multiset(b)| == |b|;
  }

  lemma TakenOut<T>(bs: seq<T>, cs: seq<T>) returns (pre: seq<T>, post: seq<T>)
    requires multiset(bs) == multiset(cs) && bs != []
    ensures cs == pre + ([bs[0]] + post) && bs == [bs[0]] + bs[1..]
    ensures multiset(bs[1..]) == multiset(pre + post)
    ensures forall c :: c in pre + [bs[0]] ==> c in bs
  {
    SameMembers(bs, cs);
    assert bs[0] in cs;
    var i :| 0 <= i < |cs| && cs[i] == bs[0];
    pre, post := cs[..i], cs[i + 1..];
    assert bs == [bs[0]] + bs[1..];
    assert cs == pre + ([cs[i]] + post);
    assert multiset(cs) == multiset{bs[0]} + multiset(pre + post);
    Cancel(multiset{bs[0]}, multiset(bs[1..]), multiset(pre + post));
  }

  lemma Cancel<T>(x: multiset<T>, a: multiset<T>, b: multiset<T>)
    requires x + a == x + b
    ensures a == b
  {
    forall e ensures a[e] == b[e] {
      assert (x + a)[e] == x[e] + a[e] && (x + b)[e] == x[e] + b[e];
    }
  }

  /** All orders of a map's entries give one text, for every text. */
  ghost predicate AnyOrderAnyText(bs: seq<Binding>) {
    forall s, cs | multiset(cs) == multiset(bs) :: ReplaceAll(s, cs) == ReplaceAll(s, bs)
  }

  predicate Plain(b: Binding) {
    BraceFree(b.key) && BraceFree(b.value)
  }

  /** For a map whose values have no braces, the iteration order never matters, whatever the text, exactly when no
      value occurs in the key of another entry. */
  lemma PlainMapOrderMattersExactly(bs: seq<Binding>)
    requires DistinctKeys(bs) && forall b <- bs :: Plain(b)
    ensures AnyOrderAnyText(bs) <==> forall a, b | a in bs && b in bs && a != b :: !Contains(b.key, a.value)
  {
    if a, b :| a in bs && b in bs && a != b && Contains(b.key, a.value) {
      OccursInKey(bs, a, b);
    } else {
      PlainCompatible(bs);
      forall s, cs | multiset(cs) == multiset(bs) ensures ReplaceAll(s, cs) == ReplaceAll(s, bs) {
        MapOrderAnyText(s, bs, cs);
      }
    }
  }

  lemma PlainCompatible(bs: seq<Binding>)
    requires DistinctKeys(bs) && forall b <- bs :: Plain(b)
    requires forall a, b | a in bs && b in bs && a != b :: !Contains(b.key, a.value)
    ensures AllCompatible(bs)
  {
    forall a, b | a in bs && b in bs && a != b ensures a.key != b.key && Compatible(a, b) {
      if a.key == b.key {
        DistinctByKey(bs, a, b);
      }
      BraceFreeOverlaps(a.value, b.key);
      BraceFreeOverlaps(b.value, a.key);
    }
  }

  lemma OccursInKey(bs: seq<Binding>, a: Binding, b: Binding)
    requires DistinctKeys(bs) && a in bs && b in bs && a != b && Contains(b.key, a.value)
    requires forall c <- bs :: Plain(c)
    ensures !AnyOrderAnyText(bs)
  {
    var rest := TakeTwo(bs, a, b);
    DistinctReordered(bs, [a, b] + rest);
    SameMembers(bs, [a, b] + rest);
    OtherKeys(a, b, rest);
    var u, y := ValueInKey(a.value, b.key);
    CompletedThenRest(a, b, u, y, rest);
    OrdersDiffer(bs, a, b, rest, Around(u, a.key, y));
  }

  lemma OrdersDiffer(bs: seq<Binding>, a: Binding, b: Binding, rest: seq<Binding>, s: string)
    requires multiset([a, b] + rest) == multiset(bs) && ReplaceAll(s, [a, b] + rest) != ReplaceAll(s, [b, a] + rest)
    ensures !AnyOrderAnyText(bs)
  {
    assert multiset([b, a] + rest) == multiset([a, b] + rest);
  }

  lemma OtherKeys(a: Binding, b: Binding, rest: seq<Binding>)
    requires DistinctKeys([a, b] + rest) && forall c <- [a, b] + rest :: Plain(c)
    ensures a.key != b.key && forall c <- rest :: BraceFree(c.key) && c.key != b.key
  {
    var all := [a, b] + rest;
    assert all[0] == a && all[1] == b;
    forall c <- rest ensures BraceFree(c.key) && c.key != b.key {
      var i :| 0 <= i < |rest| && rest[i] == c;
      assert all[i + 2] == c && Plain(all[i + 2]);
    }
  }

  lemma ValueInKey(v: string, key: string) returns (u: string, y: string)
    requires BraceFree(v) && BraceFree(key) && Contains(key, v)
    ensures BraceFree(u) && OpenFree(y) && "{" + u + (v + y) == Placeholder(key)
  {
    BraceFreeOverlaps(v, key);
    OpenFreeSafe(v, key);
    NoStart(v, key);
    SafeOverlap(v, key);
    u, y := InsideCompletes(v, key);
  }

  lemma CompletedThenRest(a: Binding, b: Binding, u: string, y: string, rest: seq<Binding>)
    requires a.key != b.key && Plain(a) && Plain(b) && BraceFree(u) && OpenFree(y)
    requires "{" + u + (a.value + y) == Placeholder(b.key)
    requires forall c <- rest :: BraceFree(c.key) && c.key != b.key
    ensures var s := Around(u, a.key, y);
      ReplaceAll(s, [a, b] + rest) == b.value && ReplaceAll(s, [b, a] + rest) == Placeholder(b.key)
    ensures b.value != Placeholder(b.key)
  {
    var s := Around(u, a.key, y);
    PutAround(u, a.key, y, a);
    PutAround(u, a.key, y, b);
    ReplaceWhole(b.key, b.value);
    TwoReplacements(s, a, b);
    TwoReplacements(s, b, a);
    ReplaceAllConcat(s, [a, b], rest);
    ReplaceAllConcat(s, [b, a], rest);
    OpenFreeStays(b.value, rest);
    OtherStays(b.key, rest);
    assert Placeholder(b.key)[0] == '{';
  }

  lemma {:induction false} OpenFreeStays(t: string, bs: seq<Binding>)
    requires OpenFree(t)
    ensures ReplaceAll(t, bs) == t
    decreases bs
  {
    if bs != [] {
      OpenFreeSafe(t, bs[0].key);
      ReplaceLiteral(t, "", bs[0].key, bs[0].value);
      assert t + "" == t;
      OpenFreeStays(t, bs[1..]);
    }
  }

  lemma {:induction false} OtherStays(n: string, bs: seq<Binding>)
    requires BraceFree(n) && forall c <- bs :: BraceFree(c.key) && c.key != n
    ensures ReplaceAll(Placeholder(n), bs) == Placeholder(n)
    decreases bs
  {
    if bs != [] {
      assert bs[0] in bs;
      ReplaceHole(n, "", bs[0].key, bs[0].value);
      assert Placeholder(n) + "" == Placeholder(n);
      OtherStays(n, bs[1..]);
    }
  }

  lemma TakeOne<T>(bs: seq<T>, a: T) returns (rest: seq<T>)
    requires a in bs
    ensures multiset(bs) == multiset{a} + multiset(rest)
  {
    var i :| 0 <= i < |bs| && bs[i] == a;
    rest := bs[..i] + bs[i + 1..];
    assert bs == bs[..i] + [a] + bs[i + 1..];
  }

  lemma TakeTwo<T>(bs: seq<T>, a: T, b: T) returns (rest: seq<T>)
    requires a in bs && b in bs && a != b
    ensures multiset([a, b] + rest) == multiset(bs)
  {
    var others := TakeOne(bs, a);
    assert b in multiset(bs);
    assert b in others;
    rest := TakeOne(others, b);
  }

  /** A template that puts a placeholder around another one: values without braces are enough to make the order of
      two entries matter, although they commute on every template in which each opening brace starts a hole. */
  lemma NestedOrderMatters(k: string, l: string, w: string)
    requires k != l && BraceFree(k) && BraceFree(l)
    ensures ReplaceAll("{" + Placeholder(k) + "}", [Binding(k, l), Binding(l, w)]) == w
    ensures ReplaceAll("{" + Placeholder(k) + "}", [Binding(l, w), Binding(k, l)]) == Placeholder(l)
    ensures OpenFree(w) ==> SimpleCommute(Binding(k, l), Binding(l, w))
  {
    var a, b := Binding(k, l), Binding(l, w);
    var s := "{" + Placeholder(k) + "}";
    PutNested(k, a);
    PutNested(k, b);
    ReplaceWhole(l, w);
    TwoReplacements(s, a, b);
    TwoReplacements(s, b, a);
    if OpenFree(w) {
      OpenFreeSafe(l, l);
      OpenFreeSafe(w, k);
      SimplePairOrderMattersExactly(a, b);
    }
  }

  lemma PutNested(k: string, b: Binding)
    requires BraceFree(k) && BraceFree(b.key)
    ensures var s := "{" + Placeholder(k) + "}"; Put(s, b) == if k == b.key then Placeholder(b.value) else s
  {
    PutAround("", k, "}", b);
    Nested(Placeholder(k));
    Nested(b.value);
  }

  lemma Nested(s: string)
    ensures "{" + "" + (s + "}") == "{" + s + "}"
  {}

  // ---------------------------------------------------------------- reading a text as literals and holes

  /** The key of the placeholder that starts `s`. */
  function KeyAt(s: string, bs: seq<Binding>): (r: Option<string>)
    ensures r.Some? ==> Placeholder(r.value) <= s && exists b <- bs :: b.key == r.value
    ensures r.None? ==> forall b <- bs :: !(Placeholder(b.key) <= s)
  {
    if bs == [] then None
    else if Placeholder(bs[0].key) <= s then Some(bs[0].key)
    else KeyAt(s, bs[1..])
  }

  /** Every placeholder of `bs` as a hole, from left to right, and every other character as a literal. */
  function Parse(s: string, bs: seq<Binding>): seq<Piece> {
    if s == "" then []
    else
      var k := KeyAt(s, bs);
      if k.Some? then [Hole(k.value)] + Parse(s[|Placeholder(k.value)|..], bs)
      else [Lit([s[0]])] + Parse(s[1..], bs)
  }

  lemma {:induction false} ParseText(s: string, bs: seq<Binding>)
    ensures TextOf(Parse(s, bs)) == s
  {
    if s != "" {
      var k := KeyAt(s, bs);
      if k.Some? {
        var rest := s[|Placeholder(k.value)|..];
        ParseText(rest, bs);
        FrontText(Hole(k.value), Parse(rest, bs));
      } else {
        ParseText(s[1..], bs);
        FrontText(Lit([s[0]]), Parse(s[1..], bs));
      }
    }
  }

  lemma FrontText(p: Piece, ps: seq<Piece>)
    ensures TextOf([p] + ps) == PieceText(p) + TextOf(ps)
  {
    assert ([p] + ps)[1..] == ps;
  }

  /** No occurrence of `q` starts in `t`, which `rest` follows. */
  predicate Free(t: string, rest: string, q: string) {
    forall i | 0 <= i < |t| :: FreeAt(t, rest, q, i)
  }

  predicate FreeAt(t: string, rest: string, q: string, i: nat)
    requires i <= |t|
  {
    !(q <= t[i..] + rest)
  }

  /** No placeholder of `key` starts in a literal. */
  predicate Legible(ps: seq<Piece>, key: string) {
    ps == [] || (LegiblePiece(ps[0], TextOf(ps[1..]), key) && Legible(ps[1..], key))
  }

  predicate LegiblePiece(p: Piece, rest: string, key: string) {
    match p
    case Lit(t) => Free(t, rest, Placeholder(key))
    case Hole(n) => BraceFree(n)
  }

  predicate LegibleAll(ps: seq<Piece>, bs: seq<Binding>) {
    forall b <- bs :: Legible(ps, b.key)
  }

  lemma {:induction false} ParseLegible(s: string, bs: seq<Binding>, b: Binding)
    requires (forall c <- bs :: BraceFree(c.key)) && b in bs
    ensures Legible(Parse(s, bs), b.key)
  {
    if s != "" {
      var k := KeyAt(s, bs);
      if k.Some? {
        ParseLegible(s[|Placeholder(k.value)|..], bs, b);
      } else {
        ParseLegible(s[1..], bs, b);
        ParseText(s[1..], bs);
        assert [s[0]][0..] + s[1..] == s;
        assert Free([s[0]], s[1..], Placeholder(b.key));
      }
      LegibleFront(Parse(s, bs), b.key);
    }
  }

  lemma LegibleFront(ps: seq<Piece>, key: string)
    requires ps != []
    ensures Legible(ps, key) <==> LegiblePiece(ps[0], TextOf(ps[1..]), key) && Legible(ps[1..], key)
  {}

  /** A literal in which no occurrence starts is copied. */
  lemma {:induction false} ReplaceFree(t: string, rest: string, q: string, v: string)
    requires q != "" && Free(t, rest, q)
    ensures Replace(t + rest, q, v) == t + Replace(rest, q, v)
  {
    if t == "" {
      assert t + rest == rest;
    } else {
      FreeTail(t, rest, q);
      ReplaceFree(t[1..], rest, q, v);
      Headed(t, rest);
      Headed(t, Replace(rest, q, v));
      assert FreeAt(t, rest, q, 0);
      ReplaceSkips(t[0], t[1..] + rest, q, v);
    }
  }

  lemma Headed(t: string, rest: string)
    requires t != ""
    ensures t + rest == [t[0]] + (t[1..] + rest) && t[0..] == t
  {}

  lemma FreeTail(t: string, rest: string, q: string)
    requires Free(t, rest, q) && t != ""
    ensures Free(t[1..], rest, q)
  {
    forall i | 0 <= i < |t| - 1 ensures FreeAt(t[1..], rest, q, i) {
      assert FreeAt(t, rest, q, i + 1) && t[1..][i..] == t[i + 1..];
    }
  }

  /** Replacing a placeholder that starts in no literal fills its holes and touches nothing else. */
  lemma {:induction false} LegibleFills(ps: seq<Piece>, b: Binding)
    requires Legible(ps, b.key) && BraceFree(b.key)
    ensures Put(TextOf(ps), b) == TextOf(Fill(ps, b.key, b.value))
  {
    if ps != [] {
      LegibleFront(ps, b.key);
      LegibleFills(ps[1..], b);
      match ps[0] {
        case Lit(t) => ReplaceFree(t, TextOf(ps[1..]), Placeholder(b.key), b.value);
        case Hole(n) => ReplaceHole(n, TextOf(ps[1..]), b.key, b.value);
      }
      assert TextOf(ps) == PieceText(ps[0]) + TextOf(ps[1..]);
      FillText(ps, b.key, b.value);
    }
  }

  lemma SafeFree(t: string, rest: string, key: string)
    requires Safe(t, key)
    ensures Free(t, rest, Placeholder(key))
  {
    var q := Placeholder(key);
    forall i | 0 <= i < |t| ensures FreeAt(t, rest, q, i) {
      if q <= t[i..] + rest {
        assert (t[i..] + rest)[0] == t[i] && q[0] == '{';
        Comparable(q, t[i..], t[i..] + rest);
      }
    }
  }

  /** A replacement with a value that overlaps `q` nowhere makes no occurrence of `q` start in the text before. */
  lemma FreeKept(t: string, rest: string, b: Binding, q: string)
    requires Free(t, rest, q) && !Overlaps(b.value, q)
    ensures Free(t, Put(rest, b), q)
  {
    forall i | 0 <= i < |t| ensures FreeAt(t, Put(rest, b), q, i) {
      assert FreeAt(t, rest, q, i);
      if q <= t[i..] + Put(rest, b) {
        NoNewFront(t[i..], rest, Placeholder(b.key), b.value, q);
      }
    }
  }

  lemma {:induction false} LegibleKept(ps: seq<Piece>, b: Binding, key: string)
    requires Legible(ps, b.key) && Legible(ps, key) && BraceFree(b.key) && !Overlaps(b.value, Placeholder(key))
    ensures Legible(Fill(ps, b.key, b.value), key)
  {
    if ps != [] {
      var filled := Fill(ps, b.key, b.value);
      LegibleFront(ps, b.key);
      LegibleFront(ps, key);
      LegibleKept(ps[1..], b, key);
      LegibleFills(ps[1..], b);
      assert filled[1..] == Fill(ps[1..], b.key, b.value);
      LegiblePieceKept(ps[0], TextOf(ps[1..]), b, key);
      LegibleFront(filled, key);
    }
  }

  lemma LegiblePieceKept(p: Piece, rest: string, b: Binding, key: string)
    requires LegiblePiece(p, rest, key) && !Overlaps(b.value, Placeholder(key))
    ensures LegiblePiece(if p == Hole(b.key) then Lit(b.value) else p, Put(rest, b), key)
  {
    if p == Hole(b.key) {
      ApartIsSafe(b.value, key);
      SafeFree(b.value, Put(rest, b), key);
    } else if p.Lit? {
      FreeKept(p.text, rest, b, Placeholder(key));
    }
  }

  /** No value that is put in overlaps the placeholder of a key that is still to be replaced. */
  ghost predicate ApartInOrder(bs: seq<Binding>) {
    && (forall i | 0 <= i < |bs| :: BraceFree(bs[i].key))
    && (forall i, j | 0 <= i < j < |bs| :: !Overlaps(bs[i].value, Placeholder(bs[j].key)))
  }

  lemma ApartInOrderTail(bs: seq<Binding>)
    requires ApartInOrder(bs) && bs != []
    ensures ApartInOrder(bs[1..])
  {
    forall i, j | 0 <= i < j < |bs| - 1 ensures !Overlaps(bs[1..][i].value, Placeholder(bs[1..][j].key)) {
      assert !Overlaps(bs[i + 1].value, Placeholder(bs[j + 1].key));
    }
  }

  lemma LegibleFilled(ps: seq<Piece>, bs: seq<Binding>)
    requires LegibleAll(ps, bs) && ApartInOrder(bs) && bs != []
    ensures LegibleAll(Fill(ps, bs[0].key, bs[0].value), bs[1..])
  {
    forall c <- bs[1..] ensures Legible(Fill(ps, bs[0].key, bs[0].value), c.key) {
      var j :| 0 <= j < |bs| - 1 && bs[1..][j] == c;
      assert bs[j + 1] == c && !Overlaps(bs[0].value, Placeholder(bs[j + 1].key));
      assert bs[0] in bs && c in bs;
      LegibleKept(ps, bs[0], c.key);
    }
  }

  /** Replacing one key after the other is filling all holes at once, if no placeholder starts in a literal. */
  lemma {:induction false} LegibleSimultaneous(ps: seq<Piece>, bs: seq<Binding>)
    requires LegibleAll(ps, bs) && ApartInOrder(bs)
    ensures ReplaceAll(TextOf(ps), bs) == TextOf(Substitute(ps, bs))
    decreases |bs|
  {
    if bs == [] {
      assert Substitute(ps, bs) == ps;
    } else {
      assert bs[0] in bs;
      LegibleFills(ps, bs[0]);
      LegibleFilled(ps, bs);
      ApartInOrderTail(bs);
      LegibleSimultaneous(Fill(ps, bs[0].key, bs[0].value), bs[1..]);
      SubstituteSteps(ps, bs);
    }
  }

  /** For every text: replacing one key after the other puts all values in at once, where the text has the
      placeholders, if no value overlaps the placeholder of a later key. */
  lemma SequentialOnAnyText(s: string, bs: seq<Binding>)
    requires ApartInOrder(bs)
    ensures ReplaceAll(s, bs) == TextOf(Substitute(Parse(s, bs), bs))
  {
    ParseText(s, bs);
    forall b <- bs ensures BraceFree(b.key) {
      var i :| 0 <= i < |bs| && bs[i] == b;
    }
    forall b <- bs ensures Legible(Parse(s, bs), b.key) {
      ParseLegible(s, bs, b);
    }
    LegibleSimultaneous(Parse(s, bs), bs);
  }

  /** The text has a hole of a key exactly if it holds its placeholder. */
  lemma {:induction false} ParseHoles(s: string, bs: seq<Binding>, b: Binding)
    requires (forall c <- bs :: BraceFree(c.key)) && b in bs
    ensures Hole(b.key) in Parse(s, bs) <==> Contains(s, Placeholder(b.key))
  {
    var q := Placeholder(b.key);
    if s != "" {
      var k := KeyAt(s, bs);
      if k.Some? {
        var rest := s[|Placeholder(k.value)|..];
        assert s == Placeholder(k.value) + rest;
        ParseHoles(rest, bs, b);
        PlaceholderHolds(k.value, rest, b.key);
      } else {
        ParseHoles(s[1..], bs, b);
        assert s == [s[0]] + s[1..] && [s[0]][0..] + s[1..] == s;
        assert Free([s[0]], s[1..], q);
        ContainsBehind([s[0]], s[1..], q);
      }
    }
  }

  lemma NotFreeAt(t: string, rest: string, q: string, i: nat)
    requires i < |t| && At(t + rest, i, q)
    ensures !FreeAt(t, rest, q, i)
  {
    AtSlice(t + rest, i, q);
    assert (t + rest)[i..i + |q|] == (t[i..] + rest)[..|q|];
  }

  lemma ContainsBehind(t: string, rest: string, q: string)
    requires Free(t, rest, q)
    ensures Contains(t + rest, q) <==> Contains(rest, q)
  {
    forall i | 0 <= i <= |t + rest| && At(t + rest, i, q) ensures Contains(rest, q) {
      if i < |t| {
        NotFreeAt(t, rest, q, i);
      } else {
        AtSuffix(t, rest, i - |t|, q);
      }
    }
    forall i | 0 <= i <= |rest| && At(rest, i, q) ensures Contains(t + rest, q) {
      AtSuffix(t, rest, i, q);
    }
  }

  lemma PlaceholderHolds(n: string, rest: string, key: string)
    requires BraceFree(n) && BraceFree(key)
    ensures Contains(Placeholder(n) + rest, Placeholder(key)) <==> n == key || Contains(rest, Placeholder(key))
  {
    var t, q := Placeholder(n), Placeholder(key);
    SamePlaceholder(n, rest, key);
    if n == key {
      assert (t + rest)[0..] == t + rest;
      OccursAt(t + rest, 0, q);
    } else {
      forall i | 0 <= i < |t| ensures FreeAt(t, rest, q, i) {
        assert i > 0 ==> (t[i..] + rest)[0] == t[i] != '{';
        assert t[0..] == t;
      }
      ContainsBehind(t, rest, q);
    }
  }
}
