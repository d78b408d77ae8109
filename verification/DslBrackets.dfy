/** The scanners of the parser reach exactly as far as the spans of the grammar do. */
module DslBrackets {
  import opened Text
  import opened DslLexer
  import opened DslTree
  import opened DslParser
  import opened DslSpans
  import opened DslGrammar

  // ---------------------------------------------------------------- brackets

  function Later(n: Option<nat>, k: nat): Option<nat> {
    if n.None? then None else Some(k + n.value)
  }

  /** A scan passes over a balanced list. */
  lemma {:induction false} BalancedPasses(b: Span, flat: bool, stack: seq<char>, comma: bool, z: Span)
    requires Balanced(b, flat) && (stack == [] && comma ==> flat)
    ensures Inside(b + z, stack, comma) == Later(Inside(z, stack, comma), |b|)
    decreases |b|, 1
  {
    if b == [] {
      assert b + z == z;
    } else if IsLeaf(b[0], flat) && Balanced(b[1..], flat) {
      BalancedPasses(b[1..], flat, stack, comma, z);
      LeafShape(b, z);
      LeafPasses(b + z, stack, comma, b[1..] + z, z, |b| - 1);
    } else {
      var k :| 1 <= k < |b| && ClosesAt(b, k) && Balanced(b[1..k], false) && Balanced(b[k + 1..], flat);
      PairInside(b, k, flat, stack, comma, z);
    }
  }

  lemma {:induction false} PairInside(b: Span, k: nat, flat: bool, stack: seq<char>, comma: bool, z: Span)
    requires 1 <= k < |b| && ClosesAt(b, k) && Balanced(b[1..k], false) && Balanced(b[k + 1..], flat)
    requires stack == [] && comma ==> flat
    ensures Inside(b + z, stack, comma) == Later(Inside(z, stack, comma), |b|)
    decreases |b|, 0
  {
    var w := b[k + 1..] + z;
    var v := [b[k]] + w;
    BalancedPasses(b[k + 1..], flat, stack, comma, z);
    BalancedPasses(b[1..k], false, [b[k].c] + stack, comma, v);
    PairShape(b, k, z);
    PairPasses(b + z, b[1..k] + v, v, w, z, b[k].c, stack, comma, k - 1, |b| - k - 1);
  }

  lemma LeafShape(b: Span, z: Span)
    requires b != []
    ensures b + z != [] && (b + z)[0] == b[0] && (b + z)[1..] == b[1..] + z
  {}

  lemma PairShape(b: Span, k: nat, z: Span)
    requires 1 <= k < |b|
    ensures var w := b[k + 1..] + z; var v := [b[k]] + w; var t := b + z;
      t != [] && t[0] == b[0] && t[1..] == b[1..k] + v && v[0] == b[k] && v[1..] == w
  {}

  lemma LeafPasses(t: Span, stack: seq<char>, comma: bool, u: Span, z: Span, n: nat)
    requires t != [] && IsLeaf(t[0], comma && stack == []) && t[1..] == u
    requires Inside(u, stack, comma) == Later(Inside(z, stack, comma), n)
    ensures Inside(t, stack, comma) == Later(Inside(z, stack, comma), n + 1)
  {}

  /** An opening bracket, something that is passed, the closing one, and something else that is. */
  lemma PairPasses(t: Span, u: Span, v: Span, w: Span, z: Span, c: char, stack: seq<char>, comma: bool, m: nat, n: nat)
    requires t != [] && t[0].Punct? && IsOpener(t[0].c) && CloserOf(t[0].c) == c && t[1..] == u
    requires v != [] && v[0] == Punct(c) && v[1..] == w
    requires Inside(u, [c] + stack, comma) == Later(Inside(v, [c] + stack, comma), m)
    requires Inside(w, stack, comma) == Later(Inside(z, stack, comma), n)
    ensures Inside(t, stack, comma) == Later(Inside(z, stack, comma), m + n + 2)
  {
    OpenerStep(t, c, stack, comma);
    CloserStep(v, c, stack, comma);
    Chain(Inside(t, stack, comma), Inside(u, [c] + stack, comma), Inside(v, [c] + stack, comma),
          Inside(w, stack, comma), Inside(z, stack, comma), m, n);
  }

  lemma Chain(t: Option<nat>, u: Option<nat>, v: Option<nat>, w: Option<nat>, z: Option<nat>, m: nat, n: nat)
    requires t == Later(u, 1) && u == Later(v, m) && v == Later(w, 1) && w == Later(z, n)
    ensures t == Later(z, m + n + 2)
  {}

  lemma OpenerStep(t: Span, c: char, stack: seq<char>, comma: bool)
    requires t != [] && t[0].Punct? && IsOpener(t[0].c) && CloserOf(t[0].c) == c
    ensures Inside(t, stack, comma) == Later(Inside(t[1..], [c] + stack, comma), 1)
  {}

  lemma CloserStep(v: Span, c: char, stack: seq<char>, comma: bool)
    requires v != [] && v[0] == Punct(c) && IsCloser(c)
    ensures Inside(v, [c] + stack, comma) == Later(Inside(v[1..], stack, comma), 1)
  {
    assert ([c] + stack)[1..] == stack;
  }

  /** A list that closes the brackets of `stack` one after the other, balanced in between and behind. */
  ghost predicate Unwinds(s: Span, stack: seq<char>, flat: bool)
    decreases |stack|
  {
    if stack == [] then Balanced(s, flat)
    else exists k | 0 <= k < |s| :: UnwindsAt(s, stack, k) && Unwinds(s[k + 1..], stack[1..], flat)
  }

  ghost predicate UnwindsAt(s: Span, stack: seq<char>, k: nat)
    requires stack != [] && k < |s|
  {
    Balanced(s[..k], false) && s[k] == Punct(stack[0])
  }

  lemma UnwindsLeaf(s: Span, stack: seq<char>, flat: bool)
    requires s != [] && IsLeaf(s[0], stack == [] && flat) && Unwinds(s[1..], stack, flat)
    ensures Unwinds(s, stack, flat)
  {
    if stack != [] {
      var k :| 0 <= k < |s[1..]| && UnwindsAt(s[1..], stack, k) && Unwinds(s[1..][k + 1..], stack[1..], flat);
      assert s[..k + 1][1..] == s[1..][..k] && s[1..][k + 1..] == s[k + 2..];
      assert UnwindsAt(s, stack, k + 1);
    }
  }

  lemma UnwindsCloser(s: Span, stack: seq<char>, flat: bool)
    requires s != [] && stack != [] && s[0] == Punct(stack[0]) && Unwinds(s[1..], stack[1..], flat)
    ensures Unwinds(s, stack, flat)
  {
    assert s[..0] == [] && UnwindsAt(s, stack, 0);
    assert s[0 + 1..] == s[1..];
  }

  lemma UnwindsOpener(s: Span, stack: seq<char>, flat: bool)
    requires s != [] && s[0].Punct? && IsOpener(s[0].c) && Unwinds(s[1..], [CloserOf(s[0].c)] + stack, flat)
    ensures Unwinds(s, stack, flat)
  {
    var c, r := CloserOf(s[0].c), s[1..];
    var j :| 0 <= j < |r| && UnwindsAt(r, [c] + stack, j) && Unwinds(r[j + 1..], ([c] + stack)[1..], flat);
    assert ([c] + stack)[1..] == stack && r[j + 1..] == s[j + 2..] && r[..j] == s[1..j + 1];
    UnwindsPair(s, j + 1, stack, flat);
  }

  lemma UnwindsPair(s: Span, j: nat, stack: seq<char>, flat: bool)
    requires 1 <= j < |s| && ClosesAt(s, j) && Balanced(s[1..j], false) && Unwinds(s[j + 1..], stack, flat)
    ensures Unwinds(s, stack, flat)
  {
    if stack != [] {
      UnwindsGroup(s, j, stack, flat);
    }
  }

  lemma UnwindsGroup(s: Span, j: nat, stack: seq<char>, flat: bool)
    requires stack != [] && 1 <= j < |s| && ClosesAt(s, j) && Balanced(s[1..j], false)
    requires Unwinds(s[j + 1..], stack, flat)
    ensures Unwinds(s, stack, flat)
  {
    var u := s[j + 1..];
    var k :| 0 <= k < |u| && UnwindsAt(u, stack, k) && Unwinds(u[k + 1..], stack[1..], flat);
    var n := j + 1 + k;
    assert u[..k] == s[j + 1..n] && u[k + 1..] == s[n + 1..];
    GroupThen(s, j, n);
    assert UnwindsAt(s, stack, n);
  }

  lemma GroupThen(s: Span, j: nat, n: nat)
    requires 1 <= j < n <= |s| && ClosesAt(s, j) && Balanced(s[1..j], false) && Balanced(s[j + 1..n], false)
    ensures Balanced(s[..n], false)
  {
    var t := s[..n];
    assert t[1..j] == s[1..j] && t[j + 1..] == s[j + 1..n] && ClosesAt(t, j);
  }

  /** A scan stops behind a balanced list. */
  lemma {:induction false} InsideUnwinds(s: Span, stack: seq<char>, comma: bool)
    requires Inside(s, stack, comma).Some?
    ensures var n := Inside(s, stack, comma).value; n < |s| && Stops(s[n], [], comma) && Unwinds(s[..n], stack, comma)
    decreases |s|
  {
    var n := Inside(s, stack, comma).value;
    InsideEnds(s, stack, comma);
    if n == 0 {
      assert s[..0] == [];
    } else {
      InsideUnwinds(s[1..], StackAfter(s[0], stack), comma);
      assert s[..n][1..] == s[1..][..n - 1];
      if s[0].Punct? && IsOpener(s[0].c) {
        UnwindsOpener(s[..n], stack, comma);
      } else if s[0].Punct? && IsCloser(s[0].c) {
        UnwindsCloser(s[..n], stack, comma);
      } else {
        UnwindsLeaf(s[..n], stack, comma);
      }
    }
  }

  lemma InsideIsBalanced(s: Span, comma: bool)
    requires Inside(s, [], comma).Some?
    ensures var n := Inside(s, [], comma).value; n < |s| && Stops(s[n], [], comma) && Balanced(s[..n], comma)
  {
    InsideUnwinds(s, [], comma);
  }

  /** A balanced list, then a lexeme that stops the scan. */
  lemma BalancedThen(b: Span, z: Lexeme, u: Span, comma: bool)
    requires Balanced(b, comma) && Stops(z, [], comma)
    ensures Inside(b + ([z] + u), [], comma) == Some(|b|)
  {
    BalancedPasses(b, comma, [], comma, [z] + u);
  }

  /** The scan for a closing bracket finds exactly the pairs of the grammar. */
  lemma BracketedExactly(s: Span)
    ensures Bracketed(s) <==> BracketedLen(s) == Some(|s|)
  {
    if Bracketed(s) {
      var m, z := s[1..|s| - 1], s[|s| - 1];
      BalancedThen(m, z, [], false);
      assert s[1..] == m + ([z] + []);
    }
    if BracketedLen(s) == Some(|s|) {
      InsideIsBalanced(s[1..], false);
      assert s[1..][..|s| - 2] == s[1..|s| - 1];
    }
  }

  lemma BracketedBefore(b: Span, u: Span)
    requires Bracketed(b)
    ensures BracketedLen(b + u) == Some(|b|) && (b + u)[..|b|] == b && (b + u)[|b|..] == u
  {
    BracketedExactly(b);
    BracketedLocal(b, u);
    assert b[..|b|] == b;
  }

  lemma BracketedFound(s: Span)
    requires BracketedLen(s).Some?
    ensures var n := BracketedLen(s).value; 2 <= n <= |s| && Bracketed(s[..n])
  {
    BracketedLocal(s, []);
    var n := BracketedLen(s).value;
    assert s[..n] + [] == s[..n];
    BracketedExactly(s[..n]);
  }

  lemma ElemExactly(e: Span)
    ensures ElemSpan(e) <==> IsElem(e)
  {
    var z := Punct(']');
    assert e + ([z] + []) == e + [z];
    if ElemSpan(e) {
      BalancedThen(e, z, [], true);
      LastLeaf(e, true);
    }
    if IsElem(e) {
      InsideIsBalanced(e + [z], true);
      assert (e + [z])[..|e|] == e;
    }
  }

  /** Nothing unterminated is inside a balanced list. */
  lemma {:induction false} LastLeaf(b: Span, flat: bool)
    requires Balanced(b, flat)
    ensures forall i | 0 <= i < |b| :: !b[i].Unterminated?
    decreases |b|
  {
    if b != [] {
      if IsLeaf(b[0], flat) && Balanced(b[1..], flat) {
        LastLeaf(b[1..], flat);
        forall i | 0 < i < |b| ensures !b[i].Unterminated? { assert b[i] == b[1..][i - 1]; }
      } else {
        var k :| 1 <= k < |b| && ClosesAt(b, k) && Balanced(b[1..k], false) && Balanced(b[k + 1..], flat);
        LastLeaf(b[1..k], false);
        LastLeaf(b[k + 1..], flat);
        forall i | 0 <= i < |b| ensures !b[i].Unterminated? {
          if 0 < i < k { assert b[i] == b[1..k][i - 1]; }
          if k < i { assert b[i] == b[k + 1..][i - k - 1]; }
        }
      }
    }
  }

  lemma ValueExactly(v: Span, record: bool)
    ensures ValueSpan(v, record) <==> v != [] && ValueLen(v, record) == Some(|v|)
  {
    BracketedExactly(v);
  }

  lemma ValueBefore(v: Span, record: bool, u: Span)
    requires ValueSpan(v, record)
    ensures ValueLen(v + u, record) == Some(|v|) && (v + u)[..|v|] == v && (v + u)[|v|..] == u
    ensures v != [] && !v[0].Space?
  {
    ValueExactly(v, record);
    ValueLocal(v, record, u);
    assert v[..|v|] == v;
  }

  lemma ValueFound(s: Span, record: bool)
    requires ValueLen(s, record).Some?
    ensures var n := ValueLen(s, record).value; 0 < n <= |s| && ValueSpan(s[..n], record)
  {
    ValueLocal(s, record, []);
    var n := ValueLen(s, record).value;
    assert s[..n] + [] == s[..n];
    ValueExactly(s[..n], record);
  }

  // ---------------------------------------------------------------- white space

  lemma {:induction false} NextAtBlank(s: Span, k: nat)
    requires k <= |s|
    ensures forall i | k <= i < NextAt(s, k) :: s[i].Space?
    ensures NextAt(s, k) < |s| ==> !s[NextAt(s, k)].Space?
    decreases |s| - k
  {
    if k < |s| && s[k].Space? {
      NextAtBlank(s, k + 1);
    }
  }

  lemma NextAtGap(s: Span, k: nat)
    requires k <= |s|
    ensures var j := NextAt(s, k); Blank(s[k..j]) && (j < |s| ==> !s[j].Space?) && Gap(s[k..], s[j..])
  {
    NextAtBlank(s, k);
    CutGap(s, k, NextAt(s, k));
  }

  lemma CutGap(s: Span, k: nat, j: nat)
    requires k <= j <= |s| && forall i | k <= i < j :: s[i].Space?
    ensures Blank(s[k..j]) && Gap(s[k..], s[j..])
  {
    assert s[k..] == s[k..j] + s[j..];
  }

  /** The first lexeme that is not white space is where the gap ends. */
  lemma {:induction false} NextAtIs(s: Span, k: nat, w: Span, t: Span)
    requires k <= |s| && Blank(w) && s[k..] == w + t && t != [] && !t[0].Space?
    ensures NextAt(s, k) == k + |w| < |s| && s[k + |w|..] == t
    decreases |w|
  {
    assert s[k..][|w|..] == t;
    if w == [] {
      assert s[k] == t[0];
    } else {
      assert s[k] == w[0];
      assert s[k + 1..] == w[1..] + t;
      NextAtIs(s, k + 1, w[1..], t);
    }
  }

  // ---------------------------------------------------------------- types

  predicate IsAngleLeaf(l: Lexeme) {
    l == COMMA || l.Space? || IsIdent(l)
  }

  lemma {:induction false} AngledPasses(b: Span, depth: nat, z: Span)
    requires Angled(b) && depth >= 1
    ensures AnglesLen(b + z, depth) == Later(AnglesLen(z, depth), |b|)
    decreases |b|, 1
  {
    if b == [] {
      assert b + z == z;
    } else if IsAngleLeaf(b[0]) && Angled(b[1..]) {
      AngledPasses(b[1..], depth, z);
      LeafShape(b, z);
      AngleLeafStep(b + z, depth);
    } else {
      var k :| 1 <= k < |b| && b[0] == Punct('<') && b[k] == Punct('>') && Angled(b[1..k]) && Angled(b[k + 1..]);
      AnglesInside(b, k, depth, z);
    }
  }

  lemma {:induction false} AnglesInside(b: Span, k: nat, depth: nat, z: Span)
    requires 1 <= k < |b| && b[0] == Punct('<') && b[k] == Punct('>') && Angled(b[1..k]) && Angled(b[k + 1..])
    requires depth >= 1
    ensures AnglesLen(b + z, depth) == Later(AnglesLen(z, depth), |b|)
    decreases |b|, 0
  {
    var w := b[k + 1..] + z;
    var v := [b[k]] + w;
    AngledPasses(b[k + 1..], depth, z);
    AngledPasses(b[1..k], depth + 1, v);
    PairShape(b, k, z);
    AngleOpenStep(b + z, depth);
    AngleCloseStep(v, depth);
    Chain(AnglesLen(b + z, depth), AnglesLen(b[1..k] + v, depth + 1), AnglesLen(v, depth + 1), AnglesLen(w, depth),
          AnglesLen(z, depth), k - 1, |b| - k - 1);
  }

  lemma AngleLeafStep(t: Span, depth: nat)
    requires t != [] && IsAngleLeaf(t[0])
    ensures AnglesLen(t, depth) == Later(AnglesLen(t[1..], depth), 1)
  {}

  lemma AngleOpenStep(t: Span, depth: nat)
    requires t != [] && t[0] == Punct('<')
    ensures AnglesLen(t, depth) == Later(AnglesLen(t[1..], depth + 1), 1)
  {}

  lemma AngleCloseStep(t: Span, depth: nat)
    requires t != [] && t[0] == Punct('>') && depth >= 1
    ensures AnglesLen(t, depth + 1) == Later(AnglesLen(t[1..], depth), 1)
  {}

  /** A list that closes `depth` angle brackets one after the other, with type arguments in between. */
  ghost predicate UnwindsAngles(s: Span, depth: nat)
    decreases depth
  {
    if depth <= 1 then s != [] && s[|s| - 1] == Punct('>') && Angled(s[..|s| - 1])
    else exists k | 0 <= k < |s| :: AngledTo(s, k) && UnwindsAngles(s[k + 1..], depth - 1)
  }

  ghost predicate AngledTo(s: Span, k: nat)
    requires k < |s|
  {
    Angled(s[..k]) && s[k] == Punct('>')
  }

  lemma UnwindsAngleLeaf(s: Span, depth: nat)
    requires s != [] && IsAngleLeaf(s[0]) && UnwindsAngles(s[1..], depth)
    ensures UnwindsAngles(s, depth)
  {
    if depth <= 1 {
      assert s[..|s| - 1][1..] == s[1..][..|s| - 2];
    } else {
      var k :| 0 <= k < |s[1..]| && AngledTo(s[1..], k) && UnwindsAngles(s[1..][k + 1..], depth - 1);
      assert s[..k + 1][1..] == s[1..][..k] && s[1..][k + 1..] == s[k + 2..];
      assert AngledTo(s, k + 1);
    }
  }

  lemma UnwindsAngleOpen(s: Span, depth: nat)
    requires s != [] && s[0] == Punct('<') && depth >= 1 && UnwindsAngles(s[1..], depth + 1)
    ensures UnwindsAngles(s, depth)
  {
    var r := s[1..];
    var j :| 0 <= j < |r| && AngledTo(r, j) && UnwindsAngles(r[j + 1..], depth);
    assert r[j + 1..] == s[j + 2..] && r[..j] == s[1..j + 1];
    UnwindsAnglePair(s, j + 1, depth);
  }

  lemma UnwindsAnglePair(s: Span, j: nat, depth: nat)
    requires 1 <= j < |s| && s[0] == Punct('<') && s[j] == Punct('>') && Angled(s[1..j])
    requires depth >= 1 && UnwindsAngles(s[j + 1..], depth)
    ensures UnwindsAngles(s, depth)
  {
    if depth <= 1 {
      LastAngle(s, j);
    } else {
      InnerAngle(s, j, depth);
    }
  }

  lemma LastAngle(s: Span, j: nat)
    requires 1 <= j < |s| && s[0] == Punct('<') && s[j] == Punct('>') && Angled(s[1..j])
    requires UnwindsAngles(s[j + 1..], 1)
    ensures UnwindsAngles(s, 1)
  {
    var u := s[j + 1..];
    assert u[..|u| - 1] == s[j + 1..|s| - 1] && u[|u| - 1] == s[|s| - 1];
    AngleGroupThen(s, j, |s| - 1);
  }

  lemma InnerAngle(s: Span, j: nat, depth: nat)
    requires 1 <= j < |s| && s[0] == Punct('<') && s[j] == Punct('>') && Angled(s[1..j])
    requires depth > 1 && UnwindsAngles(s[j + 1..], depth)
    ensures UnwindsAngles(s, depth)
  {
    var u := s[j + 1..];
    var k :| 0 <= k < |u| && AngledTo(u, k) && UnwindsAngles(u[k + 1..], depth - 1);
    var n := j + 1 + k;
    assert u[..k] == s[j + 1..n] && u[k + 1..] == s[n + 1..];
    OuterAngle(s, j, n, depth);
  }

  lemma OuterAngle(s: Span, j: nat, n: nat, depth: nat)
    requires 1 <= j < n < |s| && s[0] == Punct('<') && s[j] == Punct('>') && Angled(s[1..j])
    requires depth > 1 && Angled(s[j + 1..n]) && s[n] == Punct('>') && UnwindsAngles(s[n + 1..], depth - 1)
    ensures UnwindsAngles(s, depth)
  {
    AngleGroupThen(s, j, n);
    assert AngledTo(s, n);
  }

  lemma AngleGroupThen(s: Span, j: nat, n: nat)
    requires 1 <= j < n <= |s| && s[0] == Punct('<') && s[j] == Punct('>') && Angled(s[1..j]) && Angled(s[j + 1..n])
    ensures Angled(s[..n])
  {
    var t := s[..n];
    assert t[1..j] == s[1..j] && t[j + 1..] == s[j + 1..n];
  }

  lemma {:induction false} AnglesUnwind(s: Span, depth: nat)
    requires depth >= 1 && AnglesLen(s, depth).Some?
    ensures var n := AnglesLen(s, depth).value; 0 < n <= |s| && UnwindsAngles(s[..n], depth)
    decreases |s|
  {
    AnglesLocal(s, depth, []);
    var n := AnglesLen(s, depth).value;
    var t := s[..n];
    if s[0] == Punct('>') && depth <= 1 {
      assert t[..0] == [];
    } else {
      assert t[1..] == s[1..][..n - 1];
      if s[0] == Punct('<') {
        AnglesUnwind(s[1..], depth + 1);
        UnwindsAngleOpen(t, depth);
      } else if s[0] == Punct('>') {
        AnglesUnwind(s[1..], depth - 1);
        assert t[..0] == [] && AngledTo(t, 0);
      } else {
        AnglesUnwind(s[1..], depth);
        UnwindsAngleLeaf(t, depth);
      }
    }
  }

  lemma TypeExactly(t: Span)
    ensures TypeSpan(t) <==> t != [] && TypeLen(t) == Some(|t|)
  {
    if t != [] && TypeLen(t) == Some(|t|) {
      TypeIsSpan(t);
    }
    if TypeSpan(t) {
      TypeSpanLen(t);
    }
  }

  lemma TypeIsSpan(t: Span)
    requires t != [] && TypeLen(t) == Some(|t|)
    ensures TypeSpan(t)
  {
    if ArgumentsAt(t).Some? {
      var j := NextAt(t, 1);
      NextAtGap(t, 1);
      TypeFromArguments(t, j, t[j + 1..]);
    }
  }

  lemma TypeFromArguments(t: Span, j: nat, args: Span)
    requires t != [] && IsIdent(t[0]) && !IsBuiltinType(t[0]) && 1 <= j < |t| && Blank(t[1..j]) && t[j] == Punct('<')
    requires args == t[j + 1..] && AnglesLen(args, 1) == Some(|args|)
    ensures TypeSpan(t)
  {
    AnglesUnwind(args, 1);
    assert args[..|args|] == args;
    TypeAssembled(t, j);
    assert TypeParts(t, t[1..j], t[j + 1..|t| - 1]);
  }

  lemma TypeAssembled(t: Span, j: nat)
    requires 1 <= j && j + 1 < |t| && t[j] == Punct('<') && t[|t| - 1] == Punct('>')
    ensures t == [t[0]] + (t[1..j] + ([Punct('<')] + (t[j + 1..|t| - 1] + [Punct('>')])))
    ensures t[j + 1..][..|t| - j - 2] == t[j + 1..|t| - 1]
  {}

  lemma TypeSpanLen(t: Span)
    requires TypeSpan(t)
    ensures t != [] && TypeLen(t) == Some(|t|)
  {
    if |t| == 1 && IsIdent(t[0]) {
      NextAtGap(t, 1);
    } else {
      var w, u :| TypeParts(t, w, u);
      TypePartsLen(t, w, u);
    }
  }

  lemma TypePartsLen(t: Span, w: Span, u: Span)
    requires TypeParts(t, w, u)
    ensures TypeLen(t) == Some(|t|)
  {
    AngledPasses(u, 1, [Punct('>')]);
    ArgumentsHere(t, w, u + [Punct('>')]);
  }

  lemma ArgumentsHere(t: Span, w: Span, args: Span)
    requires t != [] && Blank(w) && t == [t[0]] + (w + ([Punct('<')] + args)) && !IsBuiltinType(t[0])
    ensures ArgumentsAt(t) == Some(|w| + 2) && |w| + 2 <= |t| && t[|w| + 2..] == args && |t| == |w| + 2 + |args|
  {
    var r := [Punct('<')] + args;
    assert t[1..] == w + r;
    NextAtIs(t, 1, w, r);
    assert r[1..] == args;
  }

  lemma TypeBefore(t: Span, u: Span)
    requires TypeSpan(t) && NoAngle(u)
    ensures TypeLen(t + u) == Some(|t|) && (t + u)[..|t|] == t && (t + u)[|t|..] == u && t != [] && !t[0].Space?
  {
    TypeExactly(t);
    TypeLocal(t, u);
    assert t[..|t|] == t;
  }

  lemma TypeFound(s: Span)
    requires TypeLen(s).Some?
    ensures var n := TypeLen(s).value; 0 < n <= |s| && TypeSpan(s[..n])
  {
    TypeLocal(s, []);
    var n := TypeLen(s).value;
    assert s[..n] + [] == s[..n];
    TypeExactly(s[..n]);
  }
}
