/** When building a command depends on the iteration order of the maps it reads. */
module ToolTemplateOrder {
  import opened Text
  import opened ToolTemplate
  import opened ToolCommand
  import opened ToolTemplateTexts

  const SHARED: string := "_scan_flags"

  /** No value completes a placeholder. */
  ghost predicate Apart(bs: seq<Binding>) {
    && (forall b <- bs :: BraceFree(b.key))
    && (forall b, c | b in bs && c in bs :: Safe(b.value, c.key))
  }

  /** No value overlaps a placeholder. */
  ghost predicate FarApart(bs: seq<Binding>) {
    && (forall b <- bs :: BraceFree(b.key))
    && (forall b, c | b in bs && c in bs :: !Overlaps(b.value, Placeholder(c.key)))
  }

  ghost predicate SameBindings(bs: seq<Binding>, cs: seq<Binding>) {
    forall b :: b in bs <==> b in cs
  }

  /** In whatever order the bindings come, replacing one key after the other fills all holes at once. */
  ghost predicate FilledAtOnce(ps: seq<Piece>, bs: seq<Binding>) {
    forall cs | SameBindings(bs, cs) :: ReplaceAll(TextOf(ps), cs) == TextOf(Substitute(ps, cs))
  }

  /** Enough for values that complete no placeholder: no opening brace in a value, and no brace in a key. */
  ghost predicate OpenFreeInputs(defaults: seq<Binding>, mappings: seq<Mapping>, validated: seq<Binding>) {
    && (forall d <- defaults :: BraceFree(d.key) && OpenFree(d.value))
    && (forall m <- mappings :: BraceFree(m.arg) && forall v <- m.flags :: OpenFree(m.flags[v]))
    && (forall b <- validated :: BraceFree(b.key) && OpenFree(b.value))
  }

  /** The same three maps, iterated in another order. */
  ghost predicate Reordered(ds: seq<Binding>, ms: seq<Mapping>, vs: seq<Binding>,
                            ds': seq<Binding>, ms': seq<Mapping>, vs': seq<Binding>) {
    multiset(ds) == multiset(ds') && multiset(ms) == multiset(ms') && multiset(vs) == multiset(vs')
  }

  function Build(ps: seq<Piece>, ds: seq<Binding>, ms: seq<Mapping>, vs: seq<Binding>): string {
    ReplaceAll(TextOf(ps), AllBindings(ds, ms, vs))
  }

  /** The shared placeholder is not left to several mappings with different flags. */
  ghost predicate SharedFlagsAgree(ps: seq<Piece>, ds: seq<Binding>, ms: seq<Mapping>, vs: seq<Binding>) {
    Hole(SHARED) in ps && FirstFor(DefaultBindings(ds, vs), SHARED).None? ==> Agree(MappingBindings(ms, vs), SHARED)
  }

  // ---------------------------------------------------------------- what the bindings are

  lemma {:induction false} MappingMember(ms: seq<Mapping>, vs: seq<Binding>, b: Binding)
    ensures b in MappingBindings(ms, vs) <==> exists m :: m in ms && b in FlagBindings(m, vs)
  {
    if ms != [] {
      MappingMember(ms[1..], vs, b);
      assert ms == [ms[0]] + ms[1..];
      assert forall m :: m in ms <==> m == ms[0] || m in ms[1..];
    }
  }

  /** Lists with the same bindings look a name up alike, if its bindings agree. */
  lemma LookupByMembers(bs: seq<Binding>, cs: seq<Binding>, n: string)
    requires (forall b :: b in bs <==> b in cs) && Agree(bs, n)
    ensures FirstFor(bs, n) == FirstFor(cs, n)
  {
    FirstForIs(bs, n);
    FirstForIs(cs, n);
  }

  lemma DistinctByArg(ms: seq<Mapping>, m: Mapping, k: Mapping)
    requires DistinctArgs(ms) && m in ms && k in ms && m.arg == k.arg
    ensures m == k
  {
    var i :| 0 <= i < |ms| && ms[i] == m;
    var j :| 0 <= j < |ms| && ms[j] == k;
    assert i == j;
  }

  lemma DefaultsAgree(ds: seq<Binding>, vs: seq<Binding>, n: string)
    requires DistinctKeys(ds)
    ensures Agree(DefaultBindings(ds, vs), n)
  {
    var bs := DefaultBindings(ds, vs);
    forall b, c | b in bs && c in bs && b.key == n && c.key == n ensures b.value == c.value {
      DefaultMember(ds, vs, b);
      DefaultMember(ds, vs, c);
      var d :| d in ds && FirstFor(vs, d.key).None? && b == Binding(d.key, TrimQuotes(d.value));
      var e :| e in ds && FirstFor(vs, e.key).None? && c == Binding(e.key, TrimQuotes(e.value));
      DistinctByKey(ds, d, e);
    }
  }

  lemma FlagName(a: string, b: string)
    requires "_" + a + "_flags" == "_" + b + "_flags"
    ensures a == b
  {
    assert ("_" + a + "_flags")[1..|a| + 1] == a;
    assert ("_" + b + "_flags")[1..|b| + 1] == b;
  }

  lemma OwnFlag(m: Mapping, vs: seq<Binding>, b: Binding)
    requires b in FlagBindings(m, vs) && b.key != SHARED
    ensures b.key == "_" + m.arg + "_flags"
    ensures FirstFor(vs, m.arg).Some? && FirstFor(vs, m.arg).value in m.flags
            && b.value == m.flags[FirstFor(vs, m.arg).value]
  {}

  /** Mappings only compete for the shared placeholder. */
  lemma MappingsAgree(ms: seq<Mapping>, vs: seq<Binding>, n: string)
    requires DistinctArgs(ms) && n != SHARED
    ensures Agree(MappingBindings(ms, vs), n)
  {
    var bs := MappingBindings(ms, vs);
    forall b, c | b in bs && c in bs && b.key == n && c.key == n ensures b.value == c.value {
      MappingMember(ms, vs, b);
      MappingMember(ms, vs, c);
      var m :| m in ms && b in FlagBindings(m, vs);
      var k :| k in ms && c in FlagBindings(k, vs);
      OwnFlag(m, vs, b);
      OwnFlag(k, vs, c);
      FlagName(m.arg, k.arg);
      DistinctByArg(ms, m, k);
    }
  }

  // ---------------------------------------------------------------- looking up a hole

  lemma LookupAll(ds: seq<Binding>, ms: seq<Mapping>, vs: seq<Binding>, n: string)
    ensures FirstFor(AllBindings(ds, ms, vs), n) ==
            if FirstFor(DefaultBindings(ds, vs), n).Some? then FirstFor(DefaultBindings(ds, vs), n)
            else if FirstFor(MappingBindings(ms, vs), n).Some? then FirstFor(MappingBindings(ms, vs), n)
            else if FirstFor(vs, n).Some? then FirstFor(vs, n)
            else FirstFor(FIXED, n)
  {
    var d, m := DefaultBindings(ds, vs), MappingBindings(ms, vs);
    FirstForConcat(d + m + vs, FIXED, n);
    FirstForConcat(d + m, vs, n);
    FirstForConcat(d, m, n);
  }

  /** Reordering the validated arguments changes no lookup of them, hence no binding made from them. */
  lemma ReorderedLookup(vs: seq<Binding>, vs': seq<Binding>, n: string)
    requires DistinctKeys(vs) && multiset(vs) == multiset(vs')
    ensures FirstFor(vs, n) == FirstFor(vs', n)
  {
    SameMembers(vs, vs');
    DistinctAgree(vs, n);
    LookupByMembers(vs, vs', n);
  }

  lemma DefaultsReordered(ds: seq<Binding>, vs: seq<Binding>, ds': seq<Binding>, vs': seq<Binding>, b: Binding)
    requires DistinctKeys(vs) && multiset(ds) == multiset(ds') && multiset(vs) == multiset(vs')
    ensures b in DefaultBindings(ds, vs) <==> b in DefaultBindings(ds', vs')
  {
    SameMembers(ds, ds');
    DefaultMember(ds, vs, b);
    DefaultMember(ds', vs', b);
    ReorderedLookup(vs, vs', b.key);
  }

  lemma MappingsReordered(ms: seq<Mapping>, vs: seq<Binding>, ms': seq<Mapping>, vs': seq<Binding>, b: Binding)
    requires DistinctKeys(vs) && multiset(ms) == multiset(ms') && multiset(vs) == multiset(vs')
    ensures b in MappingBindings(ms, vs) <==> b in MappingBindings(ms', vs')
  {
    SameMembers(ms, ms');
    forall m: Mapping ensures FlagBindings(m, vs) == FlagBindings(m, vs') {
      ReorderedLookup(vs, vs', m.arg);
    }
    MappingMember(ms, vs, b);
    MappingMember(ms', vs', b);
  }

  lemma ReorderedDefaults(ds: seq<Binding>, vs: seq<Binding>, ds': seq<Binding>, vs': seq<Binding>, n: string)
    requires DistinctKeys(ds) && DistinctKeys(vs) && multiset(ds) == multiset(ds') && multiset(vs) == multiset(vs')
    ensures FirstFor(DefaultBindings(ds, vs), n) == FirstFor(DefaultBindings(ds', vs'), n)
  {
    forall b ensures b in DefaultBindings(ds, vs) <==> b in DefaultBindings(ds', vs') {
      DefaultsReordered(ds, vs, ds', vs', b);
    }
    DefaultsAgree(ds, vs, n);
    LookupByMembers(DefaultBindings(ds, vs), DefaultBindings(ds', vs'), n);
  }

  lemma ReorderedMappings(ms: seq<Mapping>, vs: seq<Binding>, ms': seq<Mapping>, vs': seq<Binding>, n: string)
    requires DistinctKeys(vs) && multiset(ms) == multiset(ms') && multiset(vs) == multiset(vs')
    requires Agree(MappingBindings(ms, vs), n)
    ensures FirstFor(MappingBindings(ms, vs), n) == FirstFor(MappingBindings(ms', vs'), n)
  {
    forall b ensures b in MappingBindings(ms, vs) <==> b in MappingBindings(ms', vs') {
      MappingsReordered(ms, vs, ms', vs', b);
    }
    LookupByMembers(MappingBindings(ms, vs), MappingBindings(ms', vs'), n);
  }

  // ---------------------------------------------------------------- values without opening braces

  lemma {:induction false} TrimQuotesOpenFree(s: string)
    requires OpenFree(s)
    ensures OpenFree(TrimQuotes(s))
  {
    if s != "" && s[0] == '"' {
      TrimQuotesOpenFree(s[1..]);
    } else if s != "" && s[|s| - 1] == '"' {
      TrimQuotesOpenFree(s[..|s| - 1]);
    }
  }

  predicate OpenFreeBinding(b: Binding) {
    BraceFree(b.key) && OpenFree(b.value)
  }

  lemma OpenFreeDefault(ds: seq<Binding>, vs: seq<Binding>, b: Binding)
    requires (forall d <- ds :: BraceFree(d.key) && OpenFree(d.value)) && b in DefaultBindings(ds, vs)
    ensures OpenFreeBinding(b)
  {
    DefaultMember(ds, vs, b);
    var d :| d in ds && FirstFor(vs, d.key).None? && b == Binding(d.key, TrimQuotes(d.value));
    TrimQuotesOpenFree(d.value);
  }

  lemma BraceFreeConcat(a: string, b: string)
    requires BraceFree(a) && BraceFree(b)
    ensures BraceFree(a + b)
  {}

  lemma OpenFreeFlag(ms: seq<Mapping>, vs: seq<Binding>, b: Binding)
    requires (forall m <- ms :: BraceFree(m.arg) && forall v <- m.flags :: OpenFree(m.flags[v]))
            && b in MappingBindings(ms, vs)
    ensures OpenFreeBinding(b)
  {
    MappingMember(ms, vs, b);
    var m :| m in ms && b in FlagBindings(m, vs);
    FlagNames(m.arg);
  }

  lemma FlagNames(arg: string)
    requires BraceFree(arg)
    ensures BraceFree("_" + arg + "_flags") && BraceFree(SHARED)
  {
    BraceFreeConcat("_", arg);
    BraceFreeConcat("_" + arg, "_flags");
  }

  lemma OpenFreeFixed(b: Binding)
    requires b in FIXED
    ensures OpenFreeBinding(b)
  {
    FixedKeys();
    FixedValues();
  }

  lemma FixedKeys()
    ensures BraceFree("_output_file") && BraceFree("_scan_id") && BraceFree("_evidence_dir")
  {}

  lemma FixedValues()
    ensures OpenFree("/dev/null") && OpenFree("<scan-id>") && OpenFree("<evidence-dir>")
  {}

  /** Values without opening braces cannot be mistaken for placeholders. */
  lemma OpenFreeApart(ds: seq<Binding>, ms: seq<Mapping>, vs: seq<Binding>)
    requires OpenFreeInputs(ds, ms, vs)
    ensures Apart(AllBindings(ds, ms, vs))
  {
    var bs := AllBindings(ds, ms, vs);
    forall b <- bs ensures OpenFreeBinding(b) {
      if b in DefaultBindings(ds, vs) {
        OpenFreeDefault(ds, vs, b);
      } else if b in MappingBindings(ms, vs) {
        OpenFreeFlag(ms, vs, b);
      } else if b in FIXED {
        OpenFreeFixed(b);
      }
    }
    forall b, c | b in bs && c in bs ensures Safe(b.value, c.key) {
      OpenFreeSafe(b.value, c.key);
    }
  }

  // ---------------------------------------------------------------- reordering

  lemma ApartIsInOrder(bs: seq<Binding>)
    requires Apart(bs)
    ensures SafeInOrder(bs)
  {
    forall i | 0 <= i < |bs| ensures BraceFree(bs[i].key) { assert bs[i] in bs; }
    forall i, j | 0 <= i < j < |bs| ensures Safe(bs[i].value, bs[j].key) { assert bs[i] in bs && bs[j] in bs; }
  }

  lemma FarApartIsInOrder(bs: seq<Binding>)
    requires FarApart(bs)
    ensures ApartInOrder(bs)
  {
    forall i | 0 <= i < |bs| ensures BraceFree(bs[i].key) { assert bs[i] in bs; }
    forall i, j | 0 <= i < j < |bs| ensures !Overlaps(bs[i].value, Placeholder(bs[j].key)) {
      assert bs[i] in bs && bs[j] in bs;
    }
  }

  /** A template whose literals cannot be mistaken for placeholders, and values that complete none. */
  lemma ClearFilledAtOnce(ps: seq<Piece>, bs: seq<Binding>)
    requires ClearAll(ps, bs) && Apart(bs)
    ensures FilledAtOnce(ps, bs)
  {
    forall cs | SameBindings(bs, cs) ensures ReplaceAll(TextOf(ps), cs) == TextOf(Substitute(ps, cs)) {
      ApartIsInOrder(cs);
      SequentialIsSimultaneous(ps, cs);
    }
  }

  /** Any text, and values that overlap no placeholder. */
  lemma TextFilledAtOnce(s: string, bs: seq<Binding>)
    requires FarApart(bs)
    ensures FilledAtOnce(Parse(s, bs), bs)
  {
    forall b <- bs ensures Legible(Parse(s, bs), b.key) {
      ParseLegible(s, bs, b);
    }
    forall cs | SameBindings(bs, cs)
      ensures ReplaceAll(TextOf(Parse(s, bs)), cs) == TextOf(Substitute(Parse(s, bs), cs))
    {
      FarApartIsInOrder(cs);
      LegibleSimultaneous(Parse(s, bs), cs);
    }
  }

  lemma AllMember(ds: seq<Binding>, ms: seq<Mapping>, vs: seq<Binding>, b: Binding)
    ensures b in AllBindings(ds, ms, vs) <==>
            b in DefaultBindings(ds, vs) || b in MappingBindings(ms, vs) || b in vs || b in FIXED
  {}

  /** The same maps in another order give the same bindings. */
  lemma ReorderedBindings(ds: seq<Binding>, ms: seq<Mapping>, vs: seq<Binding>,
                          ds': seq<Binding>, ms': seq<Mapping>, vs': seq<Binding>, b: Binding)
    requires DistinctKeys(vs) && Reordered(ds, ms, vs, ds', ms', vs')
    ensures b in AllBindings(ds, ms, vs) <==> b in AllBindings(ds', ms', vs')
  {
    SameMembers(vs, vs');
    DefaultsReordered(ds, vs, ds', vs', b);
    MappingsReordered(ms, vs, ms', vs', b);
    AllMember(ds, ms, vs, b);
    AllMember(ds', ms', vs', b);
  }

  lemma ReorderedFill(ps: seq<Piece>, ds: seq<Binding>, ms: seq<Mapping>, vs: seq<Binding>,
                      ds': seq<Binding>, ms': seq<Mapping>, vs': seq<Binding>)
    requires FilledAtOnce(ps, AllBindings(ds, ms, vs)) && Maps(ds, ms, vs) && Reordered(ds, ms, vs, ds', ms', vs')
    ensures Build(ps, ds', ms', vs') == TextOf(Substitute(ps, AllBindings(ds', ms', vs')))
  {
    var bs, cs := AllBindings(ds, ms, vs), AllBindings(ds', ms', vs');
    forall b ensures b in bs <==> b in cs {
      ReorderedBindings(ds, ms, vs, ds', ms', vs', b);
    }
    assert SameBindings(bs, cs);
  }

  /** When the mappings agree on the shared placeholder, every iteration order builds the same command. */
  lemma AgreeingFlagsAnyOrder(ps: seq<Piece>, ds: seq<Binding>, ms: seq<Mapping>, vs: seq<Binding>,
                              ds': seq<Binding>, ms': seq<Mapping>, vs': seq<Binding>)
    requires FilledAtOnce(ps, AllBindings(ds, ms, vs)) && Maps(ds, ms, vs) && SharedFlagsAgree(ps, ds, ms, vs)
    requires Reordered(ds, ms, vs, ds', ms', vs')
    ensures Build(ps, ds', ms', vs') == Build(ps, ds, ms, vs)
  {
    var bs, cs := AllBindings(ds, ms, vs), AllBindings(ds', ms', vs');
    ReorderedFill(ps, ds, ms, vs, ds, ms, vs);
    ReorderedFill(ps, ds, ms, vs, ds', ms', vs');
    forall i | 0 <= i < |ps| ensures FillPiece(ps[i], bs) == FillPiece(ps[i], cs) {
      if ps[i].Hole? {
        var n := ps[i].name;
        LookupAll(ds, ms, vs, n);
        LookupAll(ds', ms', vs', n);
        ReorderedDefaults(ds, vs, ds', vs', n);
        ReorderedLookup(vs, vs', n);
        if FirstFor(DefaultBindings(ds, vs), n).None? {
          if n != SHARED {
            MappingsAgree(ms, vs, n);
          } else {
            assert ps[i] == Hole(SHARED);
          }
          ReorderedMappings(ms, vs, ms', vs', n);
        }
      }
    }
    assert Substitute(ps, bs) == Substitute(ps, cs);
  }

  // ---------------------------------------------------------------- and when it does depend on the order

  lemma {:induction false} ShorterText(ps: seq<Piece>, qs: seq<Piece>)
    requires |ps| == |qs| && forall i | 0 <= i < |ps| :: |PieceText(ps[i])| <= |PieceText(qs[i])|
    ensures |TextOf(ps)| <= |TextOf(qs)|
    ensures (exists i | 0 <= i < |ps| :: |PieceText(ps[i])| < |PieceText(qs[i])|) ==> |TextOf(ps)| < |TextOf(qs)|
  {
    if ps != [] {
      ShorterText(ps[1..], qs[1..]);
      if i :| 0 <= i < |ps| && |PieceText(ps[i])| < |PieceText(qs[i])| {
        if i > 0 {
          assert |PieceText(ps[1..][i - 1])| < |PieceText(qs[1..][i - 1])|;
        }
      }
    }
  }

  lemma FrontPiece(ps: seq<Piece>)
    requires ps != []
    ensures var n := |PieceText(ps[0])|;
      n <= |TextOf(ps)| && TextOf(ps)[..n] == PieceText(ps[0]) && TextOf(ps)[n..] == TextOf(ps[1..])
  {}

  lemma {:induction false} DifferentText(ps: seq<Piece>, qs: seq<Piece>, i: nat)
    requires |ps| == |qs| && forall k | 0 <= k < |ps| :: |PieceText(ps[k])| == |PieceText(qs[k])|
    requires i < |ps| && PieceText(ps[i]) != PieceText(qs[i])
    ensures TextOf(ps) != TextOf(qs)
  {
    if i > 0 {
      DifferentText(ps[1..], qs[1..], i - 1);
    }
    FrontPiece(ps);
    FrontPiece(qs);
  }

  /** Filling one kind of hole with different values gives different texts. */
  lemma FillsDiffer(ps: seq<Piece>, bs: seq<Binding>, cs: seq<Binding>, n: string)
    requires Hole(n) in ps
    requires FirstFor(bs, n).Some? && FirstFor(cs, n).Some? && FirstFor(bs, n) != FirstFor(cs, n)
    requires forall k :: k != n ==> FirstFor(bs, k) == FirstFor(cs, k)
    ensures TextOf(Substitute(ps, bs)) != TextOf(Substitute(ps, cs))
  {
    var x, y := Substitute(ps, bs), Substitute(ps, cs);
    var v, w := FirstFor(bs, n).value, FirstFor(cs, n).value;
    var i :| 0 <= i < |ps| && ps[i] == Hole(n);
    forall k | 0 <= k < |ps| ensures x[k] == y[k] || (x[k] == Lit(v) && y[k] == Lit(w)) {}
    assert x[i] == Lit(v) && y[i] == Lit(w);
    if |v| == |w| {
      DifferentText(x, y, i);
    } else if |v| < |w| {
      ShorterText(x, y);
    } else {
      ShorterText(y, x);
    }
  }

  lemma {:induction false} MoveToFront(ms: seq<Mapping>, m: Mapping) returns (r: seq<Mapping>)
    requires m in ms
    ensures multiset(r) == multiset(ms) && r != [] && r[0] == m
  {
    var i :| 0 <= i < |ms| && ms[i] == m;
    r := [m] + ms[..i] + ms[i + 1..];
    assert ms == ms[..i] + [m] + ms[i + 1..];
  }

  lemma FrontDecides(ms: seq<Mapping>, vs: seq<Binding>, flags: string)
    requires ms != [] && Binding(SHARED, flags) in FlagBindings(ms[0], vs)
    ensures FirstFor(MappingBindings(ms, vs), SHARED) == Some(flags)
  {
    FirstForConcat(FlagBindings(ms[0], vs), MappingBindings(ms[1..], vs), SHARED);
  }

  lemma FlagSource(ms: seq<Mapping>, vs: seq<Binding>, b: Binding) returns (m: Mapping)
    requires b in MappingBindings(ms, vs) && b.key == SHARED
    ensures m in ms && b in FlagBindings(m, vs)
  {
    MappingMember(ms, vs, b);
    m :| m in ms && b in FlagBindings(m, vs);
  }

  /** When two mappings disagree on a shared placeholder that is used, some order builds another command. */
  lemma DisagreeingFlags(ps: seq<Piece>, ds: seq<Binding>, ms: seq<Mapping>, vs: seq<Binding>)
    returns (ms1: seq<Mapping>, ms2: seq<Mapping>)
    requires FilledAtOnce(ps, AllBindings(ds, ms, vs)) && Maps(ds, ms, vs) && !SharedFlagsAgree(ps, ds, ms, vs)
    ensures multiset(ms1) == multiset(ms) && multiset(ms2) == multiset(ms)
    ensures Build(ps, ds, ms1, vs) != Build(ps, ds, ms2, vs)
  {
    var all := MappingBindings(ms, vs);
    var b, c :| b in all && c in all && b.key == SHARED && c.key == SHARED && b.value != c.value;
    var m := FlagSource(ms, vs, b);
    var k := FlagSource(ms, vs, c);
    ms1 := MoveToFront(ms, m);
    ms2 := MoveToFront(ms, k);
    FrontDecides(ms1, vs, b.value);
    FrontDecides(ms2, vs, c.value);
    var bs, cs := AllBindings(ds, ms1, vs), AllBindings(ds, ms2, vs);
    ReorderedFill(ps, ds, ms, vs, ds, ms1, vs);
    ReorderedFill(ps, ds, ms, vs, ds, ms2, vs);
    LookupAll(ds, ms1, vs, SHARED);
    LookupAll(ds, ms2, vs, SHARED);
    forall n | n != SHARED ensures FirstFor(bs, n) == FirstFor(cs, n) {
      LookupAll(ds, ms1, vs, n);
      LookupAll(ds, ms2, vs, n);
      MappingsAgree(ms, vs, n);
      ReorderedMappings(ms, vs, ms1, vs, n);
      ReorderedMappings(ms, vs, ms2, vs, n);
    }
    FillsDiffer(ps, bs, cs, SHARED);
  }

  ghost predicate AnyOrderSame(ps: seq<Piece>, ds: seq<Binding>, ms: seq<Mapping>, vs: seq<Binding>) {
    forall ds', ms', vs' | Reordered(ds, ms, vs, ds', ms', vs') :: Build(ps, ds', ms', vs') == Build(ps, ds, ms, vs)
  }

  /** Where replacing is filling all holes at once, building a command does not depend on the iteration order of the
      maps exactly when the shared placeholder is unused, has a default, or gets the same flags from every mapping
      that applies. */
  lemma OrderMattersWhenFilled(ps: seq<Piece>, ds: seq<Binding>, ms: seq<Mapping>, vs: seq<Binding>)
    requires FilledAtOnce(ps, AllBindings(ds, ms, vs)) && Maps(ds, ms, vs)
    ensures AnyOrderSame(ps, ds, ms, vs) <==> SharedFlagsAgree(ps, ds, ms, vs)
  {
    if SharedFlagsAgree(ps, ds, ms, vs) {
      forall ds', ms', vs' | Reordered(ds, ms, vs, ds', ms', vs')
        ensures Build(ps, ds', ms', vs') == Build(ps, ds, ms, vs)
      {
        AgreeingFlagsAnyOrder(ps, ds, ms, vs, ds', ms', vs');
      }
    } else {
      var ms1, ms2 := DisagreeingFlags(ps, ds, ms, vs);
      assert Reordered(ds, ms, vs, ds, ms1, vs) && Reordered(ds, ms, vs, ds, ms2, vs);
    }
  }

  /** For templates whose literals cannot be mistaken for placeholders, and values that complete none. */
  lemma OrderMattersExactly(ps: seq<Piece>, ds: seq<Binding>, ms: seq<Mapping>, vs: seq<Binding>)
    requires Maps(ds, ms, vs) && ClearAll(ps, AllBindings(ds, ms, vs)) && Apart(AllBindings(ds, ms, vs))
    ensures AnyOrderSame(ps, ds, ms, vs) <==> SharedFlagsAgree(ps, ds, ms, vs)
  {
    ClearFilledAtOnce(ps, AllBindings(ds, ms, vs));
    OrderMattersWhenFilled(ps, ds, ms, vs);
  }

  /** The same for templates in which every opening brace starts a hole, and values without one. */
  lemma OrderMattersPlainly(ps: seq<Piece>, ds: seq<Binding>, ms: seq<Mapping>, vs: seq<Binding>)
    requires Simple(ps) && OpenFreeInputs(ds, ms, vs) && Maps(ds, ms, vs)
    ensures AnyOrderSame(ps, ds, ms, vs) <==> SharedFlagsAgree(ps, ds, ms, vs)
  {
    OpenFreeApart(ds, ms, vs);
    SimpleClear(ps, AllBindings(ds, ms, vs));
    OrderMattersExactly(ps, ds, ms, vs);
  }

  // ---------------------------------------------------------------- every text

  /** The command built from a text is the same for every iteration order of the maps. */
  ghost predicate AnyOrderSameText(s: string, ds: seq<Binding>, ms: seq<Mapping>, vs: seq<Binding>) {
    forall ds', ms', vs' | Reordered(ds, ms, vs, ds', ms', vs') ::
      ReplaceAll(s, AllBindings(ds', ms', vs')) == ReplaceAll(s, AllBindings(ds, ms, vs))
  }

  lemma SharedHole(s: string, bs: seq<Binding>, b: Binding)
    requires (forall c <- bs :: BraceFree(c.key)) && b in bs && b.key == SHARED
    ensures Hole(SHARED) in Parse(s, bs) <==> Contains(s, Placeholder(SHARED))
  {
    ParseHoles(s, bs, b);
  }

  /** Values without braces overlap no placeholder exactly if none of them occurs in a key. */
  lemma PlainFarApart(bs: seq<Binding>)
    requires forall b <- bs :: Plain(b)
    ensures FarApart(bs) <==> forall b, c | b in bs && c in bs :: !Contains(c.key, b.value)
  {
    forall b, c | b in bs && c in bs ensures Overlaps(b.value, Placeholder(c.key)) <==> Contains(c.key, b.value) {
      BraceFreeOverlaps(b.value, c.key);
    }
  }

  /** For every template text and values that overlap no placeholder, building a command does not depend on the
      iteration order of the maps exactly when the text does not hold the shared placeholder, that has a default, or
      it gets the same flags from every mapping that applies. */
  lemma OrderMattersOnAnyText(s: string, ds: seq<Binding>, ms: seq<Mapping>, vs: seq<Binding>)
    requires Maps(ds, ms, vs) && FarApart(AllBindings(ds, ms, vs))
    ensures AnyOrderSameText(s, ds, ms, vs)
            <==> !Contains(s, Placeholder(SHARED)) || FirstFor(DefaultBindings(ds, vs), SHARED).Some?
                 || Agree(MappingBindings(ms, vs), SHARED)
  {
    var bs := AllBindings(ds, ms, vs);
    var ps := Parse(s, bs);
    ParseText(s, bs);
    TextFilledAtOnce(s, bs);
    OrderMattersWhenFilled(ps, ds, ms, vs);
    AnyOrderText(s, ps, ds, ms, vs);
    if !Agree(MappingBindings(ms, vs), SHARED) {
      var b :| b in MappingBindings(ms, vs) && b.key == SHARED;
      AllMember(ds, ms, vs, b);
      SharedHole(s, bs, b);
    }
  }

  lemma AnyOrderText(s: string, ps: seq<Piece>, ds: seq<Binding>, ms: seq<Mapping>, vs: seq<Binding>)
    requires TextOf(ps) == s
    ensures AnyOrderSameText(s, ds, ms, vs) <==> AnyOrderSame(ps, ds, ms, vs)
  {}
}
