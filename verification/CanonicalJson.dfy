/** Key-order canonicalisation of JSON values. */
module CanonicalJson {

  /** A JSON value; an object keeps its members in insertion order, with distinct keys. */
  datatype Value =
    | Null
    | Bool(b: bool)
    | Number(literal: string)
    | Str(text: string)
    | Array(items: seq<Value>)
    | Object(members: seq<Member>)

  datatype Member = Member(key: string, value: Value)

  ghost predicate DistinctKeys(ms: seq<Member>) {
    forall i, j | 0 <= i < j < |ms| :: ms[i].key != ms[j].key
  }

  ghost predicate Valid(v: Value) {
    match v
    case Array(items) => forall i | 0 <= i < |items| :: Valid(items[i])
    case Object(ms) => DistinctKeys(ms) && forall i | 0 <= i < |ms| :: Valid(ms[i].value)
    case Null => true
    case Bool(_) => true
    case Number(_) => true
    case Str(_) => true
  }

  // ---------------------------------------------------------------- the order of keys

  /** Strings in the order of their characters' code points. */
  predicate Before(a: string, b: string) {
    b != "" && (a == "" || a[0] < b[0] || (a[0] == b[0] && Before(a[1..], b[1..])))
  }

  /** The strings agree before position `k`, where the first one ends or has the smaller character. */
  predicate SmallerAt(a: string, b: string, k: nat) {
    k <= |a| && k < |b| && a[..k] == b[..k] && (k == |a| || a[k] < b[k])
  }

  /** A string comes before another exactly when it is a proper beginning of it, or smaller where they first differ. */
  lemma {:induction false} BeforeExactly(a: string, b: string)
    ensures Before(a, b) <==> exists k :: SmallerAt(a, b, k)
  {
    if a == "" || b == "" || a[0] != b[0] {
      if Before(a, b) {
        assert SmallerAt(a, b, 0);
      }
      forall k: nat ensures SmallerAt(a, b, k) && k > 0 ==> a != "" && b != "" && a[0] == b[0] {
        SharedStart(a, b, k);
      }
    } else {
      BeforeExactly(a[1..], b[1..]);
      if k: nat :| SmallerAt(a[1..], b[1..], k) {
        assert a[..k + 1] == [a[0]] + a[1..][..k] && b[..k + 1] == [b[0]] + b[1..][..k];
        assert SmallerAt(a, b, k + 1);
      }
      if k: nat :| SmallerAt(a, b, k) {
        assert k > 0;
        assert a[1..][..k - 1] == a[..k][1..] && b[1..][..k - 1] == b[..k][1..];
        assert SmallerAt(a[1..], b[1..], k - 1);
      }
    }
  }

  lemma SharedStart(a: string, b: string, k: nat)
    ensures SmallerAt(a, b, k) && k > 0 ==> a != "" && b != "" && a[0] == b[0]
  {
    if SmallerAt(a, b, k) && k > 0 {
      assert a[..k][0] == a[0] && b[..k][0] == b[0];
    }
  }

  lemma {:induction false} BeforeTotal(a: string, b: string)
    ensures Before(a, b) || a == b || Before(b, a)
  {
    if a != "" && b != "" && a[0] == b[0] {
      BeforeTotal(a[1..], b[1..]);
      assert a == [a[0]] + a[1..] && b == [b[0]] + b[1..];
    }
  }

  lemma {:induction false} BeforeStrict(a: string, b: string)
    ensures !(Before(a, b) && Before(b, a)) && !Before(a, a)
  {
    if a != "" {
      BeforeStrict(a[1..], if b != "" then b[1..] else "");
    }
  }

  lemma {:induction false} BeforeTransitive(a: string, b: string, c: string)
    requires Before(a, b) && Before(b, c)
    ensures Before(a, c)
  {
    if a != "" && a[0] == b[0] == c[0] {
      BeforeTransitive(a[1..], b[1..], c[1..]);
    }
  }

  /** Strictly increasing keys. */
  ghost predicate Sorted(ms: seq<Member>) {
    forall i, j | 0 <= i < j < |ms| :: Before(ms[i].key, ms[j].key)
  }

  function Insert(m: Member, ms: seq<Member>): seq<Member> {
    if ms == [] || Before(m.key, ms[0].key) then [m] + ms else [ms[0]] + Insert(m, ms[1..])
  }

  function Sort(ms: seq<Member>): seq<Member> {
    if ms == [] then [] else Insert(ms[0], Sort(ms[1..]))
  }

  lemma {:induction false} InsertMembers(m: Member, ms: seq<Member>, x: Member)
    ensures |Insert(m, ms)| == |ms| + 1 && (x in Insert(m, ms) <==> x == m || x in ms)
  {
    if ms != [] && !Before(m.key, ms[0].key) {
      InsertMembers(m, ms[1..], x);
      assert x in ms <==> x == ms[0] || x in ms[1..];
    }
  }

  lemma {:induction false} SortMembers(ms: seq<Member>, x: Member)
    ensures |Sort(ms)| == |ms| && (x in Sort(ms) <==> x in ms)
  {
    if ms != [] {
      SortMembers(ms[1..], x);
      InsertMembers(ms[0], Sort(ms[1..]), x);
      assert x in ms <==> x == ms[0] || x in ms[1..];
    }
  }

  lemma {:induction false} InsertSorted(m: Member, ms: seq<Member>)
    requires Sorted(ms) && forall i | 0 <= i < |ms| :: ms[i].key != m.key
    ensures Sorted(Insert(m, ms))
  {
    if ms != [] {
      if Before(m.key, ms[0].key) {
        forall j | 0 < j < |ms| ensures Before(m.key, ms[j].key) {
          BeforeTransitive(m.key, ms[0].key, ms[j].key);
        }
      } else {
        BeforeTotal(m.key, ms[0].key);
        InsertSorted(m, ms[1..]);
        var rest := Insert(m, ms[1..]);
        forall j | 0 <= j < |rest| ensures Before(ms[0].key, rest[j].key) {
          InsertMembers(m, ms[1..], rest[j]);
          assert rest[j] in rest;
        }
      }
    }
  }

  lemma {:induction false} SortSorts(ms: seq<Member>)
    requires DistinctKeys(ms)
    ensures Sorted(Sort(ms))
  {
    if ms != [] {
      var rest := Sort(ms[1..]);
      SortSorts(ms[1..]);
      forall i | 0 <= i < |rest| ensures rest[i].key != ms[0].key {
        SortMembers(ms[1..], rest[i]);
        assert rest[i] in rest;
      }
      InsertSorted(ms[0], rest);
    }
  }

  /** Strictly sorted lists with the same members are the same list. */
  lemma {:induction false} SortedUnique(a: seq<Member>, b: seq<Member>)
    requires Sorted(a) && Sorted(b) && forall x :: x in a <==> x in b
    ensures a == b
  {
    if a == [] {
      HeadIn(b);
    } else {
      assert a[0] in b;
      FirstIsFirst(a, b);
      var ra, rb := a[1..], b[1..];
      forall x ensures x in ra <==> x in rb {
        TailMember(a, x);
        TailMember(b, x);
      }
      SortedUnique(ra, rb);
      assert a == [a[0]] + ra && b == [b[0]] + rb;
    }
  }

  lemma HeadIn(b: seq<Member>)
    ensures b != [] ==> b[0] in b
  {}

  lemma SortedHead(a: seq<Member>, j: nat)
    requires Sorted(a) && j < |a|
    ensures j > 0 ==> Before(a[0].key, a[j].key)
  {}

  lemma FirstIsFirst(a: seq<Member>, b: seq<Member>)
    requires Sorted(a) && Sorted(b) && a != [] && forall x :: x in a <==> x in b
    ensures b != [] && a[0] == b[0]
  {
    assert a[0] in b;
    HeadIn(b);
    var i :| 0 <= i < |b| && b[i] == a[0];
    var j :| 0 <= j < |a| && a[j] == b[0];
    BeforeStrict(a[0].key, b[0].key);
    SortedHead(a, j);
    SortedHead(b, i);
  }

  lemma TailMember(a: seq<Member>, x: Member)
    requires Sorted(a) && a != []
    ensures x in a[1..] <==> x in a && x != a[0]
  {
    if x in a[1..] {
      var i :| 0 <= i < |a| - 1 && a[1..][i] == x;
      assert Before(a[0].key, a[i + 1].key);
      BeforeStrict(x.key, x.key);
    }
  }

  // ---------------------------------------------------------------- canonical form

  function Canon(v: Value): Value
    decreases v, 1
  {
    match v
    case Array(items) => Array(seq(|items|, i requires 0 <= i < |items| => Canon(items[i])))
    case Object(ms) =>
      Object(Sort(MembersOf(v)))
    case Null => v
    case Bool(_) => v
    case Number(_) => v
    case Str(_) => v
  }

  /** The members of an object with canonical values, in source order. */
  function MembersOf(v: Value): seq<Member>
    requires v.Object?
    decreases v, 0
  {
    seq(|v.members|, i requires 0 <= i < |v.members| => Member(v.members[i].key, Canon(v.members[i].value)))
  }

  function CanonMembers(ms: seq<Member>): seq<Member> {
    MembersOf(Object(ms))
  }

  /** Equal up to the order of object members, at every depth; array order counts. */
  ghost predicate Same(a: Value, b: Value) {
    match a
    case Array(xs) => b.Array? && |xs| == |b.items| && forall i | 0 <= i < |xs| :: Same(xs[i], b.items[i])
    case Object(ms) =>
      && b.Object? && |ms| == |b.members|
      && forall i | 0 <= i < |ms| :: exists j | 0 <= j < |b.members| ::
           ms[i].key == b.members[j].key && Same(ms[i].value, b.members[j].value)
    case Null => a == b
    case Bool(_) => a == b
    case Number(_) => a == b
    case Str(_) => a == b
  }

  lemma CanonObject(ms: seq<Member>)
    requires DistinctKeys(ms)
    ensures Canon(Object(ms)) == Object(Sort(CanonMembers(ms)))
    ensures Sorted(Sort(CanonMembers(ms))) && |Sort(CanonMembers(ms))| == |ms|
    ensures forall x :: x in Sort(CanonMembers(ms)) <==> x in CanonMembers(ms)
  {
    var cs := CanonMembers(ms);
    forall i, j | 0 <= i < j < |cs| ensures cs[i].key != cs[j].key {
      assert ms[i].key != ms[j].key;
    }
    SortSorts(cs);
    SortMembers(cs, Member("", Null));
    forall x ensures x in Sort(cs) <==> x in cs {
      SortMembers(cs, x);
    }
  }

  /** Canonicalisation is complete: values that differ only in member order get the same form. */
  lemma {:induction false} SameThenEqual(a: Value, b: Value)
    requires Valid(a) && Valid(b) && Same(a, b)
    ensures Canon(a) == Canon(b)
    decreases a
  {
    if a.Array? {
      var n := |a.items|;
      forall i | 0 <= i < n ensures Canon(a.items[i]) == Canon(b.items[i]) {
        SameThenEqual(a.items[i], b.items[i]);
      }
      assert Canon(a).items == Canon(b).items;
    } else if a.Object? {
      var ms, ns := a.members, b.members;
      var f := Matching(ms, ns);
      forall i | 0 <= i < |ms| ensures CanonMembers(ms)[i] == CanonMembers(ns)[f[i]] {
        SameThenEqual(ms[i].value, ns[f[i]].value);
      }
      SameMembers(CanonMembers(ms), CanonMembers(ns), f);
      CanonObject(ms);
      CanonObject(ns);
      SortedUnique(Sort(CanonMembers(ms)), Sort(CanonMembers(ns)));
    }
  }

  /** For each member of `ms`, the position of its counterpart in `ns`. */
  lemma Matching(ms: seq<Member>, ns: seq<Member>) returns (f: seq<nat>)
    requires Same(Object(ms), Object(ns)) && DistinctKeys(ms)
    ensures |f| == |ms| == |ns|
    ensures forall i | 0 <= i < |ms| :: f[i] < |ns| && ms[i].key == ns[f[i]].key && Same(ms[i].value, ns[f[i]].value)
    ensures forall i, j | 0 <= i < j < |f| :: f[i] != f[j]
  {
    f := [];
    for k := 0 to |ms|
      invariant |f| == k
      invariant forall i | 0 <= i < k :: f[i] < |ns| && ms[i].key == ns[f[i]].key && Same(ms[i].value, ns[f[i]].value)
    {
      var j :| 0 <= j < |ns| && ms[k].key == ns[j].key && Same(ms[k].value, ns[j].value);
      f := f + [j];
    }
  }

  function Below(n: nat): set<nat> {
    if n == 0 then {} else Below(n - 1) + {n - 1}
  }

  lemma {:induction false} BelowSize(n: nat)
    ensures |Below(n)| == n && forall i: nat :: i in Below(n) <==> i < n
  {
    if n > 0 {
      BelowSize(n - 1);
    }
  }

  function Hits(f: seq<nat>): set<nat> {
    if f == [] then {} else Hits(f[1..]) + {f[0]}
  }

  lemma {:induction false} HitsSize(f: seq<nat>)
    requires forall i, k | 0 <= i < k < |f| :: f[i] != f[k]
    ensures |Hits(f)| == |f| && forall j :: j in Hits(f) <==> j in f
  {
    if f != [] {
      HitsSize(f[1..]);
      assert f[0] !in f[1..];
    }
  }

  /** Distinct positions below `n` that are `n` in number reach every position. */
  lemma Onto(f: seq<nat>, n: nat, j: nat)
    requires |f| == n && j < n
    requires forall i | 0 <= i < n :: f[i] < n
    requires forall i, k | 0 <= i < k < n :: f[i] != f[k]
    ensures j in f
  {
    BelowSize(n);
    HitsSize(f);
    if j !in f {
      SubsetSize(Hits(f), Below(n) - {j});
    }
  }

  lemma {:induction false} SubsetSize<T>(a: set<T>, b: set<T>)
    requires a <= b
    ensures |a| <= |b|
  {
    if a != {} {
      var x :| x in a;
      SubsetSize(a - {x}, b - {x});
    }
  }

  lemma SameMembers(a: seq<Member>, b: seq<Member>, f: seq<nat>)
    requires |f| == |a| == |b|
    requires forall i | 0 <= i < |a| :: f[i] < |b| && a[i] == b[f[i]]
    requires forall i, j | 0 <= i < j < |f| :: f[i] != f[j]
    ensures forall x :: x in a <==> x in b
  {
    forall x ensures x in a <==> x in b {
      if x in b {
        var j :| 0 <= j < |b| && b[j] == x;
        Onto(f, |b|, j);
        var i :| 0 <= i < |f| && f[i] == j;
        assert a[i] == x;
      }
    }
  }

  /** Canonicalisation is sound: equal forms come only from values that differ in member order alone. */
  lemma {:induction false} EqualThenSame(a: Value, b: Value)
    requires Valid(a) && Valid(b) && Canon(a) == Canon(b)
    ensures Same(a, b)
    decreases a
  {
    if a.Array? {
      forall i | 0 <= i < |a.items| ensures |a.items| == |b.items| && Same(a.items[i], b.items[i]) {
        assert Canon(a).items[i] == Canon(b).items[i];
        EqualThenSame(a.items[i], b.items[i]);
      }
      assert |Canon(a).items| == |Canon(b).items|;
    } else if a.Object? {
      var ms, ns := a.members, b.members;
      CanonObject(ms);
      CanonObject(ns);
      forall i | 0 <= i < |ms|
        ensures exists j | 0 <= j < |ns| :: ms[i].key == ns[j].key && Same(ms[i].value, ns[j].value)
      {
        var c := CanonMembers(ms)[i];
        assert c in CanonMembers(ms);
        assert c in CanonMembers(ns);
        var j :| 0 <= j < |ns| && CanonMembers(ns)[j] == c;
        EqualThenSame(ms[i].value, ns[j].value);
      }
    }
  }

  /** Two values have the same canonical form exactly when they differ only by member order at any depth. */
  lemma CanonDecidesSame(a: Value, b: Value)
    requires Valid(a) && Valid(b)
    ensures Canon(a) == Canon(b) <==> Same(a, b)
  {
    if Same(a, b) {
      SameThenEqual(a, b);
    }
    if Canon(a) == Canon(b) {
      EqualThenSame(a, b);
    }
  }

  // ---------------------------------------------------------------- the canonical form is canonical

  /** Members in key order at every depth. */
  ghost predicate Ordered(v: Value) {
    match v
    case Array(items) => forall i | 0 <= i < |items| :: Ordered(items[i])
    case Object(ms) => Sorted(ms) && forall i | 0 <= i < |ms| :: Ordered(ms[i].value)
    case Null => true
    case Bool(_) => true
    case Number(_) => true
    case Str(_) => true
  }

  lemma {:induction false} CanonOrdered(v: Value)
    requires Valid(v)
    ensures Ordered(Canon(v))
  {
    if v.Array? {
      forall i | 0 <= i < |v.items| ensures Ordered(Canon(v).items[i]) {
        CanonOrdered(v.items[i]);
      }
    } else if v.Object? {
      CanonObject(v.members);
      var out := Canon(v).members;
      forall k | 0 <= k < |out| ensures Ordered(out[k].value) {
        assert out[k] in out;
        assert out[k] in CanonMembers(v.members);
        var i :| 0 <= i < |v.members| && CanonMembers(v.members)[i] == out[k];
        CanonOrdered(v.members[i].value);
      }
    }
  }

  lemma SortedDistinct(ms: seq<Member>)
    requires Sorted(ms)
    ensures DistinctKeys(ms)
  {
    forall i, j | 0 <= i < j < |ms| ensures ms[i].key != ms[j].key {
      BeforeStrict(ms[i].key, ms[j].key);
    }
  }

  /** An ordered value is its own canonical form. */
  lemma {:induction false} OrderedFixed(v: Value)
    requires Ordered(v)
    ensures Valid(v) && Canon(v) == v
  {
    if v.Array? {
      forall i | 0 <= i < |v.items| ensures Valid(v.items[i]) && Canon(v.items[i]) == v.items[i] {
        OrderedFixed(v.items[i]);
      }
      assert Canon(v).items == v.items;
    } else if v.Object? {
      var ms := v.members;
      SortedDistinct(ms);
      forall i | 0 <= i < |ms| ensures Valid(ms[i].value) && Canon(ms[i].value) == ms[i].value {
        OrderedFixed(ms[i].value);
      }
      assert CanonMembers(ms) == ms;
      CanonObject(ms);
      SortedUnique(Sort(CanonMembers(ms)), ms);
    }
  }

  /** Canonicalising twice is canonicalising once; the result is ordered and says the same as the input. */
  lemma CanonIdempotent(v: Value)
    requires Valid(v)
    ensures Canon(Canon(v)) == Canon(v) && Ordered(Canon(v)) && Valid(Canon(v)) && Same(v, Canon(v))
  {
    CanonOrdered(v);
    OrderedFixed(Canon(v));
    EqualThenSame(v, Canon(v));
  }

  /** Canonicalisation as it is written: sort the keys, then insert each member's canonical value. */
  method Canonicalize(v: Value) returns (r: Value)
    requires Valid(v)
    ensures r == Canon(v)
    decreases v
  {
    match v
    case Object(ms) =>
      var sorted := Sort(ms);
      var out: seq<Member> := [];
      SortSorts(ms);
      forall x ensures x in sorted <==> x in ms { SortMembers(ms, x); }
      for i := 0 to |sorted|
        invariant |out| == i
        invariant forall k | 0 <= k < i :: out[k] == Member(sorted[k].key, Canon(sorted[k].value))
      {
        assert sorted[i] in sorted;
        assert sorted[i] in ms;
        var value := Canonicalize(sorted[i].value);
        out := out + [Member(sorted[i].key, value)];
      }
      InsertedInOrder(ms, sorted, out);
      return Object(out);
    case Array(items) =>
      var out: seq<Value> := [];
      for i := 0 to |items|
        invariant |out| == i
        invariant forall k | 0 <= k < i :: out[k] == Canon(items[k])
      {
        var value := Canonicalize(items[i]);
        out := out + [value];
      }
      return Array(out);
    case Null => return v;
    case Bool(_) => return v;
    case Number(_) => return v;
    case Str(_) => return v;
  }

  lemma InsertedInOrder(ms: seq<Member>, sorted: seq<Member>, out: seq<Member>)
    requires DistinctKeys(ms) && Sorted(sorted) && forall x :: x in sorted <==> x in ms
    requires |out| == |sorted| && forall k | 0 <= k < |out| :: out[k] == Member(sorted[k].key, Canon(sorted[k].value))
    ensures Object(out) == Canon(Object(ms))
  {
    CanonObject(ms);
    assert Sorted(out);
    forall x ensures x in out <==> x in CanonMembers(ms) {
      if x in out {
        var k :| 0 <= k < |out| && out[k] == x;
        assert sorted[k] in ms;
        var i :| 0 <= i < |ms| && ms[i] == sorted[k];
        assert CanonMembers(ms)[i] == x;
      }
      if x in CanonMembers(ms) {
        var i :| 0 <= i < |ms| && CanonMembers(ms)[i] == x;
        assert ms[i] in sorted;
        var k :| 0 <= k < |sorted| && sorted[k] == ms[i];
        assert out[k] == x;
      }
    }
    SortedUnique(out, Sort(CanonMembers(ms)));
  }
}
