/** Lists of what stands in a tree, in the order in which it stands there. */
module Listings {
  import opened Text

  /** A place below a node: which child, which child of that one, and so on. */
  type Path = seq<nat>

  predicate Earlier(p: Path, q: Path) {
    if p == [] then q != []
    else if q == [] then false
    else p[0] < q[0] || (p[0] == q[0] && Earlier(p[1..], q[1..]))
  }

  /** `xs` is all that stands at some place, once for each place and in the order of the places. */
  ghost predicate Enumerates<T>(xs: seq<T>, at: Path -> Option<T>) {
    exists ps :: Places(ps, xs, at)
  }

  ghost predicate Places<T>(ps: seq<Path>, xs: seq<T>, at: Path -> Option<T>) {
    && |ps| == |xs|
    && (forall j, k | 0 <= j < k < |ps| :: Earlier(ps[j], ps[k]))
    && (forall k | 0 <= k < |ps| :: at(ps[k]) == Some(xs[k]))
    && (forall p | at(p).Some? :: p in ps)
  }

  lemma {:induction false} NeverEarlier(p: Path, q: Path)
    ensures Earlier(p, q) ==> !Earlier(q, p) && p != q
  {
    if p != [] && q != [] && p[0] == q[0] {
      NeverEarlier(p[1..], q[1..]);
    }
  }

  lemma {:induction false} OneIsEarlier(p: Path, q: Path)
    ensures p == q || Earlier(p, q) || Earlier(q, p)
  {
    if p != [] && q != [] && p[0] == q[0] {
      OneIsEarlier(p[1..], q[1..]);
      assert p == [p[0]] + p[1..] && q == [q[0]] + q[1..];
    }
  }

  // ---------------------------------------------------------------- putting listings together

  lemma NothingStands<T>(at: Path -> Option<T>)
    requires forall p :: at(p).None?
    ensures Enumerates([], at)
  {
    assert Places([], [], at);
  }

  /** At most one thing, at the node itself. */
  lemma OneStands<T>(x: Option<T>, at: Path -> Option<T>)
    requires at([]) == x && forall p | p != [] :: at(p).None?
    ensures Enumerates(if x.Some? then [x.value] else [], at)
  {
    if x.Some? {
      assert Places([[]], [x.value], at);
    } else {
      NothingStands(at);
    }
  }

  /** How what stands below the first `k` children and below the next one makes up what stands below all of them. */
  ghost predicate Extends<T>(f: Path -> Option<T>, g: Path -> Option<T>, h: Path -> Option<T>, k: nat) {
    && (forall p :: f(p) == if p != [] && p[0] < k then h(p) else None)
    && (forall p :: g(p) == h([k] + p))
    && (forall p | h(p).Some? :: p != [] && p[0] <= k)
  }

  /** What stands below the first `k` children, then what stands below the next one. */
  lemma NextChild<T>(xs: seq<T>, ys: seq<T>, f: Path -> Option<T>, g: Path -> Option<T>, h: Path -> Option<T>, k: nat)
    requires Enumerates(xs, f) && Enumerates(ys, g) && Extends(f, g, h, k)
    ensures Enumerates(xs + ys, h)
  {
    var ps :| Places(ps, xs, f);
    var qs :| Places(qs, ys, g);
    var rs := ps + Under(k, qs);
    forall i, j | 0 <= i < j < |rs| ensures Earlier(rs[i], rs[j]) {
      InOrder(ps, qs, xs, ys, f, g, h, k, i, j);
    }
    forall i | 0 <= i < |rs| ensures h(rs[i]) == Some((xs + ys)[i]) {
      StandsThere(ps, qs, xs, ys, f, g, h, k, i);
    }
    forall p | h(p).Some? ensures p in rs {
      IsListed(ps, qs, xs, ys, f, g, h, k, p);
    }
    assert Places(rs, xs + ys, h);
  }

  lemma StandsThere<T>(ps: seq<Path>, qs: seq<Path>, xs: seq<T>, ys: seq<T>, f: Path -> Option<T>,
                       g: Path -> Option<T>, h: Path -> Option<T>, k: nat, i: nat)
    requires Places(ps, xs, f) && Places(qs, ys, g) && Extends(f, g, h, k) && i < |ps| + |qs|
    ensures h((ps + Under(k, qs))[i]) == Some((xs + ys)[i])
  {
    if i < |ps| {
      assert f(ps[i]) == Some(xs[i]);
    } else {
      assert g(qs[i - |ps|]) == Some(ys[i - |ps|]);
    }
  }

  lemma IsListed<T>(ps: seq<Path>, qs: seq<Path>, xs: seq<T>, ys: seq<T>, f: Path -> Option<T>,
                    g: Path -> Option<T>, h: Path -> Option<T>, k: nat, p: Path)
    requires Places(ps, xs, f) && Places(qs, ys, g) && Extends(f, g, h, k) && h(p).Some?
    ensures p in ps + Under(k, qs)
  {
    if p[0] < k {
      assert f(p).Some?;
    } else {
      assert p == [k] + p[1..] && g(p[1..]).Some?;
      var i :| 0 <= i < |qs| && qs[i] == p[1..];
      assert Under(k, qs)[i] == p;
    }
  }

  function Under(k: nat, qs: seq<Path>): (r: seq<Path>)
    ensures |r| == |qs| && forall i | 0 <= i < |qs| :: r[i] == [k] + qs[i]
  {
    seq(|qs|, i requires 0 <= i < |qs| => [k] + qs[i])
  }

  lemma InOrder<T>(ps: seq<Path>, qs: seq<Path>, xs: seq<T>, ys: seq<T>, f: Path -> Option<T>, g: Path -> Option<T>,
                   h: Path -> Option<T>, k: nat, i: nat, j: nat)
    requires Places(ps, xs, f) && Places(qs, ys, g) && Extends(f, g, h, k) && i < j < |ps| + |qs|
    ensures Earlier((ps + Under(k, qs))[i], (ps + Under(k, qs))[j])
  {
    if i < |ps| {
      assert f(ps[i]).Some?;
    } else {
      assert ([k] + qs[i - |ps|])[1..] == qs[i - |ps|] && ([k] + qs[j - |ps|])[1..] == qs[j - |ps|];
    }
  }

  function Flat<T>(parts: seq<seq<T>>): seq<T> {
    if parts == [] then [] else Flat(parts[..|parts| - 1]) + parts[|parts| - 1]
  }

  lemma {:induction false} FlatCons<T>(part: seq<T>, parts: seq<seq<T>>)
    ensures Flat([part] + parts) == part + Flat(parts)
  {
    var all := [part] + parts;
    if parts == [] {
      assert all[..|all| - 1] == [];
      assert [] + part == part + [];
    } else {
      assert all[..|all| - 1] == [part] + parts[..|parts| - 1];
      FlatCons(part, parts[..|parts| - 1]);
      Associative(part, Flat(parts[..|parts| - 1]), parts[|parts| - 1]);
    }
  }

  /** What stands below one of the first `k` children, the place beginning with the number of the child. */
  function AtOne<T>(own: (nat, Path) -> Option<T>, k: nat, p: Path): Option<T> {
    if p != [] && p[0] < k then own(p[0], p[1..]) else None
  }

  ghost predicate PartListed<T>(xs: seq<T>, own: (nat, Path) -> Option<T>, i: nat) {
    Enumerates(xs, p => own(i, p))
  }

  lemma {:induction false} PartsListed<T>(own: (nat, Path) -> Option<T>, parts: seq<seq<T>>, k: nat)
    requires k <= |parts| && forall i | 0 <= i < |parts| :: PartListed(parts[i], own, i)
    ensures Enumerates(Flat(parts[..k]), p => AtOne(own, k, p))
  {
    if k == 0 {
      NothingStands(p => AtOne(own, k, p));
    } else {
      PartsListed(own, parts, k - 1);
      assert parts[..k][..k - 1] == parts[..k - 1];
      assert PartListed(parts[k - 1], own, k - 1);
      NextPart(own, k - 1);
      NextChild(Flat(parts[..k - 1]), parts[k - 1], p => AtOne(own, k - 1, p), p => own(k - 1, p),
                p => AtOne(own, k, p), k - 1);
    }
  }

  lemma NextPart<T>(own: (nat, Path) -> Option<T>, k: nat)
    ensures Extends(p => AtOne(own, k, p), p => own(k, p), p => AtOne(own, k + 1, p), k)
  {
    forall p: Path ensures own(k, p) == AtOne(own, k + 1, [k] + p) {
      assert ([k] + p)[1..] == p;
    }
  }

  /** The list of what stands below the children, each of which has a list of its own. */
  lemma AllListed<T>(own: (nat, Path) -> Option<T>, parts: seq<seq<T>>, all: Path -> Option<T>)
    requires forall i | 0 <= i < |parts| :: PartListed(parts[i], own, i)
    requires forall p :: all(p) == AtOne(own, |parts|, p)
    ensures Enumerates(Flat(parts), all)
  {
    PartsListed(own, parts, |parts|);
    assert parts[..|parts|] == parts;
    SamePlaces(Flat(parts), p => AtOne(own, |parts|, p), all);
  }

  /** What stands at the node itself, and what stands below it. */
  ghost predicate Rooted<T>(x: T, f: Path -> Option<T>, h: Path -> Option<T>) {
    h([]) == Some(x) && f([]).None? && forall p | p != [] :: h(p) == f(p)
  }

  /** What stands at the node itself comes before what stands below it. */
  lemma FirstStands<T>(x: T, xs: seq<T>, f: Path -> Option<T>, h: Path -> Option<T>)
    requires Enumerates(xs, f) && Rooted(x, f, h)
    ensures Enumerates([x] + xs, h)
  {
    var ps :| Places(ps, xs, f);
    FirstInOrder(x, xs, f, h, ps);
    FirstAreThere(x, xs, f, h, ps);
    FirstAreListed(x, xs, f, h, ps);
    assert Places([[]] + ps, [x] + xs, h);
  }

  lemma FirstInOrder<T>(x: T, xs: seq<T>, f: Path -> Option<T>, h: Path -> Option<T>, ps: seq<Path>)
    requires Places(ps, xs, f) && Rooted(x, f, h)
    ensures forall j, k | 0 <= j < k < 1 + |ps| :: Earlier(([[]] + ps)[j], ([[]] + ps)[k])
  {
    forall j, k | 0 <= j < k < 1 + |ps| ensures Earlier(([[]] + ps)[j], ([[]] + ps)[k]) {
      assert f(ps[k - 1]) == Some(xs[k - 1]);
    }
  }

  lemma FirstAreThere<T>(x: T, xs: seq<T>, f: Path -> Option<T>, h: Path -> Option<T>, ps: seq<Path>)
    requires Places(ps, xs, f) && Rooted(x, f, h)
    ensures forall k | 0 <= k < 1 + |ps| :: h(([[]] + ps)[k]) == Some(([x] + xs)[k])
  {
    forall k | 0 <= k < 1 + |ps| ensures h(([[]] + ps)[k]) == Some(([x] + xs)[k]) {
      if k > 0 { assert f(ps[k - 1]) == Some(xs[k - 1]); }
    }
  }

  lemma FirstAreListed<T>(x: T, xs: seq<T>, f: Path -> Option<T>, h: Path -> Option<T>, ps: seq<Path>)
    requires Places(ps, xs, f) && Rooted(x, f, h)
    ensures forall p | h(p).Some? :: p in [[]] + ps
  {
    forall p | h(p).Some? ensures p in [[]] + ps {
      if p == [] {
        assert ([[]] + ps)[0] == p;
      } else {
        assert f(p).Some?;
        var i :| 0 <= i < |ps| && ps[i] == p;
        assert ([[]] + ps)[i + 1] == p;
      }
    }
  }

  /** Only what stands where counts. */
  lemma SamePlaces<T>(xs: seq<T>, f: Path -> Option<T>, g: Path -> Option<T>)
    requires Enumerates(xs, f) && forall p :: f(p) == g(p)
    ensures Enumerates(xs, g)
  {
    var ps :| Places(ps, xs, f);
    assert Places(ps, xs, g);
  }

  /** There is one such list. */
  lemma {:induction false} OneListing<T>(xs: seq<T>, ys: seq<T>, at: Path -> Option<T>)
    requires Enumerates(xs, at) && Enumerates(ys, at)
    ensures xs == ys
  {
    var ps :| Places(ps, xs, at);
    var qs :| Places(qs, ys, at);
    forall p ensures p in ps <==> p in qs {
      if p in ps { var k :| 0 <= k < |ps| && ps[k] == p; assert at(ps[k]).Some?; }
      if p in qs { var k :| 0 <= k < |qs| && qs[k] == p; assert at(qs[k]).Some?; }
    }
    SortedPaths(ps, qs);
    forall k | 0 <= k < |xs| ensures xs[k] == ys[k] {
      assert at(ps[k]) == Some(xs[k]) && at(qs[k]) == Some(ys[k]);
    }
  }

  lemma {:induction false} SortedPaths(ps: seq<Path>, qs: seq<Path>)
    requires forall j, k | 0 <= j < k < |ps| :: Earlier(ps[j], ps[k])
    requires forall j, k | 0 <= j < k < |qs| :: Earlier(qs[j], qs[k])
    requires forall p :: p in ps <==> p in qs
    ensures ps == qs
    decreases |ps|
  {
    if ps == [] || qs == [] {
      FirstMember(ps);
      FirstMember(qs);
    } else {
      assert ps[0] in qs;
      var j :| 0 <= j < |qs| && qs[j] == ps[0];
      assert qs[0] in ps;
      var i :| 0 <= i < |ps| && ps[i] == qs[0];
      NeverEarlier(ps[0], qs[0]);
      NeverEarlier(qs[0], ps[0]);
      assert ps[0] == qs[0];
      SameTails(ps, qs);
      SortedPaths(ps[1..], qs[1..]);
    }
  }

  lemma FirstMember(ps: seq<Path>)
    ensures ps != [] ==> ps[0] in ps
  {}

  lemma SameTails(ps: seq<Path>, qs: seq<Path>)
    requires ps != [] && qs != [] && ps[0] == qs[0]
    requires forall j, k | 0 <= j < k < |ps| :: Earlier(ps[j], ps[k])
    requires forall j, k | 0 <= j < k < |qs| :: Earlier(qs[j], qs[k])
    requires forall p :: p in ps <==> p in qs
    ensures forall p :: p in ps[1..] <==> p in qs[1..]
  {
    forall p ensures p in ps[1..] <==> p in qs[1..] {
      if p in ps[1..] {
        var k :| 0 <= k < |ps| - 1 && ps[1..][k] == p;
        NeverEarlier(ps[0], ps[k + 1]);
        InTail(qs, p);
      }
      if p in qs[1..] {
        var k :| 0 <= k < |qs| - 1 && qs[1..][k] == p;
        NeverEarlier(qs[0], qs[k + 1]);
        InTail(ps, p);
      }
    }
  }

  lemma InTail(qs: seq<Path>, p: Path)
    requires qs != [] && (p in qs || p == qs[0]) && p != qs[0]
    ensures p in qs[1..]
  {
    var k :| 0 <= k < |qs| && qs[k] == p;
    assert qs[1..][k - 1] == p;
  }
}
