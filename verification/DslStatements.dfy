/** What the children of a node state, place by place, and which statement of a key counts. */
module DslStatements {
  import opened Text
  import opened SyntaxTree
  import opened Listings

  type Statements = Path -> Option<Property>

  /** The statement at place `[i]`: child `i` if it is of the given kind, its first child the key and its child number
      `at`, without quotes, the value. */
  function StatedAt(n: Node, kind: string, at: nat, p: Path): Option<Property> {
    if |p| == 1 && p[0] < |n.children| then OwnStatement(n.children[p[0]], kind, at) else None
  }

  function OwnStatement(c: Node, kind: string, at: nat): Option<Property> {
    if c.kind == kind && |c.children| > 0 && |c.children| > at
    then Some(Property(c.children[0].text, TrimQuotes(c.children[at].text)))
    else None
  }

  function OwnAt(c: Node, kind: string, at: nat, p: Path): Option<Property> {
    if p == [] then OwnStatement(c, kind, at) else None
  }

  /** The latest statement of the key gives it the value `v`. */
  ghost predicate Latest(at: Statements, key: string, v: string) {
    exists p :: LatestPlace(at, key, v, p)
  }

  ghost predicate LatestPlace(at: Statements, key: string, v: string, p: Path) {
    at(p) == Some(Property(key, v)) && forall q | at(q).Some? && at(q).value.key == key :: q == p || Earlier(q, p)
  }

  /** A field that has the latest value of its key, or none if the key is not stated. */
  ghost predicate Reads(field: Option<string>, at: Statements, key: string) {
    match field
    case Some(v) => Latest(at, key, v)
    case None => forall p | at(p).Some? :: at(p).value.key != key
  }

  /** A field with a value of its own where the key is not stated. */
  ghost predicate ReadsOr(field: string, at: Statements, key: string, default: string) {
    exists o :: Reads(o, at, key) && field == if o.Some? then o.value else default
  }

  lemma LastReads(ps: seq<Property>, at: Statements, key: string)
    requires Enumerates(ps, at)
    ensures Reads(Last(ps, key), at, key)
  {
    var places :| Places(places, ps, at);
    LastIsLast(ps, key);
    if Last(ps, key).Some? {
      var v := Last(ps, key).value;
      var i :| 0 <= i < |ps| && ps[i] == Property(key, v) && forall j | i < j < |ps| :: ps[j].key != key;
      LatestListed(places, ps, at, key, v, i);
    } else {
      NoneListed(places, ps, at, key);
    }
  }

  lemma LatestListed(places: seq<Path>, ps: seq<Property>, at: Statements, key: string, v: string, i: nat)
    requires Places(places, ps, at) && i < |ps| && ps[i] == Property(key, v)
    requires forall j | i < j < |ps| :: ps[j].key != key
    ensures Latest(at, key, v)
  {
    forall q | at(q).Some? && at(q).value.key == key ensures q == places[i] || Earlier(q, places[i]) {
      StatedInList(places, ps, at, q, i);
    }
    assert at(places[i]) == Some(ps[i]);
    assert LatestPlace(at, key, v, places[i]);
  }

  lemma StatedInList(places: seq<Path>, ps: seq<Property>, at: Statements, q: Path, i: nat)
    requires Places(places, ps, at) && i < |ps| && at(q).Some?
    requires forall j | i < j < |ps| :: ps[j].key != at(q).value.key
    ensures q == places[i] || Earlier(q, places[i])
  {
    assert q in places;
    var k :| 0 <= k < |places| && places[k] == q;
    assert at(places[k]) == Some(ps[k]);
  }

  lemma NoneListed(places: seq<Path>, ps: seq<Property>, at: Statements, key: string)
    requires Places(places, ps, at) && forall i | 0 <= i < |ps| :: ps[i].key != key
    ensures forall p | at(p).Some? :: at(p).value.key != key
  {
    forall p | at(p).Some? ensures at(p).value.key != key {
      assert p in places;
      var k :| 0 <= k < |places| && places[k] == p;
      assert at(places[k]) == Some(ps[k]);
    }
  }

  /** A key has one latest value. */
  lemma LatestIsOne(at: Statements, key: string, v: string, w: string)
    requires Latest(at, key, v) && Latest(at, key, w)
    ensures v == w
  {
    var p :| LatestPlace(at, key, v, p);
    var q :| LatestPlace(at, key, w, q);
    NeverEarlier(p, q);
  }

  lemma ReadsLatest(field: Option<string>, at: Statements, key: string, v: string)
    requires Reads(field, at, key)
    ensures field == Some(v) <==> Latest(at, key, v)
  {
    if Latest(at, key, v) {
      var p :| LatestPlace(at, key, v, p);
      if field.Some? {
        LatestIsOne(at, key, v, field.value);
      }
    }
  }

  lemma ReadsOne(f: Option<string>, g: Option<string>, at: Statements, key: string)
    requires Reads(f, at, key) && Reads(g, at, key)
    ensures f == g
  {
    if f.Some? {
      ReadsLatest(g, at, key, f.value);
    } else if g.Some? {
      ReadsLatest(f, at, key, g.value);
    }
  }

  lemma ReadsOrOne(f: string, g: string, at: Statements, key: string, default: string)
    requires ReadsOr(f, at, key, default) && ReadsOr(g, at, key, default)
    ensures f == g
  {
    var o :| Reads(o, at, key) && f == if o.Some? then o.value else default;
    var u :| Reads(u, at, key) && g == if u.Some? then u.value else default;
    ReadsOne(o, u, at, key);
  }

  // ---------------------------------------------------------------- what stands below the children

  /** What stands below a node at a place. */
  type Lookup<!T> = (Node, Path) -> Option<T>

  ghost predicate Listed<T>(xs: seq<T>, own: Lookup<T>, n: Node) {
    Enumerates(xs, p => own(n, p))
  }

  lemma OneListed<T>(x: Option<T>, own: Lookup<T>, n: Node)
    requires own(n, []) == x && forall p | p != [] :: own(n, p).None?
    ensures Listed(if x.Some? then [x.value] else [], own, n)
  {
    OneStands(x, p => own(n, p));
  }

  lemma NothingListed<T>(own: Lookup<T>, n: Node)
    requires forall p :: own(n, p).None?
    ensures Listed([], own, n)
  {
    NothingStands(p => own(n, p));
  }

  lemma ChildListed<T>(xs: seq<T>, own: Lookup<T>, c: Node, below: (nat, Path) -> Option<T>, i: nat)
    requires Listed(xs, own, c) && forall p :: below(i, p) == own(c, p)
    ensures PartListed(xs, below, i)
  {
    SamePlaces(xs, p => own(c, p), p => below(i, p));
  }

  /** The list of a node whose children have lists of their own. */
  lemma ChildrenListed<T>(n: Node, own: Lookup<T>, parts: seq<seq<T>>, all: Path -> Option<T>)
    requires |parts| == |n.children| && forall i | 0 <= i < |parts| :: Listed(parts[i], own, n.children[i])
    requires forall p :: all(p) == if p != [] && p[0] < |n.children| then own(n.children[p[0]], p[1..]) else None
    ensures Enumerates(Flat(parts), all)
  {
    var below: (nat, Path) -> Option<T> := (i: nat, p: Path) => if i < |parts| then own(n.children[i], p) else None;
    forall i | 0 <= i < |parts| ensures PartListed(parts[i], below, i) {
      ChildListed(parts[i], own, n.children[i], below, i);
    }
    AllListed(below, parts, all);
  }

  lemma NodeListed<T>(n: Node, own: Lookup<T>, parts: seq<seq<T>>, all: Lookup<T>)
    requires |parts| == |n.children| && forall i | 0 <= i < |parts| :: Listed(parts[i], own, n.children[i])
    requires forall p :: all(n, p) == if p != [] && p[0] < |n.children| then own(n.children[p[0]], p[1..]) else None
    ensures Listed(Flat(parts), all, n)
  {
    ChildrenListed(n, own, parts, p => all(n, p));
  }

  lemma SameListed<T>(xs: seq<T>, f: Lookup<T>, g: Lookup<T>, n: Node)
    requires Listed(xs, f, n) && forall p :: f(n, p) == g(n, p)
    ensures Listed(xs, g, n)
  {
    SamePlaces(xs, p => f(n, p), p => g(n, p));
  }

  lemma {:induction false} PropertiesAreFlat(ns: seq<Node>, kind: string, at: nat, parts: seq<seq<Property>>)
    requires |parts| == |ns| && forall i | 0 <= i < |ns| :: parts[i] == PropertyOf(ns[i], kind, at)
    ensures PropertiesOf(ns, kind, at) == Flat(parts)
  {
    if ns != [] {
      PropertiesAreFlat(ns[..|ns| - 1], kind, at, parts[..|ns| - 1]);
    }
  }

  lemma PropertiesAreListed(n: Node, kind: string, at: nat)
    ensures Enumerates(PropertiesOf(n.children, kind, at), p => StatedAt(n, kind, at, p))
  {
    var parts := seq(|n.children|, i requires 0 <= i < |n.children| => PropertyOf(n.children[i], kind, at));
    var own: Lookup<Property> := (c, p) => OwnAt(c, kind, at, p);
    forall i | 0 <= i < |parts| ensures Listed(parts[i], own, n.children[i]) {
      OneListed(OwnStatement(n.children[i], kind, at), own, n.children[i]);
    }
    PropertiesAreFlat(n.children, kind, at, parts);
    ChildrenListed(n, own, parts, p => StatedAt(n, kind, at, p));
  }

  // ---------------------------------------------------------------- one result for each node of a kind

  function OfKind(ns: seq<Node>, kind: string): seq<Node> {
    if ns == [] then [] else (if ns[0].kind == kind then [ns[0]] else []) + OfKind(ns[1..], kind)
  }

  lemma {:induction false} OfKindMembers(ns: seq<Node>, kind: string, n: Node)
    ensures n in OfKind(ns, kind) <==> n in ns && n.kind == kind
  {
    if ns != [] {
      OfKindMembers(ns[1..], kind, n);
      assert ns == [ns[0]] + ns[1..];
    }
  }

  /** An extractor that looks at the nodes of one kind only. */
  ghost predicate LooksAt<T, E>(visit: Visitor<T, E>, kind: string) {
    forall n :: visit(n).None? <==> n.kind != kind
  }

  ghost predicate MadeOf<T, E>(visit: Visitor<T, E>, ds: seq<Node>, rs: seq<T>) {
    |rs| == |ds| && forall i | 0 <= i < |rs| :: visit(ds[i]) == Some(Ok(rs[i]))
  }

  /** One result for each node of the kind, when every such node is good; what a node is read as says which. */
  lemma ByNode<T, E>(visit: Visitor<T, E>, kind: string, ns: seq<Node>, good: Node -> bool,
                     read: (Node, Result<T, E>) -> bool)
    requires LooksAt(visit, kind)
    requires forall n | visit(n).Some? :: read(n, visit(n).value) && (visit(n).value.Ok? <==> good(n))
    ensures AllFine(visit, ns) <==> forall d <- OfKind(ns, kind) :: good(d)
    ensures AllFine(visit, ns) ==> ReadAs(read, OfKind(ns, kind), Found(visit, ns))
  {
    FineByKind(visit, kind, ns);
    forall d <- OfKind(ns, kind) ensures visit(d).Some? {
      OfKindMembers(ns, kind, d);
    }
    if AllFine(visit, ns) {
      OneForEach(visit, kind, ns);
    }
  }

  /** Each result is what the node with its number is read as. */
  ghost predicate ReadAs<T, E>(read: (Node, Result<T, E>) -> bool, ds: seq<Node>, rs: seq<T>) {
    |rs| == |ds| && forall i | 0 <= i < |ds| :: read(ds[i], Ok(rs[i]))
  }

  lemma {:induction false} OneForEach<T, E>(visit: Visitor<T, E>, kind: string, ns: seq<Node>)
    requires LooksAt(visit, kind) && AllFine(visit, ns)
    ensures MadeOf(visit, OfKind(ns, kind), Found(visit, ns))
  {
    if ns != [] {
      assert Fine(visit, ns[0]);
      forall i | 0 <= i < |ns| - 1 ensures Fine(visit, ns[1..][i]) { assert Fine(visit, ns[i + 1]); }
      OneForEach(visit, kind, ns[1..]);
      if ns[0].kind == kind {
        OneMore(visit, ns[0], OfKind(ns[1..], kind), Found(visit, ns[1..]));
      } else {
        NoneMore(OfKind(ns[1..], kind));
        NoneMore(Found(visit, ns[1..]));
      }
    }
  }

  lemma NoneMore<T>(xs: seq<T>)
    ensures [] + xs == xs
  {}

  lemma OneMore<T, E>(visit: Visitor<T, E>, d: Node, ds: seq<Node>, rs: seq<T>)
    requires MadeOf(visit, ds, rs) && visit(d).Some? && visit(d).value.Ok?
    ensures MadeOf(visit, [d] + ds, [visit(d).value.value] + rs)
  {}

  lemma FineByKind<T, E>(visit: Visitor<T, E>, kind: string, ns: seq<Node>)
    requires LooksAt(visit, kind)
    ensures AllFine(visit, ns) <==> forall n <- OfKind(ns, kind) :: Fine(visit, n)
  {
    forall n ensures n in OfKind(ns, kind) <==> n in ns && n.kind == kind {
      OfKindMembers(ns, kind, n);
    }
    if AllFine(visit, ns) {
      forall n <- OfKind(ns, kind) ensures Fine(visit, n) {
        var i :| 0 <= i < |ns| && ns[i] == n;
        assert Fine(visit, ns[i]);
      }
    }
    if forall n <- OfKind(ns, kind) :: Fine(visit, n) {
      forall i | 0 <= i < |ns| ensures Fine(visit, ns[i]) {
        assert ns[i] in ns;
      }
    }
  }

  // ---------------------------------------------------------------- the places of the nodes themselves

  /** The node at a place. */
  function NodeAt(n: Node, p: Path): Option<Node>
    decreases p
  {
    if p == [] then Some(n)
    else if p[0] < |n.children| then NodeAt(n.children[p[0]], p[1..])
    else None
  }

  /** The nodes of a tree in preorder are those at its places, a node before what stands below it. */
  lemma {:induction false} PreorderListed(n: Node)
    ensures Listed(Preorder(n), NodeAt, n)
    decreases n
  {
    var parts := seq(|n.children|, i requires 0 <= i < |n.children| => Preorder(n.children[i]));
    forall i | 0 <= i < |parts| ensures Listed(parts[i], NodeAt, n.children[i]) {
      PreorderListed(n.children[i]);
    }
    BelowIsFlat(n, |n.children|, parts);
    assert parts[..|parts|] == parts;
    RootFirst(n, parts);
  }

  lemma RootFirst(n: Node, parts: seq<seq<Node>>)
    requires |parts| == |n.children| && forall i | 0 <= i < |parts| :: Listed(parts[i], NodeAt, n.children[i])
    ensures Listed([n] + Flat(parts), NodeAt, n)
  {
    var own: Lookup<Node> := NodeAt;
    ChildrenListed(n, own, parts, p => NodeBelow(n, p));
    assert NodeAt(n, []) == Some(n);
    forall p: Path | p != [] ensures own(n, p) == NodeBelow(n, p) {
      assert own(n, p) == NodeAt(n, p);
    }
    FirstStands(n, Flat(parts), p => NodeBelow(n, p), p => own(n, p));
  }

  function NodeBelow(n: Node, p: Path): Option<Node> {
    if p == [] then None else NodeAt(n, p)
  }

  lemma {:induction false} BelowIsFlat(n: Node, k: nat, parts: seq<seq<Node>>)
    requires k <= |n.children| == |parts| && forall i | 0 <= i < |parts| :: parts[i] == Preorder(n.children[i])
    ensures Below(n, k) == Flat(parts[..k])
  {
    if k > 0 {
      BelowIsFlat(n, k - 1, parts);
      assert parts[..k][..k - 1] == parts[..k - 1];
    }
  }

  /** A tree has a height within a bound exactly when none of its places is longer. */
  lemma {:induction false} HeightExactly(n: Node, bound: nat)
    ensures Height(n) <= bound <==> forall p | NodeAt(n, p).Some? :: |p| <= bound
  {
    HighestPlace(n);
    forall p | NodeAt(n, p).Some? ensures |p| <= Height(n) {
      PlaceWithin(n, p);
    }
  }

  lemma {:induction false} PlaceWithin(n: Node, p: Path)
    requires NodeAt(n, p).Some?
    ensures |p| <= Height(n)
    decreases p
  {
    if p != [] {
      PlaceWithin(n.children[p[0]], p[1..]);
      HeightGrows(n, p[0] + 1, |n.children|);
    }
  }

  lemma {:induction false} HighestPlace(n: Node)
    ensures exists p :: NodeAt(n, p).Some? && |p| == Height(n)
    decreases n
  {
    if n.children == [] {
      assert NodeAt(n, []).Some?;
    } else {
      var k := HighestChild(n, |n.children|);
      HighestPlace(n.children[k]);
      var p :| NodeAt(n.children[k], p).Some? && |p| == Height(n.children[k]);
      assert ([k] + p)[1..] == p;
      assert NodeAt(n, [k] + p).Some?;
    }
  }

  lemma {:induction false} HighestChild(n: Node, m: nat) returns (k: nat)
    requires 0 < m <= |n.children|
    ensures k < m && HeightBelow(n, m) == 1 + Height(n.children[k])
  {
    k := m - 1;
    if m > 1 && HeightBelow(n, m - 1) >= 1 + Height(n.children[m - 1]) {
      k := HighestChild(n, m - 1);
    }
  }
}
