/** Syntax trees and the depth-bounded traversal that the definition extractors share. */
module SyntaxTree {
  import opened Text

  datatype Node = Node(kind: string, text: string, children: seq<Node>)

  const MAX_AST_DEPTH: nat := 256

  datatype Failure<+E> = TooDeep | Invalid(error: E)

  /** A definition without a name, or without a key that it must have. */
  datatype DefinitionError = MissingName | MissingKey(name: string)

  // ---------------------------------------------------------------- the tree as a list

  /** The nodes of a tree, each before its children. */
  function Preorder(n: Node): seq<Node>
    decreases n, |n.children| + 1
  {
    [n] + Below(n, |n.children|)
  }

  /** The nodes below the first `k` children. */
  function Below(n: Node, k: nat): seq<Node>
    requires k <= |n.children|
    decreases n, k
  {
    if k == 0 then [] else Below(n, k - 1) + Preorder(n.children[k - 1])
  }

  /** The depth of the deepest node, the root being at depth 0. */
  function Height(n: Node): nat
    decreases n, |n.children| + 1
  {
    HeightBelow(n, |n.children|)
  }

  function HeightBelow(n: Node, k: nat): nat
    requires k <= |n.children|
    decreases n, k
  {
    if k == 0 then 0
    else
      var h := HeightBelow(n, k - 1);
      var c := 1 + Height(n.children[k - 1]);
      if h < c then c else h
  }

  lemma {:induction false} HeightGrows(n: Node, j: nat, k: nat)
    requires j <= k <= |n.children|
    ensures HeightBelow(n, j) <= HeightBelow(n, k)
  {
    if j < k {
      HeightGrows(n, j, k - 1);
    }
  }

  lemma {:induction false} BelowGrows(n: Node, j: nat, k: nat)
    requires j <= k <= |n.children|
    ensures Below(n, j) <= Below(n, k)
  {
    if j < k {
      BelowGrows(n, j, k - 1);
    }
  }

  // ---------------------------------------------------------------- collecting definitions

  /** What an extractor makes of one node: nothing, a definition, or an error. */
  type Visitor<T, E> = Node -> Option<Result<T, E>>

  ghost predicate Fine<T, E>(visit: Visitor<T, E>, n: Node) {
    visit(n).None? || visit(n).value.Ok?
  }

  ghost predicate AllFine<T, E>(visit: Visitor<T, E>, ns: seq<Node>) {
    forall i | 0 <= i < |ns| :: Fine(visit, ns[i])
  }

  /** The definitions found in a list of nodes, in order. */
  function Found<T, E>(visit: Visitor<T, E>, ns: seq<Node>): seq<T> {
    if ns == [] then []
    else
      var v := visit(ns[0]);
      (if v.Some? && v.value.Ok? then [v.value.value] else []) + Found(visit, ns[1..])
  }

  lemma {:induction false} FoundConcat<T, E>(visit: Visitor<T, E>, a: seq<Node>, b: seq<Node>)
    ensures Found(visit, a + b) == Found(visit, a) + Found(visit, b)
  {
    if a == [] {
      assert a + b == b;
    } else {
      FoundConcat(visit, a[1..], b);
      assert (a + b)[1..] == a[1..] + b;
      var first := if visit(a[0]).Some? && visit(a[0]).value.Ok? then [visit(a[0]).value.value] else [];
      Associative(first, Found(visit, a[1..]), Found(visit, b));
    }
  }

  lemma FineParts<T, E>(visit: Visitor<T, E>, a: seq<Node>, b: seq<Node>)
    ensures AllFine(visit, a + b) <==> AllFine(visit, a) && AllFine(visit, b)
  {
    if AllFine(visit, a + b) {
      forall i | 0 <= i < |a| ensures Fine(visit, a[i]) { assert (a + b)[i] == a[i]; }
      forall i | 0 <= i < |b| ensures Fine(visit, b[i]) { assert (a + b)[|a| + i] == b[i]; }
    }
  }

  ghost predicate Succeeds<T, E>(visit: Visitor<T, E>, n: Node, depth: nat) {
    depth + Height(n) <= MAX_AST_DEPTH && AllFine(visit, Preorder(n))
  }

  /** The traversal succeeds exactly when no node is too deep and every node the extractor looks at is
      valid; it then has added the tree's definitions in preorder. Its errors are real ones. */
  method Traverse<T, E>(node: Node, visit: Visitor<T, E>, definitions: seq<T>, depth: nat)
    returns (r: Result<seq<T>, Failure<E>>)
    ensures r.Ok? <==> Succeeds(visit, node, depth)
    ensures r.Ok? ==> r.value == definitions + Found(visit, Preorder(node))
    ensures r == Err(TooDeep) ==> depth + Height(node) > MAX_AST_DEPTH
    ensures r.Err? && r.error.Invalid? ==>
              exists i :: 0 <= i < |Preorder(node)| && visit(Preorder(node)[i]) == Some(Err(r.error.error))
    decreases node
  {
    if depth > MAX_AST_DEPTH {
      return Err(TooDeep);
    }
    var out := definitions;
    var own := visit(node);
    if own.Some? {
      if own.value.Err? {
        assert Preorder(node)[0] == node;
        assert !Fine(visit, Preorder(node)[0]);
        return Err(Invalid(own.value.error));
      }
      out := out + [own.value.value];
    }
    OwnFound(visit, node);
    for i := 0 to |node.children|
      invariant depth + HeightBelow(node, i) <= MAX_AST_DEPTH
      invariant AllFine(visit, [node] + Below(node, i))
      invariant out == definitions + Found(visit, [node] + Below(node, i))
    {
      var child := node.children[i];
      ChildReached(visit, node, i, depth);
      var c := Traverse(child, visit, out, depth + 1);
      if c.Err? {
        if c.error.Invalid? {
          ghost var j :| 0 <= j < |Preorder(child)| && visit(Preorder(child)[j]) == Some(Err(c.error.error));
          ErrorBelow(node, i, j);
        }
        return Err(c.error);
      }
      NextFound(visit, node, i);
      Associative(definitions, Found(visit, [node] + Below(node, i)), Found(visit, Preorder(child)));
      out := c.value;
    }
    r := Ok(out);
  }

  lemma OwnFound<T, E>(visit: Visitor<T, E>, node: Node)
    requires Fine(visit, node)
    ensures AllFine(visit, [node] + Below(node, 0))
    ensures Found(visit, [node] + Below(node, 0)) == if visit(node).Some? then [visit(node).value.value] else []
  {
    assert [node] + Below(node, 0) == [node];
    assert [node][1..] == [] && Found(visit, [node][1..]) == [];
  }

  lemma NextFound<T, E>(visit: Visitor<T, E>, node: Node, i: nat)
    requires i < |node.children|
    ensures Found(visit, [node] + Below(node, i + 1))
            == Found(visit, [node] + Below(node, i)) + Found(visit, Preorder(node.children[i]))
  {
    FoundConcat(visit, [node] + Below(node, i), Preorder(node.children[i]));
    Associative([node], Below(node, i), Preorder(node.children[i]));
  }

  /** How the next child bears on the whole traversal. */
  lemma ChildReached<T, E>(visit: Visitor<T, E>, node: Node, i: nat, depth: nat)
    requires i < |node.children| && depth + HeightBelow(node, i) <= MAX_AST_DEPTH
    requires AllFine(visit, [node] + Below(node, i))
    ensures Succeeds(visit, node, depth) ==> Succeeds(visit, node.children[i], depth + 1)
    ensures Succeeds(visit, node.children[i], depth + 1) ==>
              depth + HeightBelow(node, i + 1) <= MAX_AST_DEPTH && AllFine(visit, [node] + Below(node, i + 1))
    ensures depth + 1 + Height(node.children[i]) <= depth + Height(node)
  {
    var child := node.children[i];
    HeightGrows(node, i + 1, |node.children|);
    BelowGrows(node, i + 1, |node.children|);
    FineParts(visit, [node] + Below(node, i), Preorder(child));
    assert [node] + Below(node, i) + Preorder(child) == [node] + Below(node, i + 1);
    var rest := Below(node, |node.children|)[|Below(node, i + 1)|..];
    assert Preorder(node) == [node] + Below(node, i + 1) + rest;
    FineParts(visit, [node] + Below(node, i + 1), rest);
  }

  lemma ErrorBelow(node: Node, i: nat, j: nat)
    requires i < |node.children| && j < |Preorder(node.children[i])|
    ensures var k := 1 + |Below(node, i)| + j;
            k < |Preorder(node)| && Preorder(node)[k] == Preorder(node.children[i])[j]
  {
    BelowGrows(node, i + 1, |node.children|);
    assert Below(node, i + 1)[|Below(node, i)| + j] == Preorder(node.children[i])[j];
  }

  // ---------------------------------------------------------------- keys and values

  datatype Property = Property(key: string, value: string)

  /** The value of a key: that of its last property. */
  function Last(ps: seq<Property>, key: string): Option<string> {
    if ps == [] then None
    else if ps[|ps| - 1].key == key then Some(ps[|ps| - 1].value)
    else Last(ps[..|ps| - 1], key)
  }

  lemma LastSnoc(ps: seq<Property>, p: Property, key: string)
    ensures Last(ps + [p], key) == if p.key == key then Some(p.value) else Last(ps, key)
  {
    assert (ps + [p])[..|ps + [p]| - 1] == ps;
  }

  lemma {:induction false} LastIsLast(ps: seq<Property>, key: string)
    ensures Last(ps, key).None? <==> forall i | 0 <= i < |ps| :: ps[i].key != key
    ensures Last(ps, key).Some? ==>
              exists i :: 0 <= i < |ps| && ps[i] == Property(key, Last(ps, key).value)
                          && forall j | i < j < |ps| :: ps[j].key != key
  {
    if ps != [] {
      var n := |ps| - 1;
      LastIsLast(ps[..n], key);
      if ps[n].key != key && Last(ps, key).Some? {
        var i :| 0 <= i < n && ps[..n][i] == Property(key, Last(ps, key).value)
                 && forall j | i < j < n :: ps[..n][j].key != key;
        assert ps[i] == ps[..n][i];
        forall j | i < j < |ps| ensures ps[j].key != key {
          if j < n { assert ps[..n][j] == ps[j]; }
        }
      }
    }
  }

  /** The property a node of a given kind states, its value being child `at`. */
  function PropertyOf(n: Node, kind: string, at: nat): seq<Property> {
    if n.kind == kind && 0 < |n.children| && at < |n.children|
    then [Property(n.children[0].text, TrimQuotes(n.children[at].text))]
    else []
  }

  function PropertiesOf(ns: seq<Node>, kind: string, at: nat): seq<Property> {
    if ns == [] then [] else PropertiesOf(ns[..|ns| - 1], kind, at) + PropertyOf(ns[|ns| - 1], kind, at)
  }

  lemma PropertiesSnoc(ns: seq<Node>, i: nat, kind: string, at: nat)
    requires i < |ns|
    ensures PropertiesOf(ns[..i + 1], kind, at) == PropertiesOf(ns[..i], kind, at) + PropertyOf(ns[i], kind, at)
  {
    assert ns[..i + 1][..i] == ns[..i];
  }
}
