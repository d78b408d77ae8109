/** Extracting webhook definitions from a syntax tree. */
module DslWebhooks {
  import opened Text
  import opened SyntaxTree
  import opened Listings
  import opened DslStatements

  datatype Provider = GitHub | Stripe | SlackHook | Custom

  datatype Filter = Filter(jsonPath: string, equals: Option<string>, contains: Option<string>)

  datatype Webhook = Webhook(
    name: string, path: string, provider: Provider, secret: string, agent: Option<string>, filter: Option<Filter>)

  function ParseProvider(s: string): Provider {
    var l := ToLower(s);
    if l == "github" then GitHub else if l == "stripe" then Stripe else if l == "slack" then SlackHook else Custom
  }

  /** The properties of an error node: adjacent identifiers are a key and its unquoted value. */
  function ErrorProperties(ns: seq<Node>, i: nat): seq<Property>
    requires i <= |ns|
    decreases |ns| - i
  {
    if i == |ns| then []
    else if ns[i].kind == "identifier" && i + 1 < |ns| && ns[i + 1].kind == "identifier" then
      [Property(ns[i].text, ns[i + 1].text)] + ErrorProperties(ns, i + 2)
    else PropertyOf(ns[i], "webhook_property", 1) + ErrorProperties(ns, i + 1)
  }

  function WebhookProperty(n: Node): seq<Property> {
    if n.kind == "ERROR" then ErrorProperties(n.children, 0) else PropertyOf(n, "webhook_property", 1)
  }

  function WebhookProperties(ns: seq<Node>): seq<Property> {
    if ns == [] then [] else WebhookProperties(ns[..|ns| - 1]) + WebhookProperty(ns[|ns| - 1])
  }

  function OrEmpty(o: Option<string>): string {
    if o.Some? then o.value else ""
  }

  function FilterFrom(ps: seq<Property>): Filter {
    Filter(OrEmpty(Last(ps, "json_path")), Last(ps, "equals"), Last(ps, "contains"))
  }

  /** The filter of the last filter block. */
  function LastFilter(ns: seq<Node>): Option<Filter> {
    if ns == [] then None
    else
      var n := ns[|ns| - 1];
      if n.kind == "webhook_filter_block" then Some(FilterFrom(PropertiesOf(n.children, "webhook_filter_property", 1)))
      else LastFilter(ns[..|ns| - 1])
  }

  function WebhookFrom(name: string, ps: seq<Property>, filter: Option<Filter>): Webhook {
    var provider := Last(ps, "provider");
    Webhook(name, OrEmpty(Last(ps, "path")), if provider.Some? then ParseProvider(provider.value) else Custom,
            OrEmpty(Last(ps, "secret")), Last(ps, "agent"), filter)
  }

  function VisitWebhook(n: Node): Option<Result<Webhook, DefinitionError>> {
    if n.kind != "webhook_definition" then None
    else if |n.children| < 2 then Some(Err(MissingName))
    else
      var name, ps := n.children[1].text, WebhookProperties(n.children);
      if Last(ps, "path").None? then Some(Err(MissingKey(name)))
      else Some(Ok(WebhookFrom(name, ps, LastFilter(n.children))))
  }

  // ---------------------------------------------------------------- what a webhook node is read as

  /** A name whose letters may each be small or large. */
  predicate InSomeCase(s: string, small: string, large: string) {
    |s| == |small| == |large| && forall i | 0 <= i < |s| :: s[i] == small[i] || s[i] == large[i]
  }

  predicate ProviderSpelled(p: Provider, s: string) {
    match p
    case GitHub => InSomeCase(s, "github", "GITHUB")
    case Stripe => InSomeCase(s, "stripe", "STRIPE")
    case SlackHook => InSomeCase(s, "slack", "SLACK")
    case Custom =>
      && !InSomeCase(s, "github", "GITHUB")
      && !InSomeCase(s, "stripe", "STRIPE")
      && !InSomeCase(s, "slack", "SLACK")
  }

  /** How many identifiers stand directly before child `i`. */
  function RunBefore(ns: seq<Node>, i: nat): nat
    requires i <= |ns|
  {
    if i > 0 && ns[i - 1].kind == "identifier" then 1 + RunBefore(ns, i - 1) else 0
  }

  /** Child `i` of an error node states a pair if it is a property node, or if it and the next one are identifiers and
      an even number of identifiers stands directly before it. */
  function ErrorStatement(ns: seq<Node>, i: nat): Option<Property>
    requires i < |ns|
  {
    if ns[i].kind != "identifier" then OwnStatement(ns[i], "webhook_property", 1)
    else if RunBefore(ns, i) % 2 == 0 && i + 1 < |ns| && ns[i + 1].kind == "identifier"
    then Some(Property(ns[i].text, ns[i + 1].text))
    else None
  }

  /** What a child of a webhook node states: at the child itself or, in an error node, at its children. */
  function OwnWebhook(c: Node, p: Path): Option<Property> {
    if c.kind != "ERROR" then OwnAt(c, "webhook_property", 1, p)
    else if |p| == 1 && p[0] < |c.children| then ErrorStatement(c.children, p[0])
    else None
  }

  function WebhookStatement(n: Node, p: Path): Option<Property> {
    if p != [] && p[0] < |n.children| then OwnWebhook(n.children[p[0]], p[1..]) else None
  }

  ghost predicate StatesPath(n: Node) {
    exists p :: WebhookStatement(n, p).Some? && WebhookStatement(n, p).value.key == "path"
  }

  ghost predicate FilterHolds(block: Node, f: Filter) {
    var at: Statements := p => StatedAt(block, "webhook_filter_property", 1, p);
    ReadsOr(f.jsonPath, at, "json_path", "") && Reads(f.equals, at, "equals") && Reads(f.contains, at, "contains")
  }

  /** The filter is that of the last filter block among the nodes. */
  ghost predicate FilterOf(ns: seq<Node>, filter: Option<Filter>) {
    match filter
    case None => forall i | 0 <= i < |ns| :: ns[i].kind != "webhook_filter_block"
    case Some(f) => exists i :: LastBlock(ns, i) && FilterHolds(ns[i], f)
  }

  predicate LastBlock(ns: seq<Node>, i: int) {
    && 0 <= i < |ns| && ns[i].kind == "webhook_filter_block"
    && forall j | i < j < |ns| :: ns[j].kind != "webhook_filter_block"
  }

  /** The provider is the one that the latest statement spells, or custom. */
  ghost predicate ProviderReads(p: Provider, at: Statements) {
    exists o :: Reads(o, at, "provider") && if o.Some? then ProviderSpelled(p, o.value) else p == Custom
  }

  ghost predicate WebhookHolds(n: Node, w: Webhook)
    requires |n.children| >= 2
  {
    var at: Statements := p => WebhookStatement(n, p);
    && w.name == n.children[1].text
    && ReadsOr(w.path, at, "path", "")
    && ProviderReads(w.provider, at)
    && ReadsOr(w.secret, at, "secret", "")
    && Reads(w.agent, at, "agent")
    && FilterOf(n.children, w.filter)
  }

  ghost predicate GoodWebhook(n: Node) {
    |n.children| >= 2 && StatesPath(n)
  }

  ghost predicate WebhookReads(n: Node, r: Result<Webhook, DefinitionError>) {
    match r
    case Ok(w) => GoodWebhook(n) && WebhookHolds(n, w)
    case Err(e) => !GoodWebhook(n) && e == if |n.children| < 2 then MissingName else MissingKey(n.children[1].text)
  }

  // ---------------------------------------------------------------- the described webhook is that one

  lemma InSomeCaseExactly(s: string, small: string, large: string)
    requires |small| == |large|
    requires forall i | 0 <= i < |small| :: 'a' <= small[i] <= 'z' && large[i] == small[i] - 'a' + 'A'
    ensures ToLower(s) == small <==> InSomeCase(s, small, large)
  {
    var l := ToLower(s);
    if |s| == |small| {
      forall i | 0 <= i < |s| ensures l[i] == small[i] <==> s[i] == small[i] || s[i] == large[i] {
        assert l[i] == LowerChar(s[i]);
      }
    }
  }

  /** A provider is parsed exactly from its name in any case. */
  lemma ProviderExactly(s: string, p: Provider)
    ensures ParseProvider(s) == p <==> ProviderSpelled(p, s)
  {
    InSomeCaseExactly(s, "github", "GITHUB");
    InSomeCaseExactly(s, "stripe", "STRIPE");
    InSomeCaseExactly(s, "slack", "SLACK");
  }

  function AsList(o: Option<Property>): seq<Property> {
    if o.Some? then [o.value] else []
  }

  ghost predicate IsParts(ns: seq<Node>, parts: seq<seq<Property>>) {
    |parts| == |ns| && forall j | 0 <= j < |ns| :: parts[j] == AsList(ErrorStatement(ns, j))
  }

  /** No identifier before child `i` waits for its value. */
  predicate Settled(ns: seq<Node>, i: nat)
    requires i <= |ns|
  {
    i < |ns| && ns[i].kind == "identifier" ==> RunBefore(ns, i) % 2 == 0
  }

  lemma PairParts(ns: seq<Node>, i: nat, parts: seq<seq<Property>>)
    requires IsParts(ns, parts) && i + 1 < |ns| && Settled(ns, i)
    requires ns[i].kind == "identifier" && ns[i + 1].kind == "identifier"
    ensures parts[i] == [Property(ns[i].text, ns[i + 1].text)] && parts[i + 1] == [] && Settled(ns, i + 2)
  {
    assert RunBefore(ns, i + 1) == 1 + RunBefore(ns, i);
    assert RunBefore(ns, i + 2) == 1 + RunBefore(ns, i + 1);
  }

  lemma SinglePart(ns: seq<Node>, i: nat, parts: seq<seq<Property>>)
    requires IsParts(ns, parts) && i < |ns| && Settled(ns, i)
    requires ns[i].kind == "identifier" ==> i + 1 == |ns| || ns[i + 1].kind != "identifier"
    ensures parts[i] == PropertyOf(ns[i], "webhook_property", 1) && Settled(ns, i + 1)
  {
    if ns[i].kind != "identifier" {
      assert RunBefore(ns, i + 1) == 0;
    }
  }

  lemma {:induction false} ErrorPropertiesAreFlat(ns: seq<Node>, i: nat, parts: seq<seq<Property>>)
    requires IsParts(ns, parts) && i <= |ns| && Settled(ns, i)
    ensures ErrorProperties(ns, i) == Flat(parts[i..])
    decreases |ns| - i
  {
    if i < |ns| {
      FlatFrom(parts, i);
      if ns[i].kind == "identifier" && i + 1 < |ns| && ns[i + 1].kind == "identifier" {
        PairParts(ns, i, parts);
        FlatFrom(parts, i + 1);
        ErrorPropertiesAreFlat(ns, i + 2, parts);
      } else {
        SinglePart(ns, i, parts);
        ErrorPropertiesAreFlat(ns, i + 1, parts);
      }
    }
  }

  lemma FlatFrom(parts: seq<seq<Property>>, i: nat)
    requires i < |parts|
    ensures Flat(parts[i..]) == parts[i] + Flat(parts[i + 1..])
    ensures parts[i] == [] ==> Flat(parts[i..]) == Flat(parts[i + 1..])
  {
    FlatCons(parts[i], parts[i + 1..]);
    assert parts[i..] == [parts[i]] + parts[i + 1..];
  }

  lemma ErrorListed(c: Node)
    requires c.kind == "ERROR"
    ensures Listed(ErrorProperties(c.children, 0), OwnWebhook, c)
  {
    var ns := c.children;
    var parts := seq(|ns|, i requires 0 <= i < |ns| => AsList(ErrorStatement(ns, i)));
    var below := (i: nat, p: Path) => if p == [] && i < |ns| then ErrorStatement(ns, i) else None;
    forall i | 0 <= i < |parts| ensures PartListed(parts[i], below, i) {
      OneStands(ErrorStatement(ns, i), p => below(i, p));
    }
    var own: Lookup<Property> := OwnWebhook;
    forall p ensures own(c, p) == AtOne(below, |parts|, p) {
      assert own(c, p) == OwnWebhook(c, p);
    }
    AllListed(below, parts, p => own(c, p));
    ErrorPropertiesAreFlat(ns, 0, parts);
    assert parts[0..] == parts;
  }

  lemma OwnWebhookListed(c: Node)
    ensures Listed(WebhookProperty(c), OwnWebhook, c)
  {
    if c.kind == "ERROR" {
      ErrorListed(c);
    } else {
      OneListed(OwnStatement(c, "webhook_property", 1), OwnWebhook, c);
    }
  }

  lemma {:induction false} WebhookPropertiesAreFlat(ns: seq<Node>, parts: seq<seq<Property>>)
    requires |parts| == |ns| && forall i | 0 <= i < |ns| :: parts[i] == WebhookProperty(ns[i])
    ensures WebhookProperties(ns) == Flat(parts)
  {
    if ns != [] {
      WebhookPropertiesAreFlat(ns[..|ns| - 1], parts[..|ns| - 1]);
    }
  }

  lemma WebhookListed(n: Node)
    ensures Enumerates(WebhookProperties(n.children), p => WebhookStatement(n, p))
  {
    var parts := seq(|n.children|, i requires 0 <= i < |n.children| => WebhookProperty(n.children[i]));
    forall i | 0 <= i < |parts| ensures Listed(parts[i], OwnWebhook, n.children[i]) {
      OwnWebhookListed(n.children[i]);
    }
    WebhookPropertiesAreFlat(n.children, parts);
    ChildrenListed(n, OwnWebhook, parts, p => WebhookStatement(n, p));
  }

  lemma FilterFromHolds(block: Node)
    ensures FilterHolds(block, FilterFrom(PropertiesOf(block.children, "webhook_filter_property", 1)))
  {
    var ps := PropertiesOf(block.children, "webhook_filter_property", 1);
    var at: Statements := p => StatedAt(block, "webhook_filter_property", 1, p);
    PropertiesAreListed(block, "webhook_filter_property", 1);
    LastReads(ps, at, "json_path");
    LastReads(ps, at, "equals");
    LastReads(ps, at, "contains");
  }

  lemma {:induction false} LastFilterHolds(ns: seq<Node>)
    ensures FilterOf(ns, LastFilter(ns))
  {
    if ns != [] {
      var k := |ns| - 1;
      if ns[k].kind == "webhook_filter_block" {
        FilterFromHolds(ns[k]);
        assert LastBlock(ns, k);
      } else {
        LastFilterHolds(ns[..k]);
        FilterOfMore(ns[..k], ns, LastFilter(ns));
      }
    }
  }

  lemma FilterOfMore(before: seq<Node>, ns: seq<Node>, filter: Option<Filter>)
    requires ns != [] && before == ns[..|ns| - 1] && ns[|ns| - 1].kind != "webhook_filter_block"
    requires FilterOf(before, filter)
    ensures FilterOf(ns, filter)
  {
    if filter.Some? {
      var i :| LastBlock(before, i) && FilterHolds(before[i], filter.value);
      LastBlockMore(before, ns, i);
    } else {
      forall i | 0 <= i < |ns| ensures ns[i].kind != "webhook_filter_block" {
        assert i < |before| ==> before[i] == ns[i];
      }
    }
  }

  lemma LastBlockMore(before: seq<Node>, ns: seq<Node>, i: int)
    requires ns != [] && before == ns[..|ns| - 1] && ns[|ns| - 1].kind != "webhook_filter_block" && LastBlock(before, i)
    ensures LastBlock(ns, i) && ns[i] == before[i]
  {
    forall j | i < j < |ns| ensures ns[j].kind != "webhook_filter_block" {
      assert j < |before| ==> before[j] == ns[j];
    }
  }

  lemma DescribedHolds(n: Node)
    requires |n.children| >= 2
    ensures WebhookHolds(n, WebhookFrom(n.children[1].text, WebhookProperties(n.children), LastFilter(n.children)))
    ensures Last(WebhookProperties(n.children), "path").Some? <==> StatesPath(n)
  {
    var ps := WebhookProperties(n.children);
    var at: Statements := p => WebhookStatement(n, p);
    WebhookListed(n);
    LastReads(ps, at, "path");
    LastReads(ps, at, "provider");
    LastReads(ps, at, "secret");
    LastReads(ps, at, "agent");
    LastFilterHolds(n.children);
    var provider := Last(ps, "provider");
    if provider.Some? {
      ProviderExactly(provider.value, ParseProvider(provider.value));
    }
    PathStated(n, Last(ps, "path"));
  }

  lemma PathStated(n: Node, path: Option<string>)
    requires Reads(path, p => WebhookStatement(n, p), "path")
    ensures path.Some? <==> StatesPath(n)
  {
    var at: Statements := p => WebhookStatement(n, p);
    if path.Some? {
      var p :| LatestPlace(at, "path", path.value, p);
      assert at(p) == WebhookStatement(n, p);
    } else {
      forall p ensures WebhookStatement(n, p).None? || WebhookStatement(n, p).value.key != "path" {
        assert at(p) == WebhookStatement(n, p);
      }
    }
  }

  lemma VisitedReads(n: Node)
    requires n.kind == "webhook_definition"
    ensures WebhookReads(n, VisitWebhook(n).value)
  {
    if |n.children| >= 2 {
      DescribedHolds(n);
    }
  }

  lemma FilterIsOne(block: Node, f: Filter, g: Filter)
    requires FilterHolds(block, f) && FilterHolds(block, g)
    ensures f == g
  {
    var at: Statements := p => StatedAt(block, "webhook_filter_property", 1, p);
    ReadsOrOne(f.jsonPath, g.jsonPath, at, "json_path", "");
    ReadsOne(f.equals, g.equals, at, "equals");
    ReadsOne(f.contains, g.contains, at, "contains");
  }

  lemma FilterOfIsOne(ns: seq<Node>, f: Option<Filter>, g: Option<Filter>)
    requires FilterOf(ns, f) && FilterOf(ns, g)
    ensures f == g
  {
    if f.Some? && g.Some? {
      var i :| LastBlock(ns, i) && FilterHolds(ns[i], f.value);
      var j :| LastBlock(ns, j) && FilterHolds(ns[j], g.value);
      FilterIsOne(ns[i], f.value, g.value);
    }
  }

  lemma ProviderIsOne(p: Provider, q: Provider, at: Statements)
    requires ProviderReads(p, at) && ProviderReads(q, at)
    ensures p == q
  {
    var o :| Reads(o, at, "provider") && if o.Some? then ProviderSpelled(p, o.value) else p == Custom;
    var u :| Reads(u, at, "provider") && if u.Some? then ProviderSpelled(q, u.value) else q == Custom;
    ReadsOne(o, u, at, "provider");
    if o.Some? {
      ProviderExactly(o.value, p);
      ProviderExactly(o.value, q);
    }
  }

  /** The extractor gives a webhook node exactly what it is read as. */
  lemma WebhookExactly(n: Node, r: Result<Webhook, DefinitionError>)
    requires n.kind == "webhook_definition"
    ensures VisitWebhook(n) == Some(r) <==> WebhookReads(n, r)
  {
    VisitedReads(n);
    if WebhookReads(n, r) && r.Ok? {
      WebhookIsOne(n, r.value, VisitWebhook(n).value.value);
    }
  }

  lemma WebhookIsOne(n: Node, v: Webhook, w: Webhook)
    requires |n.children| >= 2 && WebhookHolds(n, v) && WebhookHolds(n, w)
    ensures v == w
  {
    var at: Statements := p => WebhookStatement(n, p);
    ReadsOrOne(v.path, w.path, at, "path", "");
    ProviderIsOne(v.provider, w.provider, at);
    ReadsOrOne(v.secret, w.secret, at, "secret", "");
    ReadsOne(v.agent, w.agent, at, "agent");
    FilterOfIsOne(n.children, v.filter, w.filter);
  }

  // ---------------------------------------------------------------- reading the node child by child

  function SetWebhook(w: Webhook, p: Property): Webhook {
    if p.key == "path" then w.(path := p.value)
    else if p.key == "provider" then w.(provider := ParseProvider(p.value))
    else if p.key == "secret" then w.(secret := p.value)
    else if p.key == "agent" then w.(agent := Some(p.value))
    else w
  }

  /** Applying one property: the described webhook, and whether a path was seen. */
  lemma SetWebhookIsLast(name: string, ps: seq<Property>, filter: Option<Filter>, p: Property)
    ensures SetWebhook(WebhookFrom(name, ps, filter), p) == WebhookFrom(name, ps + [p], filter)
    ensures Last(ps + [p], "path").Some? <==> Last(ps, "path").Some? || p.key == "path"
  {
    LastSnoc(ps, p, "path");
    LastSnoc(ps, p, "provider");
    LastSnoc(ps, p, "secret");
    LastSnoc(ps, p, "agent");
  }

  method ApplyProperty(w: Webhook, hasPath: bool, p: Property, ghost ps: seq<Property>)
    returns (w': Webhook, hasPath': bool)
    requires w == WebhookFrom(w.name, ps, w.filter) && (hasPath <==> Last(ps, "path").Some?)
    ensures w' == WebhookFrom(w.name, ps + [p], w.filter) && (hasPath' <==> Last(ps + [p], "path").Some?)
  {
    SetWebhookIsLast(w.name, ps, w.filter, p);
    w' := SetWebhook(w, p);
    hasPath' := hasPath || p.key == "path";
  }

  /** Reading the pairs of an error node. */
  method ApplyErrorNode(w: Webhook, hasPath: bool, ns: seq<Node>, ghost ps: seq<Property>)
    returns (w': Webhook, hasPath': bool)
    requires w == WebhookFrom(w.name, ps, w.filter) && (hasPath <==> Last(ps, "path").Some?)
    ensures w' == WebhookFrom(w.name, ps + ErrorProperties(ns, 0), w.filter)
    ensures hasPath' <==> Last(ps + ErrorProperties(ns, 0), "path").Some?
  {
    w', hasPath' := w, hasPath;
    var i := 0;
    ghost var seen := ps;
    while i < |ns|
      invariant 0 <= i <= |ns|
      invariant seen + ErrorProperties(ns, i) == ps + ErrorProperties(ns, 0)
      invariant w' == WebhookFrom(w.name, seen, w.filter)
      invariant hasPath' <==> Last(seen, "path").Some?
      decreases |ns| - i
    {
      var child := ns[i];
      if child.kind == "identifier" && i + 1 < |ns| && ns[i + 1].kind == "identifier" {
        var p := Property(child.text, ns[i + 1].text);
        w', hasPath' := ApplyProperty(w', hasPath', p, seen);
        SeenMore(seen, [p], ErrorProperties(ns, i + 2));
        seen := seen + [p];
        i := i + 2;
      } else {
        SeenMore(seen, PropertyOf(child, "webhook_property", 1), ErrorProperties(ns, i + 1));
        w', hasPath' := ApplyWebhookProperty(w', hasPath', child, seen);
        seen := seen + PropertyOf(child, "webhook_property", 1);
        i := i + 1;
      }
    }
    assert seen + [] == seen;
  }

  method ApplyWebhookProperty(w: Webhook, hasPath: bool, n: Node, ghost ps: seq<Property>)
    returns (w': Webhook, hasPath': bool)
    requires w == WebhookFrom(w.name, ps, w.filter) && (hasPath <==> Last(ps, "path").Some?)
    ensures var now := ps + PropertyOf(n, "webhook_property", 1);
      w' == WebhookFrom(w.name, now, w.filter) && (hasPath' <==> Last(now, "path").Some?)
  {
    w', hasPath' := w, hasPath;
    if n.kind == "webhook_property" && |n.children| > 1 {
      var p := Property(n.children[0].text, TrimQuotes(n.children[1].text));
      w', hasPath' := ApplyProperty(w, hasPath, p, ps);
    } else {
      assert ps + [] == ps;
    }
  }

  /** Reading the properties of one child, which may be an error node. */
  method ApplyNode(w: Webhook, hasPath: bool, n: Node, ghost ps: seq<Property>) returns (w': Webhook, hasPath': bool)
    requires w == WebhookFrom(w.name, ps, w.filter) && (hasPath <==> Last(ps, "path").Some?)
    ensures w' == WebhookFrom(w.name, ps + WebhookProperty(n), w.filter)
    ensures hasPath' <==> Last(ps + WebhookProperty(n), "path").Some?
  {
    if n.kind == "ERROR" {
      w', hasPath' := ApplyErrorNode(w, hasPath, n.children, ps);
    } else {
      w', hasPath' := ApplyWebhookProperty(w, hasPath, n, ps);
    }
  }

  lemma SeenMore(a: seq<Property>, b: seq<Property>, c: seq<Property>)
    ensures a + (b + c) == a + b + c
  {}

  method ReadFilter(block: Node) returns (f: Filter)
    ensures f == FilterFrom(PropertiesOf(block.children, "webhook_filter_property", 1))
  {
    f := Filter("", None, None);
    for j := 0 to |block.children|
      invariant f == FilterFrom(PropertiesOf(block.children[..j], "webhook_filter_property", 1))
    {
      var prop := block.children[j];
      ghost var before := PropertiesOf(block.children[..j], "webhook_filter_property", 1);
      assert before + [] == before;
      PropertiesSnoc(block.children, j, "webhook_filter_property", 1);
      if prop.kind == "webhook_filter_property" && |prop.children| > 1 {
        var p := Property(prop.children[0].text, TrimQuotes(prop.children[1].text));
        LastSnoc(before, p, "json_path");
        LastSnoc(before, p, "equals");
        LastSnoc(before, p, "contains");
        if p.key == "json_path" {
          f := f.(jsonPath := p.value);
        } else if p.key == "equals" {
          f := f.(equals := Some(p.value));
        } else if p.key == "contains" {
          f := f.(contains := Some(p.value));
        }
      }
    }
    assert block.children[..|block.children|] == block.children;
  }

  lemma NoProperty(ps: seq<Property>, n: Node)
    requires n.kind == "webhook_filter_block"
    ensures ps + WebhookProperty(n) == ps
  {}

  lemma WebhookStep(ns: seq<Node>, i: nat)
    requires i < |ns|
    ensures WebhookProperties(ns[..i + 1]) == WebhookProperties(ns[..i]) + WebhookProperty(ns[i])
    ensures LastFilter(ns[..i + 1]) ==
      if ns[i].kind == "webhook_filter_block" then LastFilter([ns[i]]) else LastFilter(ns[..i])
    ensures ns[i].kind == "webhook_filter_block" ==>
      WebhookProperties(ns[..i + 1]) == WebhookProperties(ns[..i])
  {
    assert ns[..i + 1][..i] == ns[..i] && [ns[i]][..0] == [];
    if ns[i].kind == "webhook_filter_block" {
      NoProperty(WebhookProperties(ns[..i]), ns[i]);
    }
  }

  /** Reading one webhook node, child by child. */
  method ExtractWebhook(n: Node) returns (r: Result<Webhook, DefinitionError>)
    requires n.kind == "webhook_definition"
    ensures VisitWebhook(n) == Some(r)
    ensures WebhookReads(n, r)
  {
    VisitedReads(n);
    if |n.children| < 2 {
      return Err(MissingName);
    }
    var name := n.children[1].text;
    var webhook := Webhook(name, "", Custom, "", None, None);
    var hasPath := false;
    for i := 0 to |n.children|
      invariant webhook == WebhookFrom(name, WebhookProperties(n.children[..i]), LastFilter(n.children[..i]))
      invariant hasPath <==> Last(WebhookProperties(n.children[..i]), "path").Some?
    {
      var child := n.children[i];
      ghost var before := WebhookProperties(n.children[..i]);
      WebhookStep(n.children, i);
      if child.kind == "webhook_filter_block" {
        var filter := ReadFilter(child);
        webhook := webhook.(filter := Some(filter));
      } else {
        webhook, hasPath := ApplyNode(webhook, hasPath, child, before);
      }
    }
    assert n.children[..|n.children|] == n.children;
    if !hasPath {
      return Err(MissingKey(webhook.name));
    }
    r := Ok(webhook);
  }

  lemma WebhooksRead(ns: seq<Node>)
    ensures AllFine(VisitWebhook, ns) <==> forall d <- OfKind(ns, "webhook_definition") :: GoodWebhook(d)
    ensures AllFine(VisitWebhook, ns) ==>
              ReadAs(WebhookReads, OfKind(ns, "webhook_definition"), Found(VisitWebhook, ns))
  {
    forall n | VisitWebhook(n).Some?
      ensures WebhookReads(n, VisitWebhook(n).value) && (VisitWebhook(n).value.Ok? <==> GoodWebhook(n))
    {
      VisitedReads(n);
    }
    ByNode(VisitWebhook, "webhook_definition", ns, GoodWebhook, WebhookReads);
  }

  /** The webhook extractor: it succeeds exactly when no place is deeper than the bound and every webhook node is good;
      its results then are the webhooks of the webhook nodes, one for each and in preorder. */
  method ExtractWebhookDefinitions(root: Node) returns (r: Result<seq<Webhook>, Failure<DefinitionError>>)
    ensures var ds := OfKind(Preorder(root), "webhook_definition");
      && (r.Ok? <==> Height(root) <= MAX_AST_DEPTH && forall d <- ds :: GoodWebhook(d))
      && (r.Ok? ==> ReadAs(WebhookReads, ds, r.value))
      && (r == Err(TooDeep) ==> Height(root) > MAX_AST_DEPTH)
      && (r.Err? && r.error.Invalid? ==> exists d <- ds :: WebhookReads(d, Err(r.error.error)))
  {
    r := Traverse(root, VisitWebhook, [], 0);
    WebhooksRead(Preorder(root));
    if r.Ok? {
      assert [] + Found(VisitWebhook, Preorder(root)) == Found(VisitWebhook, Preorder(root));
    } else if r.error.Invalid? {
      ghost var i :| 0 <= i < |Preorder(root)| && VisitWebhook(Preorder(root)[i]) == Some(Err(r.error.error));
      OfKindMembers(Preorder(root), "webhook_definition", Preorder(root)[i]);
      WebhookExactly(Preorder(root)[i], Err(r.error.error));
    }
  }
}
