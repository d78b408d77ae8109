/** Extracting schedule definitions and metadata from a syntax tree. */
module DslSchedules {
  import opened Text
  import opened SyntaxTree
  import opened Listings
  import opened DslStatements

  // ---------------------------------------------------------------- schedules

  datatype Schedule = Schedule(
    name: string, cron: Option<string>, at: Option<string>, timezone: string, agent: Option<string>,
    policy: Option<string>, audit: Option<string>, oneShot: bool, deliver: Option<string>)

  datatype ScheduleError = NoName | NeitherCronNorAt(name: string) | BothCronAndAt(name: string)

  function NewSchedule(name: string): Schedule {
    Schedule(name, None, None, "UTC", None, None, None, false, None)
  }

  /** The schedule that a list of properties describes: for each key its last value, or the default. */
  function ScheduleFrom(name: string, ps: seq<Property>): Schedule {
    var zone := Last(ps, "timezone");
    Schedule(name, Last(ps, "cron"), Last(ps, "at"), if zone.Some? then zone.value else "UTC", Last(ps, "agent"),
             Last(ps, "policy"), Last(ps, "audit"), Last(ps, "one_shot") == Some("true"), Last(ps, "deliver"))
  }

  /** What the extractor makes of a node. */
  function VisitSchedule(n: Node): Option<Result<Schedule, ScheduleError>> {
    if n.kind != "schedule_definition" then None
    else if |n.children| < 2 then Some(Err(NoName))
    else
      var s := ScheduleFrom(n.children[1].text, PropertiesOf(n.children, "schedule_property", 2));
      if s.cron.None? && s.at.None? then Some(Err(NeitherCronNorAt(s.name)))
      else if s.cron.Some? && s.at.Some? then Some(Err(BothCronAndAt(s.name)))
      else Some(Ok(s))
  }

  ghost predicate Has(ps: seq<Property>, key: string) {
    exists i :: 0 <= i < |ps| && ps[i].key == key
  }

  /** A schedule node is accepted exactly when it has a name and exactly one of `cron` and `at`. */
  lemma ScheduleValidExactly(n: Node)
    requires n.kind == "schedule_definition"
    ensures var ps := PropertiesOf(n.children, "schedule_property", 2);
      Fine(VisitSchedule, n) <==> |n.children| >= 2 && (Has(ps, "cron") <==> !Has(ps, "at"))
  {
    var ps := PropertiesOf(n.children, "schedule_property", 2);
    LastIsLast(ps, "cron");
    LastIsLast(ps, "at");
  }

  /** What a schedule node states at each place: its properties, the value being a property's third child. */
  function ScheduleStatement(n: Node, p: Path): Option<Property> {
    StatedAt(n, "schedule_property", 2, p)
  }

  ghost predicate StatesKey(n: Node, key: string) {
    exists p :: ScheduleStatement(n, p).Some? && ScheduleStatement(n, p).value.key == key
  }

  /** The schedule holds for each key what the node states last. */
  ghost predicate ScheduleHolds(n: Node, s: Schedule)
    requires |n.children| >= 2
  {
    var at: Statements := p => ScheduleStatement(n, p);
    && s.name == n.children[1].text
    && Reads(s.cron, at, "cron")
    && Reads(s.at, at, "at")
    && ReadsOr(s.timezone, at, "timezone", "UTC")
    && Reads(s.agent, at, "agent")
    && Reads(s.policy, at, "policy")
    && Reads(s.audit, at, "audit")
    && (s.oneShot <==> Latest(at, "one_shot", "true"))
    && Reads(s.deliver, at, "deliver")
  }

  /** A node with a name that states exactly one of `cron` and `at`. */
  ghost predicate GoodSchedule(n: Node) {
    |n.children| >= 2 && (StatesKey(n, "cron") <==> !StatesKey(n, "at"))
  }

  ghost predicate ScheduleFault(n: Node, e: ScheduleError) {
    if |n.children| < 2 then e == NoName
    else if StatesKey(n, "cron") && StatesKey(n, "at") then e == BothCronAndAt(n.children[1].text)
    else !StatesKey(n, "cron") && !StatesKey(n, "at") && e == NeitherCronNorAt(n.children[1].text)
  }

  /** What a schedule node is read as. */
  ghost predicate ScheduleReads(n: Node, r: Result<Schedule, ScheduleError>) {
    match r
    case Ok(s) => GoodSchedule(n) && ScheduleHolds(n, s)
    case Err(e) => ScheduleFault(n, e)
  }

  /** The extractor gives a schedule node exactly what it is read as. */
  lemma ScheduleExactly(n: Node, r: Result<Schedule, ScheduleError>)
    requires n.kind == "schedule_definition"
    ensures VisitSchedule(n) == Some(r) <==> ScheduleReads(n, r)
  {
    VisitedReads(n);
    if ScheduleReads(n, r) && r.Ok? {
      ScheduleIsOne(n, r.value, VisitSchedule(n).value.value);
    }
  }

  lemma VisitedReads(n: Node)
    requires n.kind == "schedule_definition"
    ensures ScheduleReads(n, VisitSchedule(n).value)
  {
    if |n.children| >= 2 {
      var ps := PropertiesOf(n.children, "schedule_property", 2);
      var s := ScheduleFrom(n.children[1].text, ps);
      DescribedHolds(n, ps);
      StatesExactly(n, s.cron, "cron");
      StatesExactly(n, s.at, "at");
    }
  }

  lemma StatesExactly(n: Node, field: Option<string>, key: string)
    requires Reads(field, p => ScheduleStatement(n, p), key)
    ensures field.Some? <==> StatesKey(n, key)
  {
    var at: Statements := p => ScheduleStatement(n, p);
    if field.Some? {
      var p :| LatestPlace(at, key, field.value, p);
      assert at(p) == ScheduleStatement(n, p);
    } else {
      forall p ensures ScheduleStatement(n, p).None? || ScheduleStatement(n, p).value.key != key {
        assert at(p) == ScheduleStatement(n, p);
      }
    }
  }

  lemma DescribedHolds(n: Node, ps: seq<Property>)
    requires |n.children| >= 2 && ps == PropertiesOf(n.children, "schedule_property", 2)
    ensures ScheduleHolds(n, ScheduleFrom(n.children[1].text, ps))
  {
    var at: Statements := p => ScheduleStatement(n, p);
    PropertiesAreListed(n, "schedule_property", 2);
    SamePlaces(ps, p => StatedAt(n, "schedule_property", 2, p), at);
    FieldsRead(at, ps);
  }

  lemma FieldsRead(at: Statements, ps: seq<Property>)
    requires Enumerates(ps, at)
    ensures Reads(Last(ps, "cron"), at, "cron") && Reads(Last(ps, "at"), at, "at")
    ensures Reads(Last(ps, "agent"), at, "agent") && Reads(Last(ps, "policy"), at, "policy")
    ensures Reads(Last(ps, "audit"), at, "audit") && Reads(Last(ps, "deliver"), at, "deliver")
    ensures Reads(Last(ps, "timezone"), at, "timezone")
    ensures Last(ps, "one_shot") == Some("true") <==> Latest(at, "one_shot", "true")
  {
    LastReads(ps, at, "cron");
    LastReads(ps, at, "at");
    LastReads(ps, at, "agent");
    LastReads(ps, at, "policy");
    LastReads(ps, at, "audit");
    LastReads(ps, at, "deliver");
    LastReads(ps, at, "timezone");
    LastReads(ps, at, "one_shot");
    ReadsLatest(Last(ps, "one_shot"), at, "one_shot", "true");
  }

  /** A node determines its schedule. */
  lemma ScheduleIsOne(n: Node, s: Schedule, t: Schedule)
    requires |n.children| >= 2 && ScheduleHolds(n, s) && ScheduleHolds(n, t)
    ensures s == t
  {
    var at: Statements := p => ScheduleStatement(n, p);
    ReadsOne(s.cron, t.cron, at, "cron");
    ReadsOne(s.at, t.at, at, "at");
    ReadsOrOne(s.timezone, t.timezone, at, "timezone", "UTC");
    ReadsOne(s.agent, t.agent, at, "agent");
    ReadsOne(s.policy, t.policy, at, "policy");
    ReadsOne(s.audit, t.audit, at, "audit");
    ReadsOne(s.deliver, t.deliver, at, "deliver");
  }

  function SetSchedule(s: Schedule, p: Property): Schedule {
    if p.key == "cron" then s.(cron := Some(p.value))
    else if p.key == "at" then s.(at := Some(p.value))
    else if p.key == "timezone" then s.(timezone := p.value)
    else if p.key == "agent" then s.(agent := Some(p.value))
    else if p.key == "policy" then s.(policy := Some(p.value))
    else if p.key == "audit" then s.(audit := Some(p.value))
    else if p.key == "one_shot" then s.(oneShot := p.value == "true")
    else if p.key == "deliver" then s.(deliver := Some(p.value))
    else s
  }

  lemma SetScheduleIsLast(name: string, ps: seq<Property>, p: Property)
    ensures SetSchedule(ScheduleFrom(name, ps), p) == ScheduleFrom(name, ps + [p])
  {
    LastSnoc(ps, p, "cron");
    LastSnoc(ps, p, "at");
    LastSnoc(ps, p, "timezone");
    LastSnoc(ps, p, "agent");
    LastSnoc(ps, p, "policy");
    LastSnoc(ps, p, "audit");
    LastSnoc(ps, p, "one_shot");
    LastSnoc(ps, p, "deliver");
  }

  /** Reading one schedule node, property by property. */
  method ExtractSchedule(n: Node) returns (r: Result<Schedule, ScheduleError>)
    requires n.kind == "schedule_definition"
    ensures VisitSchedule(n) == Some(r)
    ensures ScheduleReads(n, r)
  {
    VisitedReads(n);
    if |n.children| < 2 {
      return Err(NoName);
    }
    var name := n.children[1].text;
    var sched := NewSchedule(name);
    for i := 0 to |n.children|
      invariant sched == ScheduleFrom(name, PropertiesOf(n.children[..i], "schedule_property", 2))
    {
      var child := n.children[i];
      ghost var before := PropertiesOf(n.children[..i], "schedule_property", 2);
      assert before + [] == before;
      PropertiesSnoc(n.children, i, "schedule_property", 2);
      if child.kind == "schedule_property" && |child.children| > 2 {
        var p := Property(child.children[0].text, TrimQuotes(child.children[2].text));
        SetScheduleIsLast(name, before, p);
        sched := SetSchedule(sched, p);
      }
    }
    assert n.children[..|n.children|] == n.children;
    if sched.cron.None? && sched.at.None? {
      return Err(NeitherCronNorAt(sched.name));
    }
    if sched.cron.Some? && sched.at.Some? {
      return Err(BothCronAndAt(sched.name));
    }
    r := Ok(sched);
  }

  /** The schedule extractor: it succeeds exactly when no place is deeper than the bound and every schedule node is
      good; its results then are the schedules of the schedule nodes, one for each and in preorder. */
  method ExtractScheduleDefinitions(root: Node) returns (r: Result<seq<Schedule>, Failure<ScheduleError>>)
    ensures var ds := OfKind(Preorder(root), "schedule_definition");
      && (r.Ok? <==> Height(root) <= MAX_AST_DEPTH && forall d <- ds :: GoodSchedule(d))
      && (r.Ok? ==> ReadAs(ScheduleReads, ds, r.value))
      && (r == Err(TooDeep) ==> Height(root) > MAX_AST_DEPTH)
      && (r.Err? && r.error.Invalid? ==> exists d <- ds :: ScheduleReads(d, Err(r.error.error)))
  {
    r := Traverse(root, VisitSchedule, [], 0);
    SchedulesRead(Preorder(root));
    if r.Ok? {
      assert [] + Found(VisitSchedule, Preorder(root)) == Found(VisitSchedule, Preorder(root));
    } else if r.error.Invalid? {
      ghost var i :| 0 <= i < |Preorder(root)| && VisitSchedule(Preorder(root)[i]) == Some(Err(r.error.error));
      OfKindMembers(Preorder(root), "schedule_definition", Preorder(root)[i]);
      ScheduleExactly(Preorder(root)[i], Err(r.error.error));
    }
  }

  lemma SchedulesRead(ns: seq<Node>)
    ensures AllFine(VisitSchedule, ns) <==> forall d <- OfKind(ns, "schedule_definition") :: GoodSchedule(d)
    ensures AllFine(VisitSchedule, ns) ==>
              ReadAs(ScheduleReads, OfKind(ns, "schedule_definition"), Found(VisitSchedule, ns))
  {
    forall n | VisitSchedule(n).Some?
      ensures ScheduleReads(n, VisitSchedule(n).value) && (VisitSchedule(n).value.Ok? <==> GoodSchedule(n))
    {
      VisitedReads(n);
    }
    ByNode(VisitSchedule, "schedule_definition", ns, GoodSchedule, ScheduleReads);
  }

  // ---------------------------------------------------------------- metadata

  /** The nodes of a tree that are not deeper than the bound. */
  function PreorderWithin(n: Node, depth: nat): seq<Node>
    decreases n, |n.children| + 1
  {
    if depth > MAX_AST_DEPTH then [] else [n] + BelowWithin(n, |n.children|, depth)
  }

  function BelowWithin(n: Node, k: nat, depth: nat): seq<Node>
    requires k <= |n.children|
    decreases n, k
  {
    if k == 0 then [] else BelowWithin(n, k - 1, depth) + PreorderWithin(n.children[k - 1], depth + 1)
  }

  /** A tree within the bound is read completely. */
  lemma {:induction false} ShallowIsComplete(n: Node, depth: nat)
    requires depth + Height(n) <= MAX_AST_DEPTH
    ensures PreorderWithin(n, depth) == Preorder(n)
    decreases n, |n.children| + 1
  {
    ShallowBelow(n, |n.children|, depth);
  }

  lemma {:induction false} ShallowBelow(n: Node, k: nat, depth: nat)
    requires k <= |n.children| && depth + HeightBelow(n, k) <= MAX_AST_DEPTH
    ensures BelowWithin(n, k, depth) == Below(n, k)
    decreases n, k
  {
    if k > 0 {
      ShallowBelow(n, k - 1, depth);
      ShallowIsComplete(n.children[k - 1], depth + 1);
    }
  }

  /** A metadata pair's key and value as written, quotes and all. */
  function PairOf(n: Node): seq<Property> {
    if n.kind == "metadata_pair" && |n.children| > 2 then [Property(n.children[0].text, n.children[2].text)] else []
  }

  function PairsOf(ns: seq<Node>): seq<Property> {
    if ns == [] then [] else PairsOf(ns[..|ns| - 1]) + PairOf(ns[|ns| - 1])
  }

  /** The pairs of all metadata blocks in a list of nodes. */
  function MetadataPairs(ns: seq<Node>): seq<Property> {
    if ns == [] then []
    else OwnPairs(ns[0]) + MetadataPairs(ns[1..])
  }

  function Insert(m: map<string, string>, ps: seq<Property>): map<string, string>
    decreases ps
  {
    if ps == [] then m else Insert(m[ps[0].key := ps[0].value], ps[1..])
  }

  lemma {:induction false} InsertConcat(m: map<string, string>, a: seq<Property>, b: seq<Property>)
    ensures Insert(m, a + b) == Insert(Insert(m, a), b)
    decreases a
  {
    if a == [] {
      assert a + b == b;
    } else {
      InsertConcat(m[a[0].key := a[0].value], a[1..], b);
      assert (a + b)[1..] == a[1..] + b;
    }
  }

  function OwnPairs(n: Node): seq<Property> {
    if n.kind == "metadata_block" then PairsOf(n.children) else []
  }

  lemma {:induction false} MetadataPairsConcat(a: seq<Node>, b: seq<Node>)
    ensures MetadataPairs(a + b) == MetadataPairs(a) + MetadataPairs(b)
  {
    if a == [] {
      assert a + b == b;
    } else {
      MetadataPairsConcat(a[1..], b);
      assert (a + b)[1..] == a[1..] + b;
      Associative(OwnPairs(a[0]), MetadataPairs(a[1..]), MetadataPairs(b));
    }
  }

  /** Later pairs win: the map holds for each key its last value. */
  lemma {:induction false} InsertIsLast(ps: seq<Property>, key: string)
    ensures var m := Insert(map[], ps);
      (key in m <==> Last(ps, key).Some?) && (key in m ==> m[key] == Last(ps, key).value)
  {
    if ps != [] {
      var n := |ps| - 1;
      InsertIsLast(ps[..n], key);
      InsertConcat(map[], ps[..n], [ps[n]]);
      assert ps == ps[..n] + [ps[n]];
      InsertOne(Insert(map[], ps[..n]), ps[n]);
    }
  }

  lemma InsertOne(m: map<string, string>, p: Property)
    ensures Insert(m, [p]) == m[p.key := p.value]
  {
    assert [p][1..] == [];
    assert Insert(m, [p]) == Insert(m[p.key := p.value], []);
  }

  lemma InsertStep(metadata: map<string, string>, nodes: seq<Node>, i: nat)
    requires i < |nodes|
    ensures Insert(metadata, PairsOf(nodes[..i + 1])) == Insert(Insert(metadata, PairsOf(nodes[..i])), PairOf(nodes[i]))
  {
    assert nodes[..i + 1][..i] == nodes[..i];
    InsertConcat(metadata, PairsOf(nodes[..i]), PairOf(nodes[i]));
  }

  method InsertPairs(block: Node, metadata: map<string, string>) returns (m: map<string, string>)
    ensures m == Insert(metadata, PairsOf(block.children))
  {
    m := metadata;
    for i := 0 to |block.children|
      invariant m == Insert(metadata, PairsOf(block.children[..i]))
    {
      var child := block.children[i];
      InsertStep(metadata, block.children, i);
      if child.kind == "metadata_pair" && |child.children| > 2 {
        InsertOne(m, Property(child.children[0].text, child.children[2].text));
        m := m[child.children[0].text := child.children[2].text];
      }
    }
    assert block.children[..|block.children|] == block.children;
  }

  lemma RootPairs(node: Node, depth: nat)
    ensures MetadataPairs([node] + BelowWithin(node, 0, depth)) == OwnPairs(node)
  {
    assert [node] + BelowWithin(node, 0, depth) == [node];
    assert [node][1..] == [] && MetadataPairs([node][1..]) == [];
    assert OwnPairs(node) + [] == OwnPairs(node);
  }

  lemma MetadataStep(metadata: map<string, string>, node: Node, i: nat, depth: nat)
    requires i < |node.children|
    ensures Insert(Insert(metadata, MetadataPairs([node] + BelowWithin(node, i, depth))),
                   MetadataPairs(PreorderWithin(node.children[i], depth + 1)))
            == Insert(metadata, MetadataPairs([node] + BelowWithin(node, i + 1, depth)))
  {
    var here, more := [node] + BelowWithin(node, i, depth), PreorderWithin(node.children[i], depth + 1);
    InsertConcat(metadata, MetadataPairs(here), MetadataPairs(more));
    MetadataConcatStep(node, i, depth);
  }

  /** The metadata traversal: nodes below the bound are skipped without an error. */
  method TraverseMetadata(node: Node, metadata: map<string, string>, depth: nat) returns (m: map<string, string>)
    ensures m == Insert(metadata, MetadataPairs(PreorderWithin(node, depth)))
    decreases node
  {
    m := metadata;
    if depth > MAX_AST_DEPTH {
      return;
    }
    if node.kind == "metadata_block" {
      m := InsertPairs(node, m);
    }
    RootPairs(node, depth);
    for i := 0 to |node.children|
      invariant m == Insert(metadata, MetadataPairs([node] + BelowWithin(node, i, depth)))
    {
      m := TraverseMetadata(node.children[i], m, depth + 1);
      MetadataStep(metadata, node, i, depth);
    }
  }

  /** What a tree's metadata blocks state: place `[0, i]` of a node within the bound is child `i` of the node itself, if
      that is a block, and place `[k + 1] + p` is place `p` of its child `k`. */
  function MetadataAt(n: Node, depth: nat, p: Path): Option<Property>
    decreases p
  {
    if p == [] || depth > MAX_AST_DEPTH then None
    else if p[0] == 0 then BlockStatement(n, p[1..])
    else if p[0] <= |n.children| then MetadataAt(n.children[p[0] - 1], depth + 1, p[1..])
    else None
  }

  /** A metadata block states its pairs as written, quotes and all. */
  function BlockStatement(n: Node, p: Path): Option<Property> {
    if n.kind == "metadata_block" && |p| == 1 && p[0] < |n.children| then PairStatement(n.children[p[0]]) else None
  }

  function PairStatement(c: Node): Option<Property> {
    if c.kind == "metadata_pair" && |c.children| > 2 then Some(Property(c.children[0].text, c.children[2].text))
    else None
  }

  /** The pairs that are read are those that stand in the blocks, a block's own ones before those of blocks in it. */
  lemma {:induction false} MetadataListed(n: Node, depth: nat)
    ensures Enumerates(MetadataPairs(PreorderWithin(n, depth)), p => MetadataAt(n, depth, p))
    decreases n, |n.children| + 1
  {
    if depth > MAX_AST_DEPTH {
      NothingStands(p => MetadataAt(n, depth, p));
    } else {
      MetadataListedBelow(n, |n.children|, depth);
      SamePlaces(MetadataPairs([n] + BelowWithin(n, |n.children|, depth)),
                 p => MetadataBefore(n, depth, |n.children|, p), p => MetadataAt(n, depth, p));
    }
  }

  /** What stands in a node and below its first `k` children. */
  function MetadataBefore(n: Node, depth: nat, k: nat, p: Path): Option<Property> {
    if p != [] && p[0] <= k then MetadataAt(n, depth, p) else None
  }

  lemma {:induction false} MetadataListedBelow(n: Node, k: nat, depth: nat)
    requires k <= |n.children| && depth <= MAX_AST_DEPTH
    ensures Enumerates(MetadataPairs([n] + BelowWithin(n, k, depth)), p => MetadataBefore(n, depth, k, p))
    decreases n, k
  {
    if k == 0 {
      RootPairs(n, depth);
      OwnPairsFirst(n, depth);
    } else {
      MetadataListedBelow(n, k - 1, depth);
      MetadataListed(n.children[k - 1], depth + 1);
      NextBlocksPairs(n, k, depth);
    }
  }

  lemma NextBlocksPairs(n: Node, k: nat, depth: nat)
    requires 0 < k <= |n.children| && depth <= MAX_AST_DEPTH
    requires Enumerates(MetadataPairs([n] + BelowWithin(n, k - 1, depth)), p => MetadataBefore(n, depth, k - 1, p))
    requires Enumerates(MetadataPairs(PreorderWithin(n.children[k - 1], depth + 1)),
                        p => MetadataAt(n.children[k - 1], depth + 1, p))
    ensures Enumerates(MetadataPairs([n] + BelowWithin(n, k, depth)), p => MetadataBefore(n, depth, k, p))
  {
    MetadataConcatStep(n, k - 1, depth);
    NextBlocks(n, k, depth, MetadataPairs([n] + BelowWithin(n, k - 1, depth)),
               MetadataPairs(PreorderWithin(n.children[k - 1], depth + 1)));
  }

  lemma OwnPairsFirst(n: Node, depth: nat)
    requires depth <= MAX_AST_DEPTH
    ensures Enumerates(OwnPairs(n), p => MetadataBefore(n, depth, 0, p))
  {
    OwnPairsListed(n);
    FirstPlaces(n, depth);
    NothingStands(p => Nothing(p));
    NextChild([], OwnPairs(n), p => Nothing(p), p => BlockStatement(n, p), p => MetadataBefore(n, depth, 0, p), 0);
    assert [] + OwnPairs(n) == OwnPairs(n);
  }

  lemma NextBlocks(n: Node, k: nat, depth: nat, before: seq<Property>, next: seq<Property>)
    requires 0 < k <= |n.children| && depth <= MAX_AST_DEPTH
    requires Enumerates(before, p => MetadataBefore(n, depth, k - 1, p))
    requires Enumerates(next, p => MetadataAt(n.children[k - 1], depth + 1, p))
    ensures Enumerates(before + next, p => MetadataBefore(n, depth, k, p))
  {
    NextPlaces(n, depth, k);
    NextChild(before, next, p => MetadataBefore(n, depth, k - 1, p),
              p => MetadataAt(n.children[k - 1], depth + 1, p), p => MetadataBefore(n, depth, k, p), k);
  }

  function Nothing(p: Path): Option<Property> {
    None
  }

  lemma FirstPlaces(n: Node, depth: nat)
    requires depth <= MAX_AST_DEPTH
    ensures Extends(p => Nothing(p), p => BlockStatement(n, p), p => MetadataBefore(n, depth, 0, p), 0)
  {
    forall p: Path ensures BlockStatement(n, p) == MetadataBefore(n, depth, 0, [0] + p) {
      assert ([0] + p)[1..] == p;
    }
  }

  lemma NextPlaces(n: Node, depth: nat, k: nat)
    requires 0 < k <= |n.children| && depth <= MAX_AST_DEPTH
    ensures Extends(p => MetadataBefore(n, depth, k - 1, p), p => MetadataAt(n.children[k - 1], depth + 1, p),
                    p => MetadataBefore(n, depth, k, p), k)
  {
    forall p: Path ensures MetadataAt(n.children[k - 1], depth + 1, p) == MetadataBefore(n, depth, k, [k] + p) {
      assert ([k] + p)[1..] == p;
    }
  }

  function OwnPair(c: Node, p: Path): Option<Property> {
    if p == [] then PairStatement(c) else None
  }

  lemma OwnPairsListed(n: Node)
    ensures Enumerates(OwnPairs(n), p => BlockStatement(n, p))
  {
    if n.kind == "metadata_block" {
      var parts := seq(|n.children|, i requires 0 <= i < |n.children| => PairOf(n.children[i]));
      forall i | 0 <= i < |parts| ensures Listed(parts[i], OwnPair, n.children[i]) {
        OneListed(PairStatement(n.children[i]), OwnPair, n.children[i]);
      }
      PairsAreFlat(n.children, parts);
      ChildrenListed(n, OwnPair, parts, p => BlockStatement(n, p));
    } else {
      NothingStands(p => BlockStatement(n, p));
    }
  }

  lemma {:induction false} PairsAreFlat(ns: seq<Node>, parts: seq<seq<Property>>)
    requires |parts| == |ns| && forall i | 0 <= i < |ns| :: parts[i] == PairOf(ns[i])
    ensures PairsOf(ns) == Flat(parts)
  {
    if ns != [] {
      PairsAreFlat(ns[..|ns| - 1], parts[..|ns| - 1]);
    }
  }

  lemma MetadataConcatStep(n: Node, i: nat, depth: nat)
    requires i < |n.children|
    ensures MetadataPairs([n] + BelowWithin(n, i + 1, depth))
            == MetadataPairs([n] + BelowWithin(n, i, depth)) + MetadataPairs(PreorderWithin(n.children[i], depth + 1))
  {
    var here, more := [n] + BelowWithin(n, i, depth), PreorderWithin(n.children[i], depth + 1);
    MetadataPairsConcat(here, more);
    Associative([n], BelowWithin(n, i, depth), more);
  }

  /** The value of a key in a map, if it has one. */
  function Entry(m: map<string, string>, key: string): Option<string> {
    if key in m then Some(m[key]) else None
  }

  /** Metadata of a source: for every key what the blocks within the bound state last; on a tree within the bound no
      block is missed. */
  method ExtractMetadata(root: Node) returns (m: map<string, string>)
    ensures forall key :: Reads(Entry(m, key), p => MetadataAt(root, 0, p), key)
    ensures Height(root) <= MAX_AST_DEPTH ==> PreorderWithin(root, 0) == Preorder(root)
  {
    m := TraverseMetadata(root, map[], 0);
    MetadataListed(root, 0);
    forall key ensures Reads(Entry(m, key), p => MetadataAt(root, 0, p), key) {
      InsertIsLast(MetadataPairs(PreorderWithin(root, 0)), key);
      LastReads(MetadataPairs(PreorderWithin(root, 0)), p => MetadataAt(root, 0, p), key);
    }
    if Height(root) <= MAX_AST_DEPTH {
      ShallowIsComplete(root, 0);
    }
  }
}
