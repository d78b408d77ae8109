/** Extracting channel definitions from a syntax tree. */
module DslChannels {
  import opened Text
  import opened SyntaxTree
  import opened Listings
  import opened DslStatements

  datatype PolicyRule = PolicyRule(action: string, expression: string)

  datatype Classification = Classification(category: string, action: string)

  datatype Channel = Channel(
    name: string, platform: Option<string>, workspace: Option<string>, channels: seq<string>,
    defaultAgent: Option<string>, dlpProfile: Option<string>, auditLevel: Option<string>, defaultDeny: bool,
    policyRules: seq<PolicyRule>, classification: seq<Classification>)

  /** The strings of an array node: its expressions and strings, also inside wrapper nodes. */
  function ArrayStrings(n: Node): seq<string>
    decreases n, |n.children| + 1
  {
    ArrayStringsBelow(n, |n.children|)
  }

  function ArrayStringsBelow(n: Node, k: nat): seq<string>
    requires k <= |n.children|
    decreases n, k
  {
    if k == 0 then []
    else
      var c := n.children[k - 1];
      ArrayStringsBelow(n, k - 1)
      + (if c.kind == "expression" || c.kind == "string" then [TrimQuotes(c.text)]
         else if c.kind != "[" && c.kind != "]" && c.kind != "," then ArrayStrings(c)
         else [])
  }

  method ExtractArrayStrings(n: Node) returns (items: seq<string>)
    ensures items == ArrayStrings(n) && StringsOf(n, items)
    decreases n
  {
    StringsHold(n);
    items := [];
    for i := 0 to |n.children|
      invariant items == ArrayStringsBelow(n, i)
    {
      var c := n.children[i];
      if c.kind == "expression" || c.kind == "string" {
        items := items + [TrimQuotes(c.text)];
      } else if c.kind != "[" && c.kind != "]" && c.kind != "," {
        var nested := ExtractArrayStrings(c);
        items := items + nested;
      }
    }
  }

  predicate IsArrayProperty(n: Node) {
    n.kind == "channel_property" && |n.children| > 2 && n.children[2].kind == "array"
  }

  /** The properties of a channel that have a plain value. */
  function PlainProperties(ns: seq<Node>): seq<Property> {
    if ns == [] then []
    else
      var n := ns[|ns| - 1];
      PlainProperties(ns[..|ns| - 1]) + PlainProperty(n)
  }

  function PlainProperty(n: Node): seq<Property> {
    if IsArrayProperty(n) then [] else PropertyOf(n, "channel_property", 2)
  }

  /** The channel list of the last array property that is called so. */
  function ChannelList(ns: seq<Node>): seq<string> {
    if ns == [] then []
    else
      var n := ns[|ns| - 1];
      if IsArrayProperty(n) && n.children[0].text == "channels" then ArrayStrings(n.children[2])
      else ChannelList(ns[..|ns| - 1])
  }

  function RuleOf(n: Node): seq<PolicyRule> {
    if n.kind == "policy_rule" && |n.children| > 2 then [PolicyRule(n.children[0].text, n.children[2].text)] else []
  }

  function RulesOf(ns: seq<Node>): seq<PolicyRule> {
    if ns == [] then [] else RulesOf(ns[..|ns| - 1]) + RuleOf(ns[|ns| - 1])
  }

  /** The rules of all policy blocks, in order. */
  function AllRules(ns: seq<Node>): seq<PolicyRule> {
    if ns == [] then []
    else
      var n := ns[|ns| - 1];
      AllRules(ns[..|ns| - 1]) + BlockRules(n)
  }

  function BlockRules(n: Node): seq<PolicyRule> {
    if n.kind == "channel_policy_block" then RulesOf(n.children) else []
  }

  function ClassOf(n: Node): seq<Classification> {
    if n.kind == "data_classification_rule" && |n.children| > 2
    then [Classification(n.children[0].text, n.children[2].text)] else []
  }

  function ClassesOf(ns: seq<Node>): seq<Classification> {
    if ns == [] then [] else ClassesOf(ns[..|ns| - 1]) + ClassOf(ns[|ns| - 1])
  }

  function AllClasses(ns: seq<Node>): seq<Classification> {
    if ns == [] then []
    else
      var n := ns[|ns| - 1];
      AllClasses(ns[..|ns| - 1]) + BlockClasses(n)
  }

  function BlockClasses(n: Node): seq<Classification> {
    if n.kind == "channel_data_classification_block" then ClassesOf(n.children) else []
  }

  function ChannelFrom(name: string, ps: seq<Property>, channels: seq<string>, rules: seq<PolicyRule>,
                       classes: seq<Classification>): Channel
  {
    Channel(name, Last(ps, "platform"), Last(ps, "workspace"), channels, Last(ps, "default_agent"),
            Last(ps, "dlp_profile"), Last(ps, "audit_level"), Last(ps, "default_deny") == Some("true"), rules, classes)
  }

  function ChannelOf(name: string, ns: seq<Node>): Channel {
    ChannelFrom(name, PlainProperties(ns), ChannelList(ns), AllRules(ns), AllClasses(ns))
  }

  function VisitChannel(n: Node): Option<Result<Channel, DefinitionError>> {
    if n.kind != "channel_definition" then None
    else if |n.children| < 2 then Some(Err(MissingName))
    else
      var c := ChannelOf(n.children[1].text, n.children);
      if c.platform.None? then Some(Err(MissingKey(c.name))) else Some(Ok(c))
  }

  // ---------------------------------------------------------------- what a channel node is read as

  /** The strings in an array: at the expressions and strings below it, also in wrapper nodes. */
  function StringAt(n: Node, p: Path): Option<string>
    decreases p, 0
  {
    if p != [] && p[0] < |n.children| then ItemAt(n.children[p[0]], p[1..]) else None
  }

  function ItemAt(c: Node, p: Path): Option<string>
    decreases p, 1
  {
    if c.kind == "expression" || c.kind == "string" then (if p == [] then Some(TrimQuotes(c.text)) else None)
    else if c.kind == "[" || c.kind == "]" || c.kind == "," then None
    else StringAt(c, p)
  }

  function PlainStatement(c: Node): Option<Property> {
    if |c.children| > 2 && c.children[2].kind != "array" then OwnStatement(c, "channel_property", 2) else None
  }

  function OwnPlain(c: Node, p: Path): Option<Property> {
    if p == [] then PlainStatement(c) else None
  }

  /** A channel node states the properties with a plain value. */
  function ChannelStatement(n: Node, p: Path): Option<Property> {
    if p != [] && p[0] < |n.children| then OwnPlain(n.children[p[0]], p[1..]) else None
  }

  predicate IsChannelList(n: Node) {
    && n.kind == "channel_property" && |n.children| > 2
    && n.children[0].text == "channels" && n.children[2].kind == "array"
  }

  predicate LastList(ns: seq<Node>, i: int) {
    0 <= i < |ns| && IsChannelList(ns[i]) && forall j | i < j < |ns| :: !IsChannelList(ns[j])
  }

  /** The channels are the strings of the last array that is called so, if there is one. */
  ghost predicate ChannelsOf(ns: seq<Node>, channels: seq<string>) {
    || (channels == [] && forall i | 0 <= i < |ns| :: !IsChannelList(ns[i]))
    || exists i :: LastList(ns, i) && StringsOf(ns[i].children[2], channels)
  }

  ghost predicate StringsOf(n: Node, items: seq<string>) {
    Enumerates(items, p => StringAt(n, p))
  }

  function OwnRule(c: Node, p: Path): Option<PolicyRule> {
    if c.kind == "policy_rule" && |c.children| > 2 && p == []
    then Some(PolicyRule(action := c.children[0].text, expression := c.children[2].text)) else None
  }

  function BlockRule(c: Node, p: Path): Option<PolicyRule> {
    if c.kind == "channel_policy_block" && p != [] && p[0] < |c.children| then OwnRule(c.children[p[0]], p[1..])
    else None
  }

  function RuleAt(n: Node, p: Path): Option<PolicyRule> {
    if p != [] && p[0] < |n.children| then BlockRule(n.children[p[0]], p[1..]) else None
  }

  function OwnClass(c: Node, p: Path): Option<Classification> {
    if c.kind == "data_classification_rule" && |c.children| > 2 && p == []
    then Some(Classification(category := c.children[0].text, action := c.children[2].text)) else None
  }

  function BlockClass(c: Node, p: Path): Option<Classification> {
    if c.kind == "channel_data_classification_block" && p != [] && p[0] < |c.children|
    then OwnClass(c.children[p[0]], p[1..]) else None
  }

  function ClassAt(n: Node, p: Path): Option<Classification> {
    if p != [] && p[0] < |n.children| then BlockClass(n.children[p[0]], p[1..]) else None
  }

  ghost predicate StatesPlatform(n: Node) {
    exists p :: ChannelStatement(n, p).Some? && ChannelStatement(n, p).value.key == "platform"
  }

  ghost predicate ChannelHolds(n: Node, c: Channel)
    requires |n.children| >= 2
  {
    var at: Statements := p => ChannelStatement(n, p);
    && c.name == n.children[1].text
    && Reads(c.platform, at, "platform")
    && Reads(c.workspace, at, "workspace")
    && ChannelsOf(n.children, c.channels)
    && Reads(c.defaultAgent, at, "default_agent")
    && Reads(c.dlpProfile, at, "dlp_profile")
    && Reads(c.auditLevel, at, "audit_level")
    && (c.defaultDeny <==> Latest(at, "default_deny", "true"))
    && Enumerates(c.policyRules, p => RuleAt(n, p))
    && Enumerates(c.classification, p => ClassAt(n, p))
  }

  ghost predicate GoodChannel(n: Node) {
    |n.children| >= 2 && StatesPlatform(n)
  }

  ghost predicate ChannelReads(n: Node, r: Result<Channel, DefinitionError>) {
    match r
    case Ok(c) => GoodChannel(n) && ChannelHolds(n, c)
    case Err(e) => !GoodChannel(n) && e == if |n.children| < 2 then MissingName else MissingKey(n.children[1].text)
  }

  // ---------------------------------------------------------------- the described channel is that one

  lemma {:induction false} StringsListed(n: Node)
    ensures Listed(ArrayStrings(n), StringAt, n)
    decreases n
  {
    var parts := seq(|n.children|, i requires 0 <= i < |n.children| => ItemStrings(n.children[i]));
    forall i | 0 <= i < |parts| ensures Listed(parts[i], ItemAt, n.children[i]) {
      ItemListed(n, i);
    }
    StringsAreFlat(n, |n.children|, parts);
    assert parts[..|parts|] == parts;
    ItemsListed(n, parts);
  }

  lemma ItemsListed(n: Node, parts: seq<seq<string>>)
    requires |parts| == |n.children| && forall i | 0 <= i < |parts| :: Listed(parts[i], ItemAt, n.children[i])
    ensures Listed(Flat(parts), StringAt, n)
  {
    NodeListed(n, ItemAt, parts, StringAt);
  }

  function ItemStrings(c: Node): seq<string> {
    if c.kind == "expression" || c.kind == "string" then [TrimQuotes(c.text)]
    else if c.kind != "[" && c.kind != "]" && c.kind != "," then ArrayStrings(c)
    else []
  }

  lemma {:induction false} ItemListed(n: Node, i: nat)
    requires i < |n.children|
    ensures Listed(ItemStrings(n.children[i]), ItemAt, n.children[i])
    decreases n, 0
  {
    var c := n.children[i];
    if c.kind == "expression" || c.kind == "string" {
      OneListed(Some(TrimQuotes(c.text)), ItemAt, c);
    } else if c.kind == "[" || c.kind == "]" || c.kind == "," {
      NothingListed(ItemAt, c);
    } else {
      StringsListed(c);
      SameStrings(c);
    }
  }

  lemma SameStrings(c: Node)
    requires Listed(ArrayStrings(c), StringAt, c)
    requires c.kind != "expression" && c.kind != "string" && c.kind != "[" && c.kind != "]" && c.kind != ","
    ensures Listed(ArrayStrings(c), ItemAt, c)
  {
    forall p ensures StringAt(c, p) == ItemAt(c, p) {}
    SameListed(ArrayStrings(c), StringAt, ItemAt, c);
  }

  lemma {:induction false} StringsAreFlat(n: Node, k: nat, parts: seq<seq<string>>)
    requires k <= |n.children| == |parts| && forall i | 0 <= i < |parts| :: parts[i] == ItemStrings(n.children[i])
    ensures ArrayStringsBelow(n, k) == Flat(parts[..k])
  {
    if k > 0 {
      StringsAreFlat(n, k - 1, parts);
      assert parts[..k][..k - 1] == parts[..k - 1];
    }
  }

  lemma {:induction false} PlainAreFlat(ns: seq<Node>, parts: seq<seq<Property>>)
    requires |parts| == |ns| && forall i | 0 <= i < |ns| :: parts[i] == PlainProperty(ns[i])
    ensures PlainProperties(ns) == Flat(parts)
  {
    if ns != [] {
      PlainAreFlat(ns[..|ns| - 1], parts[..|ns| - 1]);
    }
  }

  lemma PlainListed(n: Node)
    ensures Enumerates(PlainProperties(n.children), p => ChannelStatement(n, p))
  {
    var parts := seq(|n.children|, i requires 0 <= i < |n.children| => PlainProperty(n.children[i]));
    forall i | 0 <= i < |parts| ensures Listed(parts[i], OwnPlain, n.children[i]) {
      OneListed(PlainStatement(n.children[i]), OwnPlain, n.children[i]);
    }
    PlainAreFlat(n.children, parts);
    ChildrenListed(n, OwnPlain, parts, p => ChannelStatement(n, p));
  }

  lemma {:induction false} RulesAreFlat(ns: seq<Node>, parts: seq<seq<PolicyRule>>)
    requires |parts| == |ns| && forall i | 0 <= i < |ns| :: parts[i] == RuleOf(ns[i])
    ensures RulesOf(ns) == Flat(parts)
  {
    if ns != [] {
      RulesAreFlat(ns[..|ns| - 1], parts[..|ns| - 1]);
    }
  }

  lemma BlockRulesListed(c: Node)
    ensures Listed(BlockRules(c), BlockRule, c)
  {
    if c.kind == "channel_policy_block" {
      var parts := seq(|c.children|, i requires 0 <= i < |c.children| => RuleOf(c.children[i]));
      forall i | 0 <= i < |parts| ensures Listed(parts[i], OwnRule, c.children[i]) {
        OneListed(OwnRule(c.children[i], []), OwnRule, c.children[i]);
      }
      RulesAreFlat(c.children, parts);
      NodeListed(c, OwnRule, parts, BlockRule);
    } else {
      NothingListed(BlockRule, c);
    }
  }

  lemma {:induction false} AllRulesAreFlat(ns: seq<Node>, parts: seq<seq<PolicyRule>>)
    requires |parts| == |ns| && forall i | 0 <= i < |ns| :: parts[i] == BlockRules(ns[i])
    ensures AllRules(ns) == Flat(parts)
  {
    if ns != [] {
      AllRulesAreFlat(ns[..|ns| - 1], parts[..|ns| - 1]);
    }
  }

  lemma RulesListed(n: Node)
    ensures Enumerates(AllRules(n.children), p => RuleAt(n, p))
  {
    var parts := seq(|n.children|, i requires 0 <= i < |n.children| => BlockRules(n.children[i]));
    forall i | 0 <= i < |parts| ensures Listed(parts[i], BlockRule, n.children[i]) {
      BlockRulesListed(n.children[i]);
    }
    AllRulesAreFlat(n.children, parts);
    ChildrenListed(n, BlockRule, parts, p => RuleAt(n, p));
  }

  lemma {:induction false} ClassesAreFlat(ns: seq<Node>, parts: seq<seq<Classification>>)
    requires |parts| == |ns| && forall i | 0 <= i < |ns| :: parts[i] == ClassOf(ns[i])
    ensures ClassesOf(ns) == Flat(parts)
  {
    if ns != [] {
      ClassesAreFlat(ns[..|ns| - 1], parts[..|ns| - 1]);
    }
  }

  lemma BlockClassesListed(c: Node)
    ensures Listed(BlockClasses(c), BlockClass, c)
  {
    if c.kind == "channel_data_classification_block" {
      var parts := seq(|c.children|, i requires 0 <= i < |c.children| => ClassOf(c.children[i]));
      forall i | 0 <= i < |parts| ensures Listed(parts[i], OwnClass, c.children[i]) {
        OneListed(OwnClass(c.children[i], []), OwnClass, c.children[i]);
      }
      ClassesAreFlat(c.children, parts);
      NodeListed(c, OwnClass, parts, BlockClass);
    } else {
      NothingListed(BlockClass, c);
    }
  }

  lemma {:induction false} AllClassesAreFlat(ns: seq<Node>, parts: seq<seq<Classification>>)
    requires |parts| == |ns| && forall i | 0 <= i < |ns| :: parts[i] == BlockClasses(ns[i])
    ensures AllClasses(ns) == Flat(parts)
  {
    if ns != [] {
      AllClassesAreFlat(ns[..|ns| - 1], parts[..|ns| - 1]);
    }
  }

  lemma ClassesListed(n: Node)
    ensures Enumerates(AllClasses(n.children), p => ClassAt(n, p))
  {
    var parts := seq(|n.children|, i requires 0 <= i < |n.children| => BlockClasses(n.children[i]));
    forall i | 0 <= i < |parts| ensures Listed(parts[i], BlockClass, n.children[i]) {
      BlockClassesListed(n.children[i]);
    }
    AllClassesAreFlat(n.children, parts);
    ChildrenListed(n, BlockClass, parts, p => ClassAt(n, p));
  }

  lemma StringsHold(n: Node)
    ensures StringsOf(n, ArrayStrings(n))
  {
    StringsListed(n);
    var own: Lookup<string> := StringAt;
    SamePlaces(ArrayStrings(n), p => own(n, p), p => StringAt(n, p));
  }

  lemma {:induction false} ChannelListHolds(ns: seq<Node>)
    ensures ChannelsOf(ns, ChannelList(ns))
  {
    if ns != [] {
      var k := |ns| - 1;
      if IsChannelList(ns[k]) {
        StringsHold(ns[k].children[2]);
        assert LastList(ns, k);
      } else {
        ChannelListHolds(ns[..k]);
        ChannelsOfMore(ns[..k], ns, ChannelList(ns));
      }
    }
  }

  lemma ChannelsOfMore(before: seq<Node>, ns: seq<Node>, channels: seq<string>)
    requires ns != [] && before == ns[..|ns| - 1] && !IsChannelList(ns[|ns| - 1]) && ChannelsOf(before, channels)
    ensures ChannelsOf(ns, channels)
  {
    if i :| LastList(before, i) && StringsOf(before[i].children[2], channels) {
      LastListMore(before, ns, i);
    } else {
      forall i | 0 <= i < |ns| ensures !IsChannelList(ns[i]) {
        assert i < |before| ==> before[i] == ns[i];
      }
    }
  }

  lemma LastListMore(before: seq<Node>, ns: seq<Node>, i: int)
    requires ns != [] && before == ns[..|ns| - 1] && !IsChannelList(ns[|ns| - 1]) && LastList(before, i)
    ensures LastList(ns, i) && ns[i] == before[i]
  {
    forall j | i < j < |ns| ensures !IsChannelList(ns[j]) {
      assert j < |before| ==> before[j] == ns[j];
    }
  }

  lemma DescribedHolds(n: Node)
    requires |n.children| >= 2
    ensures ChannelHolds(n, ChannelOf(n.children[1].text, n.children))
    ensures Last(PlainProperties(n.children), "platform").Some? <==> StatesPlatform(n)
  {
    var ps := PlainProperties(n.children);
    PlainListed(n);
    FieldsRead(p => ChannelStatement(n, p), ps);
    ChannelListHolds(n.children);
    RulesListed(n);
    ClassesListed(n);
    PlatformStated(n, Last(ps, "platform"));
  }

  lemma FieldsRead(at: Statements, ps: seq<Property>)
    requires Enumerates(ps, at)
    ensures Reads(Last(ps, "platform"), at, "platform") && Reads(Last(ps, "workspace"), at, "workspace")
    ensures Reads(Last(ps, "default_agent"), at, "default_agent")
    ensures Reads(Last(ps, "dlp_profile"), at, "dlp_profile") && Reads(Last(ps, "audit_level"), at, "audit_level")
    ensures Last(ps, "default_deny") == Some("true") <==> Latest(at, "default_deny", "true")
  {
    LastReads(ps, at, "platform");
    LastReads(ps, at, "workspace");
    LastReads(ps, at, "default_agent");
    LastReads(ps, at, "dlp_profile");
    LastReads(ps, at, "audit_level");
    LastReads(ps, at, "default_deny");
    ReadsLatest(Last(ps, "default_deny"), at, "default_deny", "true");
  }

  lemma PlatformStated(n: Node, platform: Option<string>)
    requires Reads(platform, p => ChannelStatement(n, p), "platform")
    ensures platform.Some? <==> StatesPlatform(n)
  {
    var at: Statements := p => ChannelStatement(n, p);
    if platform.Some? {
      var p :| LatestPlace(at, "platform", platform.value, p);
      assert at(p) == ChannelStatement(n, p);
    } else {
      forall p ensures ChannelStatement(n, p).None? || ChannelStatement(n, p).value.key != "platform" {
        assert at(p) == ChannelStatement(n, p);
      }
    }
  }

  lemma VisitedReads(n: Node)
    requires n.kind == "channel_definition"
    ensures ChannelReads(n, VisitChannel(n).value)
  {
    if |n.children| >= 2 {
      DescribedHolds(n);
    }
  }

  lemma ChannelsAreOne(ns: seq<Node>, xs: seq<string>, ys: seq<string>)
    requires ChannelsOf(ns, xs) && ChannelsOf(ns, ys)
    ensures xs == ys
  {
    if (exists i :: LastList(ns, i) && StringsOf(ns[i].children[2], xs))
       && (exists j :: LastList(ns, j) && StringsOf(ns[j].children[2], ys)) {
      var i :| LastList(ns, i) && StringsOf(ns[i].children[2], xs);
      var j :| LastList(ns, j) && StringsOf(ns[j].children[2], ys);
      var list := ns[i].children[2];
      OneListing(xs, ys, p => StringAt(list, p));
    }
  }

  /** The extractor gives a channel node exactly what it is read as. */
  lemma ChannelExactly(n: Node, r: Result<Channel, DefinitionError>)
    requires n.kind == "channel_definition"
    ensures VisitChannel(n) == Some(r) <==> ChannelReads(n, r)
  {
    VisitedReads(n);
    if ChannelReads(n, r) && r.Ok? {
      ChannelIsOne(n, r.value, VisitChannel(n).value.value);
    }
  }

  lemma ChannelIsOne(n: Node, c: Channel, d: Channel)
    requires |n.children| >= 2 && ChannelHolds(n, c) && ChannelHolds(n, d)
    ensures c == d
  {
    var at: Statements := p => ChannelStatement(n, p);
    ReadsOne(c.platform, d.platform, at, "platform");
    ReadsOne(c.workspace, d.workspace, at, "workspace");
    ChannelsAreOne(n.children, c.channels, d.channels);
    ReadsOne(c.defaultAgent, d.defaultAgent, at, "default_agent");
    ReadsOne(c.dlpProfile, d.dlpProfile, at, "dlp_profile");
    ReadsOne(c.auditLevel, d.auditLevel, at, "audit_level");
    OneListing(c.policyRules, d.policyRules, p => RuleAt(n, p));
    OneListing(c.classification, d.classification, p => ClassAt(n, p));
  }

  // ---------------------------------------------------------------- reading the node child by child

  function SetChannel(c: Channel, p: Property): Channel {
    if p.key == "platform" then c.(platform := Some(p.value))
    else if p.key == "workspace" then c.(workspace := Some(p.value))
    else if p.key == "default_agent" then c.(defaultAgent := Some(p.value))
    else if p.key == "dlp_profile" then c.(dlpProfile := Some(p.value))
    else if p.key == "audit_level" then c.(auditLevel := Some(p.value))
    else if p.key == "default_deny" then c.(defaultDeny := p.value == "true")
    else c
  }

  lemma SetChannelIsLast(name: string, ps: seq<Property>, list: seq<string>, rules: seq<PolicyRule>,
                         classes: seq<Classification>, p: Property)
    ensures SetChannel(ChannelFrom(name, ps, list, rules, classes), p)
            == ChannelFrom(name, ps + [p], list, rules, classes)
  {
    LastSnoc(ps, p, "platform");
    LastSnoc(ps, p, "workspace");
    LastSnoc(ps, p, "default_agent");
    LastSnoc(ps, p, "dlp_profile");
    LastSnoc(ps, p, "audit_level");
    LastSnoc(ps, p, "default_deny");
  }

  method ReadRules(block: Node) returns (rules: seq<PolicyRule>)
    ensures rules == RulesOf(block.children)
  {
    rules := [];
    for j := 0 to |block.children|
      invariant rules == RulesOf(block.children[..j])
    {
      var rule := block.children[j];
      assert block.children[..j + 1][..j] == block.children[..j];
      if rule.kind == "policy_rule" && |rule.children| > 2 {
        rules := rules + [PolicyRule(rule.children[0].text, rule.children[2].text)];
      }
    }
    assert block.children[..|block.children|] == block.children;
  }

  method ReadClasses(block: Node) returns (classes: seq<Classification>)
    ensures classes == ClassesOf(block.children)
  {
    classes := [];
    for j := 0 to |block.children|
      invariant classes == ClassesOf(block.children[..j])
    {
      var rule := block.children[j];
      assert block.children[..j + 1][..j] == block.children[..j];
      if rule.kind == "data_classification_rule" && |rule.children| > 2 {
        classes := classes + [Classification(rule.children[0].text, rule.children[2].text)];
      }
    }
    assert block.children[..|block.children|] == block.children;
  }

  /** One child of a channel node. */
  method ApplyChannelChild(c: Channel, n: Node, ghost before: seq<Node>) returns (r: Channel)
    requires c == ChannelOf(c.name, before)
    ensures r == ChannelOf(c.name, before + [n])
  {
    assert (before + [n])[..|before|] == before;
    r := c;
    if n.kind == "channel_property" {
      if |n.children| > 2 {
        if n.children[2].kind == "array" {
          var items := ExtractArrayStrings(n.children[2]);
          if n.children[0].text == "channels" {
            r := r.(channels := items);
          }
        } else {
          var p := Property(n.children[0].text, TrimQuotes(n.children[2].text));
          SetChannelIsLast(c.name, PlainProperties(before), ChannelList(before), AllRules(before),
            AllClasses(before), p);
          r := SetChannel(r, p);
        }
      }
    } else if n.kind == "channel_policy_block" {
      var rules := ReadRules(n);
      r := r.(policyRules := r.policyRules + rules);
    } else if n.kind == "channel_data_classification_block" {
      var classes := ReadClasses(n);
      r := r.(classification := r.classification + classes);
    }
    NothingAdded(before);
  }

  lemma NothingAdded(ns: seq<Node>)
    ensures PlainProperties(ns) + [] == PlainProperties(ns)
    ensures AllRules(ns) + [] == AllRules(ns) && AllClasses(ns) + [] == AllClasses(ns)
  {}

  /** Reading all children of a channel node. */
  method ReadChannel(name: string, ns: seq<Node>) returns (chan: Channel)
    ensures chan == ChannelOf(name, ns)
  {
    chan := Channel(name, None, None, [], None, None, None, false, [], []);
    for i := 0 to |ns|
      invariant chan == ChannelOf(name, ns[..i])
    {
      chan := ApplyChannelChild(chan, ns[i], ns[..i]);
      assert ns[..i] + [ns[i]] == ns[..i + 1];
    }
    assert ns[..|ns|] == ns;
  }

  /** Reading one channel node, child by child. */
  method ExtractChannel(n: Node) returns (r: Result<Channel, DefinitionError>)
    requires n.kind == "channel_definition"
    ensures VisitChannel(n) == Some(r)
    ensures ChannelReads(n, r)
  {
    VisitedReads(n);
    if |n.children| < 2 {
      return Err(MissingName);
    }
    var chan := ReadChannel(n.children[1].text, n.children);
    if chan.platform.None? {
      return Err(MissingKey(chan.name));
    }
    r := Ok(chan);
  }

  lemma ChannelsRead(ns: seq<Node>)
    ensures AllFine(VisitChannel, ns) <==> forall d <- OfKind(ns, "channel_definition") :: GoodChannel(d)
    ensures AllFine(VisitChannel, ns) ==>
              ReadAs(ChannelReads, OfKind(ns, "channel_definition"), Found(VisitChannel, ns))
  {
    forall n | VisitChannel(n).Some?
      ensures ChannelReads(n, VisitChannel(n).value) && (VisitChannel(n).value.Ok? <==> GoodChannel(n))
    {
      VisitedReads(n);
    }
    ByNode(VisitChannel, "channel_definition", ns, GoodChannel, ChannelReads);
  }

  /** The channel extractor: it succeeds exactly when no place is deeper than the bound and every channel node is good;
      its results then are the channels of the channel nodes, one for each and in preorder. */
  method ExtractChannelDefinitions(root: Node) returns (r: Result<seq<Channel>, Failure<DefinitionError>>)
    ensures var ds := OfKind(Preorder(root), "channel_definition");
      && (r.Ok? <==> Height(root) <= MAX_AST_DEPTH && forall d <- ds :: GoodChannel(d))
      && (r.Ok? ==> ReadAs(ChannelReads, ds, r.value))
      && (r == Err(TooDeep) ==> Height(root) > MAX_AST_DEPTH)
      && (r.Err? && r.error.Invalid? ==> exists d <- ds :: ChannelReads(d, Err(r.error.error)))
  {
    r := Traverse(root, VisitChannel, [], 0);
    ChannelsRead(Preorder(root));
    if r.Ok? {
      assert [] + Found(VisitChannel, Preorder(root)) == Found(VisitChannel, Preorder(root));
    } else if r.error.Invalid? {
      ghost var i :| 0 <= i < |Preorder(root)| && VisitChannel(Preorder(root)[i]) == Some(Err(r.error.error));
      OfKindMembers(Preorder(root), "channel_definition", Preorder(root)[i]);
      ChannelExactly(Preorder(root)[i], Err(r.error.error));
    }
  }
}
