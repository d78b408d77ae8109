/** The line-oriented policy format of the REPL: parsing and rendering. */
module PolicyText {
  import opened Text

  datatype Rule = Rule(action: string, target: string, condition: Option<string>)

  datatype Policy = Policy(name: string, rules: seq<Rule>)

  datatype Error =
    | EmptyPolicy
    | OnlyWhiteSpace
    | NameMissing
    | HeaderMissing
    | TargetMissing(action: string)
    | UnknownAction(action: string)
    | NoRules(name: string)

  const ACTIONS: seq<string> := ["allow", "deny", "audit", "limit", "require", "apply"]

  const WHEN: string := " when "

  // ---------------------------------------------------------------- lines

  /** The lines of a text. A carriage return at a line's end is white space and goes when it is trimmed. */
  function Lines(s: string): seq<string> {
    if s == "" then []
    else
      var n := LineLen(s);
      if n == |s| then [s] else [s[..n]] + Lines(s[n + 1..])
  }

  lemma LinesFront(l: string, rest: string)
    requires OneLine(l)
    ensures Lines(l + "\n" + rest) == [l] + Lines(rest)
  {
    var s := l + "\n" + rest;
    LineLenIs(l, "\n" + rest);
    assert s == l + ("\n" + rest);
    assert s[..|l|] == l && s[|l| + 1..] == rest;
  }

  /** The trimmed lines that are not blank. */
  function Significant(lines: seq<string>): seq<string> {
    if lines == [] then []
    else (if Trim(lines[0]) == "" then [] else [Trim(lines[0])]) + Significant(lines[1..])
  }

  // ---------------------------------------------------------------- parsing

  predicate IsNote(line: string) {
    (line != "" && line[0] == '#') || (|line| >= 2 && line[..2] == "//")
  }

  /** The position of the first blank, if any. */
  function BlankAt(s: string): Option<nat> {
    Find(s, " ")
  }

  function ParseRule(line: string): Result<Rule, Error> {
    var w := Find(line, WHEN);
    var main := if w.Some? then Trim(line[..w.value]) else line;
    var condition := if w.Some? then Some(Trim(line[w.value + 5..])) else None;
    var b := BlankAt(main);
    if b.None? then Err(TargetMissing(main))
    else
      var action := main[..b.value];
      if action in ACTIONS then Ok(Rule(action, main[b.value + 1..], condition)) else Err(UnknownAction(action))
  }

  /** Rules up to the first `end`, past comments. */
  function ParseRules(lines: seq<string>): Result<seq<Rule>, Error> {
    if lines == [] || lines[0] == "end" then Ok([])
    else if IsNote(lines[0]) then ParseRules(lines[1..])
    else
      var rule := ParseRule(lines[0]);
      if rule.Err? then Err(rule.error)
      else
        var rest := ParseRules(lines[1..]);
        if rest.Err? then rest else Ok([rule.value] + rest.value)
  }

  function ParsePolicy(text: string): Result<Policy, Error> {
    if text == "" then Err(EmptyPolicy)
    else
      var lines := Significant(Lines(text));
      if lines == [] then Err(OnlyWhiteSpace)
      else if !("policy" <= lines[0]) then Err(HeaderMissing)
      else
        var name := Trim(lines[0][6..]);
        if name == "" then Err(NameMissing)
        else
          PolicyOf(name, ParseRules(lines[1..]))
  }

  /** A policy has at least one rule. */
  function PolicyOf(name: string, rules: Result<seq<Rule>, Error>): Result<Policy, Error> {
    if rules.Err? then Err(rules.error)
    else if rules.value == [] then Err(NoRules(name))
    else Ok(Policy(name, rules.value))
  }

  lemma {:induction false} RulesPrefix(lines: seq<string>, i: nat, rules: seq<Rule>)
    requires i <= |lines|
    requires forall k | 0 <= k < i :: lines[k] != "end"
    requires Collected(lines[..i]) == Ok(rules)
    ensures var rest := ParseRules(lines[i..]);
      ParseRules(lines) == if rest.Err? then rest else Ok(rules + rest.value)
  {
    if i == 0 {
      assert lines[0..] == lines && lines[..0] == [];
      var rest := ParseRules(lines);
      if rest.Ok? { assert [] + rest.value == rest.value; }
    } else {
      assert lines[..i][1..] == lines[1..][..i - 1] && lines[1..][i - 1..] == lines[i..];
      var tail := Collected(lines[..i][1..]);
      RulesPrefix(lines[1..], i - 1, tail.value);
      assert lines[0] != "end";
      var rest := ParseRules(lines[i..]);
      if rest.Ok? && !IsNote(lines[0]) {
        var r := ParseRule(lines[0]).value;
        assert [r] + (tail.value + rest.value) == [r] + tail.value + rest.value;
      }
    }
  }

  /** The rules of lines without an `end`. */
  function Collected(lines: seq<string>): Result<seq<Rule>, Error> {
    if lines == [] then Ok([])
    else if IsNote(lines[0]) then Collected(lines[1..])
    else
      var rule := ParseRule(lines[0]);
      if rule.Err? then Err(rule.error)
      else
        var rest := Collected(lines[1..]);
        if rest.Err? then rest else Ok([rule.value] + rest.value)
  }

  lemma {:induction false} CollectedSnoc(lines: seq<string>, line: string)
    requires Collected(lines).Ok?
    ensures Collected(lines + [line]) ==
            if IsNote(line) then Collected(lines)
            else if ParseRule(line).Err? then Err(ParseRule(line).error)
            else Ok(Collected(lines).value + [ParseRule(line).value])
  {
    if lines == [] {
      assert lines + [line] == [line] && [line][1..] == [];
      assert Collected([line][1..]) == Ok([]);
      if ParseRule(line).Ok? { assert [] + [ParseRule(line).value] == [ParseRule(line).value] + []; }
    } else {
      CollectedSnoc(lines[1..], line);
      assert (lines + [line])[1..] == lines[1..] + [line];
      if !IsNote(lines[0]) && ParseRule(line).Ok? {
        var r, x := ParseRule(lines[0]).value, ParseRule(line).value;
        assert [r] + (Collected(lines[1..]).value + [x]) == [r] + Collected(lines[1..]).value + [x];
      }
    }
  }

  /** Parsing as it is written: a loop over the lines that pushes rules and stops at `end`. */
  method ParsePolicyLines(policy: string) returns (r: Result<Policy, Error>)
    ensures r == ParsePolicy(policy)
  {
    if policy == "" {
      return Err(EmptyPolicy);
    }
    var lines := Significant(Lines(policy));
    if lines == [] {
      return Err(OnlyWhiteSpace);
    }
    var first := lines[0];
    if !("policy" <= first) {
      return Err(HeaderMissing);
    }
    var name := Trim(first[6..]);
    if name == "" {
      return Err(NameMissing);
    }
    var body := lines[1..];
    assert ParsePolicy(policy) == PolicyOf(name, ParseRules(body));
    var rules: seq<Rule> := [];
    var i := 0;
    while i < |body|
      invariant 0 <= i <= |body|
      invariant forall k | 0 <= k < i :: body[k] != "end"
      invariant Collected(body[..i]) == Ok(rules)
    {
      var line := body[i];
      if line == "end" {
        break;
      }
      CollectedSnoc(body[..i], line);
      assert body[..i + 1] == body[..i] + [line];
      if IsNote(line) {
        i := i + 1;
        continue;
      }
      var rule := ParseRule(line);
      if rule.Err? {
        RulesPrefix(body, i, rules);
        return Err(rule.error);
      }
      rules := rules + [rule.value];
      i := i + 1;
    }
    RulesPrefix(body, i, rules);
    assert rules + [] == rules;
    if rules == [] {
      return Err(NoRules(name));
    }
    r := Ok(Policy(name, rules));
  }

  // ---------------------------------------------------------------- rendering

  function RuleHead(r: Rule): string {
    r.action + " " + r.target
  }

  function RenderRule(r: Rule): string {
    match r.condition
    case None => RuleHead(r)
    case Some(c) => RuleHead(r) + WHEN + c
  }

  /** What a rule must look like for its line to say it: the target does not end in white space, the
      condition is trimmed, and the first ` when ` of the line is the one before the condition. */
  predicate Renderable(r: Rule) {
    && r.action in ACTIONS
    && r.target != "" && !IsSpace(r.target[|r.target| - 1])
    && match r.condition
       case None => !Contains(RuleHead(r), WHEN)
       case Some(c) => c != "" && Trimmed(c) && !Contains(RuleHead(r) + " when", WHEN)
  }

  lemma ActionWords(a: string)
    requires a in ACTIONS
    ensures |a| >= 4 && Trimmed(a) && !Contains(a, " ") && OneLine(a) && !IsNote(a + " ") && a[0] != 'e'
  {
    forall i | 0 <= i <= |a| ensures !At(a, i, " ") {
      AtChar(a, i, " ", 0);
    }
    assert (a + " ")[0] == a[0] && (a + " ")[..2] == a[..2];
  }

  lemma BlankAfter(a: string, t: string)
    requires !Contains(a, " ")
    ensures BlankAt(a + " " + t) == Some(|a|)
  {
    var s := a + " " + t;
    assert SameChar(s, |a|, " ", 0);
    assert At(s, |a|, " ");
    forall i | 0 <= i < |a| ensures !At(s, i, " ") {
      AtPrefix(a, " " + t, i, " ");
      assert s == a + (" " + t);
    }
  }

  /** Without a condition, a line that begins with a word is a rule exactly if the word is one of the six actions. */
  lemma ActionExactly(action: string, target: string)
    requires !Contains(action, " ") && !Contains(action + " " + target, WHEN)
    ensures var line := action + " " + target;
      if action == "allow" || action == "deny" || action == "audit"
         || action == "limit" || action == "require" || action == "apply"
      then ParseRule(line) == Ok(Rule(action, target, None))
      else ParseRule(line) == Err(UnknownAction(action))
  {
    BlankAfter(action, target);
    var line := action + " " + target;
    assert line[..|action|] == action && line[|action| + 1..] == target;
  }

  lemma FirstAt(s: string, p: string, i: nat)
    requires At(s, i, p) && forall j | 0 <= j < i :: !At(s, j, p)
    ensures Find(s, p) == Some(i)
  {}

  /** The first ` when ` of a rendered rule is where it was put. */
  lemma WhenAt(head: string, c: string)
    requires !Contains(head + " when", WHEN)
    ensures Find(head + WHEN + c, WHEN) == Some(|head|)
  {
    var s := head + WHEN + c;
    AtSuffix(head, WHEN + c, 0, WHEN);
    assert s == head + (WHEN + c);
    AtSlice(WHEN + c, 0, WHEN);
    assert (WHEN + c)[0..6] == WHEN;
    forall j | 0 <= j < |head| ensures !At(s, j, WHEN) {
      var front := head + " when";
      assert s == front + (" " + c);
      AtPrefix(front, " " + c, j, WHEN);
      assert !At(front, j, WHEN);
    }
    FirstAt(s, WHEN, |head|);
  }

  lemma TrimIsSame(s: string)
    requires Trimmed(s)
    ensures Trim(s) == s
  {
    TrimAround("", s, "");
    assert "" + s + "" == s;
  }

  lemma HeadTrimmed(r: Rule)
    requires Renderable(r)
    ensures Trimmed(RuleHead(r)) && BlankAt(RuleHead(r)) == Some(|r.action|)
    ensures RuleHead(r)[..|r.action|] == r.action && RuleHead(r)[|r.action| + 1..] == r.target
  {
    ActionWords(r.action);
    BlankAfter(r.action, r.target);
  }

  /** A rendered rule parses back. */
  lemma RuleParsesBack(r: Rule)
    requires Renderable(r)
    ensures ParseRule(RenderRule(r)) == Ok(r)
  {
    var head := RuleHead(r);
    HeadTrimmed(r);
    if r.condition.Some? {
      var c := r.condition.value;
      var line := head + WHEN + c;
      WhenAt(head, c);
      assert line[..|head|] == head;
      TrimIsSame(head);
      assert line[|head| + 5..] == " " + c + "";
      TrimAround(" ", c, "");
    }
  }

  lemma TrimLength(s: string)
    ensures |Trim(s)| <= |s|
  {
    var a, b := TrimSplit(s);
  }

  /** If the condition of a rule is read back, the rule's line has its first ` when ` before it. */
  lemma ConditionBack(head: string, c: string, line: string, w: nat)
    requires head != "" && Trimmed(head) && Trimmed(c)
    requires line == Trim(head + WHEN + c) && w <= |line| && Find(line, WHEN) == Some(w) && Trim(line[..w]) == head
    ensures c != "" && !Contains(head + " when", WHEN)
  {
    TrimLength(line[..w]);
    if c == "" {
      assert head + WHEN + c == "" + (head + " when") + " ";
      TrimAround("", head + " when", " ");
      assert false;
    }
    TrimIsSame(head + WHEN + c);
    var front := head + " when";
    forall j | 0 <= j <= |front| ensures !At(front, j, WHEN) {
      assert line == front + (" " + c);
      if j + 6 <= |front| {
        AtPrefix(front, " " + c, j, WHEN);
        assert !At(line, j, WHEN);
      }
    }
  }

  /** No other rule is read back from its rendered line. */
  lemma OnlyRenderableParsesBack(r: Rule)
    requires ParseRule(Trim(RenderRule(r))) == Ok(r)
    ensures Renderable(r)
  {
    var line := Trim(RenderRule(r));
    var x, y := TrimSplit(RenderRule(r));
    if Find(line, WHEN).None? {
      MainParts(line, r);
    } else {
      WithCondition(r, line, Find(line, WHEN).value);
    }
    TargetEnds(r);
  }

  lemma WithCondition(r: Rule, line: string, w: nat)
    requires line == Trim(RenderRule(r)) && Find(line, WHEN) == Some(w) && ParseRule(line) == Ok(r)
    ensures r.condition.Some? && r.condition.value != "" && Trimmed(r.condition.value)
    ensures Trimmed(RuleHead(r)) && !Contains(RuleHead(r) + " when", WHEN) && r.action in ACTIONS
  {
    var u, v := TrimSplit(line[..w]);
    var p, q := TrimSplit(line[w + 5..]);
    RuleParts(r, line, w);
    MainParts(Trim(line[..w]), r);
    ConditionBack(RuleHead(r), r.condition.value, line, w);
  }

  /** What a line with a condition says about the rule that is read from it. */
  lemma RuleParts(r: Rule, line: string, w: nat)
    requires Find(line, WHEN) == Some(w) && ParseRule(line) == Ok(r)
    ensures w + 6 <= |line| && r.condition == Some(Trim(line[w + 5..])) && r.action in ACTIONS
    ensures var main := Trim(line[..w]);
      && BlankAt(main).Some?
      && var b := BlankAt(main).value; b < |main| && main[..b] == r.action && main[b + 1..] == r.target
  {}

  lemma MainParts(main: string, r: Rule)
    requires BlankAt(main).Some?
    requires var b := BlankAt(main).value; b < |main| && main[..b] == r.action && main[b + 1..] == r.target
    ensures main == RuleHead(r)
  {
    var b := BlankAt(main).value;
    AtSlice(main, b, " ");
    assert main[b..b + 1] == " ";
    HeadParts(main, b, r);
  }

  lemma HeadParts(main: string, b: nat, r: Rule)
    requires b < |main| && main[b] == ' ' && main[..b] == r.action && main[b + 1..] == r.target
    ensures main == RuleHead(r)
  {}

  lemma TargetEnds(r: Rule)
    requires Trimmed(RuleHead(r))
    ensures r.target != "" && !IsSpace(r.target[|r.target| - 1])
  {
    var main := RuleHead(r);
    assert main[|r.action|] == ' ';
    assert r.target != "" ==> main[|main| - 1] == r.target[|r.target| - 1];
  }

  /** A rule is read back from its line exactly when it is renderable. */
  lemma RuleParsesBackExactly(r: Rule)
    ensures ParseRule(Trim(RenderRule(r))) == Ok(r) <==> Renderable(r)
  {
    if Renderable(r) {
      RuleParsesBack(r);
      RenderedTrimmed(r);
      TrimIsSame(RenderRule(r));
    }
    if ParseRule(Trim(RenderRule(r))) == Ok(r) {
      OnlyRenderableParsesBack(r);
    }
  }

  lemma RenderedTrimmed(r: Rule)
    requires Renderable(r)
    ensures Trimmed(RenderRule(r)) && RenderRule(r) != "" && RenderRule(r) != "end" && !IsNote(RenderRule(r))
  {
    HeadTrimmed(r);
    ActionWords(r.action);
    var line := RenderRule(r);
    assert r.action + " " <= line && line[0] == r.action[0] && line[1] == r.action[1];
  }
}
