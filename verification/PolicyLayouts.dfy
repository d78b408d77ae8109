/** Layouts of a policy's text, and exactly which policies are read back from it. */
module PolicyLayouts {
  import opened Text
  import opened PolicyText

  // ---------------------------------------------------------------- layouts

  /** A line that the parser skips between rules: blank, or a comment with any indentation. */
  predicate Filler(l: string) {
    OneLine(l) && (Trim(l) == "" || IsNote(Trim(l)))
  }

  /** How one significant line is laid out: the filler lines before it and the white space around it. */
  datatype Margin = Margin(fillers: seq<string>, left: string, right: string)

  ghost predicate Space(s: string) {
    AllSpace(s) && OneLine(s)
  }

  ghost predicate ValidMargin(m: Margin) {
    Space(m.left) && Space(m.right) && forall i | 0 <= i < |m.fillers| :: Filler(m.fillers[i])
  }

  /** White space before the header, margins of the header's name, of each rule and of `end`, and the text
      behind `end`. */
  datatype Layout = Layout(
    blanks: seq<string>, header: Margin, gap: string, rules: seq<Margin>, end: Margin, rest: string)

  ghost predicate ValidLayout(y: Layout, p: Policy) {
    && (forall i | 0 <= i < |y.blanks| :: Space(y.blanks[i]))
    && y.header.fillers == [] && ValidMargin(y.header) && Space(y.gap)
    && |y.rules| == |p.rules| && (forall i | 0 <= i < |y.rules| :: ValidMargin(y.rules[i]))
    && ValidMargin(y.end)
  }

  function JoinLines(lines: seq<string>): string {
    if lines == [] then "" else lines[0] + "\n" + JoinLines(lines[1..])
  }

  function LaidOut(m: Margin, line: string): seq<string> {
    m.fillers + [m.left + line + m.right]
  }

  function LaidOutRules(ms: seq<Margin>, rules: seq<Rule>): seq<string>
    requires |ms| == |rules|
  {
    if ms == [] then [] else LaidOut(ms[0], RenderRule(rules[0])) + LaidOutRules(ms[1..], rules[1..])
  }

  function LayoutLines(y: Layout, p: Policy): seq<string>
    requires |y.rules| == |p.rules|
  {
    y.blanks + LaidOut(y.header, "policy" + y.gap + p.name) + LaidOutRules(y.rules, p.rules) + LaidOut(y.end, "end")
  }

  /** The policy's text in a layout. */
  function RenderPolicy(y: Layout, p: Policy): string
    requires |y.rules| == |p.rules|
  {
    JoinLines(LayoutLines(y, p)) + y.rest
  }

  predicate RenderablePolicy(p: Policy) {
    && p.name != "" && Trimmed(p.name) && OneLine(p.name) && p.rules != []
    && forall i | 0 <= i < |p.rules| :: RenderableLine(p.rules[i])
  }

  predicate RenderableLine(r: Rule) {
    Renderable(r) && OneLine(RenderRule(r))
  }

  ghost predicate AllOneLine(lines: seq<string>) {
    forall i | 0 <= i < |lines| :: OneLine(lines[i])
  }

  lemma {:induction false} LinesOfJoined(lines: seq<string>, rest: string)
    requires AllOneLine(lines)
    ensures Lines(JoinLines(lines) + rest) == lines + Lines(rest)
  {
    if lines == [] {
      assert "" + rest == rest;
    } else {
      LinesOfJoined(lines[1..], rest);
      LinesFront(lines[0], JoinLines(lines[1..]) + rest);
      Associative(lines[0] + "\n", JoinLines(lines[1..]), rest);
      Associative([lines[0]], lines[1..], Lines(rest));
      assert [lines[0]] + lines[1..] == lines;
    }
  }

  function Kept(line: string): seq<string> {
    if Trim(line) == "" then [] else [Trim(line)]
  }

  lemma SignificantFront(lines: seq<string>)
    requires lines != []
    ensures Significant(lines) == Kept(lines[0]) + Significant(lines[1..])
  {}

  lemma {:induction false} SignificantConcat(a: seq<string>, b: seq<string>)
    ensures Significant(a + b) == Significant(a) + Significant(b)
  {
    if a == [] {
      assert a + b == b;
    } else {
      SignificantConcat(a[1..], b);
      assert (a + b)[1..] == a[1..] + b;
      SignificantFront(a);
      SignificantFront(a + b);
      Associative(Kept(a[0]), Significant(a[1..]), Significant(b));
    }
  }

  lemma {:induction false} BlanksInsignificant(bs: seq<string>)
    requires forall i | 0 <= i < |bs| :: Space(bs[i])
    ensures Significant(bs) == [] && AllOneLine(bs)
  {
    if bs != [] {
      TrimAround(bs[0], "", "");
      assert bs[0] + "" + "" == bs[0];
      BlanksInsignificant(bs[1..]);
      forall i | 0 <= i < |bs| ensures OneLine(bs[i]) { assert Space(bs[i]); }
    }
  }

  /** Fillers leave only comments behind, which the rule parser skips. */
  lemma {:induction false} FillersSkipped(fs: seq<string>, tail: seq<string>)
    requires forall i | 0 <= i < |fs| :: Filler(fs[i])
    ensures ParseRules(Significant(fs) + tail) == ParseRules(tail)
  {
    if fs == [] {
      assert [] + tail == tail;
    } else {
      FillersSkipped(fs[1..], tail);
      SignificantFront(fs);
      Associative(Kept(fs[0]), Significant(fs[1..]), tail);
      FillerSkipped(fs[0], Significant(fs[1..]) + tail);
    }
  }

  lemma FillerSkipped(f: string, lines: seq<string>)
    requires Filler(f)
    ensures ParseRules(Kept(f) + lines) == ParseRules(lines)
  {
    var t := Trim(f);
    if t == "" {
      assert Kept(f) + lines == lines;
    } else {
      var all := [t] + lines;
      assert all[0] == t && all[1..] == lines;
      assert "end"[0] == 'e';
    }
  }

  lemma LaidOutSignificant(m: Margin, line: string)
    requires ValidMargin(m) && Trimmed(line) && line != "" && OneLine(line)
    ensures Significant(LaidOut(m, line)) == Significant(m.fillers) + [line] && AllOneLine(LaidOut(m, line))
  {
    var l := m.left + line + m.right;
    TrimAround(m.left, line, m.right);
    SignificantConcat(m.fillers, [l]);
    assert Significant([l]) == [line] + Significant([]);
    var ls := LaidOut(m, line);
    forall i | 0 <= i < |ls| ensures OneLine(ls[i]) {
      if i < |m.fillers| { assert Filler(m.fillers[i]); }
    }
  }

  lemma RuleParsesFirst(m: Margin, r: Rule, others: seq<string>)
    requires ValidMargin(m) && RenderableLine(r)
    ensures var rest := ParseRules(others);
      ParseRules(Significant(m.fillers) + ([RenderRule(r)] + others))
        == if rest.Err? then rest else Ok([r] + rest.value)
  {
    var line := RenderRule(r);
    RenderedTrimmed(r);
    RuleParsesBack(r);
    FillersSkipped(m.fillers, [line] + others);
    assert ([line] + others)[0] == line && ([line] + others)[1..] == others;
  }

  lemma EndStops(end: Margin, more: seq<string>)
    requires ValidMargin(end)
    ensures ParseRules(Significant(LaidOut(end, "end")) + more) == Ok([])
  {
    LaidOutSignificant(end, "end");
    FillersSkipped(end.fillers, ["end"] + more);
    Associative(Significant(end.fillers), ["end"], more);
  }

  lemma FirstRuleBack(m: Margin, r: Rule, others: seq<string>, tail: seq<string>)
    requires ValidMargin(m) && RenderableLine(r)
    ensures var rest := ParseRules(Significant(others) + tail);
      ParseRules(Significant(LaidOut(m, RenderRule(r)) + others) + tail)
        == if rest.Err? then rest else Ok([r] + rest.value)
  {
    var line := RenderRule(r);
    RenderedTrimmed(r);
    LaidOutSignificant(m, line);
    SignificantConcat(LaidOut(m, line), others);
    Regroup(Significant(m.fillers), [line], Significant(others), tail);
    RuleParsesFirst(m, r, Significant(others) + tail);
  }

  lemma {:induction false} RulesParseBack(ms: seq<Margin>, rules: seq<Rule>, tail: seq<string>)
    requires |ms| == |rules| && ParseRules(tail) == Ok([])
    requires forall i | 0 <= i < |ms| :: ValidMargin(ms[i])
    requires forall i | 0 <= i < |rules| :: RenderableLine(rules[i])
    ensures ParseRules(Significant(LaidOutRules(ms, rules)) + tail) == Ok(rules)
    ensures AllOneLine(LaidOutRules(ms, rules))
  {
    if ms == [] {
      assert Significant([]) + tail == tail;
    } else {
      assert RenderableLine(rules[0]) && ValidMargin(ms[0]);
      RulesParseBack(ms[1..], rules[1..], tail);
      var line, others := RenderRule(rules[0]), LaidOutRules(ms[1..], rules[1..]);
      RenderedTrimmed(rules[0]);
      LaidOutSignificant(ms[0], line);
      FirstRuleBack(ms[0], rules[0], others, tail);
      assert [rules[0]] + rules[1..] == rules;
    }
  }

  lemma Regroup(fs: seq<string>, line: seq<string>, others: seq<string>, tail: seq<string>)
    ensures fs + line + others + tail == fs + (line + (others + tail))
  {}

  lemma HeaderLine(gap: string, name: string)
    requires Space(gap) && name != "" && Trimmed(name) && OneLine(name)
    ensures var h := "policy" + gap + name; Trimmed(h) && h != "" && OneLine(h) && "policy" <= h && Trim(h[6..]) == name
  {
    var h := "policy" + gap + name;
    assert h[6..] == gap + name + "";
    TrimAround(gap, name, "");
    assert h[|h| - 1] == name[|name| - 1];
    assert h[0] == 'p';
  }

  lemma HeaderFirst(b: seq<string>, h: string, c: seq<string>, d: seq<string>, more: seq<string>)
    requires b == [] + [h]
    ensures [] + b + c + d + more == [h] + (c + (d + more))
  {}

  lemma LayoutOneLine(a: seq<string>, b: seq<string>, c: seq<string>, d: seq<string>)
    requires AllOneLine(a) && AllOneLine(b) && AllOneLine(c) && AllOneLine(d)
    ensures AllOneLine(a + b + c + d)
  {}

  // ---------------------------------------------------------------- what is read has no line breaks

  lemma {:induction false} LinesAreLines(s: string)
    ensures AllOneLine(Lines(s))
    decreases |s|
  {
    if s != "" {
      var n := LineLen(s);
      FirstLine(s);
      assert s[..|s|] == s;
      if n < |s| {
        LinesAreLines(s[n + 1..]);
      }
    }
  }

  lemma PartOneLine(a: string, s: string, b: string)
    requires OneLine(a + s + b)
    ensures OneLine(s)
  {
    forall i | 0 <= i < |s| ensures s[i] != '\n' { assert (a + s + b)[|a| + i] == s[i]; }
  }

  lemma TrimOneLine(s: string)
    requires OneLine(s)
    ensures OneLine(Trim(s))
  {
    var a, b := TrimSplit(s);
    PartOneLine(a, Trim(s), b);
  }

  lemma {:induction false} SignificantOneLine(lines: seq<string>)
    requires AllOneLine(lines)
    ensures AllOneLine(Significant(lines))
  {
    if lines != [] {
      assert OneLine(lines[0]);
      TrimOneLine(lines[0]);
      forall i | 0 <= i < |lines| - 1 ensures OneLine(lines[1..][i]) { assert OneLine(lines[i + 1]); }
      SignificantOneLine(lines[1..]);
      SignificantFront(lines);
    }
  }

  lemma ReadHeadOneLine(main: string, b: nat, r: Rule)
    requires OneLine(main) && b < |main| && r.action == main[..b] && r.target == main[b + 1..]
    ensures OneLine(RuleHead(r))
  {}

  lemma ReadRuleOneLine(line: string)
    requires OneLine(line) && ParseRule(line).Ok?
    ensures OneLine(RenderRule(ParseRule(line).value))
  {
    var r := ParseRule(line).value;
    var w := Find(line, WHEN);
    if w.Some? {
      TrimOneLine(line[..w.value]);
      TrimOneLine(line[w.value + 5..]);
    }
    var main := if w.Some? then Trim(line[..w.value]) else line;
    AtSlice(main, BlankAt(main).value, " ");
    ReadHeadOneLine(main, BlankAt(main).value, r);
  }

  lemma {:induction false} ReadRulesOneLine(lines: seq<string>)
    requires AllOneLine(lines) && ParseRules(lines).Ok?
    ensures forall i | 0 <= i < |ParseRules(lines).value| :: OneLine(RenderRule(ParseRules(lines).value[i]))
  {
    if lines != [] && lines[0] != "end" {
      assert OneLine(lines[0]);
      forall i | 0 <= i < |lines| - 1 ensures OneLine(lines[1..][i]) { assert OneLine(lines[i + 1]); }
      ReadRulesOneLine(lines[1..]);
      if !IsNote(lines[0]) {
        ReadRuleOneLine(lines[0]);
      }
    }
  }

  /** What is read from any text is trimmed and has no line breaks. */
  lemma ReadPolicy(text: string)
    requires ParsePolicy(text).Ok?
    ensures var p := ParsePolicy(text).value;
      && p.name != "" && Trimmed(p.name) && OneLine(p.name) && p.rules != []
      && forall i | 0 <= i < |p.rules| :: OneLine(RenderRule(p.rules[i]))
  {
    var lines := Significant(Lines(text));
    LinesAreLines(text);
    SignificantOneLine(Lines(text));
    assert OneLine(lines[0]);
    TrimOneLine(lines[0][6..]);
    var a, b := TrimSplit(lines[0][6..]);
    forall i | 0 <= i < |lines| - 1 ensures OneLine(lines[1..][i]) { assert OneLine(lines[i + 1]); }
    ReadRulesOneLine(lines[1..]);
  }

  // ---------------------------------------------------------------- one rule for each line

  lemma SpacedTrims(a: string, s: string, b: string)
    requires AllSpace(a) && AllSpace(b)
    ensures Trim(a + s + b) == Trim(s)
  {
    var x, y := TrimSplit(s);
    assert a + s + b == (a + x) + Trim(s) + (y + b);
    TrimAround(a + x, Trim(s), y + b);
  }

  /** The line of a rule, as the parser sees it. */
  function SeenLine(r: Rule): string {
    Trim(RenderRule(r))
  }

  predicate ReadsAs(r: Rule, read: Rule) {
    ParseRule(SeenLine(r)) == Ok(read)
  }

  ghost predicate ReadBack(rules: seq<Rule>, read: seq<Rule>) {
    |read| == |rules| && forall i | 0 <= i < |rules| :: ReadsAs(rules[i], read[i])
  }

  /** What a line adds to the rules read from the lines behind it. */
  lemma OneRuleAtMost(line: string, lines: seq<string>)
    requires ParseRules(Kept(line) + lines).Ok?
    ensures var read := ParseRules(Kept(line) + lines).value;
      || read == []
      || (ParseRules(lines).Ok? && read == ParseRules(lines).value)
      || (ParseRules(lines).Ok? && ParseRule(Trim(line)).Ok?
          && read == [ParseRule(Trim(line)).value] + ParseRules(lines).value)
  {
    if Trim(line) == "" {
      assert Kept(line) + lines == lines;
    } else {
      var all := [Trim(line)] + lines;
      assert all[0] == Trim(line) && all[1..] == lines;
    }
  }

  /** From a laid-out list of rules, at most one rule is read for each; if as many are read, each is read
      from its own line. */
  lemma {:induction false} RulesRead(ms: seq<Margin>, rules: seq<Rule>, tail: seq<string>)
    requires |ms| == |rules| && ParseRules(tail) == Ok([])
    requires forall i | 0 <= i < |ms| :: ValidMargin(ms[i])
    requires ParseRules(Significant(LaidOutRules(ms, rules)) + tail).Ok?
    ensures var read := ParseRules(Significant(LaidOutRules(ms, rules)) + tail).value;
      |read| <= |rules| && (|read| == |rules| ==> ReadBack(rules, read))
  {
    if ms == [] {
      assert Significant([]) + tail == tail;
    } else {
      assert ValidMargin(ms[0]);
      var others := Significant(LaidOutRules(ms[1..], rules[1..])) + tail;
      FirstRuleLine(ms, rules, tail);
      OneRuleAtMost(RenderRule(rules[0]), others);
      if ParseRules(others).Ok? {
        RulesRead(ms[1..], rules[1..], tail);
        var read := ParseRules(others).value;
        if |read| == |rules| - 1 && ParseRule(SeenLine(rules[0])).Ok? {
          ReadBackCons(rules, ParseRule(SeenLine(rules[0])).value, read);
        }
      }
    }
  }

  lemma ReadBackCons(rules: seq<Rule>, first: Rule, read: seq<Rule>)
    requires rules != [] && ReadBack(rules[1..], read) && ReadsAs(rules[0], first)
    ensures ReadBack(rules, [first] + read)
  {
    forall i | 0 <= i < |rules| ensures ReadsAs(rules[i], ([first] + read)[i]) {
      if i > 0 {
        assert rules[1..][i - 1] == rules[i] && ReadsAs(rules[1..][i - 1], read[i - 1]);
      }
    }
  }

  lemma FirstRuleLine(ms: seq<Margin>, rules: seq<Rule>, tail: seq<string>)
    requires |ms| == |rules| > 0 && ValidMargin(ms[0])
    ensures ParseRules(Significant(LaidOutRules(ms, rules)) + tail)
            == ParseRules(Kept(RenderRule(rules[0])) + (Significant(LaidOutRules(ms[1..], rules[1..])) + tail))
  {
    var m, line, others := ms[0], RenderRule(rules[0]), LaidOutRules(ms[1..], rules[1..]);
    SignificantConcat(LaidOut(m, line), others);
    SeenSignificant(m, line);
    Regroup(Significant(m.fillers), Kept(line), Significant(others), tail);
    FillersSkipped(m.fillers, Kept(line) + (Significant(others) + tail));
  }

  lemma SeenSignificant(m: Margin, line: string)
    requires ValidMargin(m)
    ensures Significant(LaidOut(m, line)) == Significant(m.fillers) + Kept(line)
  {
    var l := m.left + line + m.right;
    SpacedTrims(m.left, line, m.right);
    SignificantConcat(m.fillers, [l]);
    assert Significant([l]) == Kept(l) + Significant([]) == Kept(l);
  }

  // ---------------------------------------------------------------- the whole policy

  lemma FillersOneLine(m: Margin, line: string)
    requires ValidMargin(m) && OneLine(line)
    ensures AllOneLine(LaidOut(m, line))
  {
    var ls := LaidOut(m, line);
    forall i | 0 <= i < |ls| ensures OneLine(ls[i]) {
      if i < |m.fillers| { assert Filler(m.fillers[i]); }
    }
  }

  lemma {:induction false} LaidOutOneLine(ms: seq<Margin>, rules: seq<Rule>)
    requires |ms| == |rules| && forall i | 0 <= i < |ms| :: ValidMargin(ms[i])
    requires forall i | 0 <= i < |rules| :: OneLine(RenderRule(rules[i]))
    ensures AllOneLine(LaidOutRules(ms, rules))
  {
    if ms != [] {
      assert ValidMargin(ms[0]) && OneLine(RenderRule(rules[0]));
      FillersOneLine(ms[0], RenderRule(rules[0]));
      LaidOutOneLine(ms[1..], rules[1..]);
    }
  }

  /** The significant lines of a policy without line breaks in its parts. */
  lemma SeenLines(y: Layout, p: Policy, tail: seq<string>)
    requires ValidLayout(y, p) && p.name != "" && Trimmed(p.name) && OneLine(p.name)
    requires forall i | 0 <= i < |p.rules| :: OneLine(RenderRule(p.rules[i]))
    requires tail == Significant(LaidOut(y.end, "end")) + Significant(Lines(y.rest))
    ensures ParsePolicy(RenderPolicy(y, p))
            == PolicyOf(p.name, ParseRules(Significant(LaidOutRules(y.rules, p.rules)) + tail))
  {
    var h := "policy" + y.gap + p.name;
    HeaderLine(y.gap, p.name);
    LaidOutSignificant(y.header, h);
    LaidOutSignificant(y.end, "end");
    BlanksInsignificant(y.blanks);
    LaidOutOneLine(y.rules, p.rules);
    var a, b, c, d := y.blanks, LaidOut(y.header, h), LaidOutRules(y.rules, p.rules), LaidOut(y.end, "end");
    SignificantLayout(a, b, c, d, y.rest);
    var more := Significant(Lines(y.rest));
    HeaderFirst(Significant(b), h, Significant(c), Significant(d), more);
    HeaderRead(RenderPolicy(y, p), h, p.name, Significant(c) + tail);
  }

  lemma {:induction false} SignificantLayout(a: seq<string>, b: seq<string>, c: seq<string>, d: seq<string>,
                                             rest: string)
    requires AllOneLine(a) && AllOneLine(b) && AllOneLine(c) && AllOneLine(d)
    ensures Significant(Lines(JoinLines(a + b + c + d) + rest))
            == Significant(a) + Significant(b) + Significant(c) + Significant(d) + Significant(Lines(rest))
  {
    LayoutOneLine(a, b, c, d);
    LinesOfJoined(a + b + c + d, rest);
    SignificantConcat(a + b + c + d, Lines(rest));
    SignificantConcat(a + b + c, d);
    SignificantConcat(a + b, c);
    SignificantConcat(a, b);
  }

  lemma HeaderRead(text: string, h: string, name: string, lines: seq<string>)
    requires Significant(Lines(text)) == [h] + lines
    requires "policy" <= h && Trim(h[6..]) == name && name != ""
    ensures ParsePolicy(text) == PolicyOf(name, ParseRules(lines))
  {
    assert ([h] + lines)[1..] == lines;
    assert text != "" by {
      assert Significant(Lines("")) == [];
    }
  }

  /** Rendering a policy in any layout and parsing the text gives the policy back: indentation, blank lines,
      comments behind the header, and everything behind the first `end` do not matter. */
  lemma PolicyRoundTrip(y: Layout, p: Policy)
    requires RenderablePolicy(p) && ValidLayout(y, p)
    ensures ParsePolicy(RenderPolicy(y, p)) == Ok(p)
  {
    var more := Significant(Lines(y.rest));
    forall i | 0 <= i < |p.rules| ensures OneLine(RenderRule(p.rules[i])) { assert RenderableLine(p.rules[i]); }
    EndStops(y.end, more);
    RulesParseBack(y.rules, p.rules, Significant(LaidOut(y.end, "end")) + more);
    SeenLines(y, p, Significant(LaidOut(y.end, "end")) + more);
  }

  /** Whatever its layout, a policy is read back from its text exactly when it is renderable. */
  lemma PolicyParsesBackExactly(y: Layout, p: Policy)
    requires ValidLayout(y, p)
    ensures ParsePolicy(RenderPolicy(y, p)) == Ok(p) <==> RenderablePolicy(p)
  {
    if RenderablePolicy(p) {
      PolicyRoundTrip(y, p);
    } else if ParsePolicy(RenderPolicy(y, p)) == Ok(p) {
      var tail := Significant(LaidOut(y.end, "end")) + Significant(Lines(y.rest));
      ReadPolicy(RenderPolicy(y, p));
      SeenLines(y, p, tail);
      EndStops(y.end, Significant(Lines(y.rest)));
      RulesRead(y.rules, p.rules, tail);
      forall i | 0 <= i < |p.rules| ensures RenderableLine(p.rules[i]) {
        assert ReadsAs(p.rules[i], p.rules[i]);
        RuleParsesBackExactly(p.rules[i]);
      }
    }
  }
}
