/** Reading the agents table of AGENTS.md back, line by line. */
module AgentsTable {
  import opened Text
  import opened AgentsMd

  type Cells = (string, string)

  /** The name between the first two backticks of a row and the description behind it. */
  function ReadRow(line: string): Option<Cells> {
    if !At(line, 0, "| `") then None
    else
      var tick := FindFrom(line, "`", 3);
      if tick.None? || !At(line, tick.value, "` | ") then None
      else
        var start, end := tick.value + 4, |line| - 2;
        if start <= end && At(line, end, " |") then Some((line[3..tick.value], line[start..end])) else None
  }

  /** The cells of a table of rows, each of which ends its line. */
  function ReadTable(s: string): Option<seq<Cells>> {
    if s == "" then Some([])
    else
      var n := LineLen(s);
      if n == |s| then None
      else
        var row, rest := ReadRow(s[..n]), ReadTable(s[n + 1..]);
        if row.Some? && rest.Some? then Some([row.value] + rest.value) else None
  }

  /** The description shown for an agent: its metadata value without quotes, else what its source says, else a dash. */
  ghost predicate Describes(a: Agent, d: string) {
    match a.metadata
    case Some(v) => Unquoted(v, d)
    case None => d == if a.found.Some? then a.found.value else "-"
  }

  lemma DescriptionExactly(a: Agent, d: string)
    ensures Description(a) == d <==> Describes(a, d)
  {
    if a.metadata.Some? {
      TrimQuotesExactly(a.metadata.value, d);
    }
  }

  /** The cells name and describe the agents, in their order. */
  ghost predicate CellsOf(agents: seq<Agent>, cells: seq<Cells>) {
    |cells| == |agents| && forall i | 0 <= i < |agents| :: CellOf(agents[i], cells[i])
  }

  ghost predicate CellOf(a: Agent, c: Cells) {
    c.0 == a.name && Describes(a, c.1)
  }

  /** The cells of an agent stay in theirs. */
  predicate Tame(a: Agent) {
    OneLine(a.name) && OneLine(Description(a)) && forall k | 0 <= k < |a.name| :: a.name[k] != '`'
  }

  predicate AllTame(agents: seq<Agent>) {
    forall i | 0 <= i < |agents| :: Tame(agents[i])
  }

  // ---------------------------------------------------------------- one row

  function Line(a: Agent): string {
    "| `" + a.name + "` | " + Description(a) + " |"
  }

  /** A row reads back exactly if its name has no backtick. */
  lemma RowBackExactly(a: Agent)
    ensures ReadRow(Line(a)) == Some((a.name, Description(a))) <==> forall k | 0 <= k < |a.name| :: a.name[k] != '`'
  {
    var line := Line(a);
    LineParts(a);
    if forall k | 0 <= k < |a.name| :: a.name[k] != '`' {
      TickAfterName(a);
      assert line[3..3 + |a.name|] == a.name && line[|a.name| + 7..|line| - 2] == Description(a);
    } else if ReadRow(line) == Some((a.name, Description(a))) {
      var k :| 0 <= k < |a.name| && a.name[k] == '`';
      NameIsBeforeTick(a, k);
    }
  }

  lemma LineParts(a: Agent)
    ensures var line := Line(a);
      At(line, 0, "| `") && At(line, 3 + |a.name|, "` | ") && At(line, |line| - 2, " |")
  {
    var line := Line(a);
    AtSlice(line, 0, "| `");
    AtSlice(line, 3 + |a.name|, "` | ");
    AtSlice(line, |line| - 2, " |");
    assert line == ("| `" + a.name) + "` | " + (Description(a) + " |");
  }

  lemma TickAfterName(a: Agent)
    requires forall k | 0 <= k < |a.name| :: a.name[k] != '`'
    ensures FindFrom(Line(a), "`", 3) == Some(3 + |a.name|)
  {
    var line := Line(a);
    assert SameChar(line, 3 + |a.name|, "`", 0);
    assert At(line, 3 + |a.name|, "`");
    forall j | 3 <= j < 3 + |a.name| ensures !At(line, j, "`") {
      assert line[j] == a.name[j - 3];
      AtChar(line, j, "`", 0);
    }
  }

  /** What is read as the name holds no backtick. */
  lemma NameIsBeforeTick(a: Agent, k: nat)
    requires k < |a.name| && a.name[k] == '`'
    ensures ReadRow(Line(a)) != Some((a.name, Description(a)))
  {
    var line := Line(a);
    assert line[3 + k] == '`' && SameChar(line, 3 + k, "`", 0);
    assert At(line, 3 + k, "`");
    var tick := FindFrom(line, "`", 3);
    assert tick.Some? && tick.value <= 3 + k;
    assert |line[3..tick.value]| < |a.name|;
  }

  // ---------------------------------------------------------------- all rows

  lemma {:induction false} RowsCons(agents: seq<Agent>)
    requires agents != []
    ensures Rows(agents) == Row(agents[0]) + Rows(agents[1..])
  {
    var n := |agents| - 1;
    if n == 0 {
      assert agents[..0] == [] && agents[1..] == [];
      assert "" + Row(agents[0]) == Row(agents[0]) + "";
    } else {
      RowsCons(agents[..n]);
      assert agents[..n][1..] == agents[1..][..n - 1] && agents[1..][n - 1] == agents[n];
      var middle := Rows(agents[1..][..n - 1]);
      Associative(Row(agents[0]), middle, Row(agents[n]));
      assert Rows(agents[1..]) == middle + Row(agents[n]);
    }
  }

  lemma RowIsLine(a: Agent)
    ensures Row(a) == Line(a) + "\n" && (OneLine(Line(a)) <==> OneLine(a.name) && OneLine(Description(a)))
  {
    var line := Line(a);
    if OneLine(line) {
      forall i | 0 <= i < |a.name| ensures a.name[i] != '\n' { assert line[3 + i] == a.name[i]; }
      forall i | 0 <= i < |Description(a)| ensures Description(a)[i] != '\n' {
        assert line[7 + |a.name| + i] == Description(a)[i];
      }
    }
  }

  function Breaks(s: string): nat {
    if s == "" then 0 else (if s[0] == '\n' then 1 else 0) + Breaks(s[1..])
  }

  lemma {:induction false} BreaksConcat(a: string, b: string)
    ensures Breaks(a + b) == Breaks(a) + Breaks(b)
  {
    if a == "" {
      assert a + b == b;
    } else {
      BreaksConcat(a[1..], b);
      assert (a + b)[1..] == a[1..] + b;
    }
  }

  lemma {:induction false} OneLineBreaks(s: string)
    ensures OneLine(s) <==> Breaks(s) == 0
  {
    if s != "" {
      OneLineBreaks(s[1..]);
      assert forall i | 1 <= i < |s| :: s[i] == s[1..][i - 1];
    }
  }

  /** A table that is read has as many rows as line breaks. */
  lemma {:induction false} RowsRead(s: string)
    requires ReadTable(s).Some?
    ensures |ReadTable(s).value| == Breaks(s)
  {
    if s != "" {
      var n := LineLen(s);
      RowsRead(s[n + 1..]);
      FirstLine(s);
      OneLineBreaks(s[..n]);
      BreaksConcat(s[..n], "\n" + s[n + 1..]);
      BreaksConcat("\n", s[n + 1..]);
      assert s == s[..n] + ("\n" + s[n + 1..]);
      assert "\n"[1..] == "";
    }
  }

  /** Every row has its own line break, and those in its cells. */
  lemma {:induction false} RowsBreaks(agents: seq<Agent>)
    ensures Breaks(Rows(agents)) >= |agents|
    ensures Breaks(Rows(agents)) == |agents| ==> forall i | 0 <= i < |agents| :: OneLine(Line(agents[i]))
  {
    if agents != [] {
      var n := |agents| - 1;
      RowsBreaks(agents[..n]);
      BreaksConcat(Rows(agents[..n]), Row(agents[n]));
      RowIsLine(agents[n]);
      BreaksConcat(Line(agents[n]), "\n");
      OneLineBreaks(Line(agents[n]));
      assert "\n"[1..] == "";
      if Breaks(Rows(agents)) == |agents| {
        forall i | 0 <= i < |agents| ensures OneLine(Line(agents[i])) {
          if i < n { assert agents[..n][i] == agents[i]; }
        }
      }
    }
  }

  function Shown(agents: seq<Agent>): seq<Cells> {
    seq(|agents|, i requires 0 <= i < |agents| => (agents[i].name, Description(agents[i])))
  }

  /** Reading a table that begins with a row without line breaks. */
  lemma ReadStep(a: Agent, rest: string)
    requires OneLine(Line(a))
    ensures ReadTable(Row(a) + rest) ==
      if ReadRow(Line(a)).Some? && ReadTable(rest).Some? then Some([ReadRow(Line(a)).value] + ReadTable(rest).value)
      else None
  {
    var s := Row(a) + rest;
    RowIsLine(a);
    assert s == Line(a) + ("\n" + rest);
    LineLenIs(Line(a), "\n" + rest);
    assert s[..|Line(a)|] == Line(a) && s[|Line(a)| + 1..] == rest;
  }

  lemma {:induction false} TableBack(agents: seq<Agent>)
    requires forall i | 0 <= i < |agents| :: OneLine(Line(agents[i]))
    ensures ReadTable(Rows(agents)) == Some(Shown(agents)) <==>
              forall i | 0 <= i < |agents| :: ReadRow(Line(agents[i])) == Some(Shown(agents)[i])
  {
    if agents != [] {
      TableStep(agents);
      ShownCons(agents);
      TableBack(agents[1..]);
      RowsOrRest(agents, Shown(agents), Shown(agents[1..]));
    } else {
      assert Shown(agents) == [];
    }
  }

  lemma TableStep(agents: seq<Agent>)
    requires agents != [] && OneLine(Line(agents[0]))
    ensures var all, rest := Shown(agents), Shown(agents[1..]);
      ReadTable(Rows(agents)) == Some(all)
      <==> ReadRow(Line(agents[0])) == Some(all[0]) && ReadTable(Rows(agents[1..])) == Some(rest)
  {
    var a, others := agents[0], Rows(agents[1..]);
    RowsCons(agents);
    ReadStep(a, others);
    ShownCons(agents);
    ConsIsAll(ReadRow(Line(a)), ReadTable(others), ReadTable(Row(a) + others), Shown(agents), Shown(agents[1..]));
  }

  lemma ShownCons(agents: seq<Agent>)
    requires agents != []
    ensures Shown(agents) == [Shown(agents)[0]] + Shown(agents[1..])
  {}

  lemma ConsIsAll(row: Option<Cells>, read: Option<seq<Cells>>, table: Option<seq<Cells>>, all: seq<Cells>,
                  rest: seq<Cells>)
    requires all != [] && all == [all[0]] + rest
    requires table == if row.Some? && read.Some? then Some([row.value] + read.value) else None
    ensures table == Some(all) <==> row == Some(all[0]) && read == Some(rest)
  {
    if table == Some(all) {
      assert ([row.value] + read.value)[1..] == read.value && all[1..] == rest;
      assert ([row.value] + read.value)[0] == row.value;
    }
  }

  lemma RowsOrRest(agents: seq<Agent>, all: seq<Cells>, rest: seq<Cells>)
    requires agents != [] && |all| == |agents| && all == [all[0]] + rest
    ensures (forall i | 0 <= i < |agents| :: ReadRow(Line(agents[i])) == Some(all[i]))
            <==> ReadRow(Line(agents[0])) == Some(all[0])
                 && forall i | 0 <= i < |agents[1..]| :: ReadRow(Line(agents[1..][i])) == Some(rest[i])
  {
    forall i | 0 <= i < |rest| ensures rest[i] == all[i + 1] && agents[1..][i] == agents[i + 1] {}
    if ReadRow(Line(agents[0])) == Some(all[0])
       && forall i | 0 <= i < |agents[1..]| :: ReadRow(Line(agents[1..][i])) == Some(rest[i]) {
      forall i | 0 <= i < |agents| ensures ReadRow(Line(agents[i])) == Some(all[i]) {
        if i > 0 { assert ReadRow(Line(agents[1..][i - 1])) == Some(rest[i - 1]); }
      }
    }
  }

  /** The table reads back as the names and descriptions of the agents, in their order, exactly if no name holds a
      backtick and neither names nor descriptions hold a line break. */
  lemma TableBackExactly(agents: seq<Agent>)
    ensures (exists cells :: CellsOf(agents, cells) && ReadTable(Rows(agents)) == Some(cells)) <==> AllTame(agents)
  {
    ShownCells(agents);
    forall i | 0 <= i < |agents| ensures Tame(agents[i]) <==>
        OneLine(Line(agents[i])) && ReadRow(Line(agents[i])) == Some(Shown(agents)[i])
    {
      RowIsLine(agents[i]);
      RowBackExactly(agents[i]);
    }
    if ReadTable(Rows(agents)) == Some(Shown(agents)) {
      RowsRead(Rows(agents));
      RowsBreaks(agents);
      TableBack(agents);
    }
    if AllTame(agents) {
      forall i | 0 <= i < |agents| ensures OneLine(Line(agents[i])) { assert Tame(agents[i]); }
      TableBack(agents);
    }
  }

  /** The names and descriptions are the only cells there are. */
  lemma ShownCells(agents: seq<Agent>)
    ensures forall cells :: CellsOf(agents, cells) <==> cells == Shown(agents)
  {
    forall cells ensures CellsOf(agents, cells) <==> cells == Shown(agents) {
      forall i, d | 0 <= i < |agents| ensures Description(agents[i]) == d <==> Describes(agents[i], d) {
        DescriptionExactly(agents[i], d);
      }
    }
  }
}
