/** The generated section of AGENTS.md: merging it into a file and reading it back. */
module AgentsMd {
  import opened Text
  import opened MarkedText

  const AUTO_START: string := "<!-- agents-md:auto-start -->"
  const AUTO_END: string := "<!-- agents-md:auto-end -->"
  const AUTO: Markers := Markers(AUTO_START, AUTO_END)

  lemma MarkersAreMarkers()
    ensures AUTO.Valid()
  {
    assert AUTO_START[20] == 's' && AUTO_END[20] == 'e';
    assert AUTO.DifferAt(20);
    StartIsMarker();
    EndIsMarker();
  }

  lemma StartIsMarker()
    ensures IsMarker(AUTO_START)
  {
    assert forall k | 0 < k < |AUTO_START| :: AUTO_START[k] != '<' && AUTO_START[k] != '\n';
  }

  lemma EndIsMarker()
    ensures IsMarker(AUTO_END)
  {
    assert forall k | 0 < k < |AUTO_END| :: AUTO_END[k] != '<' && AUTO_END[k] != '\n';
  }

  /** What the agents table shows of one agent: its name and, as far as there is one, the value of its
      `description` key and the description found in its source text. */
  datatype Agent = Agent(name: string, metadata: Option<string>, found: Option<string>)

  function Description(a: Agent): string {
    if a.metadata.Some? then TrimQuotes(a.metadata.value) else if a.found.Some? then a.found.value else "-"
  }

  function Row(a: Agent): string {
    "| `" + a.name + "` | " + Description(a) + " |\n"
  }

  function Rows(agents: seq<Agent>): string {
    if agents == [] then "" else Rows(agents[..|agents| - 1]) + Row(agents[|agents| - 1])
  }

  const TABLE_TITLE: string := "\n## Agents\n\n"
  const TABLE_COLUMNS: string := "| Name | Description |\n"
  const TABLE_RULE: string := "|------|-------------|\n"
  const TABLE_HEAD: string := TABLE_TITLE + TABLE_COLUMNS + TABLE_RULE

  /** The inside of the generated section. Nothing in it is escaped. */
  function Body(agents: seq<Agent>, parts: seq<string>): string {
    "\n" + TABLE_HEAD + Rows(agents) + Joined(parts)
  }

  lemma RowsSnoc(agents: seq<Agent>, i: nat)
    requires i < |agents|
    ensures Rows(agents[..i + 1]) == Rows(agents[..i]) + Row(agents[i])
  {
    assert agents[..i + 1][..i] == agents[..i];
  }

  lemma JoinedSnoc(parts: seq<string>, i: nat)
    requires i < |parts|
    ensures Joined(parts[..i + 1]) == Joined(parts[..i]) + parts[i]
  {
    assert parts[..i + 1][..i] == parts[..i];
  }

  /** The generated section: the start marker on a line of its own, the agents table, the other rendered parts,
      the end marker on a line of its own. */
  method BuildGeneratedSection(agents: seq<Agent>, parts: seq<string>) returns (out: string)
    ensures out == AUTO.Section(Body(agents, parts))
    ensures out == AUTO_START + "\n" + "\n## Agents\n\n" + "| Name | Description |\n" + "|------|-------------|\n"
                   + Rows(agents) + Joined(parts) + AUTO_END + "\n"
  {
    out := AUTO_START;
    out := out + "\n";
    out := out + TABLE_TITLE;
    out := out + TABLE_COLUMNS;
    out := out + TABLE_RULE;
    out := AppendRows(out, agents);
    out := AppendParts(out, parts);
    out := out + AUTO_END;
    out := out + "\n";
    InOneSection(AUTO_START, "\n", TABLE_TITLE, TABLE_COLUMNS, TABLE_RULE, Rows(agents), Joined(parts));
  }

  lemma InOneSection(a: string, b: string, c: string, d: string, e: string, f: string, g: string)
    ensures a + b + c + d + e + f + g == a + (b + (c + d + e) + f + g)
  {}

  /** The loop over the agents. */
  method AppendRows(out: string, agents: seq<Agent>) returns (r: string)
    ensures r == out + Rows(agents)
  {
    r := out;
    for i := 0 to |agents|
      invariant r == out + Rows(agents[..i])
    {
      RowsSnoc(agents, i);
      Associative(out, Rows(agents[..i]), Row(agents[i]));
      r := r + Row(agents[i]);
    }
    assert agents[..|agents|] == agents;
  }

  /** Everything that is written behind the table. */
  method AppendParts(out: string, parts: seq<string>) returns (r: string)
    ensures r == out + Joined(parts)
  {
    r := out;
    for i := 0 to |parts|
      invariant r == out + Joined(parts[..i])
    {
      JoinedSnoc(parts, i);
      Associative(out, Joined(parts[..i]), parts[i]);
      r := r + parts[i];
    }
    assert parts[..|parts|] == parts;
  }

  function Joined(parts: seq<string>): string {
    if parts == [] then "" else Joined(parts[..|parts| - 1]) + parts[|parts| - 1]
  }

  /** Each part stands whole between those before it and those behind it. */
  lemma {:induction false} JoinedAt(parts: seq<string>, i: nat)
    requires i < |parts|
    ensures Joined(parts) == Joined(parts[..i]) + parts[i] + Joined(parts[i + 1..])
  {
    var n := |parts| - 1;
    if i == n {
      assert parts[n + 1..] == [] && Joined(parts[n + 1..]) == "";
      assert Joined(parts[..n]) + parts[n] + "" == Joined(parts[..n]) + parts[n];
    } else {
      JoinedAt(parts[..n], i);
      assert parts[..n][..i] == parts[..i] && parts[..n][i + 1..] == parts[i + 1..][..n - i - 1];
      var later := parts[i + 1..];
      assert later[|later| - 1] == parts[n];
      Associative(Joined(parts[..i]) + parts[i], Joined(later[..|later| - 1]), parts[n]);
    }
  }

  function MergeGenerated(existing: string, generated: string): string {
    AUTO.Merge(existing, generated)
  }

  function ExtractAutoSection(content: string): Option<string> {
    MarkersAreMarkers();
    AUTO.Extract(content)
  }

  /** Merging a section and then another text is merging the second text alone, exactly for a file with neither
      marker or with its first start marker before its first end marker, and for a body without an end marker. */
  lemma LastMergeWins(existing: string, body: string, generated: string)
    ensures MergeGenerated(MergeGenerated(existing, AUTO.Section(body)), generated)
            == MergeGenerated(existing, generated)
            <==> AUTO.Mergeable(existing) && !Contains(body, AUTO_END)
  {
    MarkersAreMarkers();
    MarkedText.LastMergeWins(AUTO, existing, body, generated);
  }

  /** The section read back after a merge is the trimmed body, exactly for the same files and bodies. */
  lemma MergeThenExtract(existing: string, body: string)
    ensures ExtractAutoSection(MergeGenerated(existing, AUTO.Section(body))) == Some(Trim(body))
            <==> AUTO.Mergeable(existing) && !Contains(body, AUTO_END)
  {
    MarkersAreMarkers();
    ExtractReadsBack(AUTO, existing, body);
  }

  /** With the markers in order, a merge rewrites the block between them and nothing else. */
  lemma MergeKeepsTheRest(existing: string, generated: string)
    returns (before: string, inner: string, nl: string, after: string)
    requires Find(existing, AUTO_START).Some? && AUTO.Mergeable(existing)
    ensures existing == before + (AUTO_START + inner + AUTO_END + nl) + after
    ensures MergeGenerated(existing, generated) == before + generated + after
    ensures |before| == Find(existing, AUTO_START).value
            && |before| + |AUTO_START| + |inner| == Find(existing, AUTO_END).value
    ensures nl == "\n" || (nl == "" && (after == "" || after[0] != '\n'))
  {
    MarkersAreMarkers();
    before, inner, nl, after := MarkedText.MergeKeepsTheRest(AUTO, existing, generated);
  }

  /** With both markers somewhere, a merge keeps what is before the first start marker and what is behind the first
      end marker and its line break; if they stand the other way round, the text between them appears twice. */
  lemma MergeCutsOut(existing: string, generated: string)
    returns (before: string, head: string, nl: string, after: string)
    requires Contains(existing, AUTO_START) && Contains(existing, AUTO_END)
    ensures before <= existing && |before| == Find(existing, AUTO_START).value
    ensures existing == head + (AUTO_END + nl) + after && |head| == Find(existing, AUTO_END).value
    ensures nl == "\n" || (nl == "" && (after == "" || after[0] != '\n'))
    ensures MergeGenerated(existing, generated) == before + generated + after
  {
    var end := Find(existing, AUTO_END).value;
    var endPos := AUTO.EndPos(existing, end);
    LineBreakAfter(AUTO, existing, end);
    AtSlice(existing, end, AUTO_END);
    before := existing[..Find(existing, AUTO_START).value];
    head, nl, after := existing[..end], existing[end + |AUTO_END|..endPos], existing[endPos..];
    MarkedText.CutApart(existing, end, end, end, end + |AUTO_END|, endPos);
    InOrder(head, existing[end..end], AUTO_END, nl, after);
  }

  lemma InOrder(a: string, b: string, c: string, d: string, e: string)
    requires b == ""
    ensures a + (b + b + c + d) + e == a + (c + d) + e
  {}

  /** Without one of the markers, a merge takes the white space off the end of the file and puts the section on the
      next line. */
  lemma MergeAppends(existing: string, generated: string) returns (kept: string, space: string)
    requires !Contains(existing, AUTO_START) || !Contains(existing, AUTO_END)
    ensures existing == kept + space && AllSpace(space) && (kept == "" || !IsSpace(kept[|kept| - 1]))
    ensures MergeGenerated(existing, generated) == kept + "\n" + generated
  {
    TrimEndShape(existing);
    kept := TrimEnd(existing);
    space := existing[|kept|..];
  }

  // ---------------------------------------------------------------- which agents end their own section

  /** A marker that holds none of the characters around the cells of the table. */
  ghost predicate FitsCell(p: string) {
    IsMarker(p) && p[|p| - 1] != ' ' && forall k | 0 <= k < |p| :: p[k] != '|' && p[k] != '`'
  }

  lemma EndFitsCell()
    ensures FitsCell(AUTO_END)
  {
    EndIsMarker();
    assert forall k | 0 <= k < |AUTO_END| :: AUTO_END[k] != '|' && AUTO_END[k] != '`';
  }

  /** An occurrence does not extend over a character that the marker lacks. */
  lemma ContainsAround(a: string, c: char, b: string, p: string)
    requires p != "" && forall k | 0 <= k < |p| :: p[k] != c
    ensures Contains(a + [c] + b, p) <==> Contains(a, p) || Contains(b, p)
  {
    var s := a + [c] + b;
    forall i | 0 <= i <= |s| && At(s, i, p)
      ensures Contains(a, p) || Contains(b, p)
    {
      OccursBeside(a, c, b, p, i);
    }
    if Contains(a, p) {
      var i :| 0 <= i <= |a| && At(a, i, p);
      AtPrefix(a, [c] + b, i, p);
      assert s == a + ([c] + b);
    }
    if Contains(b, p) {
      var i :| 0 <= i <= |b| && At(b, i, p);
      AtSuffix(a + [c], b, i, p);
      assert At(s, |a + [c]| + i, p);
    }
  }

  lemma OccursBeside(a: string, c: char, b: string, p: string, i: nat)
    requires p != "" && (forall k | 0 <= k < |p| :: p[k] != c) && At(a + [c] + b, i, p)
    ensures Contains(a, p) || Contains(b, p)
  {
    var s := a + [c] + b;
    if i + |p| <= |a| {
      assert s == a + ([c] + b);
      AtPrefix(a, [c] + b, i, p);
    } else if i <= |a| {
      AtChar(s, i, p, |a| - i);
    } else {
      AtSuffix(a + [c], b, i - |a| - 1, p);
    }
  }

  /** Blanks around a cell do not matter. */
  lemma ContainsSpaced(d: string, p: string)
    requires FitsCell(p)
    ensures Contains(" " + d + " ", p) <==> Contains(d, p)
  {
    var s := " " + d + " ";
    forall i | 0 <= i <= |s| && At(s, i, p)
      ensures Contains(d, p)
    {
      AtChar(s, i, p, 0);
      AtChar(s, i, p, |p| - 1);
      assert s[0] == ' ' && s[|s| - 1] == ' ' && i > 0 && i + |p| - 1 < |s| - 1;
      assert s == " " + (d + " ");
      AtSuffix(" ", d + " ", i - 1, p);
      AtPrefix(d, " ", i - 1, p);
    }
    if Contains(d, p) {
      var i :| 0 <= i <= |d| && At(d, i, p);
      AtPrefix(d, " ", i, p);
      AtSuffix(" ", d + " ", i, p);
      assert s == " " + (d + " ") && At(s, 1 + i, p);
    }
  }

  lemma AnglesLack(s: string, p: string)
    requires IsMarker(p) && forall k | 0 <= k < |s| :: s[k] != '<'
    ensures !Contains(s, p)
  {
    forall i | 0 <= i <= |s| ensures !At(s, i, p) {
      AtChar(s, i, p, 0);
    }
  }

  /** What a row shows behind its first character. */
  function RowRest(a: Agent): string {
    " `" + a.name + "` | " + Description(a) + " |\n"
  }

  lemma RowContains(a: Agent, p: string)
    requires FitsCell(p)
    ensures Row(a) == "|" + RowRest(a)
    ensures Contains(RowRest(a), p) <==> Contains(a.name, p) || Contains(Description(a), p)
  {
    var cell := " " + Description(a) + " ";
    var tail := " " + ['|'] + (cell + ['|'] + "\n");
    assert RowRest(a) == " " + ['`'] + (a.name + ['`'] + tail);
    ContainsAround(" ", '`', a.name + ['`'] + tail, p);
    ContainsAround(a.name, '`', tail, p);
    ContainsAround(" ", '|', cell + ['|'] + "\n", p);
    ContainsAround(cell, '|', "\n", p);
    ContainsSpaced(Description(a), p);
    AnglesLack(" ", p);
    AnglesLack("\n", p);
  }

  /** One of the agents shows `p`. */
  predicate Shown(agents: seq<Agent>, p: string) {
    exists i | 0 <= i < |agents| :: Shows(agents[i], p)
  }

  predicate Shows(a: Agent, p: string) {
    Contains(a.name, p) || Contains(Description(a), p)
  }

  lemma RowAfter(front: string, a: Agent, p: string)
    requires FitsCell(p)
    ensures Contains(front + Row(a), p) <==> Contains(front, p) || Shows(a, p)
  {
    RowContains(a, p);
    ContainsAround(front, '|', RowRest(a), p);
    assert front + Row(a) == front + ['|'] + RowRest(a);
  }

  lemma {:induction false} RowsContain(agents: seq<Agent>, p: string)
    requires FitsCell(p)
    ensures Contains(Rows(agents), p) <==> Shown(agents, p)
  {
    if agents == [] {
      AnglesLack("", p);
    } else {
      var n := |agents| - 1;
      RowsContain(agents[..n], p);
      RowAfter(Rows(agents[..n]), agents[n], p);
      ShownSnoc(agents, p);
    }
  }

  lemma ShownSnoc(agents: seq<Agent>, p: string)
    requires agents != []
    ensures var n := |agents| - 1; Shown(agents, p) <==> Shown(agents[..n], p) || Shows(agents[n], p)
  {
    var n := |agents| - 1;
    if Shown(agents[..n], p) {
      var i :| 0 <= i < n && Shows(agents[..n][i], p);
      assert Shows(agents[i], p);
    }
    if Shown(agents, p) {
      var i :| 0 <= i < |agents| && Shows(agents[i], p);
      assert i < n ==> Shows(agents[..n][i], p);
    }
  }

  /** Rows end their last line. */
  lemma RowsThen(agents: seq<Agent>, rest: string, p: string)
    requires FitsCell(p)
    ensures Contains(Rows(agents) + rest, p) <==> Contains(Rows(agents), p) || Contains(rest, p)
  {
    if agents == [] {
      assert Rows(agents) + rest == rest;
      AnglesLack("", p);
    } else {
      var r := Rows(agents);
      var n := |r| - 1;
      assert r[n] == '\n' && r == r[..n] + ['\n'] + "";
      ContainsAround(r[..n], '\n', rest, p);
      ContainsAround(r[..n], '\n', "", p);
      AnglesLack("", p);
      assert r + rest == r[..n] + ['\n'] + rest;
    }
  }

  /** The generated section holds an end marker inside exactly if an agent's name or description, or one of the
      other parts, holds one. */
  lemma BodyHoldsEndExactly(agents: seq<Agent>, parts: seq<string>)
    ensures Contains(Body(agents, parts), AUTO_END) <==> Shown(agents, AUTO_END) || Contains(Joined(parts), AUTO_END)
  {
    EndFitsCell();
    var head := "\n" + TABLE_HEAD[..|TABLE_HEAD| - 1];
    var rest := Rows(agents) + Joined(parts);
    assert Body(agents, parts) == head + ['\n'] + rest;
    HeadLacks(head);
    ContainsAround(head, '\n', rest, AUTO_END);
    RowsThen(agents, Joined(parts), AUTO_END);
    RowsContain(agents, AUTO_END);
  }

  lemma HeadLacks(head: string)
    requires head == "\n" + TABLE_HEAD[..|TABLE_HEAD| - 1]
    ensures !Contains(head, AUTO_END)
  {
    EndIsMarker();
    HeadChars();
    AnglesLack(head, AUTO_END);
  }

  lemma HeadChars()
    ensures forall k | 0 <= k < |TABLE_HEAD| :: TABLE_HEAD[k] != '<'
  {
    NoAngle(TABLE_TITLE, TABLE_COLUMNS);
    NoAngle(TABLE_TITLE + TABLE_COLUMNS, TABLE_RULE);
  }

  lemma NoAngle(a: string, b: string)
    requires (forall k | 0 <= k < |a| :: a[k] != '<') && forall k | 0 <= k < |b| :: b[k] != '<'
    ensures forall k | 0 <= k < |a + b| :: (a + b)[k] != '<'
  {}

  /** Generating once more, for whatever agents, undoes the earlier generation exactly for a mergeable file and if
      no name, description or other part of the earlier section held an end marker. */
  lemma RegenerationExactly(existing: string, agents: seq<Agent>, parts: seq<string>, generated: string)
    ensures MergeGenerated(MergeGenerated(existing, AUTO.Section(Body(agents, parts))), generated)
            == MergeGenerated(existing, generated)
            <==> AUTO.Mergeable(existing) && !Shown(agents, AUTO_END) && !Contains(Joined(parts), AUTO_END)
  {
    LastMergeWins(existing, Body(agents, parts), generated);
    BodyHoldsEndExactly(agents, parts);
  }

  /** An agent whose description is the end marker, in quotes as the grammar has it: whatever the file, and whatever
      is generated next, something of its section stays behind. */
  lemma MarkerAsDescription(existing: string, name: string, generated: string)
    ensures var agents := [Agent(name, Some("\"" + AUTO_END + "\""), None)];
      MergeGenerated(MergeGenerated(existing, AUTO.Section(Body(agents, []))), generated)
      != MergeGenerated(existing, generated)
  {
    var a := Agent(name, Some("\"" + AUTO_END + "\""), None);
    QuotedTrims(AUTO_END);
    assert At(AUTO_END, 0, AUTO_END);
    assert Shows([a][0], AUTO_END);
    RegenerationExactly(existing, [a], [], generated);
  }

  lemma QuotedTrims(s: string)
    requires s != "" && s[0] != '"' && s[|s| - 1] != '"'
    ensures TrimQuotes("\"" + s + "\"") == s
  {
    var t := "\"" + s + "\"";
    assert t[1..] == s + "\"" && (s + "\"")[..|s|] == s;
    assert TrimQuotes(s) == s;
    assert TrimQuotes(s + "\"") == s;
  }
}
