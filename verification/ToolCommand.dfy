/** Building the command of a tool from its template, its maps and the validated arguments. */
module ToolCommand {
  import opened Text
  import opened ToolTemplate

  /** A mapping turns an argument's value into flags. */
  datatype Mapping = Mapping(arg: string, flags: map<string, string>)

  /** The defaults that are used: those of keys without a validated argument. */
  function DefaultBindings(defaults: seq<Binding>, validated: seq<Binding>): seq<Binding> {
    if defaults == [] then []
    else
      var d := defaults[0];
      (if FirstFor(validated, d.key).None? then [Binding(d.key, TrimQuotes(d.value))] else [])
      + DefaultBindings(defaults[1..], validated)
  }

  /** The flags of the arguments that have some, under their own name and under the shared one. */
  function MappingBindings(mappings: seq<Mapping>, validated: seq<Binding>): seq<Binding> {
    if mappings == [] then []
    else FlagBindings(mappings[0], validated) + MappingBindings(mappings[1..], validated)
  }

  function FlagBindings(m: Mapping, validated: seq<Binding>): seq<Binding> {
    var value := FirstFor(validated, m.arg);
    if value.Some? && value.value in m.flags then
      var flags := m.flags[value.value];
      [Binding("_" + m.arg + "_flags", flags), Binding("_scan_flags", flags)]
    else []
  }

  const FIXED: seq<Binding> := [
    Binding("_output_file", "/dev/null"),
    Binding("_scan_id", "<scan-id>"),
    Binding("_evidence_dir", "<evidence-dir>")]

  /** All replacements in the order in which they are made. */
  function AllBindings(defaults: seq<Binding>, mappings: seq<Mapping>, validated: seq<Binding>): seq<Binding> {
    DefaultBindings(defaults, validated) + MappingBindings(mappings, validated) + validated + FIXED
  }

  /** Replacing a placeholder that does not occur changes nothing, so the guard before a default is idle. */
  lemma {:induction false} ReplaceAbsent(s: string, pat: string, v: string)
    requires pat != "" && !Contains(s, pat)
    ensures Replace(s, pat, v) == s
  {
    if s != "" {
      AtSlice(s, 0, pat);
      forall i | 0 <= i <= |s[1..]| ensures !At(s[1..], i, pat) {
        AtSuffix([s[0]], s[1..], i, pat);
        assert [s[0]] + s[1..] == s;
      }
      ReplaceAbsent(s[1..], pat, v);
      assert !(pat <= s);
    }
  }

  lemma {:induction false} DefaultsSnoc(ds: seq<Binding>, i: nat, validated: seq<Binding>)
    requires i < |ds|
    ensures DefaultBindings(ds[..i + 1], validated)
            == DefaultBindings(ds[..i], validated) + DefaultBindings([ds[i]], validated)
  {
    if i == 0 {
      assert ds[..1] == [ds[0]];
    } else {
      DefaultsSnoc(ds[1..], i - 1, validated);
      assert ds[..i + 1][1..] == ds[1..][..i] && ds[..i][1..] == ds[1..][..i - 1];
    }
  }

  lemma {:induction false} MappingsSnoc(ms: seq<Mapping>, i: nat, validated: seq<Binding>)
    requires i < |ms|
    ensures MappingBindings(ms[..i + 1], validated)
            == MappingBindings(ms[..i], validated) + FlagBindings(ms[i], validated)
  {
    if i == 0 {
      assert ms[..1] == [ms[0]];
    } else {
      MappingsSnoc(ms[1..], i - 1, validated);
      assert ms[..i + 1][1..] == ms[1..][..i] && ms[..i][1..] == ms[1..][..i - 1];
    }
  }

  method ApplyDefaults(template: string, defaults: seq<Binding>, validated: seq<Binding>) returns (cmd: string)
    ensures cmd == ReplaceAll(template, DefaultBindings(defaults, validated))
  {
    cmd := template;
    for i := 0 to |defaults|
      invariant cmd == ReplaceAll(template, DefaultBindings(defaults[..i], validated))
    {
      var d := defaults[i];
      var placeholder := Placeholder(d.key);
      DefaultsSnoc(defaults, i, validated);
      ReplaceAllConcat(template, DefaultBindings(defaults[..i], validated), DefaultBindings([d], validated));
      DefaultStep(cmd, d, validated);
      if Contains(cmd, placeholder) && FirstFor(validated, d.key).None? {
        cmd := Replace(cmd, placeholder, TrimQuotes(d.value));
      }
    }
    assert defaults[..|defaults|] == defaults;
  }

  lemma DefaultStep(cmd: string, d: Binding, validated: seq<Binding>)
    ensures ReplaceAll(cmd, DefaultBindings([d], validated))
            == if Contains(cmd, Placeholder(d.key)) && FirstFor(validated, d.key).None?
               then Replace(cmd, Placeholder(d.key), TrimQuotes(d.value)) else cmd
  {
    var b := Binding(d.key, TrimQuotes(d.value));
    var bs := DefaultBindings([d], validated);
    assert [d][1..] == [] && DefaultBindings([d][1..], validated) == [];
    assert bs == if FirstFor(validated, d.key).None? then [b] else [];
    if !Contains(cmd, Placeholder(d.key)) {
      ReplaceAbsent(cmd, Placeholder(d.key), TrimQuotes(d.value));
    }
    OneReplacement(cmd, b);
  }

  lemma FlagsStep(s: string, arg: string, flags: string)
    ensures ReplaceAll(s, [Binding("_" + arg + "_flags", flags), Binding("_scan_flags", flags)])
            == Replace(Replace(s, Placeholder("_" + arg + "_flags"), flags), "{_scan_flags}", flags)
  {
    TwoReplacements(s, Binding("_" + arg + "_flags", flags), Binding("_scan_flags", flags));
    ScanFlags();
  }

  lemma ScanFlags()
    ensures Placeholder("_scan_flags") == "{_scan_flags}"
  {}

  lemma FixedStep(s: string)
    ensures ReplaceAll(s, FIXED)
            == Replace(Replace(Replace(s, "{_output_file}", "/dev/null"), "{_scan_id}", "<scan-id>"),
                       "{_evidence_dir}", "<evidence-dir>")
  {
    var a, b, c := FIXED[0], FIXED[1], FIXED[2];
    FixedBindings();
    assert FIXED == [a, b] + [c];
    ReplaceAllConcat(s, [a, b], [c]);
    TwoReplacements(s, a, b);
    OneReplacement(ReplaceAll(s, [a, b]), c);
  }

  lemma FixedBindings()
    ensures Placeholder(FIXED[0].key) == "{_output_file}" && FIXED[0].value == "/dev/null"
    ensures Placeholder(FIXED[1].key) == "{_scan_id}" && FIXED[1].value == "<scan-id>"
    ensures Placeholder(FIXED[2].key) == "{_evidence_dir}" && FIXED[2].value == "<evidence-dir>"
  {}

  method ApplyMappings(template: string, mappings: seq<Mapping>, validated: seq<Binding>) returns (cmd: string)
    ensures cmd == ReplaceAll(template, MappingBindings(mappings, validated))
  {
    cmd := template;
    for i := 0 to |mappings|
      invariant cmd == ReplaceAll(template, MappingBindings(mappings[..i], validated))
    {
      var m := mappings[i];
      MappingsSnoc(mappings, i, validated);
      ReplaceAllConcat(template, MappingBindings(mappings[..i], validated), FlagBindings(m, validated));
      var value := FirstFor(validated, m.arg);
      if value.Some? {
        if value.value in m.flags {
          var flags := m.flags[value.value];
          FlagsStep(cmd, m.arg, flags);
          cmd := Replace(cmd, Placeholder("_" + m.arg + "_flags"), flags);
          cmd := Replace(cmd, "{_scan_flags}", flags);
        }
      }
    }
    assert mappings[..|mappings|] == mappings;
  }

  method InterpolateArgs(template: string, validated: seq<Binding>) returns (cmd: string)
    ensures cmd == ReplaceAll(template, validated)
  {
    cmd := template;
    for i := 0 to |validated|
      invariant cmd == ReplaceAll(template, validated[..i])
    {
      var b := validated[i];
      assert validated[..i + 1] == validated[..i] + [b];
      ReplaceAllConcat(template, validated[..i], [b]);
      OneReplacement(cmd, b);
      cmd := Replace(cmd, Placeholder(b.key), b.value);
    }
    assert validated[..|validated|] == validated;
  }

  // ---------------------------------------------------------------- what the command shows for each placeholder

  ghost predicate DistinctArgs(ms: seq<Mapping>) {
    forall i, j | 0 <= i < j < |ms| :: ms[i].arg != ms[j].arg
  }

  /** The entries of three maps. */
  ghost predicate Maps(defaults: seq<Binding>, mappings: seq<Mapping>, validated: seq<Binding>) {
    DistinctKeys(defaults) && DistinctArgs(mappings) && DistinctKeys(validated)
  }

  ghost predicate Given(vs: seq<Binding>, name: string) {
    exists b <- vs :: b.key == name
  }

  /** The mapping has flags for the value that its argument was given, and the name is one of its two. */
  ghost predicate FlagsFor(m: Mapping, vs: seq<Binding>, name: string, flags: string) {
    && (name == "_" + m.arg + "_flags" || name == "_scan_flags")
    && exists value :: Binding(m.arg, value) in vs && value in m.flags && m.flags[value] == flags
  }

  ghost predicate HasFlags(m: Mapping, vs: seq<Binding>, name: string) {
    exists flags :: FlagsFor(m, vs, name, flags)
  }

  ghost predicate FirstFlags(ms: seq<Mapping>, vs: seq<Binding>, name: string, flags: string) {
    exists k :: 0 <= k < |ms| && FlagsFor(ms[k], vs, name, flags) && forall j | 0 <= j < k :: !HasFlags(ms[j], vs, name)
  }

  /** What is put in for a placeholder: the unquoted default of an argument that is not given; else the flags of the
      first mapping that has some; else the given argument; else one of three fixed texts; or nothing. */
  ghost predicate PutIn(ds: seq<Binding>, ms: seq<Mapping>, vs: seq<Binding>, name: string, v: Option<string>) {
    if !Given(vs, name) && exists d <- ds :: d.key == name then
      v.Some? && exists d <- ds :: d.key == name && Unquoted(d.value, v.value)
    else if exists m <- ms :: HasFlags(m, vs, name) then
      v.Some? && FirstFlags(ms, vs, name, v.value)
    else if Given(vs, name) then
      v.Some? && Binding(name, v.value) in vs
    else
      v == match name
           case "_output_file" => Some("/dev/null")
           case "_scan_id" => Some("<scan-id>")
           case "_evidence_dir" => Some("<evidence-dir>")
           case _ => None
  }

  /** A template with every placeholder filled that has something put in. */
  ghost predicate IsFilled(ds: seq<Binding>, ms: seq<Mapping>, vs: seq<Binding>, ps: seq<Piece>, qs: seq<Piece>) {
    |qs| == |ps| && forall i | 0 <= i < |ps| :: PieceFilled(ds, ms, vs, ps[i], qs[i])
  }

  ghost predicate PieceFilled(ds: seq<Binding>, ms: seq<Mapping>, vs: seq<Binding>, p: Piece, q: Piece) {
    match p
    case Lit(_) => q == p
    case Hole(name) => exists v :: PutIn(ds, ms, vs, name, v) && q == if v.Some? then Lit(v.value) else p
  }

  lemma {:induction false} FirstForConcat(a: seq<Binding>, b: seq<Binding>, n: string)
    ensures FirstFor(a + b, n) == if FirstFor(a, n).Some? then FirstFor(a, n) else FirstFor(b, n)
  {
    if a == [] {
      assert a + b == b;
    } else {
      FirstForConcat(a[1..], b, n);
      assert (a + b)[1..] == a[1..] + b;
    }
  }

  lemma ValuesAreOne(vs: seq<Binding>, name: string, value: string)
    requires DistinctKeys(vs) && Binding(name, value) in vs
    ensures FirstFor(vs, name) == Some(value)
  {
    FirstForIs(vs, name);
    DistinctByKey(vs, Binding(name, value), Binding(name, FirstFor(vs, name).value));
  }

  lemma {:induction false} DefaultMember(ds: seq<Binding>, vs: seq<Binding>, b: Binding)
    ensures b in DefaultBindings(ds, vs) <==>
            exists d :: d in ds && FirstFor(vs, d.key).None? && b == Binding(d.key, TrimQuotes(d.value))
  {
    if ds != [] {
      DefaultMember(ds[1..], vs, b);
      assert ds == [ds[0]] + ds[1..];
      assert forall d :: d in ds <==> d == ds[0] || d in ds[1..];
    }
  }

  lemma DefaultIs(ds: seq<Binding>, vs: seq<Binding>, name: string)
    requires DistinctKeys(ds) && DistinctKeys(vs)
    ensures var r := FirstFor(DefaultBindings(ds, vs), name);
      && (r.Some? <==> !Given(vs, name) && exists d <- ds :: d.key == name)
      && (r.Some? ==> exists d <- ds :: d.key == name && Unquoted(d.value, r.value))
  {
    var bs := DefaultBindings(ds, vs);
    FirstForIs(bs, name);
    FirstForIs(vs, name);
    if FirstFor(bs, name).Some? {
      DefaultMember(ds, vs, Binding(name, FirstFor(bs, name).value));
      var d :| d in ds && d.key == name && TrimQuotes(d.value) == FirstFor(bs, name).value;
      TrimQuotesExactly(d.value, FirstFor(bs, name).value);
    }
    if !Given(vs, name) && exists d <- ds :: d.key == name {
      var d :| d in ds && d.key == name;
      DefaultMember(ds, vs, Binding(name, TrimQuotes(d.value)));
    }
  }

  lemma FlagsAre(m: Mapping, vs: seq<Binding>, name: string)
    requires DistinctKeys(vs)
    ensures var r := FirstFor(FlagBindings(m, vs), name);
      && (r.Some? <==> HasFlags(m, vs, name))
      && (r.Some? ==> FlagsFor(m, vs, name, r.value))
  {
    var own := "_" + m.arg + "_flags";
    FirstForIs(vs, m.arg);
    if flags :| FlagsFor(m, vs, name, flags) {
      var value :| Binding(m.arg, value) in vs && value in m.flags && m.flags[value] == flags;
      ValuesAreOne(vs, m.arg, value);
    }
    var value := FirstFor(vs, m.arg);
    if value.Some? && value.value in m.flags {
      var flags := m.flags[value.value];
      TwoLookups(Binding(own, flags), Binding("_scan_flags", flags), name);
      if name == own || name == "_scan_flags" {
        assert Binding(m.arg, value.value) in vs;
        assert FlagsFor(m, vs, name, flags);
      }
    }
  }

  lemma TwoLookups(a: Binding, b: Binding, name: string)
    ensures FirstFor([a, b], name) ==
      if a.key == name then Some(a.value) else if b.key == name then Some(b.value) else None
  {
    OneLookup(b, name);
    assert [a, b][1..] == [b];
    assert FirstFor([a, b], name) == if a.key == name then Some(a.value) else FirstFor([b], name);
  }

  lemma OneLookup(a: Binding, name: string)
    ensures FirstFor([a], name) == if a.key == name then Some(a.value) else None
  {
    assert [a][1..] == [] && FirstFor([a][1..], name) == None;
  }

  lemma {:induction false} MappingIs(ms: seq<Mapping>, vs: seq<Binding>, name: string)
    requires DistinctKeys(vs)
    ensures var r := FirstFor(MappingBindings(ms, vs), name);
      && (r.Some? <==> exists m <- ms :: HasFlags(m, vs, name))
      && (r.Some? ==> FirstFlags(ms, vs, name, r.value))
  {
    if ms != [] {
      MappingIs(ms[1..], vs, name);
      FlagsAre(ms[0], vs, name);
      FirstForConcat(FlagBindings(ms[0], vs), MappingBindings(ms[1..], vs), name);
      var r := FirstFor(MappingBindings(ms, vs), name);
      assert ms == [ms[0]] + ms[1..];
      if HasFlags(ms[0], vs, name) {
        assert FlagsFor(ms[0], vs, name, r.value);
      } else if r.Some? {
        LaterFlags(ms, vs, name, r.value);
      }
    }
  }

  lemma LaterFlags(ms: seq<Mapping>, vs: seq<Binding>, name: string, flags: string)
    requires ms != [] && !HasFlags(ms[0], vs, name) && FirstFlags(ms[1..], vs, name, flags)
    ensures FirstFlags(ms, vs, name, flags)
  {
    var rest := ms[1..];
    var k :| 0 <= k < |rest| && FlagsFor(rest[k], vs, name, flags)
             && forall j | 0 <= j < k :: !HasFlags(rest[j], vs, name);
    assert ms[k + 1] == rest[k];
    forall j | 0 <= j < k + 1 ensures !HasFlags(ms[j], vs, name) {
      if j > 0 { assert ms[j] == rest[j - 1]; }
    }
  }

  lemma FixedIs(name: string)
    ensures FirstFor(FIXED, name) ==
      match name
      case "_output_file" => Some("/dev/null")
      case "_scan_id" => Some("<scan-id>")
      case "_evidence_dir" => Some("<evidence-dir>")
      case _ => None
  {
    var a, b, c := FIXED[0], FIXED[1], FIXED[2];
    assert FIXED == [a, b] + [c];
    FirstForConcat([a, b], [c], name);
    TwoLookups(a, b, name);
    OneLookup(c, name);
  }

  /** The first binding of a name carries what is put in for it. */
  lemma FirstIsPutIn(ds: seq<Binding>, ms: seq<Mapping>, vs: seq<Binding>, name: string)
    requires Maps(ds, ms, vs)
    ensures PutIn(ds, ms, vs, name, FirstFor(AllBindings(ds, ms, vs), name))
  {
    var d, m := DefaultBindings(ds, vs), MappingBindings(ms, vs);
    FirstForConcat(d, m, name);
    FirstForConcat(d + m, vs, name);
    FirstForConcat(d + m + vs, FIXED, name);
    DefaultIs(ds, vs, name);
    MappingIs(ms, vs, name);
    FirstForIs(vs, name);
    FixedIs(name);
  }

  /** Building the command fills every placeholder with what is put in for it and touches nothing else, if no literal
      of the template and no value that is put in can be mistaken for a placeholder that is replaced later. */
  lemma CommandFills(ps: seq<Piece>, ds: seq<Binding>, ms: seq<Mapping>, vs: seq<Binding>)
    requires Maps(ds, ms, vs)
    requires ClearAll(ps, AllBindings(ds, ms, vs)) && SafeInOrder(AllBindings(ds, ms, vs))
    ensures exists qs :: IsFilled(ds, ms, vs, ps, qs) && ReplaceAll(TextOf(ps), AllBindings(ds, ms, vs)) == TextOf(qs)
  {
    var bs := AllBindings(ds, ms, vs);
    var qs := Substitute(ps, bs);
    SequentialIsSimultaneous(ps, bs);
    forall i | 0 <= i < |ps| ensures PieceFilled(ds, ms, vs, ps[i], qs[i]) {
      if ps[i].Hole? {
        FirstIsPutIn(ds, ms, vs, ps[i].name);
      }
    }
    assert IsFilled(ds, ms, vs, ps, qs);
  }

  /** The template has these pieces, and nothing in it or put into it is mistaken for a placeholder. */
  ghost predicate CanFill(ds: seq<Binding>, ms: seq<Mapping>, vs: seq<Binding>, template: string, ps: seq<Piece>) {
    && Maps(ds, ms, vs) && template == TextOf(ps)
    && ClearAll(ps, AllBindings(ds, ms, vs)) && SafeInOrder(AllBindings(ds, ms, vs))
  }

  /** Building the command, before its white space is evened out. */
  method BuildCommand(template: string, defaults: seq<Binding>, mappings: seq<Mapping>, validated: seq<Binding>)
    returns (cmd: string)
    ensures cmd == ReplaceAll(template, AllBindings(defaults, mappings, validated))
    ensures forall ps | CanFill(defaults, mappings, validated, template, ps) ::
              exists qs :: IsFilled(defaults, mappings, validated, ps, qs) && cmd == TextOf(qs)
  {
    forall ps | CanFill(defaults, mappings, validated, template, ps)
      ensures exists qs :: IsFilled(defaults, mappings, validated, ps, qs)
                           && ReplaceAll(template, AllBindings(defaults, mappings, validated)) == TextOf(qs)
    {
      CommandFills(ps, defaults, mappings, validated);
    }
    var d, m := DefaultBindings(defaults, validated), MappingBindings(mappings, validated);
    cmd := ApplyDefaults(template, defaults, validated);
    cmd := ApplyMappings(cmd, mappings, validated);
    cmd := InterpolateArgs(cmd, validated);
    ReplaceAllConcat(template, d, m);
    ReplaceAllConcat(template, d + m, validated);
    ReplaceAllConcat(template, d + m + validated, FIXED);
    FixedStep(cmd);
    cmd := Replace(cmd, "{_output_file}", "/dev/null");
    cmd := Replace(cmd, "{_scan_id}", "<scan-id>");
    cmd := Replace(cmd, "{_evidence_dir}", "<evidence-dir>");
  }
}
