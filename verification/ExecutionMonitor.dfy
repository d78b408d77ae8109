/**
 The execution monitor: a bounded trace log, running statistics and the table of active
 executions, against unbounded ghost histories. Every lock-protected stretch keeps `Valid`,
 so the invariant also holds between the stretches of interleaved calls.
 */
module ExecutionMonitor {
  import opened Text

  type Uuid = nat

  const MAX_TRACES: nat := 1000

  /** The divisor of the average is the total cut to this many values. */
  const U32_VALUES: nat := 0x1_0000_0000

  datatype Event =
    | BehaviorStarted(execution: Uuid)
    | BehaviorCompleted(execution: Uuid)
    | BehaviorFailed(execution: Uuid)
    | FunctionCalled(name: string)
    | CapabilityChecked(capability: string, allowed: bool)
    | Lifecycle(name: string)

  datatype Trace = Trace(agent: Option<Uuid>, behavior: Option<string>, event: Event, duration: Option<nat>)

  datatype Context = Context(agent: Option<Uuid>, behavior: Option<string>, startTime: nat, stack: seq<string>)

  /** Durations in nanoseconds. */
  datatype Stats = Stats(
    total: nat, successful: nat, failed: nat, average: nat, totalDuration: nat,
    behaviors: map<string, nat>, capabilities: map<string, nat>)

  /** One call of `update_stats`. */
  datatype Update = Update(duration: nat, success: bool, behavior: Option<string>)

  /** How ending an execution goes: unknown id, ended, or a division by zero in the statistics. */
  datatype EndResult = NotActive | Ended(duration: nat) | Crashed

  // ---------------------------------------------------------------- the histories' readings

  /** The last `n` elements, or all if there are fewer. */
  function LastN<T>(s: seq<T>, n: nat): seq<T> {
    if |s| <= n then s else s[|s| - n..]
  }

  function Bump(m: map<string, nat>, key: string): map<string, nat> {
    m[key := (if key in m then m[key] else 0) + 1]
  }

  /** The statistics after one more update. The counters and the summed duration are written before the
      division, the average and the behavior count after it. */
  function Apply(s: Stats, u: Update): Stats {
    Divided(Counted(s, u), u.behavior)
  }

  function Counted(s: Stats, u: Update): Stats {
    s.(total := s.total + 1,
       successful := s.successful + (if u.success then 1 else 0),
       failed := s.failed + (if u.success then 0 else 1),
       totalDuration := s.totalDuration + u.duration)
  }

  /** What comes behind the division is not reached when it panics. */
  function Divided(s: Stats, behavior: Option<string>): Stats {
    if s.total % U32_VALUES == 0 then s
    else s.(average := s.totalDuration / (s.total % U32_VALUES),
            behaviors := if behavior.Some? then Bump(s.behaviors, behavior.value) else s.behaviors)
  }

  const NO_STATS: Stats := Stats(0, 0, 0, 0, 0, map[], map[])

  function StatsAfter(us: seq<Update>): Stats {
    if us == [] then NO_STATS else Apply(StatsAfter(us[..|us| - 1]), us[|us| - 1])
  }

  lemma StatsSnoc(us: seq<Update>, u: Update, capabilities: map<string, nat>)
    ensures StatsAfter(us + [u]).(capabilities := capabilities)
            == Apply(StatsAfter(us).(capabilities := capabilities), u)
  {
    assert (us + [u])[..|us + [u]| - 1] == us;
  }

  /** The statistics after one more update. */
  lemma OneMoreUpdate(us: seq<Update>, u: Update, capabilities: map<string, nat>)
    ensures var before := StatsAfter(us).(capabilities := capabilities);
      && before.total + 1 == |us + [u]|
      && StatsAfter(us + [u]).(capabilities := capabilities) == Apply(before, u)
  {
    StatsSnoc(us, u, capabilities);
    TotalIsLength(us);
  }

  /** How often each name was bumped. */
  function Tally(names: seq<string>): map<string, nat> {
    if names == [] then map[] else Bump(Tally(names[..|names| - 1]), names[|names| - 1])
  }

  function Count(names: seq<string>, name: string): nat {
    if names == [] then 0 else Count(names[..|names| - 1], name) + (if names[|names| - 1] == name then 1 else 0)
  }

  lemma {:induction false} TallyCounts(names: seq<string>, name: string)
    ensures (name in Tally(names) <==> name in names)
    ensures name in Tally(names) ==> Tally(names)[name] == Count(names, name)
    ensures name !in names ==> Count(names, name) == 0
  {
    if names != [] {
      var n := |names| - 1;
      TallyCounts(names[..n], name);
      assert names == names[..n] + [names[n]];
    }
  }

  function Successes(us: seq<Update>): nat {
    if us == [] then 0 else Successes(us[..|us| - 1]) + (if us[|us| - 1].success then 1 else 0)
  }

  function TotalDuration(us: seq<Update>): nat {
    if us == [] then 0 else TotalDuration(us[..|us| - 1]) + us[|us| - 1].duration
  }

  /** The behaviors of the updates that did not crash. */
  function CountedBehaviors(us: seq<Update>): seq<string> {
    if us == [] then []
    else
      var n := |us| - 1;
      CountedBehaviors(us[..n])
      + (if |us| % U32_VALUES != 0 && us[n].behavior.Some? then [us[n].behavior.value] else [])
  }

  /** Over any run: the total counts the ended executions, is the sum of successes and failures, and the
      behavior counts are exact. */
  lemma {:induction false} StatsConserved(us: seq<Update>)
    ensures var s := StatsAfter(us);
      && s.total == |us| == s.successful + s.failed && s.successful == Successes(us)
      && s.totalDuration == TotalDuration(us)
      && s.behaviors == Tally(CountedBehaviors(us)) && s.capabilities == map[]
  {
    if us != [] {
      var n := |us| - 1;
      StatsConserved(us[..n]);
      var more: seq<string> := if |us| % U32_VALUES != 0 && us[n].behavior.Some? then [us[n].behavior.value] else [];
      TallySnoc(CountedBehaviors(us[..n]), more);
    }
  }

  lemma TotalIsLength(us: seq<Update>)
    ensures StatsAfter(us).total == |us|
  {
    StatsConserved(us);
  }

  lemma TallySnoc(names: seq<string>, more: seq<string>)
    requires |more| <= 1
    ensures Tally(names + more) == if more == [] then Tally(names) else Bump(Tally(names), more[0])
  {
    if more == [] {
      assert names + more == names;
    } else {
      assert (names + more)[..|names + more| - 1] == names;
    }
  }

  /** While fewer than 2^32 executions have ended, the average is the floored mean duration. */
  lemma AverageIsMean(us: seq<Update>)
    requires 0 < |us| < U32_VALUES
    ensures StatsAfter(us).average == TotalDuration(us) / |us|
  {
    var n := |us| - 1;
    TotalIsLength(us[..n]);
    DividedMean(Counted(StatsAfter(us[..n]), us[n]), us[n].behavior);
    StatsConserved(us);
  }

  lemma DividedMean(s: Stats, behavior: Option<string>)
    requires 0 < s.total < U32_VALUES
    ensures var d := Divided(s, behavior);
      d.average == d.totalDuration / d.total && d.total == s.total && d.totalDuration == s.totalDuration
  {}

  /** At every multiple of 2^32 the divisor is zero: the average stays what it was before. */
  lemma AverageSticks(us: seq<Update>)
    requires us != [] && |us| % U32_VALUES == 0
    ensures StatsAfter(us).average == StatsAfter(us[..|us| - 1]).average
  {
    StatsConserved(us[..|us| - 1]);
  }

  function OfAgent(ts: seq<Trace>, agent: Uuid): seq<Trace> {
    if ts == [] then []
    else OfAgent(ts[..|ts| - 1], agent) + (if ts[|ts| - 1].agent == Some(agent) then [ts[|ts| - 1]] else [])
  }

  lemma {:induction false} OfAgentConcat(a: seq<Trace>, b: seq<Trace>, agent: Uuid)
    ensures OfAgent(a + b, agent) == OfAgent(a, agent) + OfAgent(b, agent)
  {
    if b == [] {
      assert a + b == a;
    } else {
      var n := |b| - 1;
      OfAgentConcat(a, b[..n], agent);
      assert (a + b)[..|a + b| - 1] == a + b[..n];
    }
  }

  ghost predicate IsSuffix<T>(s: seq<T>, t: seq<T>) {
    |s| <= |t| && s == t[|t| - |s|..]
  }

  /** What the window holds of an agent is the end of what the whole history holds of it. */
  lemma AgentWindow(history: seq<Trace>, n: nat, agent: Uuid)
    ensures IsSuffix(OfAgent(LastN(history, n), agent), OfAgent(history, agent))
  {
    if |history| > n {
      var k := |history| - n;
      OfAgentConcat(history[..k], history[k..], agent);
      assert history == history[..k] + history[k..];
    }
  }

  lemma OfAgentSnoc(ts: seq<Trace>, i: nat, agent: Uuid)
    requires i < |ts|
    ensures OfAgent(ts[..i + 1], agent)
            == OfAgent(ts[..i], agent) + (if ts[i].agent == Some(agent) then [ts[i]] else [])
  {
    assert ts[..i + 1][..i] == ts[..i];
  }

  lemma LastIsSuffix<T>(s: seq<T>, whole: seq<T>, n: nat)
    requires IsSuffix(s, whole)
    ensures IsSuffix(LastN(s, n), whole)
  {}

  lemma LastNAppend<T>(s: seq<T>, x: T, n: nat)
    ensures var w := LastN(s, n) + [x]; LastN(s + [x], n) == if |w| > n then w[|w| - n..] else w
  {}

  // ---------------------------------------------------------------- the monitor

  class Monitor {
    var traces: seq<Trace>
    var stats: Stats
    var active: map<Uuid, Context>

    /** All traces ever added, and how many of them the last clearing dropped. */
    ghost var log: seq<Trace>
    ghost var cleared: nat
    /** All statistics updates and capability checks. */
    ghost var updates: seq<Update>
    ghost var checks: seq<string>
    /** Executions started, executions overwritten by another with the same id, and executions taken from
        the table whose statistics are still to be written. */
    ghost var started: nat
    ghost var replaced: nat
    ghost var ending: nat

    ghost predicate Valid()
      reads this
    {
      TracesValid() && StatsValid() && started == |active| + replaced + ending + |updates|
    }

    ghost predicate TracesValid()
      reads `traces, `log, `cleared
    {
      cleared <= |log| && traces == LastN(log[cleared..], MAX_TRACES)
    }

    ghost predicate StatsValid()
      reads `stats, `updates, `checks
    {
      stats == StatsAfter(updates).(capabilities := Tally(checks))
    }

    constructor ()
      ensures Valid() && traces == [] && active == map[] && log == [] && updates == [] && checks == []
      ensures started == 0 && replaced == 0 && ending == 0
    {
      traces, stats, active := [], NO_STATS, map[];
      log, cleared, updates, checks := [], 0, [], [];
      started, replaced, ending := 0, 0, 0;
    }

    method AddTrace(entry: Trace)
      requires Valid()
      modifies this`traces, this`log
      ensures Valid() && log == old(log) + [entry]
    {
      LastNAppend(log[cleared..], entry, MAX_TRACES);
      log := log + [entry];
      assert log[cleared..] == old(log)[cleared..] + [entry];
      traces := traces + [entry];
      if |traces| > MAX_TRACES {
        var excess := |traces| - MAX_TRACES;
        traces := traces[excess..];
      }
    }

    method StartExecution(id: Uuid, agent: Option<Uuid>, behavior: Option<string>, now: nat)
      requires Valid()
      modifies this`active, this`started, this`replaced, this`traces, this`log
      ensures Valid() && log == old(log) + [Trace(agent, behavior, BehaviorStarted(id), None)]
      ensures active == old(active)[id := Context(agent, behavior, now, [])]
      ensures started == old(started) + 1 && replaced == old(replaced) + (if id in old(active) then 1 else 0)
    {
      InsertSize(active, id, Context(agent, behavior, now, []));
      if id in active {
        replaced := replaced + 1;
      }
      started := started + 1;
      active := active[id := Context(agent, behavior, now, [])];
      AddTrace(Trace(agent, behavior, BehaviorStarted(id), None));
    }

    /** Ending an execution: it leaves the table, is traced, and is counted once; an unknown id changes
        nothing. */
    method EndExecution(id: Uuid, ok: bool, now: nat) returns (r: EndResult)
      requires Valid()
      modifies this`active, this`ending, this`traces, this`log, this`stats, this`updates
      ensures Valid() && ending == old(ending) && active == old(active) - {id}
      ensures r == NotActive <==> id !in old(active)
      ensures r == NotActive ==> log == old(log) && updates == old(updates)
      ensures r != NotActive ==>
        var c := old(active)[id]; var d := if now >= c.startTime then now - c.startTime else 0;
        var event := if ok then BehaviorCompleted(id) else BehaviorFailed(id);
        && log == old(log) + [Trace(c.agent, c.behavior, event, Some(d))]
        && updates == old(updates) + [Update(d, ok, c.behavior)]
        && r == if |updates| % U32_VALUES == 0 then Crashed else Ended(d)
    {
      if id !in active {
        return NotActive;
      }
      var context := active[id];
      RemoveSize(active, id);
      active := active - {id};
      ending := ending + 1;
      var duration := if now >= context.startTime then now - context.startTime else 0;
      var event := if ok then BehaviorCompleted(id) else BehaviorFailed(id);
      AddTrace(Trace(context.agent, context.behavior, event, Some(duration)));
      var crashed := UpdateStats(duration, ok, context.behavior);
      r := if crashed then Crashed else Ended(duration);
    }

    method UpdateStats(duration: nat, success: bool, behavior: Option<string>) returns (crashed: bool)
      requires Valid() && ending > 0
      modifies this`stats, this`updates, this`ending
      ensures Valid() && updates == old(updates) + [Update(duration, success, behavior)] && ending == old(ending) - 1
      ensures crashed <==> |updates| % U32_VALUES == 0
    {
      ghost var u := Update(duration, success, behavior);
      OneMoreUpdate(updates, u, Tally(checks));
      updates := updates + [u];
      ending := ending - 1;
      var s := stats.(total := stats.total + 1);
      if success {
        s := s.(successful := s.successful + 1);
      } else {
        s := s.(failed := s.failed + 1);
      }
      s := s.(totalDuration := s.totalDuration + duration);
      assert s == Counted(stats, u);
      var divisor := s.total % U32_VALUES;
      crashed := divisor == 0;
      if !crashed {
        s := s.(average := s.totalDuration / divisor);
        if behavior.Some? {
          s := s.(behaviors := Bump(s.behaviors, behavior.value));
        }
      }
      assert s == Apply(stats, u);
      stats := s;
    }

    method LogCapabilityCheck(agent: Option<Uuid>, capability: string, allowed: bool)
      requires Valid()
      modifies this`traces, this`log, this`stats, this`checks
      ensures Valid() && log == old(log) + [Trace(agent, None, CapabilityChecked(capability, allowed), None)]
      ensures checks == old(checks) + [capability]
      ensures stats == old(stats).(capabilities := stats.capabilities)
    {
      AddTrace(Trace(agent, None, CapabilityChecked(capability, allowed), None));
      assert (checks + [capability])[..|checks|] == checks;
      checks := checks + [capability];
      stats := stats.(capabilities := Bump(stats.capabilities, capability));
    }

    method LogFunctionCall(execution: Option<Uuid>, name: string)
      requires Valid()
      modifies this`active, this`traces, this`log
      ensures Valid() && active.Keys == old(active).Keys
      ensures forall id <- active :: active[id] ==
                if execution == Some(id) then old(active)[id].(stack := old(active)[id].stack + [name])
                else old(active)[id]
      ensures log == old(log) + [Trace(
        if execution.Some? && execution.value in old(active) then old(active)[execution.value].agent else None,
        None, FunctionCalled(name), None)]
    {
      var agent: Option<Uuid> := None;
      if execution.Some? {
        var id := execution.value;
        if id in active {
          InsertSize(active, id, active[id].(stack := active[id].stack + [name]));
          active := active[id := active[id].(stack := active[id].stack + [name])];
          agent := active[id].agent;
        }
      }
      AddTrace(Trace(agent, None, FunctionCalled(name), None));
    }

    /** The newest traces, at most `limit` of them. */
    method GetTraces(limit: Option<nat>) returns (r: seq<Trace>)
      requires Valid()
      ensures r == LastN(log[cleared..], if limit.Some? && limit.value < MAX_TRACES then limit.value else MAX_TRACES)
    {
      var start := if limit.Some? then (if |traces| >= limit.value then |traces| - limit.value else 0) else 0;
      r := traces[start..];
    }

    /** The newest traces of one agent: the end of all its traces since the last clearing. */
    method GetAgentTraces(agent: Uuid, limit: Option<nat>) returns (r: seq<Trace>)
      requires Valid()
      ensures var all := OfAgent(traces, agent); r == if limit.Some? then LastN(all, limit.value) else all
      ensures IsSuffix(r, OfAgent(log[cleared..], agent))
      ensures |log[cleared..]| <= MAX_TRACES && limit.None? ==> r == OfAgent(log[cleared..], agent)
    {
      var found: seq<Trace> := [];
      for i := 0 to |traces|
        invariant found == OfAgent(traces[..i], agent)
      {
        OfAgentSnoc(traces, i, agent);
        if traces[i].agent == Some(agent) {
          found := found + [traces[i]];
        }
      }
      assert traces[..|traces|] == traces;
      AgentWindow(log[cleared..], MAX_TRACES, agent);
      if limit.Some? {
        LastIsSuffix(found, OfAgent(log[cleared..], agent), limit.value);
        var start := if |found| >= limit.value then |found| - limit.value else 0;
        return found[start..];
      }
      r := found;
    }

    method ClearTraces()
      requires Valid()
      modifies this`traces, this`cleared
      ensures Valid() && traces == [] && cleared == |log|
    {
      traces := [];
      cleared := |log|;
    }
  }

  lemma InsertSize<K, V>(m: map<K, V>, k: K, v: V)
    ensures |m[k := v]| == |m| + (if k in m then 0 else 1)
  {
    assert m[k := v].Keys == m.Keys + {k};
    assert |m[k := v]| == |m[k := v].Keys| && |m| == |m.Keys|;
  }

  lemma RemoveSize<K, V>(m: map<K, V>, k: K)
    requires k in m
    ensures |m - {k}| == |m| - 1
  {
    assert (m - {k}).Keys == m.Keys - {k};
    assert |m - {k}| == |(m - {k}).Keys| && |m| == |m.Keys|;
  }

  /** What `Valid` means for the statistics: conservation of executions, and the exact counts. */
  lemma Conserved(m: Monitor)
    requires m.Valid()
    ensures m.started == |m.active| + m.replaced + m.ending + m.stats.total
    ensures m.stats.total == m.stats.successful + m.stats.failed
    ensures 0 < m.stats.total < U32_VALUES ==> m.stats.average == m.stats.totalDuration / m.stats.total
    ensures forall c :: (c in m.stats.capabilities <==> c in m.checks)
                        && (c in m.checks ==> m.stats.capabilities[c] == Count(m.checks, c))
  {
    StatsConserved(m.updates);
    if 0 < |m.updates| < U32_VALUES {
      AverageIsMean(m.updates);
    }
    forall c
      ensures c in m.stats.capabilities <==> c in m.checks
      ensures c in m.checks ==> m.stats.capabilities[c] == Count(m.checks, c)
    {
      TallyCounts(m.checks, c);
    }
  }
}
