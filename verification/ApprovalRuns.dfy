/** What holds after every run of the approval relay, whatever the interleaving and the ids. */
module ApprovalRuns {
  import opened ApprovalTypes
  import opened ApprovalProtocol
  import opened ApprovalSteps
  import opened ApprovalSafety
  import opened ApprovalRace

  ghost predicate Good(s: Relay) {
    Inv(s) && RaceOk(s)
  }

  /** Every run keeps every invariant. */
  lemma {:induction false} RunGood(slackOn: bool, user: string, trace: seq<Event>)
    ensures Good(Exec(Initial(slackOn, user), trace))
  {
    if trace != [] {
      var s := Exec(Initial(slackOn, user), trace[..|trace| - 1]);
      var e := trace[|trace| - 1];
      RunGood(slackOn, user, trace[..|trace| - 1]);
      InvNext(s, e);
      RaceNext(s, e);
    }
  }

  // ---------------------------------------------------------------- the causes of an approval

  /** Position `k` of the run is a yes on the terminal for task `t`. */
  ghost predicate SaidYes(s0: Relay, trace: seq<Event>, t: nat, k: nat) {
    && k < |trace| && Fired(s0, trace, k)
    && trace[k].PromptReturns? && trace[k].t == t && trace[k].result.Answered?
    && trace[k].result.read.Line? && IsYesLine(trace[k].result.read.text)
  }

  /** Position `k` of the run is an approve press that takes the entry of task `t` in time. */
  ghost predicate PressedApprove(s0: Relay, trace: seq<Event>, t: nat, k: nat) {
    && k < |trace| && Fired(s0, trace, k)
    && trace[k].Button? && trace[k].action == "approve"
    && var entry := Exec(s0, trace[..k]).pending[trace[k].id];
       && entry.owner == t && entry.request.requestId == trace[k].id && trace[k].now <= entry.request.expiresAt
  }

  ghost predicate PromptCause(s0: Relay, trace: seq<Event>, t: nat, result: CliResult, k: nat) {
    k < |trace| && Fired(s0, trace, k) && trace[k] == PromptReturns(t, result)
  }

  ghost predicate PressCause(s0: Relay, trace: seq<Event>, p: Press, k: nat) {
    && k < |trace| && Fired(s0, trace, k) && trace[k] == Button(p.id, p.action, p.userId, p.messageTs, p.now)
    && Exec(s0, trace[..k]).pending[p.id] == p.entry
  }

  /** A terminal answer in the state was an event of the run. */
  lemma {:induction false} PromptHasCause(slackOn: bool, user: string, trace: seq<Event>, t: nat) returns (k: nat)
    requires var s := Exec(Initial(slackOn, user), trace); t < |s.tasks| && s.tasks[t].prompt.Finished?
    ensures PromptCause(Initial(slackOn, user), trace, t, Exec(Initial(slackOn, user), trace).tasks[t].prompt.result, k)
  {
    var s0 := Initial(slackOn, user);
    var n := |trace| - 1;
    assert trace != [];
    var s := Exec(s0, trace[..n]);
    assert trace[..n] == trace[..|trace| - 1];
    TasksShape(s, trace[n]);
    if t < |s.tasks| && s.tasks[t].prompt.Finished? {
      k := PromptHasCause(slackOn, user, trace[..n], t);
      assert trace[..n][..k] == trace[..k];
    } else {
      k := n;
    }
  }

  /** A callback in the state was a press of the run, and took the entry it carries. */
  lemma {:induction false} PressHasCause(slackOn: bool, user: string, trace: seq<Event>, i: nat) returns (k: nat)
    requires i < |Exec(Initial(slackOn, user), trace).presses|
    ensures PressCause(Initial(slackOn, user), trace, Exec(Initial(slackOn, user), trace).presses[i], k)
  {
    var s0 := Initial(slackOn, user);
    var n := |trace| - 1;
    assert trace != [];
    var s := Exec(s0, trace[..n]);
    assert trace[..n] == trace[..|trace| - 1];
    PressesShape(s, trace[n]);
    if i < |s.presses| {
      k := PressHasCause(slackOn, user, trace[..n], i);
      assert trace[..n][..k] == trace[..k];
    } else {
      k := n;
    }
  }

  /** Somewhere in the run a human approved task `t`. */
  ghost predicate HasHumanCause(s0: Relay, trace: seq<Event>, t: nat) {
    exists k :: SaidYes(s0, trace, t, k) || PressedApprove(s0, trace, t, k)
  }

  /** In every run, an approval that is delivered was given by a human for that very request. */
  lemma ApprovalsHaveAHumanCause(slackOn: bool, user: string, trace: seq<Event>, n: nat)
    requires n < |Exec(Initial(slackOn, user), trace).deliveries|
    requires Exec(Initial(slackOn, user), trace).deliveries[n].decision.outcome == Approve
    ensures var s0 := Initial(slackOn, user); HasHumanCause(s0, trace, Exec(s0, trace).deliveries[n].task)
  {
    var s0 := Initial(slackOn, user);
    var s := Exec(s0, trace);
    RunGood(slackOn, user, trace);
    var Delivery(t, d) := s.deliveries[n];
    if ApprovedOnCli(s, t, d) {
      var k := PromptHasCause(slackOn, user, trace, t);
      assert SaidYes(s0, trace, t, k);
    } else {
      var i :| ApprovedByPress(s, t, d, i);
      var k := PressHasCause(slackOn, user, trace, i);
      assert PressedApprove(s0, trace, t, k);
    }
  }

  // ---------------------------------------------------------------- one delivery, for ever

  /** How often task `t` has been answered. */
  ghost function DeliveryCount(ds: seq<Delivery>, t: nat): nat {
    if ds == [] then 0
    else DeliveryCount(ds[..|ds| - 1], t) + (if ds[|ds| - 1].task == t then 1 else 0)
  }

  lemma {:induction false} CountDistinct(ds: seq<Delivery>, t: nat)
    requires forall j, k | 0 <= j < k < |ds| :: ds[j].task != ds[k].task
    ensures DeliveryCount(ds, t) == if exists k | 0 <= k < |ds| :: ds[k].task == t then 1 else 0
  {
    if ds != [] {
      CountDistinct(ds[..|ds| - 1], t);
      assert forall k | 0 <= k < |ds| - 1 :: ds[..|ds| - 1][k] == ds[k];
      if k :| 0 <= k < |ds| - 1 && ds[k].task == t {
        assert ds[..|ds| - 1][k].task == t;
      }
    }
  }

  /** A finished task has been answered exactly once, under its own id; an unfinished one never. */
  lemma ExactlyOneDelivery(slackOn: bool, user: string, trace: seq<Event>, t: nat)
    requires t < |Exec(Initial(slackOn, user), trace).tasks|
    ensures var s := Exec(Initial(slackOn, user), trace);
      if s.tasks[t].phase.Done? then
        && DeliveryCount(s.deliveries, t) == 1
        && Delivery(t, s.tasks[t].phase.decision) in s.deliveries
        && s.tasks[t].phase.decision.requestId == s.tasks[t].req.requestId
        && DecisionMade(s.tasks[t].phase.decision) in s.audit
      else DeliveryCount(s.deliveries, t) == 0
  {
    var s := Exec(Initial(slackOn, user), trace);
    RunGood(slackOn, user, trace);
    CountDistinct(s.deliveries, t);
  }

  /** Nothing that happens later changes a delivery, the audit log so far, or a removal. */
  lemma {:induction false} HistoryIsFinal(s: Relay, later: seq<Event>)
    ensures EvidenceGrows(s, Exec(s, later))
  {
    if later != [] {
      HistoryIsFinal(s, later[..|later| - 1]);
      EvidenceNext(Exec(s, later[..|later| - 1]), later[|later| - 1]);
    }
  }

  lemma DeliveredForEver(slackOn: bool, user: string, trace: seq<Event>, later: seq<Event>, t: nat)
    requires var s := Exec(Initial(slackOn, user), trace); t < |s.tasks| && s.tasks[t].phase.Done?
    ensures var s := Exec(Initial(slackOn, user), trace);
      var s' := Exec(Initial(slackOn, user), trace + later);
      t < |s'.tasks| && s'.tasks[t].phase == s.tasks[t].phase && DeliveryCount(s'.deliveries, t) == 1
  {
    var s0 := Initial(slackOn, user);
    var s := Exec(s0, trace);
    ExecConcat(s0, trace, later);
    HistoryIsFinal(s, later);
    RunGood(slackOn, user, trace);
    RunGood(slackOn, user, trace + later);
    var s' := Exec(s0, trace + later);
    assert Delivery(t, s.tasks[t].phase.decision) in s'.deliveries;
    ExactlyOneDelivery(slackOn, user, trace + later, t);
  }

  // ---------------------------------------------------------------- entries are consumed once

  /** A step that takes an entry out of the map, or replaces it, records it; no other step records one. */
  lemma RemovalsAreRecorded(s: Relay, e: Event)
    requires PendingOk(s)
    ensures var s' := Next(s, e); s'.removals == s.removals <==> EntriesStay(s, s')
  {
    if Enabled(s, e) && (e.Register? || e.TakeTs? || e.Button?) {
      RemovalsRecorded(s, e);
    } else {
      NothingToRecord(s, e);
    }
  }

  /** No entry leaves the map or is replaced. */
  ghost predicate EntriesStay(s: Relay, s': Relay) {
    forall id | id in s.pending :: id in s'.pending && s'.pending[id] == s.pending[id]
  }

  lemma RemovalsRecorded(s: Relay, e: Event)
    requires PendingOk(s) && Enabled(s, e) && (e.Register? || e.TakeTs? || e.Button?)
    ensures var s' := Next(s, e); s'.removals == s.removals <==> EntriesStay(s, s')
  {
    var id := if e.Button? then e.id else s.tasks[e.t].req.requestId;
    if id in s.pending {
      assert s.pending[id].owner < |s.tasks|;
      assert id !in Next(s, e).pending || Next(s, e).pending[id] != s.pending[id];
    }
  }

  lemma NothingToRecord(s: Relay, e: Event)
    requires !(Enabled(s, e) && (e.Register? || e.TakeTs? || e.Button?))
    ensures Next(s, e).removals == s.removals && Next(s, e).pending == s.pending
  {}

  /** The entry of task `t` is either still in the map or was removed exactly once, and its message was
      rewritten at most once, by its remover and with the remover's outcome. */
  ghost predicate ConsumedOnce(s: Relay, t: nat)
    requires t < |s.tasks|
  {
    && (InMap(s, t) <==> !Removed(s, t))
    && (forall j, k :: RemovedAt(s, t, j) && RemovedAt(s, t, k) ==> j == k)
    && (forall j, k | 0 <= j < |s.updates| && 0 <= k < |s.updates| && s.updates[j].owner == s.updates[k].owner == t ::
          j == k)
    && (forall j | 0 <= j < |s.updates| && s.updates[j].owner == t ::
          && Removal(t, s.updates[j].remover) in s.removals
          && IsRemoverOutcome(s, s.updates[j].remover, s.updates[j].outcome))
  }

  lemma EntriesAreConsumedOnce(slackOn: bool, user: string, trace: seq<Event>, t: nat)
    requires var s := Exec(Initial(slackOn, user), trace); t < |s.tasks| && s.tasks[t].post.Registered?
    ensures ConsumedOnce(Exec(Initial(slackOn, user), trace), t)
  {
    var s := Exec(Initial(slackOn, user), trace);
    RunGood(slackOn, user, trace);
    RemovedOnce(s, t);
  }

  lemma RemovedOnce(s: Relay, t: nat)
    requires RemovalOk(s) && Conserved(s) && t < |s.tasks| && s.tasks[t].post.Registered?
    ensures InMap(s, t) <==> !Removed(s, t)
    ensures forall j, k :: RemovedAt(s, t, j) && RemovedAt(s, t, k) ==> j == k
  {}

  /** Once a callback has sent, its decision is the delivered one exactly when the Slack branch won the race. */
  lemma PressAgreesExactly(slackOn: bool, user: string, trace: seq<Event>, t: nat, i: nat)
    requires var s := Exec(Initial(slackOn, user), trace);
      && t < |s.tasks| && s.tasks[t].phase.Done?
      && i < |s.presses| && s.presses[i].entry.owner == t && s.presses[i].stage.Sent?
    ensures var s := Exec(Initial(slackOn, user), trace);
      s.tasks[t].phase.decision == PressDecision(s.presses[i]) <==> s.tasks[t].winner.SlackBranch?
  {
    RunGood(slackOn, user, trace);
  }
}
