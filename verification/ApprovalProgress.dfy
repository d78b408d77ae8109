/** Every started request can still be finished, by its own steps and one answer from either side. */
module ApprovalProgress {
  import opened ApprovalTypes
  import opened ApprovalProtocol
  import opened ApprovalSteps
  import opened ApprovalSafety
  import opened ApprovalRace
  import opened ApprovalRuns

  /** The steps that finish a task whose race can be decided. Those not enabled do nothing. */
  function FinishPlan(t: nat, now: Time, ok: bool): seq<Event> {
    [SelectSlack(t, now), SelectCli(t, now), TakeTs(t), FinalizeByCli(t, ok), LogDecision(t), Deliver(t)]
  }

  lemma ExecTwo(s: Relay, a: Event, b: Event)
    ensures Exec(s, [a, b]) == Next(Next(s, a), b)
  {
    ExecSnoc(s, [a], b);
    ExecSnoc(s, [], a);
    assert [a] + [b] == [a, b];
    assert [] + [a] == [a];
    assert Exec(s, []) == s;
  }

  lemma ExecSix(s: Relay, a: Event, b: Event, c: Event, d: Event, e: Event, f: Event)
    ensures Exec(s, [a, b, c, d, e, f]) == Next(Next(Next(Next(Next(Next(s, a), b), c), d), e), f)
  {
    ExecTwo(s, a, b);
    ExecConcat(s, [a, b], [c, d]);
    ExecTwo(Exec(s, [a, b]), c, d);
    ExecConcat(s, [a, b, c, d], [e, f]);
    ExecTwo(Exec(s, [a, b, c, d]), e, f);
    assert [a, b] + [c, d] == [a, b, c, d];
    assert [a, b, c, d] + [e, f] == [a, b, c, d, e, f];
  }

  /** The race of task `t` is decided or can be. */
  predicate Ready(s: Relay, t: nat) {
    && t < |s.tasks| && !s.tasks[t].phase.Received?
    && (s.tasks[t].phase.HasDecision() || s.tasks[t].prompt.Finished? || (s.slackOn && !s.tasks[t].slot.Open?))
  }

  /** The race of task `t` can be decided by what its channel carries. */
  predicate Carries(s: Relay, t: nat, d: ApprovalDecision) {
    s.slackOn && t < |s.tasks| && s.tasks[t].phase.Waiting? && s.tasks[t].slot == Carrying(d)
  }

  lemma PlanFinishes(s: Relay, t: nat, now: Time, ok: bool)
    requires Ready(s, t)
    ensures var s' := Exec(s, FinishPlan(t, now, ok));
      && t < |s'.tasks| && s'.tasks[t].phase.Done?
      && (s.tasks[t].slot.Carrying? && Carries(s, t, s.tasks[t].slot.decision) ==>
            s'.tasks[t].phase == Done(s.tasks[t].slot.decision))
  {
    ExecSix(s, SelectSlack(t, now), SelectCli(t, now), TakeTs(t), FinalizeByCli(t, ok), LogDecision(t), Deliver(t));
    PlanSelects(s, t, now);
    PlanDelivers(Next(Next(s, SelectSlack(t, now)), SelectCli(t, now)), t, ok);
  }

  lemma PlanSelects(s: Relay, t: nat, now: Time)
    requires Ready(s, t)
    ensures var s2 := Next(Next(s, SelectSlack(t, now)), SelectCli(t, now));
      && t < |s2.tasks| && s2.tasks[t].phase.HasDecision()
      && (s.tasks[t].slot.Carrying? && Carries(s, t, s.tasks[t].slot.decision) ==>
            s2.tasks[t].phase.decision == s.tasks[t].slot.decision)
  {
    var s1 := Next(s, SelectSlack(t, now));
    assert t < |s1.tasks| && (s1.tasks[t].phase.HasDecision() || s1 == s);
  }

  lemma PlanDelivers(s2: Relay, t: nat, ok: bool)
    requires t < |s2.tasks| && s2.tasks[t].phase.HasDecision()
    ensures var s6 := Next(Next(Next(Next(s2, TakeTs(t)), FinalizeByCli(t, ok)), LogDecision(t)), Deliver(t));
      t < |s6.tasks| && s6.tasks[t].phase == Done(s2.tasks[t].phase.decision)
  {
    var s3 := Next(s2, TakeTs(t));
    TasksShape(s2, TakeTs(t));
    LeavesCliWon(s2, t);
    var s4 := Next(s3, FinalizeByCli(t, ok));
    PlanLogs(s3, t, ok);
    PlanSends(s4, t);
  }

  lemma LeavesCliWon(s: Relay, t: nat)
    requires t < |s.tasks|
    ensures t < |Next(s, TakeTs(t)).tasks| && !Next(s, TakeTs(t)).tasks[t].phase.CliWon?
  {}

  lemma PlanLogs(s: Relay, t: nat, ok: bool)
    requires t < |s.tasks| && s.tasks[t].phase.HasDecision() && !s.tasks[t].phase.CliWon?
    ensures var s' := Next(s, FinalizeByCli(t, ok));
      && t < |s'.tasks| && (s'.tasks[t].phase.Decided? || s'.tasks[t].phase.Logged? || s'.tasks[t].phase.Done?)
      && s'.tasks[t].phase.decision == s.tasks[t].phase.decision
  {}

  lemma PlanSends(s: Relay, t: nat)
    requires t < |s.tasks| && (s.tasks[t].phase.Decided? || s.tasks[t].phase.Logged? || s.tasks[t].phase.Done?)
    ensures var s' := Next(Next(s, LogDecision(t)), Deliver(t));
      t < |s'.tasks| && s'.tasks[t].phase == Done(s.tasks[t].phase.decision)
  {
    var s1 := Next(s, LogDecision(t));
    assert t < |s1.tasks| && (s1.tasks[t].phase.Logged? || s1.tasks[t].phase.Done?);
  }

  /** In every reachable state a started task either can be driven to its delivery by its own steps
      alone, or its prompt is still open and, with Slack on, somebody still holds its sender. */
  lemma NoTaskIsStuck(slackOn: bool, user: string, trace: seq<Event>, t: nat, now: Time, ok: bool)
    requires var s := Exec(Initial(slackOn, user), trace); t < |s.tasks| && !s.tasks[t].phase.Received?
    ensures var s := Exec(Initial(slackOn, user), trace);
      var s' := Exec(Initial(slackOn, user), trace + FinishPlan(t, now, ok));
      || (t < |s'.tasks| && s'.tasks[t].phase.Done?)
      || (&& s.tasks[t].phase.Waiting? && s.tasks[t].prompt.Prompting?
          && (slackOn ==>
                s.tasks[t].post.Posting? || s.tasks[t].post.PostAccepted? || InMap(s, t) || HeldByPress(s, t)))
  {
    var s0 := Initial(slackOn, user);
    var s := Exec(s0, trace);
    RunGood(slackOn, user, trace);
    HistoryIsFinal(s0, trace);
    ExecConcat(s0, trace, FinishPlan(t, now, ok));
    if Ready(s, t) {
      PlanFinishes(s, t, now, ok);
    } else {
      assert RaceTask(s.slackOn, s.user, s.tasks[t]);
    }
  }

  /** Whatever the terminal answers, and whatever Slack does or does not, a started request can be finished. */
  lemma TerminalCanFinish(slackOn: bool, user: string, trace: seq<Event>, t: nat,
                          result: CliResult, now: Time, ok: bool)
    requires var s := Exec(Initial(slackOn, user), trace); t < |s.tasks| && !s.tasks[t].phase.Received?
    ensures var s' := Exec(Initial(slackOn, user), trace + ([PromptReturns(t, result)] + FinishPlan(t, now, ok)));
      t < |s'.tasks| && s'.tasks[t].phase.Done?
  {
    var s0 := Initial(slackOn, user);
    var s := Exec(s0, trace);
    var plan := FinishPlan(t, now, ok);
    ExecConcat(s0, trace, [PromptReturns(t, result)] + plan);
    ExecConcat(s, [PromptReturns(t, result)], plan);
    ExecSnoc(s, [], PromptReturns(t, result));
    assert [] + [PromptReturns(t, result)] == [PromptReturns(t, result)];
    assert Exec(s, []) == s;
    PromptMakesReady(s, t, result);
    PlanFinishes(Next(s, PromptReturns(t, result)), t, now, ok);
  }

  lemma PromptMakesReady(s: Relay, t: nat, result: CliResult)
    requires t < |s.tasks| && !s.tasks[t].phase.Received?
    ensures Ready(Next(s, PromptReturns(t, result)), t)
  {}

  // ---------------------------------------------------------------- Slack alone

  /** A waiting task whose entry is in the map. */
  predicate Offered(s: Relay, t: nat) {
    && t < |s.tasks| && s.slackOn && s.tasks[t].phase.Waiting? && s.tasks[t].listening
    && InMap(s, t) && s.pending[s.tasks[t].req.requestId].request == s.tasks[t].req
  }

  /** A waiting task whose sender callback `i` holds, at stage `stage`. */
  predicate Held(s: Relay, t: nat, i: nat, p: Press) {
    && t < |s.tasks| && s.slackOn && s.tasks[t].phase.Waiting? && s.tasks[t].listening
    && i < |s.presses| && s.presses[i] == p && p.entry.owner == t
  }

  lemma PostOffers(s: Relay, t: nat, ts: string)
    requires t < |s.tasks| && s.slackOn && s.tasks[t].phase.Waiting? && s.tasks[t].listening
    requires s.tasks[t].post.Posting? || s.tasks[t].post.PostAccepted? || (Offered(s, t) && s.tasks[t].post.Registered?)
    ensures var s' := Exec(s, [PostSucceeds(t, ts), Register(t)]);
      Offered(s', t) && s'.tasks[t].req == s.tasks[t].req && s'.presses == s.presses
  {
    var s1 := Next(s, PostSucceeds(t, ts));
    ExecTwo(s, PostSucceeds(t, ts), Register(t));
    if !s.tasks[t].post.Registered? {
      PostReturns(s, t, ts);
      RegisterOffers(s1, t);
    }
  }

  lemma PostReturns(s: Relay, t: nat, ts: string)
    requires t < |s.tasks| && (s.tasks[t].post.Posting? || s.tasks[t].post.PostAccepted?)
    ensures var s' := Next(s, PostSucceeds(t, ts));
      && s'.slackOn == s.slackOn && s'.presses == s.presses && t < |s'.tasks|
      && s'.tasks[t] == s.tasks[t].(post := s'.tasks[t].post) && s'.tasks[t].post.PostAccepted?
  {}

  lemma RegisterOffers(s: Relay, t: nat)
    requires Enabled(s, Register(t)) && s.slackOn && s.tasks[t].phase.Waiting? && s.tasks[t].listening
    ensures var s' := Next(s, Register(t));
      Offered(s', t) && s'.tasks[t].req == s.tasks[t].req && s'.presses == s.presses
  {}

  lemma ButtonTakes(s: Relay, t: nat, action: string, userId: string, messageTs: string, now: Time)
    requires Offered(s, t)
    ensures var id := s.tasks[t].req.requestId;
      Held(Next(s, Button(id, action, userId, messageTs, now)), t, |s.presses|,
           Press(s.pending[id], id, action, userId, messageTs, now, Claimed))
  {}

  /** The rest of a callback. Those steps that are behind it do nothing. */
  function PressPlan(i: nat, ok: bool): seq<Event> {
    [AuditPress(i), FinalizePress(i, ok), SendPress(i)]
  }

  lemma PressPlanSends(s: Relay, t: nat, i: nat, ok: bool)
    requires i < |s.presses| && !s.presses[i].stage.Sent? && Held(s, t, i, s.presses[i])
    ensures Carries(Exec(s, PressPlan(i, ok)), t, PressDecision(s.presses[i]))
  {
    var s1 := Next(s, AuditPress(i));
    var s2 := Next(s1, FinalizePress(i, ok));
    ExecTwo(s, AuditPress(i), FinalizePress(i, ok));
    ExecSnoc(s, [AuditPress(i), FinalizePress(i, ok)], SendPress(i));
    assert [AuditPress(i), FinalizePress(i, ok)] + [SendPress(i)] == PressPlan(i, ok);
    PressAudits(s, t, i);
    PressFinalizes(s1, t, i, ok);
    PressSends(s2, t, i);
  }

  lemma PressAudits(s: Relay, t: nat, i: nat)
    requires i < |s.presses| && !s.presses[i].stage.Sent? && Held(s, t, i, s.presses[i])
    ensures var s' := Next(s, AuditPress(i));
      && i < |s'.presses| && (s'.presses[i].stage.Audited? || s'.presses[i].stage.Finalized?)
      && Held(s', t, i, s.presses[i].(stage := s'.presses[i].stage))
  {}

  lemma PressFinalizes(s: Relay, t: nat, i: nat, ok: bool)
    requires i < |s.presses| && (s.presses[i].stage.Audited? || s.presses[i].stage.Finalized?)
    requires Held(s, t, i, s.presses[i])
    ensures Held(Next(s, FinalizePress(i, ok)), t, i, s.presses[i].(stage := Finalized))
  {}

  lemma PressSends(s: Relay, t: nat, i: nat)
    requires i < |s.presses| && s.presses[i].stage.Finalized? && Held(s, t, i, s.presses[i])
    ensures Carries(Next(s, SendPress(i)), t, PressDecision(s.presses[i]))
  {}

  /** A held sender is used, and what it sends is delivered. */
  lemma HeldFinishes(s: Relay, t: nat, i: nat, now: Time, ok: bool)
    requires i < |s.presses| && !s.presses[i].stage.Sent? && Held(s, t, i, s.presses[i])
    ensures var s' := Exec(s, PressPlan(i, ok) + FinishPlan(t, now, ok));
      t < |s'.tasks| && s'.tasks[t].phase == Done(PressDecision(s.presses[i]))
  {
    PressPlanSends(s, t, i, ok);
    ExecConcat(s, PressPlan(i, ok), FinishPlan(t, now, ok));
    PlanFinishes(Exec(s, PressPlan(i, ok)), t, now, ok);
  }

  /** A button press on the message of task `t`, up to the delivery. */
  function ButtonPlan(t: nat, i: nat, id: Uuid, action: string, userId: string, messageTs: string, now: Time, ok: bool)
    : seq<Event>
  {
    [Button(id, action, userId, messageTs, now)] + (PressPlan(i, ok) + FinishPlan(t, now, ok))
  }

  lemma OfferedFinishes(s: Relay, t: nat, action: string, userId: string, messageTs: string, now: Time, ok: bool)
    requires Offered(s, t)
    ensures var id := s.tasks[t].req.requestId;
      var s' := Exec(s, ButtonPlan(t, |s.presses|, id, action, userId, messageTs, now, ok));
      && t < |s'.tasks|
      && s'.tasks[t].phase == Done(PressDecision(Press(s.pending[id], id, action, userId, messageTs, now, Claimed)))
  {
    var id := s.tasks[t].req.requestId;
    var button := Button(id, action, userId, messageTs, now);
    ButtonTakes(s, t, action, userId, messageTs, now);
    HeldFinishes(Next(s, button), t, |s.presses|, now, ok);
    ExecConcat(s, [button], PressPlan(|s.presses|, ok) + FinishPlan(t, now, ok));
    ExecSnoc(s, [], button);
    assert [] + [button] == [button];
    assert Exec(s, []) == s;
  }

  /** The steps by which one button press answers task `t`, from the return of its post to the delivery. */
  function PressAnswers(s: Relay, t: nat, action: string, userId: string, ts: string, now: Time, ok: bool): seq<Event>
    requires t < |s.tasks|
  {
    [PostSucceeds(t, ts), Register(t)]
    + ButtonPlan(t, |s.presses|, s.tasks[t].req.requestId, action, userId, ts, now, ok)
  }

  /** As long as no callback has taken the entry of a waiting request, one button press, and no word from the
      terminal, decides it: in time as the button says, and as expired afterwards. */
  lemma ButtonCanDecide(user: string, trace: seq<Event>, t: nat,
                        action: string, userId: string, ts: string, now: Time, ok: bool)
    requires var s := Exec(Initial(true, user), trace);
      && t < |s.tasks| && s.tasks[t].phase.Waiting?
      && (s.tasks[t].post.Posting? || s.tasks[t].post.PostAccepted? || InMap(s, t))
    ensures var s := Exec(Initial(true, user), trace);
      var s' := Exec(Initial(true, user), trace + PressAnswers(s, t, action, userId, ts, now, ok));
      && t < |s'.tasks| && s'.tasks[t].phase.Done?
      && s'.tasks[t].phase.decision.approver == Slack(userId, ts)
      && s'.tasks[t].phase.decision.outcome ==
           if now > s.tasks[t].req.expiresAt then Expired else if action == "approve" then Approve else Deny
  {
    var s0 := Initial(true, user);
    var s := Exec(s0, trace);
    var s1 := Exec(s, [PostSucceeds(t, ts), Register(t)]);
    RunGood(true, user, trace);
    HistoryIsFinal(s0, trace);
    assert RaceTask(s.slackOn, s.user, s.tasks[t]);
    PostOffers(s, t, ts);
    OfferedFinishes(s1, t, action, userId, ts, now, ok);
    ExecConcat(s, [PostSucceeds(t, ts), Register(t)],
               ButtonPlan(t, |s.presses|, s.tasks[t].req.requestId, action, userId, ts, now, ok));
    ExecConcat(s0, trace, PressAnswers(s, t, action, userId, ts, now, ok));
  }

  /** Once a callback has taken the entry of a waiting request, its own steps decide it. */
  lemma CallbackCanDecide(user: string, trace: seq<Event>, t: nat, i: nat, now: Time, ok: bool)
    requires var s := Exec(Initial(true, user), trace);
      t < |s.tasks| && s.tasks[t].phase.Waiting? && InFlight(s, t, i)
    ensures var s := Exec(Initial(true, user), trace);
      var s' := Exec(Initial(true, user), trace + (PressPlan(i, ok) + FinishPlan(t, now, ok)));
      t < |s'.tasks| && s'.tasks[t].phase == Done(PressDecision(s.presses[i]))
  {
    var s0 := Initial(true, user);
    var s := Exec(s0, trace);
    RunGood(true, user, trace);
    HistoryIsFinal(s0, trace);
    assert RaceTask(s.slackOn, s.user, s.tasks[t]);
    HeldFinishes(s, t, i, now, ok);
    ExecConcat(s0, trace, PressPlan(i, ok) + FinishPlan(t, now, ok));
  }

  /** With Slack on, every started request can be finished without a word from the terminal. */
  lemma SlackCanFinish(user: string, trace: seq<Event>, t: nat, now: Time) returns (plan: seq<Event>)
    requires var s := Exec(Initial(true, user), trace); t < |s.tasks| && !s.tasks[t].phase.Received?
    ensures forall k | 0 <= k < |plan| :: !plan[k].PromptReturns?
    ensures var s' := Exec(Initial(true, user), trace + plan); t < |s'.tasks| && s'.tasks[t].phase.Done?
  {
    var s := Exec(Initial(true, user), trace);
    NoTaskIsStuck(true, user, trace, t, now, true);
    var s' := Exec(Initial(true, user), trace + FinishPlan(t, now, true));
    if t < |s'.tasks| && s'.tasks[t].phase.Done? {
      plan := FinishPlan(t, now, true);
    } else if s.tasks[t].post.Posting? || s.tasks[t].post.PostAccepted? || InMap(s, t) {
      plan := PressAnswers(s, t, "deny", "", "", now, true);
      ButtonCanDecide(user, trace, t, "deny", "", "", now, true);
    } else {
      var i: nat :| InFlight(s, t, i);
      plan := PressPlan(i, true) + FinishPlan(t, now, true);
      CallbackCanDecide(user, trace, t, i, now, true);
    }
  }
}
