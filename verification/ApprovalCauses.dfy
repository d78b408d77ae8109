/** Exactly when a delivered decision is late, is made by nobody, or is not what the Slack message shows. */
module ApprovalCauses {
  import opened ApprovalTypes
  import opened ApprovalProtocol
  import opened ApprovalSteps
  import opened ApprovalSafety
  import opened ApprovalRace
  import opened ApprovalRuns

  // ---------------------------------------------------------------- approvals after the expiry

  /** A decision that stands is the Slack branch's only if its channel carries it, or is a system denial. */
  lemma WhoDecided(s: Relay, t: nat)
    requires RaceTasksOk(s) && t < |s.tasks| && s.tasks[t].phase.HasDecision()
    ensures var task := s.tasks[t]; var d := task.phase.decision;
      || (task.winner.CliBranch? && CliMade(s.user, task))
      || (task.winner.SlackBranch? && SlackMade(s.slackOn, task)
          && (task.slot.Carrying? ==> d.approver.Slack?))
  {
    assert RaceTask(s.slackOn, s.user, s.tasks[t]);
  }

  /** An approval is late exactly when the terminal gave it and read its yes after the expiry:
      the check that the button callback makes and the prompt does not. */
  lemma LateApprovalExactly(slackOn: bool, user: string, trace: seq<Event>, n: nat)
    requires n < |Exec(Initial(slackOn, user), trace).deliveries|
    requires Exec(Initial(slackOn, user), trace).deliveries[n].decision.outcome == Approve
    ensures var s := Exec(Initial(slackOn, user), trace); var Delivery(t, d) := s.deliveries[n];
      && t < |s.tasks|
      && (d.decidedAt > s.tasks[t].req.expiresAt <==>
            && d.approver.Cli? && s.tasks[t].prompt.Finished? && s.tasks[t].prompt.result.Answered?
            && s.tasks[t].prompt.result.at > s.tasks[t].req.expiresAt)
  {
    var s := Exec(Initial(slackOn, user), trace);
    RunGood(slackOn, user, trace);
    var Delivery(t, d) := s.deliveries[n];
    assert Justified(s, t, d);
    if !ApprovedOnCli(s, t, d) {
      var i :| ApprovedByPress(s, t, d, i);
    }
  }

  // ---------------------------------------------------------------- denials nobody made

  /** On behalf of another request with the same id, the sender of task `t` was dropped. */
  ghost predicate ClosedByAnother(s: Relay, t: nat) {
    exists k :: ClosedAt(s, t, k)
  }

  predicate ClosedAt(s: Relay, t: nat, k: nat) {
    && RemovedAt(s, t, k)
    && match s.removals[k].remover
       case ByPress(_) => false
       case ByCli(u) => u != t && SameId(s, u, t)
       case ByOverwrite(u) => u != t && SameId(s, u, t)
  }

  /** No other request received so far has the id of task `t`. */
  ghost predicate UniqueId(s: Relay, t: nat) {
    forall u | 0 <= u < |s.tasks| && u != t :: !SameId(s, u, t)
  }

  /** A channel that is closed although the Slack branch won was closed by the rejected post or for another request. */
  lemma WhyClosed(s: Relay, t: nat)
    requires Good(s) && t < |s.tasks| && s.tasks[t].winner.SlackBranch? && s.tasks[t].slot.SenderGone?
    ensures s.tasks[t].post.PostRejected? || ClosedByAnother(s, t)
  {
    if s.tasks[t].post.Registered? {
      NotInMapWhenClosed(s, t);
      var k: nat :| RemovedAt(s, t, k);
      NotClosedByPress(s, t, k);
      assert RemoverTells(s, s.removals[k]);
      assert ClosedAt(s, t, k);
    }
  }

  lemma NotInMapWhenClosed(s: Relay, t: nat)
    requires PendingOk(s) && Conserved(s) && t < |s.tasks| && s.tasks[t].post.Registered? && s.tasks[t].slot.SenderGone?
    ensures Removed(s, t)
  {}

  lemma NotClosedByPress(s: Relay, t: nat, k: nat)
    requires PressOk(s) && RacePressesOk(s) && RemoversTell(s) && t < |s.tasks| && RemovedAt(s, t, k)
    requires s.tasks[t].winner.SlackBranch? && s.tasks[t].slot.SenderGone?
    ensures !s.removals[k].remover.ByPress?
  {
    assert RemoverTells(s, s.removals[k]);
    if s.removals[k].remover.ByPress? {
      OpenOrArrived(s, s.removals[k].remover.press);
    }
  }

  /** A callback still holds its sender, or its decision arrived or came too late. */
  lemma OpenOrArrived(s: Relay, i: nat)
    requires PressOk(s) && RacePressesOk(s) && i < |s.presses|
    ensures s.tasks[s.presses[i].entry.owner].slot.Open? || PressArrived(s, i)
  {}

  lemma ClosedStaysClosed(s: Relay, t: nat)
    requires RemoversTell(s) && SlotOk(s) && t < |s.tasks|
    requires s.tasks[t].post.PostRejected? || ClosedByAnother(s, t)
    ensures s.tasks[t].slot.SenderGone?
  {
    if !s.tasks[t].post.PostRejected? {
      var k: nat :| ClosedAt(s, t, k);
      assert RemoverTells(s, s.removals[k]);
    }
  }

  lemma SystemDecides(s: Relay, t: nat)
    requires Good(s) && t < |s.tasks| && s.tasks[t].phase.HasDecision()
    ensures var task := s.tasks[t];
      task.phase.decision.approver.System? <==>
        || (task.winner.CliBranch? && task.prompt == Finished(Panicked))
        || (task.winner.SlackBranch? && (task.post.PostRejected? || ClosedByAnother(s, t)))
    ensures s.tasks[t].phase.decision.approver.System? ==> s.tasks[t].phase.decision.outcome == Deny
  {
    WhoDecided(s, t);
    if s.tasks[t].winner.SlackBranch? {
      if s.tasks[t].slot.SenderGone? {
        WhyClosed(s, t);
      } else if s.tasks[t].post.PostRejected? || ClosedByAnother(s, t) {
        ClosedStaysClosed(s, t);
      }
    }
  }

  /** A request is answered by nobody exactly when its prompt panicked and the terminal branch won, or when the
      Slack branch won after the post was rejected or after another request with the same id dropped its sender;
      such an answer denies. */
  lemma SystemDenialExactly(slackOn: bool, user: string, trace: seq<Event>, n: nat)
    requires n < |Exec(Initial(slackOn, user), trace).deliveries|
    ensures var s := Exec(Initial(slackOn, user), trace); var Delivery(t, d) := s.deliveries[n];
      && t < |s.tasks|
      && (d.approver.System? <==>
            || (s.tasks[t].winner.CliBranch? && s.tasks[t].prompt == Finished(Panicked))
            || (s.tasks[t].winner.SlackBranch? && (s.tasks[t].post.PostRejected? || ClosedByAnother(s, t))))
      && (d.approver.System? ==> d.outcome == Deny)
  {
    var s := Exec(Initial(slackOn, user), trace);
    RunGood(slackOn, user, trace);
    SystemDecides(s, s.deliveries[n].task);
  }

  /** With an id that no other request has, that is: the prompt panicked and the terminal branch won, or the post was
      rejected and the Slack branch won. */
  lemma UniqueIdDenialExactly(slackOn: bool, user: string, trace: seq<Event>, n: nat)
    requires n < |Exec(Initial(slackOn, user), trace).deliveries|
    requires UniqueId(Exec(Initial(slackOn, user), trace), Exec(Initial(slackOn, user), trace).deliveries[n].task)
    ensures var s := Exec(Initial(slackOn, user), trace); var Delivery(t, d) := s.deliveries[n];
      && t < |s.tasks|
      && (d.approver.System? <==>
            || (s.tasks[t].winner.CliBranch? && s.tasks[t].prompt == Finished(Panicked))
            || (s.tasks[t].winner.SlackBranch? && s.tasks[t].post.PostRejected?))
  {
    var s := Exec(Initial(slackOn, user), trace);
    SystemDenialExactly(slackOn, user, trace, n);
    NotClosedByAnother(s, s.deliveries[n].task);
  }

  lemma NotClosedByAnother(s: Relay, t: nat)
    requires UniqueId(s, t)
    ensures !ClosedByAnother(s, t)
  {}

  ghost predicate PostCause(s0: Relay, trace: seq<Event>, t: nat, k: nat) {
    k < |trace| && Fired(s0, trace, k) && trace[k] == PostFails(t)
  }

  /** A rejected post in the state was an event of the run. */
  lemma {:induction false} PostHasCause(slackOn: bool, user: string, trace: seq<Event>, t: nat) returns (k: nat)
    requires var s := Exec(Initial(slackOn, user), trace); t < |s.tasks| && s.tasks[t].post.PostRejected?
    ensures PostCause(Initial(slackOn, user), trace, t, k)
  {
    var s0 := Initial(slackOn, user);
    var n := |trace| - 1;
    assert trace != [];
    var s := Exec(s0, trace[..n]);
    assert trace[..n] == trace[..|trace| - 1];
    TasksShape(s, trace[n]);
    if t < |s.tasks| && s.tasks[t].post.PostRejected? {
      k := PostHasCause(slackOn, user, trace[..n], t);
      assert trace[..n][..k] == trace[..k];
    } else {
      k := n;
    }
  }

  /** During the run the prompt of task `t` panicked or its post failed. */
  ghost predicate Failed(s0: Relay, trace: seq<Event>, t: nat) {
    exists k :: PromptCause(s0, trace, t, Panicked, k) || PostCause(s0, trace, t, k)
  }

  lemma PanicFails(slackOn: bool, user: string, trace: seq<Event>, t: nat)
    requires var s := Exec(Initial(slackOn, user), trace); t < |s.tasks| && s.tasks[t].prompt == Finished(Panicked)
    ensures Failed(Initial(slackOn, user), trace, t)
  {
    var k := PromptHasCause(slackOn, user, trace, t);
  }

  lemma RejectionFails(slackOn: bool, user: string, trace: seq<Event>, t: nat)
    requires var s := Exec(Initial(slackOn, user), trace); t < |s.tasks| && s.tasks[t].post.PostRejected?
    ensures Failed(Initial(slackOn, user), trace, t)
  {
    var k := PostHasCause(slackOn, user, trace, t);
  }

  /** A request whose id no other request has is answered by nobody only if its prompt panicked or its post failed
      during the run. */
  lemma UniqueIdsAreAnswered(slackOn: bool, user: string, trace: seq<Event>, n: nat)
    requires n < |Exec(Initial(slackOn, user), trace).deliveries|
    requires UniqueId(Exec(Initial(slackOn, user), trace), Exec(Initial(slackOn, user), trace).deliveries[n].task)
    requires Exec(Initial(slackOn, user), trace).deliveries[n].decision.approver.System?
    ensures Failed(Initial(slackOn, user), trace, Exec(Initial(slackOn, user), trace).deliveries[n].task)
  {
    var s := Exec(Initial(slackOn, user), trace);
    var t := s.deliveries[n].task;
    UniqueIdDenialExactly(slackOn, user, trace, n);
    if s.tasks[t].post.PostRejected? {
      RejectionFails(slackOn, user, trace, t);
    } else {
      PanicFails(slackOn, user, trace, t);
    }
  }

  // ---------------------------------------------------------------- what the Slack message shows

  /** With the Slack branch the winner, the callback that took the entry made the decision. */
  lemma SlackWinnerIsPress(s: Relay, t: nat, i: nat)
    requires RaceOk(s) && PressOk(s) && t < |s.tasks| && s.tasks[t].winner.SlackBranch?
    requires i < |s.presses| && s.presses[i].entry.owner == t
    ensures s.tasks[t].phase.HasDecision() && s.tasks[t].phase.decision == PressDecision(s.presses[i])
  {
    assert RaceTask(s.slackOn, s.user, s.tasks[t]);
    OpenOrArrived(s, i);
  }

  /** The message of task `t` shows what `outcome` says, rewritten by `r`. */
  ghost predicate Shows(s: Relay, t: nat, r: Remover, outcome: Outcome)
    requires t < |s.tasks| && s.tasks[t].phase.HasDecision()
  {
    match r
    case ByPress(i) =>
      && i < |s.presses| && s.presses[i].entry.owner == t && outcome == PressDecision(s.presses[i]).outcome
      && (s.tasks[t].winner.SlackBranch? ==> outcome == s.tasks[t].phase.decision.outcome)
    case ByCli(u) =>
      && SameId(s, u, t) && s.tasks[u].winner.CliBranch? && s.tasks[u].phase.HasDecision()
      && outcome == s.tasks[u].phase.decision.outcome
    case ByOverwrite(_) => false
  }

  /** A rewritten message shows the delivered outcome when the terminal branch of its own request rewrote it, or a
      callback whose decision won the race; else it shows the outcome of the callback that lost, or of another
      request with the same id. */
  lemma MessageShows(slackOn: bool, user: string, trace: seq<Event>, t: nat, j: nat)
    requires var s := Exec(Initial(slackOn, user), trace);
      t < |s.tasks| && s.tasks[t].phase.Done? && j < |s.updates| && s.updates[j].owner == t
    ensures var s := Exec(Initial(slackOn, user), trace); Shows(s, t, s.updates[j].remover, s.updates[j].outcome)
  {
    RunGood(slackOn, user, trace);
    UpdateShows(Exec(Initial(slackOn, user), trace), t, j);
  }

  lemma UpdateShows(s: Relay, t: nat, j: nat)
    requires Good(s) && t < |s.tasks| && s.tasks[t].phase.HasDecision()
    requires j < |s.updates| && s.updates[j].owner == t
    ensures Shows(s, t, s.updates[j].remover, s.updates[j].outcome)
  {
    var Update(_, outcome, r) := s.updates[j];
    assert IsRemoverOutcome(s, r, outcome) && Removal(t, r) in s.removals;
    var k :| 0 <= k < |s.removals| && s.removals[k] == Removal(t, r);
    assert RemoverTells(s, s.removals[k]);
    if r.ByPress? && s.tasks[t].winner.SlackBranch? {
      SlackWinnerIsPress(s, t, r.press);
    }
  }

  /** With an id of its own, the message of a finished request shows something else than what was delivered exactly
      when a callback rewrote it, made another decision, and lost against the terminal branch. */
  lemma MessageDisagreesExactly(slackOn: bool, user: string, trace: seq<Event>, t: nat, j: nat)
    requires var s := Exec(Initial(slackOn, user), trace);
      && t < |s.tasks| && s.tasks[t].phase.Done? && j < |s.updates| && s.updates[j].owner == t
      && UniqueId(s, t)
    ensures var s := Exec(Initial(slackOn, user), trace); var u := s.updates[j];
      u.outcome != s.tasks[t].phase.decision.outcome <==>
        && s.tasks[t].winner.CliBranch? && u.remover.ByPress? && u.remover.press < |s.presses|
        && PressDecision(s.presses[u.remover.press]).outcome != s.tasks[t].phase.decision.outcome
  {
    var s := Exec(Initial(slackOn, user), trace);
    RunGood(slackOn, user, trace);
    MessageShows(slackOn, user, trace, t, j);
    WhoDecided(s, t);
  }
}
