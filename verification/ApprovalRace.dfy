/** How the race between terminal and Slack stands, and what the removal history tells about it. */
module ApprovalRace {
  import opened ApprovalTypes
  import opened ApprovalProtocol
  import opened ApprovalSteps
  import opened ApprovalSafety

  /** The terminal branch decided `task`: by what the prompt read, or as a system denial if it panicked. */
  predicate CliMade(user: string, task: Task) {
    && task.phase.HasDecision() && task.prompt.Finished?
    && match task.prompt.result
       case Answered(read, at) => task.phase.decision == PromptSync(task.req, user, read, at)
       case Panicked => task.phase.decision.approver.System? && task.phase.decision.outcome == Deny
  }

  /** The Slack branch decided `task`: by what its channel carries, or as a system denial if it is closed. */
  predicate SlackMade(slackOn: bool, task: Task) {
    && slackOn && task.phase.HasDecision() && !task.slot.Open?
    && (task.slot.Carrying? ==> task.phase.decision == task.slot.decision)
    && (task.slot.SenderGone? ==> task.phase.decision.approver.System? && task.phase.decision.outcome == Deny)
  }

  predicate RaceTask(slackOn: bool, user: string, task: Task) {
    && (task.phase.HasDecision() <==> !task.listening)
    && (task.phase.HasDecision() <==> !task.winner.Undecided?)
    && (task.winner.CliBranch? ==> CliMade(user, task))
    && (task.winner.SlackBranch? ==> SlackMade(slackOn, task))
    && (task.phase.CliWon? || task.phase.Finalizing? ==> task.winner.CliBranch?)
    && (task.slot.Carrying? ==> task.slot.decision.approver.Slack?)
    && (slackOn && !task.phase.Received? ==> !task.post.NotPosted?)
  }

  ghost predicate RaceTasksOk(s: Relay) {
    forall t | 0 <= t < |s.tasks| :: RaceTask(s.slackOn, s.user, s.tasks[t])
  }

  /** A decision that was sent arrived, unless the terminal had won by then. */
  predicate PressArrived(s: Relay, i: nat)
    requires i < |s.presses|
  {
    && s.presses[i].entry.owner < |s.tasks|
    && var task := s.tasks[s.presses[i].entry.owner];
       task.slot == Carrying(PressDecision(s.presses[i])) || (task.slot.SenderGone? && task.winner.CliBranch?)
  }

  ghost predicate RacePressesOk(s: Relay) {
    forall i | 0 <= i < |s.presses| && s.presses[i].stage.Sent? :: PressArrived(s, i)
  }

  predicate SameId(s: Relay, t: nat, u: nat) {
    t < |s.tasks| && u < |s.tasks| && s.tasks[t].req.requestId == s.tasks[u].req.requestId
  }

  /** An entry is removed by the callback that carries it; or, closing its channel, by the winning terminal
      branch of a request with the same id, or by the post of another request with the same id. */
  predicate RemoverTells(s: Relay, r: Removal) {
    match r.remover
    case ByPress(i) => i < |s.presses| && s.presses[i].entry.owner == r.owner
    case ByCli(t) => SameId(s, t, r.owner) && s.tasks[t].winner.CliBranch? && s.tasks[r.owner].slot.SenderGone?
    case ByOverwrite(t) => SameId(s, t, r.owner) && t != r.owner && s.tasks[r.owner].slot.SenderGone?
  }

  ghost predicate RemoversTell(s: Relay) {
    forall k | 0 <= k < |s.removals| :: RemoverTells(s, s.removals[k])
  }

  ghost predicate RaceOk(s: Relay) {
    RaceTasksOk(s) && RacePressesOk(s) && RemoversTell(s)
  }

  // ---------------------------------------------------------------- one step

  /** A channel that is no longer open, and a winner, stay as they are. */
  lemma Settled(s: Relay, e: Event, s': Relay, t: nat)
    requires SlotOk(s) && PressOk(s) && TasksStep(s, e, s') && t < |s.tasks|
    ensures !s.tasks[t].slot.Open? ==> s'.tasks[t].slot == s.tasks[t].slot
    ensures !s.tasks[t].phase.Waiting? ==> s'.tasks[t].winner == s.tasks[t].winner
  {
    assert TaskStep(s, e, t, s.tasks[t], s'.tasks[t]);
  }

  lemma RaceTaskNext(s: Relay, e: Event, s': Relay, t: nat)
    requires SlotOk(s) && PressOk(s) && TasksStep(s, e, s') && Chosen(s, e, s')
    requires t < |s.tasks| && RaceTask(s.slackOn, s.user, s.tasks[t])
    ensures RaceTask(s'.slackOn, s'.user, s'.tasks[t])
  {
    assert TaskStep(s, e, t, s.tasks[t], s'.tasks[t]);
    if !Selects(s, e, t) {
      Settled(s, e, s', t);
      RaceTaskStays(s, e, t, s.tasks[t], s'.tasks[t]);
    }
  }

  lemma RaceTaskStays(s: Relay, e: Event, t: nat, a: Task, b: Task)
    requires TaskStep(s, e, t, a, b) && !Selects(s, e, t) && RaceTask(s.slackOn, s.user, a)
    requires !a.slot.Open? ==> b.slot == a.slot
    ensures RaceTask(s.slackOn, s.user, b)
  {}

  lemma RaceTasksNext(s: Relay, e: Event, s': Relay)
    requires RaceTasksOk(s) && SlotOk(s) && PressOk(s) && TasksStep(s, e, s') && Chosen(s, e, s')
    ensures RaceTasksOk(s')
  {
    forall t | 0 <= t < |s'.tasks| ensures RaceTask(s'.slackOn, s'.user, s'.tasks[t]) {
      if t < |s.tasks| {
        RaceTaskNext(s, e, s', t);
      }
    }
  }

  lemma PressArrives(s: Relay, e: Event, s': Relay, i: nat)
    requires RaceTasksOk(s) && RacePressesOk(s) && SlotOk(s) && PressOk(s)
    requires TasksStep(s, e, s') && PressesStep(s, e, s')
    requires i < |s'.presses| && s'.presses[i].stage.Sent?
    ensures PressArrived(s', i)
  {
    assert i < |s.presses| && PressStep(e, i, s.presses[i], s'.presses[i]);
    var u := s.presses[i].entry.owner;
    assert TaskStep(s, e, u, s.tasks[u], s'.tasks[u]);
    assert RaceTask(s.slackOn, s.user, s.tasks[u]);
    if s.presses[i].stage.Sent? {
      Settled(s, e, s', u);
    } else {
      assert SendsTo(s, e, u);
    }
  }

  lemma RacePressesNext(s: Relay, e: Event, s': Relay)
    requires RaceTasksOk(s) && RacePressesOk(s) && SlotOk(s) && PressOk(s)
    requires TasksStep(s, e, s') && PressesStep(s, e, s')
    ensures RacePressesOk(s')
  {
    forall i | 0 <= i < |s'.presses| && s'.presses[i].stage.Sent? ensures PressArrived(s', i) {
      PressArrives(s, e, s', i);
    }
  }

  /** Taking an entry away from a task closes its channel, unless a callback carries it on. */
  ghost predicate Closes(s: Relay, e: Event, s': Relay) {
    Enabled(s, e) && (e.Register? || e.TakeTs?) && s.tasks[e.t].req.requestId in s.pending ==>
      var owner := s.pending[s.tasks[e.t].req.requestId].owner;
      owner < |s'.tasks| && s'.tasks[owner].slot.SenderGone?
  }

  lemma NextCloses(s: Relay, e: Event)
    requires PendingOk(s)
    ensures Closes(s, e, Next(s, e))
  {}

  lemma StillTells(s: Relay, e: Event, s': Relay, r: Removal)
    requires RaceTasksOk(s) && SlotOk(s) && PressOk(s) && StepShape(s, e, s') && RemoverTells(s, r)
    ensures RemoverTells(s', r)
  {
    match r.remover
    case ByPress(i) => assert PressStep(e, i, s.presses[i], s'.presses[i]);
    case ByCli(t) =>
      assert TaskStep(s, e, t, s.tasks[t], s'.tasks[t]) && RaceTask(s.slackOn, s.user, s.tasks[t]);
      assert TaskStep(s, e, r.owner, s.tasks[r.owner], s'.tasks[r.owner]);
      Settled(s, e, s', t);
      Settled(s, e, s', r.owner);
    case ByOverwrite(t) =>
      assert TaskStep(s, e, t, s.tasks[t], s'.tasks[t]);
      assert TaskStep(s, e, r.owner, s.tasks[r.owner], s'.tasks[r.owner]);
      Settled(s, e, s', r.owner);
  }

  lemma NewTells(s: Relay, e: Event, s': Relay, r: Removal)
    requires RaceTasksOk(s) && PendingOk(s) && StepShape(s, e, s') && Closes(s, e, s') && IsNewRemoval(s, e, r)
    requires e.Button? ==> |s.presses| < |s'.presses|
    ensures RemoverTells(s', r)
  {
    if e.Register? || e.TakeTs? {
      var id := s.tasks[e.t].req.requestId;
      assert TaskStep(s, e, e.t, s.tasks[e.t], s'.tasks[e.t]) && RaceTask(s.slackOn, s.user, s.tasks[e.t]);
      assert TaskStep(s, e, r.owner, s.tasks[r.owner], s'.tasks[r.owner]);
    }
  }

  lemma ButtonAdds(s: Relay, e: Event)
    requires Enabled(s, e) && e.Button?
    ensures |Next(s, e).presses| == |s.presses| + 1
  {}

  lemma RemoversNext(s: Relay, e: Event, s': Relay)
    requires RaceTasksOk(s) && RemoversTell(s) && PendingOk(s) && SlotOk(s) && PressOk(s)
    requires StepShape(s, e, s') && Closes(s, e, s')
    requires Enabled(s, e) && e.Button? ==> |s.presses| < |s'.presses|
    ensures RemoversTell(s')
  {
    forall k | 0 <= k < |s'.removals| ensures RemoverTells(s', s'.removals[k]) {
      if k < |s.removals| {
        assert RemoverTells(s, s.removals[k]);
        StillTells(s, e, s', s.removals[k]);
      } else {
        NewTells(s, e, s', s'.removals[k]);
      }
    }
  }

  /** One step keeps the race invariant. */
  lemma RaceNext(s: Relay, e: Event)
    requires RaceOk(s) && Ledger(s)
    ensures RaceOk(Next(s, e))
  {
    NextShape(s, e);
    NextChosen(s, e);
    NextCloses(s, e);
    if Enabled(s, e) && e.Button? {
      ButtonAdds(s, e);
    }
    RaceStands(s, e, Next(s, e));
  }

  lemma RaceStands(s: Relay, e: Event, s': Relay)
    requires RaceOk(s) && Ledger(s) && StepShape(s, e, s') && Chosen(s, e, s') && Closes(s, e, s')
    requires Enabled(s, e) && e.Button? ==> |s.presses| < |s'.presses|
    ensures RaceOk(s')
  {
    RaceTasksNext(s, e, s');
    RacePressesNext(s, e, s');
    RemoversNext(s, e, s');
  }
}
