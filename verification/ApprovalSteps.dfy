/** What one step of the relay can do to one task, one callback and the histories. */
module ApprovalSteps {
  import opened ApprovalTypes
  import opened ApprovalProtocol

  /** How one step may move the phase of task `t`. */
  predicate Moves(e: Event, t: nat, p: Phase, q: Phase) {
    || q == p
    || (p.Received? && q.Waiting?)
    || (p.Waiting? && (q.CliWon? || q.Decided?) && (e.SelectCli? || e.SelectSlack?) && e.t == t)
    || (p.CliWon? && (q.Finalizing? || q.Decided?) && q.decision == p.decision && e == TakeTs(t))
    || (p.Finalizing? && q == Decided(p.decision) && e.FinalizeByCli? && e.t == t)
    || (p.Decided? && q == Logged(p.decision) && e == LogDecision(t))
    || (p.Logged? && q == Done(p.decision) && e == Deliver(t))
  }

  /** The event uses the sender of task `t`. */
  predicate SendsTo(s: Relay, e: Event, t: nat) {
    e.SendPress? && Enabled(s, e) && s.presses[e.i].entry.owner == t
  }

  /** How one step may move the channel of task `t`. */
  predicate SlotStep(s: Relay, e: Event, t: nat, a: Task, b: Task) {
    if SendsTo(s, e, t) then b.slot == if a.listening then Carrying(PressDecision(s.presses[e.i])) else SenderGone
    else b.slot == a.slot || (b.slot.SenderGone? && (a.slot.Open? || a.post.Posting?))
  }

  /** How one step may move the post of task `t`. */
  predicate PostStep(s: Relay, e: Event, t: nat, a: Task, b: Task) {
    && (b.post.PostRejected? ==> a.post.PostRejected? || (Enabled(s, e) && e == PostFails(t)))
    && (b.post.NotPosted? && s.slackOn ==> a.post.NotPosted? && (a.phase.Received? ==> b.phase.Received?))
  }

  predicate Selects(s: Relay, e: Event, t: nat) {
    Enabled(s, e) && (e.SelectCli? || e.SelectSlack?) && e.t == t
  }

  /** How one step may move task `t`. */
  predicate TaskStep(s: Relay, e: Event, t: nat, a: Task, b: Task) {
    && b.req == a.req
    && (b.prompt == a.prompt
        || (a.prompt.Prompting? && b.prompt.Finished? && Enabled(s, e) && e == PromptReturns(t, b.prompt.result)))
    && Moves(e, t, a.phase, b.phase) && (b.phase != a.phase ==> Enabled(s, e))
    && ((b.listening == a.listening && b.winner == a.winner) || (Selects(s, e, t) && a.phase.Waiting?))
    && SlotStep(s, e, t, a, b) && PostStep(s, e, t, a, b)
  }

  ghost predicate TasksStep(s: Relay, e: Event, s': Relay) {
    && s'.user == s.user && s'.slackOn == s.slackOn && |s.tasks| <= |s'.tasks|
    && (forall t | 0 <= t < |s.tasks| :: TaskStep(s, e, t, s.tasks[t], s'.tasks[t]))
    && (forall t | |s.tasks| <= t < |s'.tasks| :: e.Receive? && s'.tasks[t] == NewTask(e.req))
  }

  lemma TasksShape(s: Relay, e: Event)
    ensures TasksStep(s, e, Next(s, e))
  {
    if !Enabled(s, e) {
    } else if e.Start? || e.PostFails? || e.LogPostError? || e.PostSucceeds? || e.PromptReturns? {
      EarlyTasks(s, e);
    } else if e.SelectCli? || e.SelectSlack? {
      SelectTasks(s, e);
    } else if e.FinalizeByCli? || e.LogDecision? || e.Deliver? {
      LateTasks(s, e);
    } else {
      match e {
        case Register(t) => RegisterTasks(s, t);
        case TakeTs(t) => TakeTsTasks(s, t);
        case SendPress(i) => SendTasks(s, i);
        case _ => OtherTasks(s, e);
      }
    }
  }

  lemma EarlyTasks(s: Relay, e: Event)
    requires Enabled(s, e) && (e.Start? || e.PostFails? || e.LogPostError? || e.PostSucceeds? || e.PromptReturns?)
    ensures TasksStep(s, e, Next(s, e))
  {}

  lemma SelectTasks(s: Relay, e: Event)
    requires Enabled(s, e) && (e.SelectCli? || e.SelectSlack?)
    ensures TasksStep(s, e, Next(s, e))
  {}

  lemma LateTasks(s: Relay, e: Event)
    requires Enabled(s, e) && (e.FinalizeByCli? || e.LogDecision? || e.Deliver?)
    ensures TasksStep(s, e, Next(s, e))
  {}

  lemma RegisterTasks(s: Relay, t: nat)
    requires Enabled(s, Register(t))
    ensures TasksStep(s, Register(t), Next(s, Register(t)))
  {}

  lemma TakeTsTasks(s: Relay, t: nat)
    requires Enabled(s, TakeTs(t))
    ensures TasksStep(s, TakeTs(t), Next(s, TakeTs(t)))
  {
    if s.tasks[t].req.requestId in s.pending {
      TakenTasks(s, t, s.pending[s.tasks[t].req.requestId]);
    }
  }

  lemma TakenTasks(s: Relay, t: nat, entry: Pending)
    requires Enabled(s, TakeTs(t))
    ensures var d := s.tasks[t].phase.decision;
      var phase := if entry.channelTs.Some? then Finalizing(d, entry, entry.channelTs.value) else Decided(d);
      TasksStep(s, TakeTs(t), s.(tasks := DropSender(s.tasks[t := s.tasks[t].(phase := phase)], entry.owner)))
  {}

  lemma SendTasks(s: Relay, i: nat)
    requires Enabled(s, SendPress(i))
    ensures TasksStep(s, SendPress(i), Next(s, SendPress(i)))
  {}

  lemma OtherTasks(s: Relay, e: Event)
    requires Enabled(s, e) && (e.Receive? || e.Button? || e.AuditPress? || e.FinalizePress?)
    ensures TasksStep(s, e, Next(s, e))
  {}

  // ---------------------------------------------------------------- callbacks

  /** How one step may move the stage of callback `i`. */
  predicate StageMoves(e: Event, i: nat, a: Stage, b: Stage) {
    || b == a
    || (a.Claimed? && b.Audited? && e == AuditPress(i))
    || (a.Audited? && b.Finalized? && e.FinalizePress? && e.i == i)
    || (a.Finalized? && b.Sent? && e == SendPress(i))
  }

  predicate PressStep(e: Event, i: nat, a: Press, b: Press) {
    b == a.(stage := b.stage) && StageMoves(e, i, a.stage, b.stage)
  }

  ghost predicate PressesStep(s: Relay, e: Event, s': Relay) {
    && |s.presses| <= |s'.presses|
    && (forall i | 0 <= i < |s.presses| :: PressStep(e, i, s.presses[i], s'.presses[i]))
    && (|s.presses| < |s'.presses| ==>
          && e.Button? && Enabled(s, e) && |s'.presses| == |s.presses| + 1
          && s'.presses[|s.presses|] == Press(s.pending[e.id], e.id, e.action, e.userId, e.messageTs, e.now, Claimed))
  }

  lemma PressesShape(s: Relay, e: Event)
    ensures PressesStep(s, e, Next(s, e))
  {
    if Enabled(s, e) && e.Button? {
      ButtonPresses(s, e);
    } else if Enabled(s, e) && (e.AuditPress? || e.FinalizePress? || e.SendPress?) {
      StagePresses(s, e);
    } else {
      PressesRest(s, e);
    }
  }

  lemma ButtonPresses(s: Relay, e: Event)
    requires Enabled(s, e) && e.Button?
    ensures PressesStep(s, e, Next(s, e))
  {}

  lemma StagePresses(s: Relay, e: Event)
    requires Enabled(s, e) && (e.AuditPress? || e.FinalizePress? || e.SendPress?)
    ensures PressesStep(s, e, Next(s, e))
  {
    assert Next(s, e).presses == s.presses[e.i := Next(s, e).presses[e.i]];
  }

  lemma PressesRest(s: Relay, e: Event)
    requires !(Enabled(s, e) && (e.Button? || e.AuditPress? || e.FinalizePress? || e.SendPress?))
    ensures Next(s, e).presses == s.presses
  {}

  // ---------------------------------------------------------------- histories

  /** Who a step records as the remover of an entry. */
  predicate IsNewRemoval(s: Relay, e: Event, r: Removal) {
    && Enabled(s, e)
    && match e
       case Register(t) =>
         var id := s.tasks[t].req.requestId; id in s.pending && r == Removal(s.pending[id].owner, ByOverwrite(t))
       case TakeTs(t) =>
         var id := s.tasks[t].req.requestId; id in s.pending && r == Removal(s.pending[id].owner, ByCli(t))
       case Button(id, _, _, _, _) => r == Removal(s.pending[id].owner, ByPress(|s.presses|))
       case _ => false
  }

  /** Histories only grow; removals by one entry at a time. */
  ghost predicate RecordsStep(s: Relay, e: Event, s': Relay) {
    && s.updates <= s'.updates && s.audit <= s'.audit && s.deliveries <= s'.deliveries
    && (s'.removals == s.removals
        || (|s'.removals| == |s.removals| + 1 && s.removals <= s'.removals
            && IsNewRemoval(s, e, s'.removals[|s.removals|])))
  }

  lemma RecordsShape(s: Relay, e: Event)
    ensures RecordsStep(s, e, Next(s, e))
  {
    if Enabled(s, e) && (e.Register? || e.TakeTs? || e.Button?) {
      RemovalRecords(s, e);
    } else {
      OtherRecords(s, e);
    }
  }

  lemma RemovalRecords(s: Relay, e: Event)
    requires Enabled(s, e) && (e.Register? || e.TakeTs? || e.Button?)
    ensures RecordsStep(s, e, Next(s, e))
  {}

  lemma OtherRecords(s: Relay, e: Event)
    requires !(Enabled(s, e) && (e.Register? || e.TakeTs? || e.Button?))
    ensures RecordsStep(s, e, Next(s, e))
  {}
}
