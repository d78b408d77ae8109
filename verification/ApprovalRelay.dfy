/**
 The running relay: the state that its tasks share, and one method for each stretch of code
 between two suspension points. Each method is proved to make exactly the step of the protocol.
 */
module ApprovalRelay {
  import opened Text
  import opened ApprovalTypes
  import opened ApprovalProtocol
  import opened ApprovalSafety
  import opened ApprovalRuns
  import opened ApprovalRecords

  class RelayRuntime {
    const slackOn: bool
    const user: string
    var tasks: seq<Task>
    var pending: map<Uuid, Pending>
    var presses: seq<Press>
    var audit: seq<AuditEvent>
    var removals: seq<Removal>
    var updates: seq<Update>
    var deliveries: seq<Delivery>

    ghost function View(): Relay
      reads this
    {
      Relay(slackOn, user, tasks, pending, presses, audit, removals, updates, deliveries)
    }

    constructor (slackOn: bool, user: string)
      ensures View() == Initial(slackOn, user)
    {
      this.slackOn, this.user := slackOn, user;
      tasks, pending, presses, audit, removals, updates, deliveries := [], map[], [], [], [], [], [];
    }

    method Append(event: AuditEvent)
      modifies this`audit
      ensures audit == old(audit) + [event]
    {
      audit := audit + [event];
    }

    /** `run` receives a request and spawns `handle_one`. */
    method Spawn(req: ApprovalRequest)
      modifies this
      ensures View() == Next(old(View()), Receive(req))
    {
      tasks := tasks + [NewTask(req)];
    }

    /** `handle_one` logs the request and starts the prompt and, with Slack on, the post. */
    method HandleOne(t: nat)
      requires Enabled(View(), Start(t))
      modifies this
      ensures View() == Next(old(View()), Start(t))
    {
      Append(RequestCreated(tasks[t].req.requestId));
      tasks := tasks[t := tasks[t].(phase := Waiting, post := if slackOn then Posting else NotPosted)];
    }

    /** `post_request` hears back from Slack. */
    method PostReturns(t: nat, ts: Option<string>)
      requires Enabled(View(), PostFails(t))
      modifies this
      ensures View() == Next(old(View()), if ts.Some? then PostSucceeds(t, ts.value) else PostFails(t))
    {
      match ts {
        case None =>
          tasks := tasks[t := tasks[t].(post := PostRejected(false), slot := SenderGone)];
        case Some(value) =>
          Append(SlackPosted(tasks[t].req.requestId, value));
          tasks := tasks[t := tasks[t].(post := PostAccepted(value))];
      }
    }

    method LogSlackPostFailed(t: nat)
      requires Enabled(View(), LogPostError(t))
      modifies this
      ensures View() == Next(old(View()), LogPostError(t))
    {
      tasks := tasks[t := tasks[t].(post := PostRejected(true))];
      Append(ErrorLogged(tasks[t].req.requestId));
    }

    /** The sender of task `owner` goes out of scope. */
    method CloseChannel(owner: nat)
      modifies this`tasks
      ensures tasks == DropSender(old(tasks), owner)
    {
      if owner < |tasks| && tasks[owner].slot.Open? {
        tasks := tasks[owner := tasks[owner].(slot := SenderGone)];
      }
    }

    /** `post_request` inserts its entry; the map hands back the entry it replaces, which is dropped. */
    method InsertPending(t: nat)
      requires Enabled(View(), Register(t))
      modifies this
      ensures View() == Next(old(View()), Register(t))
    {
      var task := tasks[t];
      var id, ts := task.req.requestId, task.post.ts;
      tasks := tasks[t := task.(post := Registered(ts))];
      if id in pending {
        var replaced := pending[id];
        CloseChannel(replaced.owner);
        removals := removals + [Removal(replaced.owner, ByOverwrite(t))];
      }
      pending := pending[id := Pending(t, task.req, Some(ts))];
    }

    /** `handle_callback` up to its first suspension point. A callback for an unknown id changes nothing. */
    method HandleCallback(id: Uuid, action: string, userId: string, messageTs: string, now: Time) returns (known: bool)
      modifies this
      ensures known <==> id in old(pending)
      ensures View() == Next(old(View()), Button(id, action, userId, messageTs, now))
      ensures !known ==> View() == old(View())
    {
      known := id in pending;
      if known {
        var entry := pending[id];
        pending := pending - {id};
        removals := removals + [Removal(entry.owner, ByPress(|presses|))];
        presses := presses + [Press(entry, id, action, userId, messageTs, now, Claimed)];
      }
    }

    method LogPressDecision(i: nat)
      requires Enabled(View(), AuditPress(i))
      modifies this
      ensures View() == Next(old(View()), AuditPress(i))
    {
      Append(DecisionMade(PressDecision(presses[i])));
      presses := presses[i := presses[i].(stage := Audited)];
    }

    /** `finalize_resolution`: does nothing without a message timestamp. */
    method FinalizeResolution(owner: nat, request: ApprovalRequest, outcome: Outcome,
                              channelTs: Option<string>, remover: Remover, ok: bool)
      modifies this`updates, this`audit
      ensures updates == if channelTs.Some? then old(updates) + [Update(owner, outcome, remover)] else old(updates)
      ensures audit ==
        if channelTs.Some? then old(audit) + [FinalizeAudit(request.requestId, outcome, ok)] else old(audit)
    {
      if channelTs.Some? {
        updates := updates + [Update(owner, outcome, remover)];
        Append(FinalizeAudit(request.requestId, outcome, ok));
      }
    }

    method FinalizeFromPress(i: nat, ok: bool)
      requires Enabled(View(), FinalizePress(i, ok))
      modifies this
      ensures View() == Next(old(View()), FinalizePress(i, ok))
    {
      var p := presses[i];
      presses := presses[i := p.(stage := Finalized)];
      FinalizeResolution(p.entry.owner, p.entry.request, PressDecision(p).outcome, p.entry.channelTs, ByPress(i), ok);
    }

    /** `respond.send`: the value is lost when the receiver is gone. */
    method SendFromPress(i: nat)
      requires Enabled(View(), SendPress(i))
      modifies this
      ensures View() == Next(old(View()), SendPress(i))
    {
      var p := presses[i];
      var owner := p.entry.owner;
      presses := presses[i := p.(stage := Sent)];
      if owner < |tasks| {
        var slot := if tasks[owner].listening then Carrying(PressDecision(p)) else SenderGone;
        tasks := tasks[owner := tasks[owner].(slot := slot)];
      }
    }

    method PromptDone(t: nat, result: CliResult)
      requires Enabled(View(), PromptReturns(t, result))
      modifies this
      ensures View() == Next(old(View()), PromptReturns(t, result))
    {
      tasks := tasks[t := tasks[t].(prompt := Finished(result))];
    }

    /** `select!` takes the terminal branch, or a terminal-only request gets its answer. */
    method CliBranchWins(t: nat, now: Time)
      requires Enabled(View(), SelectCli(t, now))
      modifies this
      ensures View() == Next(old(View()), SelectCli(t, now))
    {
      var task := tasks[t];
      var d := CliDecision(task.req, user, slackOn, task.prompt.result, now);
      var phase := if slackOn then CliWon(d) else Decided(d);
      tasks := tasks[t := task.(phase := phase, winner := CliBranch, listening := false)];
    }

    /** `select!` takes the Slack branch. */
    method SlackBranchWins(t: nat, now: Time)
      requires Enabled(View(), SelectSlack(t, now))
      modifies this
      ensures View() == Next(old(View()), SelectSlack(t, now))
    {
      var task := tasks[t];
      var d := SystemDenial(task.req.requestId, "Slack channel closed", now);
      if task.slot.Carrying? {
        d := task.slot.decision;
      }
      tasks := tasks[t := task.(phase := Decided(d), winner := SlackBranch, listening := false)];
    }

    /** `take_channel_ts` of the terminal branch. */
    method TakeChannelTs(t: nat)
      requires Enabled(View(), TakeTs(t))
      modifies this
      ensures View() == Next(old(View()), TakeTs(t))
    {
      var task := tasks[t];
      var id, d := task.req.requestId, task.phase.decision;
      if id in pending {
        var entry := pending[id];
        pending := pending - {id};
        var phase := if entry.channelTs.Some? then Finalizing(d, entry, entry.channelTs.value) else Decided(d);
        tasks := tasks[t := task.(phase := phase)];
        CloseChannel(entry.owner);
        removals := removals + [Removal(entry.owner, ByCli(t))];
      } else {
        tasks := tasks[t := task.(phase := Decided(d))];
      }
    }

    method FinalizeFromCli(t: nat, ok: bool)
      requires Enabled(View(), FinalizeByCli(t, ok))
      modifies this
      ensures View() == Next(old(View()), FinalizeByCli(t, ok))
    {
      var d, taken, ts := tasks[t].phase.decision, tasks[t].phase.taken, tasks[t].phase.ts;
      tasks := tasks[t := tasks[t].(phase := Decided(d))];
      FinalizeResolution(taken.owner, taken.request, d.outcome, Some(ts), ByCli(t), ok);
    }

    method LogFinalDecision(t: nat)
      requires Enabled(View(), LogDecision(t))
      modifies this
      ensures View() == Next(old(View()), LogDecision(t))
    {
      var d := tasks[t].phase.decision;
      Append(DecisionMade(d));
      tasks := tasks[t := tasks[t].(phase := Logged(d))];
    }

    method Respond(t: nat)
      requires Enabled(View(), Deliver(t))
      modifies this
      ensures View() == Next(old(View()), Deliver(t))
    {
      var d := tasks[t].phase.decision;
      tasks := tasks[t := tasks[t].(phase := Done(d))];
      deliveries := deliveries + [Delivery(t, d)];
    }

    /** A callback's turn. */
    method StepCallback(e: Event)
      requires e.Button? || e.AuditPress? || e.FinalizePress? || e.SendPress?
      modifies this
      ensures View() == Next(old(View()), e)
    {
      match e
      case Button(id, action, userId, messageTs, now) => var _ := HandleCallback(id, action, userId, messageTs, now);
      case AuditPress(i) => if i < |presses| && presses[i].stage.Claimed? { LogPressDecision(i); }
      case FinalizePress(i, ok) => if i < |presses| && presses[i].stage.Audited? { FinalizeFromPress(i, ok); }
      case SendPress(i) => if i < |presses| && presses[i].stage.Finalized? { SendFromPress(i); }
    }

    /** The turn of a spawned post. */
    method StepPost(e: Event)
      requires e.PostFails? || e.PostSucceeds? || e.LogPostError? || e.Register?
      modifies this
      ensures View() == Next(old(View()), e)
    {
      match e
      case PostFails(t) => if t < |tasks| && tasks[t].post.Posting? { PostReturns(t, None); }
      case PostSucceeds(t, ts) => if t < |tasks| && tasks[t].post.Posting? { PostReturns(t, Some(ts)); }
      case LogPostError(t) => if t < |tasks| && tasks[t].post == PostRejected(false) { LogSlackPostFailed(t); }
      case Register(t) => if t < |tasks| && tasks[t].post.PostAccepted? { InsertPending(t); }
    }

    /** The turn of a request's own task or its prompt. */
    method StepTask(e: Event)
      requires !e.Button? && !e.AuditPress? && !e.FinalizePress? && !e.SendPress?
      requires !e.PostFails? && !e.PostSucceeds? && !e.LogPostError? && !e.Register?
      modifies this
      ensures View() == Next(old(View()), e)
    {
      match e
      case Receive(req) => Spawn(req);
      case Start(t) => if t < |tasks| && tasks[t].phase.Received? { HandleOne(t); }
      case PromptReturns(t, result) =>
        if t < |tasks| && !tasks[t].phase.Received? && tasks[t].prompt.Prompting? { PromptDone(t, result); }
      case SelectCli(t, now) =>
        if t < |tasks| && tasks[t].phase.Waiting? && tasks[t].prompt.Finished? { CliBranchWins(t, now); }
      case SelectSlack(t, now) =>
        if slackOn && t < |tasks| && tasks[t].phase.Waiting? && !tasks[t].slot.Open? { SlackBranchWins(t, now); }
      case TakeTs(t) => if t < |tasks| && tasks[t].phase.CliWon? { TakeChannelTs(t); }
      case FinalizeByCli(t, ok) => if t < |tasks| && tasks[t].phase.Finalizing? { FinalizeFromCli(t, ok); }
      case LogDecision(t) => if t < |tasks| && tasks[t].phase.Decided? { LogFinalDecision(t); }
      case Deliver(t) => if t < |tasks| && tasks[t].phase.Logged? { Respond(t); }
    }

    /** The scheduler gives one event its turn, if it can run. */
    method Step(e: Event)
      modifies this
      ensures View() == Next(old(View()), e)
    {
      if e.Button? || e.AuditPress? || e.FinalizePress? || e.SendPress? {
        StepCallback(e);
      } else if e.PostFails? || e.PostSucceeds? || e.LogPostError? || e.Register? {
        StepPost(e);
      } else {
        StepTask(e);
      }
    }
  }

  /** A whole run under an arbitrary schedule. Whatever it delivers as approved, a human approved; each finished
      request is answered once, an unfinished one never; each entry is in the map or was taken out once; and every
      message whose entry was taken is rewritten and everything is logged. */
  method RunSchedule(slackOn: bool, user: string, schedule: seq<Event>) returns (relay: RelayRuntime)
    ensures fresh(relay) && relay.View() == Exec(Initial(slackOn, user), schedule) && Good(relay.View())
    ensures Recorded(relay.View())
    ensures forall n | 0 <= n < |relay.deliveries| && relay.deliveries[n].decision.outcome == Approve ::
      HasHumanCause(Initial(slackOn, user), schedule, relay.deliveries[n].task)
    ensures forall t | 0 <= t < |relay.tasks| ::
      DeliveryCount(relay.deliveries, t) == if relay.tasks[t].phase.Done? then 1 else 0
    ensures forall t | 0 <= t < |relay.tasks| && relay.tasks[t].post.Registered? ::
      ConsumedOnce(relay.View(), t)
  {
    relay := new RelayRuntime(slackOn, user);
    for i := 0 to |schedule|
      invariant relay.View() == Exec(Initial(slackOn, user), schedule[..i])
    {
      assert schedule[..i + 1] == schedule[..i] + [schedule[i]];
      ExecSnoc(Initial(slackOn, user), schedule[..i], schedule[i]);
      relay.Step(schedule[i]);
    }
    assert schedule[..|schedule|] == schedule;
    RunIsGood(slackOn, user, schedule, relay.View());
  }

  /** What the theorems about runs say of the state `s` that a schedule ends in. */
  lemma RunIsGood(slackOn: bool, user: string, schedule: seq<Event>, s: Relay)
    requires s == Exec(Initial(slackOn, user), schedule)
    ensures Good(s) && Recorded(s)
    ensures forall n | 0 <= n < |s.deliveries| && s.deliveries[n].decision.outcome == Approve ::
      HasHumanCause(Initial(slackOn, user), schedule, s.deliveries[n].task)
    ensures forall t | 0 <= t < |s.tasks| :: DeliveryCount(s.deliveries, t) == if s.tasks[t].phase.Done? then 1 else 0
    ensures forall t | 0 <= t < |s.tasks| && s.tasks[t].post.Registered? :: ConsumedOnce(s, t)
  {
    RunGood(slackOn, user, schedule);
    RunRecorded(slackOn, user, schedule);
    forall n | 0 <= n < |s.deliveries| && s.deliveries[n].decision.outcome == Approve
      ensures HasHumanCause(Initial(slackOn, user), schedule, s.deliveries[n].task)
    {
      ApprovalsHaveAHumanCause(slackOn, user, schedule, n);
    }
    forall t | 0 <= t < |s.tasks|
      ensures DeliveryCount(s.deliveries, t) == if s.tasks[t].phase.Done? then 1 else 0
    {
      ExactlyOneDelivery(slackOn, user, schedule, t);
    }
    forall t | 0 <= t < |s.tasks| && s.tasks[t].post.Registered? ensures ConsumedOnce(s, t) {
      EntriesAreConsumedOnce(slackOn, user, schedule, t);
    }
  }
}
