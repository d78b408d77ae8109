/**
 The approval relay as a state machine. One event is one stretch of code between two
 suspension points of one of the concurrent tasks, so an event list is an interleaving.
 An event that is not enabled leaves the state alone; every event list is thus a run.
 */
module ApprovalProtocol {
  import opened Text
  import opened ApprovalTypes

  /** The blocking terminal prompt of one request. */
  datatype Prompt = Prompting | Finished(result: CliResult)

  /** The spawned task that posts one request to Slack. */
  datatype Post =
    | NotPosted
    | Posting
    | PostRejected(errorLogged: bool)
    | PostAccepted(ts: string)
    | Registered(ts: string)

  /** The one-shot channel from Slack to one waiting request. */
  datatype Slot = Open | Carrying(decision: ApprovalDecision) | SenderGone

  /** Which branch of the race was taken. */
  datatype Winner = Undecided | CliBranch | SlackBranch

  datatype Phase =
    | Received
    | Waiting
    | CliWon(decision: ApprovalDecision)
    | Finalizing(decision: ApprovalDecision, taken: Pending, ts: string)
    | Decided(decision: ApprovalDecision)
    | Logged(decision: ApprovalDecision)
    | Done(decision: ApprovalDecision)
  {
    predicate HasDecision() { !Received? && !Waiting? }
  }

  /** One call of `handle_one`. `listening` says that the channel's receiver still exists. */
  datatype Task = Task(
    req: ApprovalRequest, phase: Phase, winner: Winner,
    prompt: Prompt, post: Post, slot: Slot, listening: bool)

  /** An entry of the pending map; `owner` is the task whose channel the stored sender feeds. */
  datatype Pending = Pending(owner: nat, request: ApprovalRequest, channelTs: Option<string>)

  datatype Stage = Claimed | Audited | Finalized | Sent

  /** A button callback that found its entry. */
  datatype Press = Press(
    entry: Pending, id: Uuid, action: string, userId: string, messageTs: string, now: Time, stage: Stage)

  /** Who took an entry out of the pending map. */
  datatype Remover = ByPress(press: nat) | ByCli(task: nat) | ByOverwrite(task: nat)

  datatype Removal = Removal(owner: nat, remover: Remover)

  /** An attempt to rewrite the Slack message of task `owner`. */
  datatype Update = Update(owner: nat, outcome: Outcome, remover: Remover)

  datatype Delivery = Delivery(task: nat, decision: ApprovalDecision)

  datatype AuditEvent =
    | RequestCreated(requestId: Uuid)
    | SlackPosted(requestId: Uuid, ts: string)
    | DecisionMade(decision: ApprovalDecision)
    | SlackFinalized(requestId: Uuid, outcome: Outcome)
    | ErrorLogged(requestId: Uuid)

  /** The shared state, with the histories of removals, message updates and deliveries. */
  datatype Relay = Relay(
    slackOn: bool, user: string,
    tasks: seq<Task>, pending: map<Uuid, Pending>, presses: seq<Press>,
    audit: seq<AuditEvent>, removals: seq<Removal>, updates: seq<Update>, deliveries: seq<Delivery>)

  datatype Event =
    | Receive(req: ApprovalRequest)
    | Start(t: nat)
    | PostFails(t: nat)
    | LogPostError(t: nat)
    | PostSucceeds(t: nat, ts: string)
    | Register(t: nat)
    | PromptReturns(t: nat, result: CliResult)
    | SelectCli(t: nat, now: Time)
    | TakeTs(t: nat)
    | FinalizeByCli(t: nat, ok: bool)
    | SelectSlack(t: nat, now: Time)
    | LogDecision(t: nat)
    | Deliver(t: nat)
    | Button(id: Uuid, action: string, userId: string, messageTs: string, now: Time)
    | AuditPress(i: nat)
    | FinalizePress(i: nat, ok: bool)
    | SendPress(i: nat)

  function Initial(slackOn: bool, user: string): Relay {
    Relay(slackOn, user, [], map[], [], [], [], [], [])
  }

  function NewTask(req: ApprovalRequest): Task {
    Task(req, Received, Undecided, Prompting, NotPosted, Open, true)
  }

  function SystemDenial(id: Uuid, reason: string, now: Time): ApprovalDecision {
    ApprovalDecision(id, Deny, System, Some(reason), now)
  }

  /** The decision of the terminal branch. */
  function CliDecision(req: ApprovalRequest, user: string, slackOn: bool, result: CliResult, now: Time)
    : (d: ApprovalDecision)
    ensures d.requestId == req.requestId && !d.approver.Slack? && d.outcome != Expired
  {
    match result
    case Answered(read, at) => PromptSync(req, user, read, at)
    case Panicked =>
      SystemDenial(req.requestId, if slackOn then "CLI prompt panicked" else "prompt task panicked", now)
  }

  /** The decision a button callback makes for the entry it removed. */
  function PressDecision(p: Press): (d: ApprovalDecision)
    ensures d.requestId == p.id && d.approver == Slack(p.userId, p.messageTs) && d.decidedAt == p.now
    ensures d.outcome == Expired <==> p.now > p.entry.request.expiresAt
    ensures d.outcome == Approve <==> p.now <= p.entry.request.expiresAt && p.action == "approve"
    ensures d.reason.Some? <==> d.outcome == Expired
  {
    var approver := Slack(p.userId, p.messageTs);
    if p.now > p.entry.request.expiresAt then
      ApprovalDecision(p.id, Expired, approver, Some("decision arrived after expires_at"), p.now)
    else
      ApprovalDecision(p.id, if p.action == "approve" then Approve else Deny, approver, None, p.now)
  }

  function SetTask(s: Relay, t: nat, task: Task): Relay
    requires t < |s.tasks|
  {
    s.(tasks := s.tasks[t := task])
  }

  function Note(s: Relay, e: AuditEvent): Relay {
    s.(audit := s.audit + [e])
  }

  /** Dropping a sender that has not been used closes its channel. */
  function DropSender(tasks: seq<Task>, t: nat): (r: seq<Task>)
    ensures |r| == |tasks|
  {
    if t < |tasks| && tasks[t].slot.Open? then tasks[t := tasks[t].(slot := SenderGone)] else tasks
  }

  /** Whether the code stretch of `e` can run now. */
  predicate Enabled(s: Relay, e: Event) {
    match e
    case Receive(_) => true
    case Start(t) => t < |s.tasks| && s.tasks[t].phase.Received?
    case PostFails(t) => t < |s.tasks| && s.tasks[t].post.Posting?
    case LogPostError(t) => t < |s.tasks| && s.tasks[t].post == PostRejected(false)
    case PostSucceeds(t, _) => t < |s.tasks| && s.tasks[t].post.Posting?
    case Register(t) => t < |s.tasks| && s.tasks[t].post.PostAccepted?
    case PromptReturns(t, _) => t < |s.tasks| && !s.tasks[t].phase.Received? && s.tasks[t].prompt.Prompting?
    case SelectCli(t, _) => t < |s.tasks| && s.tasks[t].phase.Waiting? && s.tasks[t].prompt.Finished?
    case TakeTs(t) => t < |s.tasks| && s.tasks[t].phase.CliWon?
    case FinalizeByCli(t, _) => t < |s.tasks| && s.tasks[t].phase.Finalizing?
    case SelectSlack(t, _) => s.slackOn && t < |s.tasks| && s.tasks[t].phase.Waiting? && !s.tasks[t].slot.Open?
    case LogDecision(t) => t < |s.tasks| && s.tasks[t].phase.Decided?
    case Deliver(t) => t < |s.tasks| && s.tasks[t].phase.Logged?
    case Button(id, _, _, _, _) => id in s.pending
    case AuditPress(i) => i < |s.presses| && s.presses[i].stage.Claimed?
    case FinalizePress(i, _) => i < |s.presses| && s.presses[i].stage.Audited?
    case SendPress(i) => i < |s.presses| && s.presses[i].stage.Finalized?
  }

  /** `post_request` stores its entry; an entry under the same id is replaced and its sender dropped. */
  function RegisterStep(s: Relay, t: nat): Relay
    requires Enabled(s, Register(t))
  {
    var task := s.tasks[t];
    var id := task.req.requestId;
    var entry := Pending(t, task.req, Some(task.post.ts));
    var tasks := s.tasks[t := task.(post := Registered(task.post.ts))];
    if id in s.pending then
      s.(tasks := DropSender(tasks, s.pending[id].owner),
         removals := s.removals + [Removal(s.pending[id].owner, ByOverwrite(t))],
         pending := s.pending[id := entry])
    else
      s.(tasks := tasks, pending := s.pending[id := entry])
  }

  /** The terminal branch calls `take_channel_ts`; the removed entry's sender is dropped with it. */
  function TakeTsStep(s: Relay, t: nat): Relay
    requires Enabled(s, TakeTs(t))
  {
    var task := s.tasks[t];
    var id := task.req.requestId;
    var d := task.phase.decision;
    if id !in s.pending then SetTask(s, t, task.(phase := Decided(d)))
    else
      var entry := s.pending[id];
      var phase := if entry.channelTs.Some? then Finalizing(d, entry, entry.channelTs.value) else Decided(d);
      s.(tasks := DropSender(s.tasks[t := task.(phase := phase)], entry.owner),
         pending := s.pending - {id},
         removals := s.removals + [Removal(entry.owner, ByCli(t))])
  }

  /** The winning branch fixes the decision and drops the other future. */
  function SelectStep(s: Relay, t: nat, winner: Winner, now: Time): Relay
    requires winner == CliBranch ==> Enabled(s, SelectCli(t, now))
    requires winner != CliBranch ==> Enabled(s, SelectSlack(t, now))
  {
    var task := s.tasks[t];
    if winner == CliBranch then
      var d := CliDecision(task.req, s.user, s.slackOn, task.prompt.result, now);
      var phase := if s.slackOn then CliWon(d) else Decided(d);
      SetTask(s, t, task.(phase := phase, winner := CliBranch, listening := false))
    else
      var d := if task.slot.Carrying? then task.slot.decision
               else SystemDenial(task.req.requestId, "Slack channel closed", now);
      SetTask(s, t, task.(phase := Decided(d), winner := SlackBranch, listening := false))
  }

  function FinalizeAudit(id: Uuid, outcome: Outcome, ok: bool): AuditEvent {
    if ok then SlackFinalized(id, outcome) else ErrorLogged(id)
  }

  function FinalizePressStep(s: Relay, i: nat, ok: bool): Relay
    requires Enabled(s, FinalizePress(i, ok))
  {
    var p := s.presses[i];
    var s' := s.(presses := s.presses[i := p.(stage := Finalized)]);
    if p.entry.channelTs.None? then s'
    else
      var outcome := PressDecision(p).outcome;
      Note(s'.(updates := s.updates + [Update(p.entry.owner, outcome, ByPress(i))]),
           FinalizeAudit(p.entry.request.requestId, outcome, ok))
  }

  function SendPressStep(s: Relay, i: nat): Relay
    requires Enabled(s, SendPress(i))
  {
    var p := s.presses[i];
    var owner := p.entry.owner;
    var s' := s.(presses := s.presses[i := p.(stage := Sent)]);
    if owner < |s.tasks| then
      var slot := if s.tasks[owner].listening then Carrying(PressDecision(p)) else SenderGone;
      SetTask(s', owner, s.tasks[owner].(slot := slot))
    else s'
  }

  /** One step of the relay. */
  function Next(s: Relay, e: Event): Relay {
    if !Enabled(s, e) then s else
    match e
    case Receive(req) => s.(tasks := s.tasks + [NewTask(req)])
    case Start(t) =>
      var post := if s.slackOn then Posting else NotPosted;
      Note(SetTask(s, t, s.tasks[t].(phase := Waiting, post := post)), RequestCreated(s.tasks[t].req.requestId))
    case PostFails(t) => SetTask(s, t, s.tasks[t].(post := PostRejected(false), slot := SenderGone))
    case LogPostError(t) =>
      Note(SetTask(s, t, s.tasks[t].(post := PostRejected(true))), ErrorLogged(s.tasks[t].req.requestId))
    case PostSucceeds(t, ts) =>
      Note(SetTask(s, t, s.tasks[t].(post := PostAccepted(ts))), SlackPosted(s.tasks[t].req.requestId, ts))
    case Register(t) => RegisterStep(s, t)
    case PromptReturns(t, result) => SetTask(s, t, s.tasks[t].(prompt := Finished(result)))
    case SelectCli(t, now) => SelectStep(s, t, CliBranch, now)
    case TakeTs(t) => TakeTsStep(s, t)
    case FinalizeByCli(t, ok) =>
      var Finalizing(d, taken, _) := s.tasks[t].phase;
      Note(SetTask(s, t, s.tasks[t].(phase := Decided(d)))
             .(updates := s.updates + [Update(taken.owner, d.outcome, ByCli(t))]),
           FinalizeAudit(taken.request.requestId, d.outcome, ok))
    case SelectSlack(t, now) => SelectStep(s, t, SlackBranch, now)
    case LogDecision(t) =>
      var d := s.tasks[t].phase.decision;
      Note(SetTask(s, t, s.tasks[t].(phase := Logged(d))), DecisionMade(d))
    case Deliver(t) =>
      var d := s.tasks[t].phase.decision;
      SetTask(s, t, s.tasks[t].(phase := Done(d))).(deliveries := s.deliveries + [Delivery(t, d)])
    case Button(id, action, userId, messageTs, now) =>
      s.(pending := s.pending - {id},
         presses := s.presses + [Press(s.pending[id], id, action, userId, messageTs, now, Claimed)],
         removals := s.removals + [Removal(s.pending[id].owner, ByPress(|s.presses|))])
    case AuditPress(i) =>
      Note(s.(presses := s.presses[i := s.presses[i].(stage := Audited)]), DecisionMade(PressDecision(s.presses[i])))
    case FinalizePress(i, ok) => FinalizePressStep(s, i, ok)
    case SendPress(i) => SendPressStep(s, i)
  }

  /** The state after a run. */
  function Exec(s: Relay, trace: seq<Event>): Relay {
    if trace == [] then s else Next(Exec(s, trace[..|trace| - 1]), trace[|trace| - 1])
  }

  /** The event at position `k` of a run really happened. */
  ghost predicate Fired(s: Relay, trace: seq<Event>, k: nat)
    requires k < |trace|
  {
    Enabled(Exec(s, trace[..k]), trace[k])
  }

  lemma {:induction false} ExecConcat(s: Relay, a: seq<Event>, b: seq<Event>)
    ensures Exec(s, a + b) == Exec(Exec(s, a), b)
  {
    if b == [] {
      assert a + b == a;
    } else {
      ExecConcat(s, a, b[..|b| - 1]);
      assert (a + b)[..|a + b| - 1] == a + b[..|b| - 1];
    }
  }

  lemma ExecSnoc(s: Relay, trace: seq<Event>, e: Event)
    ensures Exec(s, trace + [e]) == Next(Exec(s, trace), e)
  {
    assert (trace + [e])[..|trace|] == trace;
  }
}
