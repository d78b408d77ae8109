/** What the relay owes to its records: every message whose entry is taken is rewritten, and everything is logged. */
module ApprovalRecords {
  import opened Text
  import opened ApprovalTypes
  import opened ApprovalProtocol
  import opened ApprovalSteps
  import opened ApprovalSafety
  import opened ApprovalRace
  import opened ApprovalRuns

  // ---------------------------------------------------------------- the audit log, both ways

  predicate Started(task: Task) {
    !task.phase.Received?
  }

  predicate PostedAs(task: Task, ts: string) {
    task.post == PostAccepted(ts) || task.post == Registered(ts)
  }

  /** The log holds what has happened to task `t`. */
  predicate TaskLogged(s: Relay, t: nat)
    requires t < |s.tasks|
  {
    var task := s.tasks[t];
    var id := task.req.requestId;
    && (Started(task) ==> RequestCreated(id) in s.audit)
    && (task.post == PostRejected(true) ==> ErrorLogged(id) in s.audit)
    && (task.post.PostAccepted? || task.post.Registered? ==> SlackPosted(id, task.post.ts) in s.audit)
    && (task.phase.Logged? || task.phase.Done? ==> DecisionMade(task.phase.decision) in s.audit)
  }

  predicate PressLogged(s: Relay, i: nat)
    requires i < |s.presses|
  {
    !s.presses[i].stage.Claimed? ==> DecisionMade(PressDecision(s.presses[i])) in s.audit
  }

  /** The log holds how rewriting the message went. */
  predicate UpdateLogged(s: Relay, u: Update) {
    && u.owner < |s.tasks|
    && var id := s.tasks[u.owner].req.requestId;
       SlackFinalized(id, u.outcome) in s.audit || ErrorLogged(id) in s.audit
  }

  ghost predicate AllLogged(s: Relay) {
    && (forall t | 0 <= t < |s.tasks| :: TaskLogged(s, t))
    && (forall i | 0 <= i < |s.presses| :: PressLogged(s, i))
    && (forall k | 0 <= k < |s.updates| :: UpdateLogged(s, s.updates[k]))
  }

  /** A step logs what it does to a task. */
  predicate TaskNoted(a: Task, b: Task, audit: seq<AuditEvent>) {
    var id := a.req.requestId;
    && b.req == a.req && (a.post.Registered? ==> b.post == a.post)
    && (Started(b) ==> Started(a) || RequestCreated(id) in audit)
    && (b.post == PostRejected(true) ==> a.post == PostRejected(true) || ErrorLogged(id) in audit)
    && (b.post.PostAccepted? || b.post.Registered? ==>
          PostedAs(a, b.post.ts) || SlackPosted(id, b.post.ts) in audit)
    && (b.phase.Logged? || b.phase.Done? ==>
          a.phase == Logged(b.phase.decision) || a.phase == Done(b.phase.decision)
          || DecisionMade(b.phase.decision) in audit)
  }

  ghost predicate TasksNoted(s: Relay, s': Relay) {
    && |s.tasks| <= |s'.tasks|
    && (forall t | 0 <= t < |s.tasks| :: TaskNoted(s.tasks[t], s'.tasks[t], s'.audit))
    && (forall t | |s.tasks| <= t < |s'.tasks| ::
          var b := s'.tasks[t]; b.phase.Received? && b.post.NotPosted?)
  }

  lemma NextTasksNoted(s: Relay, e: Event)
    requires SlotOk(s)
    ensures TasksNoted(s, Next(s, e))
  {
    if !Enabled(s, e) {
    } else if e.Start? || e.PostFails? || e.LogPostError? || e.PostSucceeds? || e.PromptReturns? {
      EarlyNoted(s, e);
    } else if e.SelectCli? || e.SelectSlack? {
      SelectNoted(s, e);
    } else if e.FinalizeByCli? || e.LogDecision? || e.Deliver? {
      LateNoted(s, e);
    } else if e.Register? {
      RegisterNoted(s, e.t);
    } else if e.TakeTs? {
      TakeTsNoted(s, e.t);
    } else if e.SendPress? {
      SendNoted(s, e.i);
    } else {
      OtherNoted(s, e);
    }
  }

  lemma SameNoted(a: Task, audit: seq<AuditEvent>)
    ensures TaskNoted(a, a, audit)
  {
    match a.post
    case PostAccepted(ts) => assert PostedAs(a, ts);
    case Registered(ts) => assert PostedAs(a, ts);
    case _ =>
  }

  lemma OneNoted(s: Relay, s': Relay, t: nat)
    requires t < |s.tasks| == |s'.tasks| && s'.tasks == s.tasks[t := s'.tasks[t]]
    requires TaskNoted(s.tasks[t], s'.tasks[t], s'.audit)
    ensures TasksNoted(s, s')
  {
    forall u | 0 <= u < |s.tasks| ensures TaskNoted(s.tasks[u], s'.tasks[u], s'.audit) {
      SameNoted(s.tasks[u], s'.audit);
    }
  }

  lemma EarlyNoted(s: Relay, e: Event)
    requires SlotOk(s) && Enabled(s, e)
    requires e.Start? || e.PostFails? || e.LogPostError? || e.PostSucceeds? || e.PromptReturns?
    ensures TasksNoted(s, Next(s, e))
  {
    SameNoted(s.tasks[e.t], Next(s, e).audit);
    EarlyTaskNoted(s, e);
    OneNoted(s, Next(s, e), e.t);
  }

  lemma EarlyTaskNoted(s: Relay, e: Event)
    requires SlotOk(s) && Enabled(s, e)
    requires e.Start? || e.PostFails? || e.LogPostError? || e.PostSucceeds? || e.PromptReturns?
    requires TaskNoted(s.tasks[e.t], s.tasks[e.t], Next(s, e).audit)
    ensures Next(s, e).tasks == s.tasks[e.t := Next(s, e).tasks[e.t]]
    ensures TaskNoted(s.tasks[e.t], Next(s, e).tasks[e.t], Next(s, e).audit)
  {
    var id := s.tasks[e.t].req.requestId;
    match e {
      case Start(_) => LastNote(s.audit, RequestCreated(id));
      case LogPostError(_) => LastNote(s.audit, ErrorLogged(id));
      case PostSucceeds(_, ts) => LastNote(s.audit, SlackPosted(id, ts));
      case _ =>
    }
  }

  lemma LastNote(audit: seq<AuditEvent>, note: AuditEvent)
    ensures note in audit + [note]
  {
    assert (audit + [note])[|audit|] == note;
  }

  lemma SelectNoted(s: Relay, e: Event)
    requires Enabled(s, e) && (e.SelectCli? || e.SelectSlack?)
    ensures TasksNoted(s, Next(s, e))
  {}

  lemma LateNoted(s: Relay, e: Event)
    requires Enabled(s, e) && (e.FinalizeByCli? || e.LogDecision? || e.Deliver?)
    ensures TasksNoted(s, Next(s, e))
  {}

  lemma RegisterNoted(s: Relay, t: nat)
    requires Enabled(s, Register(t))
    ensures TasksNoted(s, Next(s, Register(t)))
  {}

  lemma TakeTsNoted(s: Relay, t: nat)
    requires Enabled(s, TakeTs(t))
    ensures TasksNoted(s, Next(s, TakeTs(t)))
  {
    var s' := Next(s, TakeTs(t));
    assert |s'.tasks| == |s.tasks| && s'.audit == s.audit;
    forall u | 0 <= u < |s.tasks| ensures TaskNoted(s.tasks[u], s'.tasks[u], s'.audit) {
      TakeTsTask(s, t, u);
    }
  }

  lemma TakeTsTask(s: Relay, t: nat, u: nat)
    requires Enabled(s, TakeTs(t)) && u < |s.tasks|
    ensures u < |Next(s, TakeTs(t)).tasks|
    ensures TaskNoted(s.tasks[u], Next(s, TakeTs(t)).tasks[u], s.audit)
  {
    SameNoted(s.tasks[u], s.audit);
  }

  lemma OtherNoted(s: Relay, e: Event)
    requires Enabled(s, e) && (e.Receive? || e.Button? || e.AuditPress? || e.FinalizePress?)
    ensures TasksNoted(s, Next(s, e))
  {
    forall t | 0 <= t < |s.tasks| ensures TaskNoted(s.tasks[t], Next(s, e).tasks[t], Next(s, e).audit) {
      SameNoted(s.tasks[t], Next(s, e).audit);
      assert Next(s, e).tasks[t] == s.tasks[t];
    }
  }

  lemma SendNoted(s: Relay, i: nat)
    requires Enabled(s, SendPress(i))
    ensures TasksNoted(s, Next(s, SendPress(i)))
  {}

  lemma TaskLoggedNext(s: Relay, e: Event, s': Relay, t: nat)
    requires TasksNoted(s, s') && s.audit <= s'.audit && t < |s'.tasks| && (t < |s.tasks| ==> TaskLogged(s, t))
    ensures TaskLogged(s', t)
  {
    if t < |s.tasks| {
      assert TaskNoted(s.tasks[t], s'.tasks[t], s'.audit);
    }
  }

  lemma PressLoggedNext(s: Relay, e: Event, i: nat)
    requires i < |Next(s, e).presses| && (i < |s.presses| ==> PressLogged(s, i))
    ensures PressLogged(Next(s, e), i)
  {
    PressesShape(s, e);
    RecordsShape(s, e);
    var s' := Next(s, e);
    if i < |s.presses| {
      assert PressStep(e, i, s.presses[i], s'.presses[i]);
      assert PressDecision(s'.presses[i]) == PressDecision(s.presses[i]);
    }
  }

  // ---------------------------------------------------------------- whoever takes an entry rewrites its message

  /** An entry carries the timestamp that its request's message has. */
  predicate EntryOk(s: Relay, entry: Pending) {
    && entry.owner < |s.tasks| && entry.request == s.tasks[entry.owner].req
    && entry.channelTs.Some? && s.tasks[entry.owner].post == Registered(entry.channelTs.value)
  }

  ghost predicate EntriesOk(s: Relay) {
    && (forall id | id in s.pending :: EntryOk(s, s.pending[id]))
    && (forall i | 0 <= i < |s.presses| :: EntryOk(s, s.presses[i].entry))
    && (forall t | 0 <= t < |s.tasks| && s.tasks[t].phase.Finalizing? :: FinalizingOk(s, s.tasks[t].phase))
  }

  predicate FinalizingOk(s: Relay, p: Phase)
    requires p.Finalizing?
  {
    EntryOk(s, p.taken) && p.taken.channelTs == Some(p.ts)
  }

  /** A terminal branch that took an entry is about to rewrite that message, or has. */
  predicate CliRewrites(s: Relay, owner: nat, t: nat) {
    && t < |s.tasks|
    && match s.tasks[t].phase
       case Finalizing(_, taken, _) => taken.owner == owner
       case Decided(d) => Update(owner, d.outcome, ByCli(t)) in s.updates
       case Logged(d) => Update(owner, d.outcome, ByCli(t)) in s.updates
       case Done(d) => Update(owner, d.outcome, ByCli(t)) in s.updates
       case Received => false
       case Waiting => false
       case CliWon(_) => false
  }

  /** A callback that has finalised has rewritten the message of the entry that it carries. */
  predicate PressRewrote(s: Relay, i: nat)
    requires i < |s.presses|
  {
    var p := s.presses[i];
    p.stage.Finalized? || p.stage.Sent? ==> Update(p.entry.owner, PressDecision(p).outcome, ByPress(i)) in s.updates
  }

  ghost predicate Rewritten(s: Relay) {
    && (forall k | 0 <= k < |s.removals| && s.removals[k].remover.ByCli? ::
          CliRewrites(s, s.removals[k].owner, s.removals[k].remover.task))
    && (forall i | 0 <= i < |s.presses| :: PressRewrote(s, i))
  }

  ghost predicate RecordsOk(s: Relay) {
    AllLogged(s) && EntriesOk(s) && Rewritten(s)
  }

  lemma EntryStays(s: Relay, s': Relay, entry: Pending)
    requires TasksNoted(s, s') && EntryOk(s, entry)
    ensures EntryOk(s', entry)
  {
    assert TaskNoted(s.tasks[entry.owner], s'.tasks[entry.owner], s'.audit);
  }

  lemma NewEntries(s: Relay, e: Event, id: Uuid)
    requires id in Next(s, e).pending
    ensures (id in s.pending && Next(s, e).pending[id] == s.pending[id])
            || (Enabled(s, e) && e.Register? && EntryOk(Next(s, e), Next(s, e).pending[id]))
  {
    if Enabled(s, e) && e.Register? {
      RegisteredEntry(s, e.t, id);
    } else {
      OthersInsertNothing(s, e);
    }
  }

  lemma RegisteredEntry(s: Relay, t: nat, id: Uuid)
    requires Enabled(s, Register(t)) && id in Next(s, Register(t)).pending
    ensures (id in s.pending && Next(s, Register(t)).pending[id] == s.pending[id])
            || EntryOk(Next(s, Register(t)), Next(s, Register(t)).pending[id])
  {}

  lemma OthersInsertNothing(s: Relay, e: Event)
    requires !(Enabled(s, e) && e.Register?)
    ensures forall id | id in Next(s, e).pending :: id in s.pending && Next(s, e).pending[id] == s.pending[id]
  {}

  lemma PressEntry(s: Relay, e: Event, s': Relay, i: nat)
    requires EntriesOk(s) && TasksNoted(s, s') && PressesStep(s, e, s') && i < |s'.presses|
    ensures EntryOk(s', s'.presses[i].entry)
  {
    if i < |s.presses| {
      assert PressStep(e, i, s.presses[i], s'.presses[i]);
      EntryStays(s, s', s.presses[i].entry);
    } else {
      EntryStays(s, s', s.pending[e.id]);
    }
  }

  /** What the terminal branch takes is what it finalises, and it finalises whatever it takes. */
  lemma TakesEntry(s: Relay, t: nat)
    requires Enabled(s, TakeTs(t)) && EntriesOk(s)
    ensures var s' := Next(s, TakeTs(t)); var id := s.tasks[t].req.requestId;
      && id !in s'.pending
      && (id in s.pending ==>
            && s'.removals == s.removals + [Removal(s.pending[id].owner, ByCli(t))]
            && s'.tasks[t].phase == Finalizing(s.tasks[t].phase.decision, s.pending[id], s.pending[id].channelTs.value))
      && (id !in s.pending ==> s'.removals == s.removals && s'.tasks[t].phase.Decided?)
  {}

  lemma PhaseEntry(s: Relay, e: Event, s': Relay, t: nat)
    requires EntriesOk(s) && s' == Next(s, e) && TasksNoted(s, s') && TasksStep(s, e, s')
    requires t < |s'.tasks| && s'.tasks[t].phase.Finalizing?
    ensures FinalizingOk(s', s'.tasks[t].phase)
  {
    assert t < |s.tasks| && TaskStep(s, e, t, s.tasks[t], s'.tasks[t]);
    if s'.tasks[t].phase == s.tasks[t].phase {
      EntryStays(s, s', s.tasks[t].phase.taken);
    } else {
      TakesEntry(s, t);
      EntryStays(s, s', s.pending[s.tasks[t].req.requestId]);
    }
  }

  lemma EntriesOkNext(s: Relay, e: Event)
    requires SlotOk(s) && EntriesOk(s)
    ensures EntriesOk(Next(s, e))
  {
    var s' := Next(s, e);
    NextTasksNoted(s, e);
    TasksShape(s, e);
    PressesShape(s, e);
    forall id | id in s'.pending ensures EntryOk(s', s'.pending[id]) {
      NewEntries(s, e, id);
      if id in s.pending && s'.pending[id] == s.pending[id] {
        EntryStays(s, s', s.pending[id]);
      }
    }
    forall i | 0 <= i < |s'.presses| ensures EntryOk(s', s'.presses[i].entry) {
      PressEntry(s, e, s', i);
    }
    forall t | 0 <= t < |s'.tasks| && s'.tasks[t].phase.Finalizing? ensures FinalizingOk(s', s'.tasks[t].phase) {
      PhaseEntry(s, e, s', t);
    }
  }

  /** The terminal branch rewrites the message that it has taken, and logs how that went. */
  lemma CliFinalizes(s: Relay, t: nat, ok: bool)
    requires Enabled(s, FinalizeByCli(t, ok)) && EntriesOk(s)
    ensures var s' := Next(s, FinalizeByCli(t, ok)); var p := s.tasks[t].phase;
      var id := s.tasks[p.taken.owner].req.requestId;
      && s'.tasks[t].phase == Decided(p.decision)
      && s'.updates == s.updates + [Update(p.taken.owner, p.decision.outcome, ByCli(t))]
      && s'.audit == s.audit + [if ok then SlackFinalized(id, p.decision.outcome) else ErrorLogged(id)]
  {
    assert FinalizingOk(s, s.tasks[t].phase);
  }

  /** So does a callback. */
  lemma PressFinalizes(s: Relay, i: nat, ok: bool)
    requires Enabled(s, FinalizePress(i, ok)) && EntriesOk(s)
    ensures var s' := Next(s, FinalizePress(i, ok)); var p := s.presses[i];
      var id := s.tasks[p.entry.owner].req.requestId;
      && s'.presses == s.presses[i := p.(stage := Finalized)]
      && s'.updates == s.updates + [Update(p.entry.owner, PressDecision(p).outcome, ByPress(i))]
      && s'.audit == s.audit + [if ok then SlackFinalized(id, PressDecision(p).outcome) else ErrorLogged(id)]
  {
    assert EntryOk(s, s.presses[i].entry);
  }

  lemma CliRewritesStays(s: Relay, e: Event, s': Relay, owner: nat, t: nat)
    requires CliRewrites(s, owner, t) && TasksStep(s, e, s') && RecordsStep(s, e, s')
    requires s' == Next(s, e) && EntriesOk(s)
    ensures CliRewrites(s', owner, t)
  {
    assert TaskStep(s, e, t, s.tasks[t], s'.tasks[t]);
    if s.tasks[t].phase.Finalizing? && s'.tasks[t].phase != s.tasks[t].phase {
      CliFinalizes(s, t, e.ok);
    }
  }

  lemma PressRewroteNext(s: Relay, e: Event, s': Relay, i: nat)
    requires s' == Next(s, e) && EntriesOk(s) && PressesStep(s, e, s') && RecordsStep(s, e, s')
    requires i < |s'.presses| && (i < |s.presses| ==> PressRewrote(s, i))
    ensures PressRewrote(s', i)
  {
    if i < |s.presses| {
      assert PressStep(e, i, s.presses[i], s'.presses[i]);
      assert PressDecision(s'.presses[i]) == PressDecision(s.presses[i]);
      if s.presses[i].stage.Audited? && s'.presses[i].stage.Finalized? {
        StageMoved(s, e, i);
        PressFinalizes(s, i, e.ok);
      }
    }
  }

  lemma StageMoved(s: Relay, e: Event, i: nat)
    requires i < |s.presses| && i < |Next(s, e).presses| && Next(s, e).presses[i].stage != s.presses[i].stage
    ensures Enabled(s, e)
  {}

  lemma RewrittenNext(s: Relay, e: Event)
    requires EntriesOk(s) && Rewritten(s)
    ensures Rewritten(Next(s, e))
  {
    var s' := Next(s, e);
    TasksShape(s, e);
    PressesShape(s, e);
    RecordsShape(s, e);
    forall k | 0 <= k < |s'.removals| && s'.removals[k].remover.ByCli?
      ensures CliRewrites(s', s'.removals[k].owner, s'.removals[k].remover.task)
    {
      if k < |s.removals| {
        CliRewritesStays(s, e, s', s.removals[k].owner, s.removals[k].remover.task);
      } else {
        TakesEntry(s, e.t);
      }
    }
    forall i | 0 <= i < |s'.presses| ensures PressRewrote(s', i) {
      PressRewroteNext(s, e, s', i);
    }
  }

  lemma UpdateLoggedNext(s: Relay, e: Event, k: nat)
    requires EntriesOk(s) && k < |Next(s, e).updates| && (k < |s.updates| ==> UpdateLogged(s, s.updates[k]))
    ensures UpdateLogged(Next(s, e), Next(s, e).updates[k])
  {
    var s' := Next(s, e);
    TasksShape(s, e);
    RecordsShape(s, e);
    if k < |s.updates| {
      assert TaskStep(s, e, s.updates[k].owner, s.tasks[s.updates[k].owner], s'.tasks[s.updates[k].owner]);
    } else if Enabled(s, e) && e.FinalizeByCli? {
      CliUpdateLogged(s, e.t, e.ok, s', k);
    } else if Enabled(s, e) && e.FinalizePress? {
      PressUpdateLogged(s, e.i, e.ok, s', k);
    } else {
      OthersUpdateNothing(s, e);
    }
  }

  lemma CliUpdateLogged(s: Relay, t: nat, ok: bool, s': Relay, k: nat)
    requires Enabled(s, FinalizeByCli(t, ok)) && EntriesOk(s) && s' == Next(s, FinalizeByCli(t, ok))
    requires k == |s.updates| && k < |s'.updates|
    ensures UpdateLogged(s', s'.updates[k])
  {
    CliFinalizes(s, t, ok);
    assert FinalizingOk(s, s.tasks[t].phase);
    LoggedNow(s, s', s.updates, k);
  }

  lemma PressUpdateLogged(s: Relay, i: nat, ok: bool, s': Relay, k: nat)
    requires Enabled(s, FinalizePress(i, ok)) && EntriesOk(s) && s' == Next(s, FinalizePress(i, ok))
    requires k == |s.updates| && k < |s'.updates|
    ensures UpdateLogged(s', s'.updates[k])
  {
    PressFinalizes(s, i, ok);
    assert EntryOk(s, s.presses[i].entry);
    LoggedNow(s, s', s.updates, k);
  }

  lemma LoggedNow(s: Relay, s': Relay, before: seq<Update>, k: nat)
    requires k == |before| && |s'.updates| == k + 1 && s'.updates[k].owner < |s.tasks| <= |s'.tasks|
    requires s'.tasks[s'.updates[k].owner].req == s.tasks[s'.updates[k].owner].req
    requires var id := s.tasks[s'.updates[k].owner].req.requestId;
      s'.audit == s.audit + [SlackFinalized(id, s'.updates[k].outcome)] || s'.audit == s.audit + [ErrorLogged(id)]
    ensures UpdateLogged(s', s'.updates[k])
  {
    assert s'.audit[|s.audit|] in s'.audit;
  }

  lemma AllLoggedNext(s: Relay, e: Event)
    requires SlotOk(s) && EntriesOk(s) && AllLogged(s)
    ensures AllLogged(Next(s, e))
  {
    var s' := Next(s, e);
    NextTasksNoted(s, e);
    RecordsShape(s, e);
    forall t | 0 <= t < |s'.tasks| ensures TaskLogged(s', t) {
      TaskLoggedNext(s, e, s', t);
    }
    forall i | 0 <= i < |s'.presses| ensures PressLogged(s', i) {
      PressLoggedNext(s, e, i);
    }
    forall k | 0 <= k < |s'.updates| ensures UpdateLogged(s', s'.updates[k]) {
      UpdateLoggedNext(s, e, k);
    }
  }

  lemma RecordsOkNext(s: Relay, e: Event)
    requires SlotOk(s) && RecordsOk(s)
    ensures RecordsOk(Next(s, e))
  {
    AllLoggedNext(s, e);
    EntriesOkNext(s, e);
    RewrittenNext(s, e);
  }

  // ---------------------------------------------------------------- and nothing else is logged

  predicate CreatedBy(s: Relay, id: Uuid, t: nat) {
    t < |s.tasks| && s.tasks[t].req.requestId == id && Started(s.tasks[t])
  }

  predicate PostedBy(s: Relay, id: Uuid, ts: string, t: nat) {
    t < |s.tasks| && s.tasks[t].req.requestId == id && PostedAs(s.tasks[t], ts)
  }

  predicate DecidedBy(s: Relay, d: ApprovalDecision, t: nat) {
    t < |s.tasks| && (s.tasks[t].phase == Logged(d) || s.tasks[t].phase == Done(d))
  }

  predicate PressedBy(s: Relay, d: ApprovalDecision, i: nat) {
    i < |s.presses| && !s.presses[i].stage.Claimed? && PressDecision(s.presses[i]) == d
  }

  predicate FailedBy(s: Relay, id: Uuid, t: nat) {
    t < |s.tasks| && s.tasks[t].req.requestId == id && s.tasks[t].post == PostRejected(true)
  }

  predicate AttemptedBy(s: Relay, id: Uuid, outcome: Outcome, k: nat) {
    && k < |s.updates| && s.updates[k].owner < |s.tasks| && s.tasks[s.updates[k].owner].req.requestId == id
    && s.updates[k].outcome == outcome
  }

  /** What a logged event tells has happened. */
  ghost predicate Happened(s: Relay, note: AuditEvent) {
    match note
    case RequestCreated(id) => exists t: nat :: CreatedBy(s, id, t)
    case SlackPosted(id, ts) => exists t: nat :: PostedBy(s, id, ts, t)
    case DecisionMade(d) => (exists t: nat :: DecidedBy(s, d, t)) || exists i: nat :: PressedBy(s, d, i)
    case SlackFinalized(id, outcome) => exists k: nat :: AttemptedBy(s, id, outcome, k)
    case ErrorLogged(id) =>
      (exists t: nat :: FailedBy(s, id, t)) || exists outcome: Outcome, k: nat :: AttemptedBy(s, id, outcome, k)
  }

  ghost predicate LogSound(s: Relay) {
    forall note <- s.audit :: Happened(s, note)
  }

  lemma HappenedStays(s: Relay, e: Event, s': Relay, note: AuditEvent)
    requires TasksStep(s, e, s') && PressesStep(s, e, s') && RecordsStep(s, e, s') && PostsStay(s, s')
    requires Happened(s, note)
    ensures Happened(s', note)
  {
    match note
    case RequestCreated(id) =>
      var t: nat :| CreatedBy(s, id, t);
      assert TaskStep(s, e, t, s.tasks[t], s'.tasks[t]) && CreatedBy(s', id, t);
    case SlackPosted(id, ts) =>
      var t: nat :| PostedBy(s, id, ts, t);
      assert TaskStep(s, e, t, s.tasks[t], s'.tasks[t]) && PostedBy(s', id, ts, t);
    case DecisionMade(d) => DecisionStays(s, e, s', d);
    case SlackFinalized(id, outcome) =>
      var k: nat :| AttemptedBy(s, id, outcome, k);
      AttemptStays(s, e, s', id, outcome, k);
    case ErrorLogged(id) =>
      if t: nat :| FailedBy(s, id, t) {
        assert TaskStep(s, e, t, s.tasks[t], s'.tasks[t]) && FailedBy(s', id, t);
      } else {
        var outcome: Outcome, k: nat :| AttemptedBy(s, id, outcome, k);
        AttemptStays(s, e, s', id, outcome, k);
      }
  }

  lemma DecisionStays(s: Relay, e: Event, s': Relay, d: ApprovalDecision)
    requires TasksStep(s, e, s') && PressesStep(s, e, s') && Happened(s, DecisionMade(d))
    ensures Happened(s', DecisionMade(d))
  {
    if t: nat :| DecidedBy(s, d, t) {
      assert TaskStep(s, e, t, s.tasks[t], s'.tasks[t]) && DecidedBy(s', d, t);
    } else {
      var i: nat :| PressedBy(s, d, i);
      assert PressStep(e, i, s.presses[i], s'.presses[i]);
      assert PressDecision(s'.presses[i]) == PressDecision(s.presses[i]);
      assert PressedBy(s', d, i);
    }
  }

  lemma AttemptStays(s: Relay, e: Event, s': Relay, id: Uuid, outcome: Outcome, k: nat)
    requires TasksStep(s, e, s') && RecordsStep(s, e, s') && AttemptedBy(s, id, outcome, k)
    ensures AttemptedBy(s', id, outcome, k)
  {
    var u := s.updates[k].owner;
    assert TaskStep(s, e, u, s.tasks[u], s'.tasks[u]);
  }

  /** A post that has succeeded, or whose failure is logged, stays so. */
  ghost predicate PostsStay(s: Relay, s': Relay) {
    && |s.tasks| <= |s'.tasks|
    && (forall t | 0 <= t < |s.tasks| ::
          && (s.tasks[t].post == PostRejected(true) ==> s'.tasks[t].post == PostRejected(true))
          && (forall ts :: PostedAs(s.tasks[t], ts) ==> PostedAs(s'.tasks[t], ts)))
  }

  lemma NextPostsStay(s: Relay, e: Event)
    requires SlotOk(s)
    ensures PostsStay(s, Next(s, e))
  {
    if !Enabled(s, e) {
    } else if e.Start? || e.PostFails? || e.LogPostError? || e.PostSucceeds? || e.PromptReturns? {
      EarlyPostsStay(s, e);
    } else if e.Register? {
      RegisterPostsStay(s, e.t);
    } else if e.TakeTs? {
      TakeTsPostsStay(s, e.t);
    } else {
    }
  }

  lemma EarlyPostsStay(s: Relay, e: Event)
    requires SlotOk(s) && Enabled(s, e)
    requires e.Start? || e.PostFails? || e.LogPostError? || e.PostSucceeds? || e.PromptReturns?
    ensures PostsStay(s, Next(s, e))
  {}

  lemma RegisterPostsStay(s: Relay, t: nat)
    requires Enabled(s, Register(t))
    ensures PostsStay(s, Next(s, Register(t)))
  {}

  lemma TakeTsPostsStay(s: Relay, t: nat)
    requires Enabled(s, TakeTs(t))
    ensures PostsStay(s, Next(s, TakeTs(t)))
  {}

  /** A step logs at most one event, and that tells what the step does. */
  ghost predicate OneNote(s: Relay, s': Relay) {
    s'.audit == s.audit || exists note :: s'.audit == s.audit + [note] && Happened(s', note)
  }

  lemma NextOneNote(s: Relay, e: Event)
    requires EntriesOk(s)
    ensures OneNote(s, Next(s, e))
  {
    var s' := Next(s, e);
    if Enabled(s, e) {
      match e
      case Start(t) => assert CreatedBy(s', s.tasks[t].req.requestId, t);
      case LogPostError(t) => assert FailedBy(s', s.tasks[t].req.requestId, t);
      case PostSucceeds(t, ts) => assert PostedBy(s', s.tasks[t].req.requestId, ts, t);
      case LogDecision(t) => assert DecidedBy(s', s.tasks[t].phase.decision, t);
      case AuditPress(i) => AuditNote(s, i);
      case FinalizeByCli(t, ok) => CliNote(s, t, ok);
      case FinalizePress(i, ok) => PressNote(s, i, ok);
      case _ =>
    }
  }

  lemma AuditNote(s: Relay, i: nat)
    requires Enabled(s, AuditPress(i))
    ensures OneNote(s, Next(s, AuditPress(i)))
  {
    var s' := Next(s, AuditPress(i));
    assert PressDecision(s'.presses[i]) == PressDecision(s.presses[i]);
    assert PressedBy(s', PressDecision(s.presses[i]), i);
    assert Happened(s', DecisionMade(PressDecision(s.presses[i])));
  }

  lemma CliNote(s: Relay, t: nat, ok: bool)
    requires Enabled(s, FinalizeByCli(t, ok)) && EntriesOk(s)
    ensures OneNote(s, Next(s, FinalizeByCli(t, ok)))
  {
    var s', p := Next(s, FinalizeByCli(t, ok)), s.tasks[t].phase;
    CliFinalizes(s, t, ok);
    assert FinalizingOk(s, p);
    TasksShape(s, FinalizeByCli(t, ok));
    assert TaskStep(s, FinalizeByCli(t, ok), p.taken.owner, s.tasks[p.taken.owner], s'.tasks[p.taken.owner]);
    assert AttemptedBy(s', s.tasks[p.taken.owner].req.requestId, p.decision.outcome, |s.updates|);
  }

  lemma PressNote(s: Relay, i: nat, ok: bool)
    requires Enabled(s, FinalizePress(i, ok)) && EntriesOk(s)
    ensures OneNote(s, Next(s, FinalizePress(i, ok)))
  {
    var s', p := Next(s, FinalizePress(i, ok)), s.presses[i];
    PressFinalizes(s, i, ok);
    assert EntryOk(s, p.entry);
    TasksShape(s, FinalizePress(i, ok));
    assert TaskStep(s, FinalizePress(i, ok), p.entry.owner, s.tasks[p.entry.owner], s'.tasks[p.entry.owner]);
    assert AttemptedBy(s', s.tasks[p.entry.owner].req.requestId, PressDecision(p).outcome, |s.updates|);
  }

  lemma LogSoundNext(s: Relay, e: Event)
    requires SlotOk(s) && EntriesOk(s) && LogSound(s)
    ensures LogSound(Next(s, e))
  {
    var s' := Next(s, e);
    TasksShape(s, e);
    PressesShape(s, e);
    RecordsShape(s, e);
    NextPostsStay(s, e);
    NextOneNote(s, e);
    forall note <- s'.audit ensures Happened(s', note) {
      if note in s.audit {
        HappenedStays(s, e, s', note);
      }
    }
  }

  // ---------------------------------------------------------------- each thing is logged once

  /** How many events a task, or a callback, has logged by itself. */
  function TaskNotes(task: Task): nat {
    (if Started(task) then 1 else 0)
    + (if task.post == PostRejected(true) || task.post.PostAccepted? || task.post.Registered? then 1 else 0)
    + (if task.phase.Logged? || task.phase.Done? then 1 else 0)
  }

  function PressNotes(p: Press): nat {
    if p.stage.Claimed? then 0 else 1
  }

  function AllTaskNotes(tasks: seq<Task>): nat {
    if tasks == [] then 0 else TaskNotes(tasks[0]) + AllTaskNotes(tasks[1..])
  }

  function AllPressNotes(presses: seq<Press>): nat {
    if presses == [] then 0 else PressNotes(presses[0]) + AllPressNotes(presses[1..])
  }

  /** The log holds one event for each start, each outcome of a post, each logged decision and each rewrite. */
  predicate LogCounts(s: Relay) {
    |s.audit| == AllTaskNotes(s.tasks) + AllPressNotes(s.presses) + |s.updates|
  }

  lemma {:induction false} SameTaskNotes(a: seq<Task>, b: seq<Task>)
    requires |a| == |b| && forall t | 0 <= t < |a| :: TaskNotes(b[t]) == TaskNotes(a[t])
    ensures AllTaskNotes(b) == AllTaskNotes(a)
  {
    if a != [] {
      SameTaskNotes(a[1..], b[1..]);
    }
  }

  lemma {:induction false} OneTaskNotes(a: seq<Task>, b: seq<Task>, t: nat)
    requires t < |a| == |b| && forall u | 0 <= u < |a| && u != t :: TaskNotes(b[u]) == TaskNotes(a[u])
    ensures AllTaskNotes(b) - AllTaskNotes(a) == TaskNotes(b[t]) - TaskNotes(a[t])
  {
    if t == 0 {
      SameTaskNotes(a[1..], b[1..]);
    } else {
      OneTaskNotes(a[1..], b[1..], t - 1);
    }
  }

  lemma {:induction false} OnePressNotes(a: seq<Press>, p: Press, i: nat)
    requires i < |a|
    ensures AllPressNotes(a[i := p]) - AllPressNotes(a) == PressNotes(p) - PressNotes(a[i])
  {
    if i > 0 {
      OnePressNotes(a[1..], p, i - 1);
      assert a[i := p][1..] == a[1..][i - 1 := p];
    } else {
      assert a[i := p][1..] == a[1..];
    }
  }

  lemma {:induction false} MoreTaskNotes(a: seq<Task>, task: Task)
    ensures AllTaskNotes(a + [task]) == AllTaskNotes(a) + TaskNotes(task)
  {
    if a == [] {
      assert a + [task] == [task];
    } else {
      MoreTaskNotes(a[1..], task);
      assert (a + [task])[1..] == a[1..] + [task];
    }
  }

  lemma {:induction false} MorePressNotes(a: seq<Press>, p: Press)
    ensures AllPressNotes(a + [p]) == AllPressNotes(a) + PressNotes(p)
  {
    if a == [] {
      assert a + [p] == [p];
    } else {
      MorePressNotes(a[1..], p);
      assert (a + [p])[1..] == a[1..] + [p];
    }
  }

  lemma LogCountsNext(s: Relay, e: Event)
    requires SlotOk(s) && EntriesOk(s) && LogCounts(s)
    ensures LogCounts(Next(s, e))
  {
    if !Enabled(s, e) {
    } else if e.Receive? {
      MoreTaskNotes(s.tasks, NewTask(e.req));
    } else if e.Button? || e.AuditPress? || e.FinalizePress? {
      PressStepCounts(s, e);
    } else if e.SendPress? {
      SendCounts(s, e.i);
    } else {
      TaskStepCounts(s, e);
      OneTaskNotes(s.tasks, Next(s, e).tasks, e.t);
    }
  }

  lemma PressStepCounts(s: Relay, e: Event)
    requires Enabled(s, e) && (e.Button? || e.AuditPress? || e.FinalizePress?) && EntriesOk(s) && LogCounts(s)
    ensures LogCounts(Next(s, e))
  {
    match e
    case Button(id, action, userId, messageTs, now) =>
      MorePressNotes(s.presses, Press(s.pending[id], id, action, userId, messageTs, now, Claimed));
    case AuditPress(i) => OnePressNotes(s.presses, s.presses[i].(stage := Audited), i);
    case FinalizePress(i, ok) =>
      OnePressNotes(s.presses, s.presses[i].(stage := Finalized), i);
      PressFinalizes(s, i, ok);
  }

  lemma SendCounts(s: Relay, i: nat)
    requires Enabled(s, SendPress(i)) && LogCounts(s)
    ensures LogCounts(Next(s, SendPress(i)))
  {
    OnePressNotes(s.presses, s.presses[i].(stage := Sent), i);
    SameTaskNotes(s.tasks, Next(s, SendPress(i)).tasks);
  }

  /** What a task's own step adds to its count and to the log. */
  ghost predicate TaskCounts(s: Relay, s': Relay, t: nat) {
    && t < |s.tasks| == |s'.tasks| && s'.presses == s.presses
    && (forall u | 0 <= u < |s.tasks| && u != t :: TaskNotes(s'.tasks[u]) == TaskNotes(s.tasks[u]))
    && |s'.audit| - |s.audit|
       == TaskNotes(s'.tasks[t]) - TaskNotes(s.tasks[t]) + |s'.updates| - |s.updates|
  }

  lemma TaskStepCounts(s: Relay, e: Event)
    requires SlotOk(s) && Enabled(s, e) && !e.Receive?
    requires !e.Button? && !e.AuditPress? && !e.FinalizePress? && !e.SendPress?
    ensures TaskCounts(s, Next(s, e), e.t)
  {
    if e.Register? {
      RegisterCounts(s, e.t);
    } else if e.TakeTs? {
      TakeTsCounts(s, e.t);
    } else {
      OwnStepCounts(s, e);
    }
  }

  lemma RegisterCounts(s: Relay, t: nat)
    requires Enabled(s, Register(t))
    ensures TaskCounts(s, Next(s, Register(t)), t)
  {}

  lemma TakeTsCounts(s: Relay, t: nat)
    requires Enabled(s, TakeTs(t))
    ensures TaskCounts(s, Next(s, TakeTs(t)), t)
  {}

  lemma OwnStepCounts(s: Relay, e: Event)
    requires SlotOk(s) && Enabled(s, e) && !e.Receive? && !e.Register? && !e.TakeTs?
    requires !e.Button? && !e.AuditPress? && !e.FinalizePress? && !e.SendPress?
    ensures TaskCounts(s, Next(s, e), e.t)
  {}

  // ---------------------------------------------------------------- every run

  ghost predicate Recorded(s: Relay) {
    RecordsOk(s) && LogSound(s) && LogCounts(s)
  }

  /** Every run keeps its records: what happened is logged, once, and nothing else is. */
  lemma {:induction false} RunRecorded(slackOn: bool, user: string, trace: seq<Event>)
    ensures Recorded(Exec(Initial(slackOn, user), trace))
  {
    if trace != [] {
      var s := Exec(Initial(slackOn, user), trace[..|trace| - 1]);
      var e := trace[|trace| - 1];
      RunRecorded(slackOn, user, trace[..|trace| - 1]);
      RunGood(slackOn, user, trace[..|trace| - 1]);
      RecordsOkNext(s, e);
      LogSoundNext(s, e);
      LogCountsNext(s, e);
    }
  }

  /** In every run: the message whose entry the terminal branch took has been rewritten, with the outcome that is
      delivered, before that decision is logged; and how the rewriting went is in the log. */
  lemma TerminalRewritesMessage(slackOn: bool, user: string, trace: seq<Event>, owner: nat, t: nat)
    requires var s := Exec(Initial(slackOn, user), trace);
      && Removal(owner, ByCli(t)) in s.removals
      && t < |s.tasks| && (s.tasks[t].phase.Decided? || s.tasks[t].phase.Logged? || s.tasks[t].phase.Done?)
    ensures var s := Exec(Initial(slackOn, user), trace); var outcome := s.tasks[t].phase.decision.outcome;
      && Update(owner, outcome, ByCli(t)) in s.updates
      && owner < |s.tasks| && s.tasks[owner].req.requestId == s.tasks[t].req.requestId
      && (SlackFinalized(s.tasks[t].req.requestId, outcome) in s.audit
          || ErrorLogged(s.tasks[t].req.requestId) in s.audit)
  {
    var s := Exec(Initial(slackOn, user), trace);
    RunGood(slackOn, user, trace);
    RunRecorded(slackOn, user, trace);
    var k :| 0 <= k < |s.removals| && s.removals[k] == Removal(owner, ByCli(t));
    assert CliRewrites(s, owner, t) && RemoverTells(s, s.removals[k]);
    var u :| 0 <= u < |s.updates| && s.updates[u] == Update(owner, s.tasks[t].phase.decision.outcome, ByCli(t));
    assert UpdateLogged(s, s.updates[u]);
  }

  /** So has the message whose entry a callback took, once the callback has finalised. */
  lemma CallbackRewritesMessage(slackOn: bool, user: string, trace: seq<Event>, i: nat)
    requires var s := Exec(Initial(slackOn, user), trace);
      i < |s.presses| && (s.presses[i].stage.Finalized? || s.presses[i].stage.Sent?)
    ensures var s := Exec(Initial(slackOn, user), trace); var owner := s.presses[i].entry.owner;
      var outcome := PressDecision(s.presses[i]).outcome;
      && Update(owner, outcome, ByPress(i)) in s.updates && owner < |s.tasks|
      && (SlackFinalized(s.tasks[owner].req.requestId, outcome) in s.audit
          || ErrorLogged(s.tasks[owner].req.requestId) in s.audit)
  {
    var s := Exec(Initial(slackOn, user), trace);
    RunRecorded(slackOn, user, trace);
    assert PressRewrote(s, i);
    var p := s.presses[i];
    var u :| 0 <= u < |s.updates| && s.updates[u] == Update(p.entry.owner, PressDecision(p).outcome, ByPress(i));
    assert UpdateLogged(s, s.updates[u]);
  }

  /** Which of the two events a rewriting logs: in every run, the one that Slack's answer says, at that place of the
      log for ever. */
  lemma RewritingIsLogged(slackOn: bool, user: string, trace: seq<Event>, k: nat, t: nat, ok: bool)
    requires var s0 := Initial(slackOn, user);
      k < |trace| && trace[k] == FinalizeByCli(t, ok) && Fired(s0, trace, k)
    ensures var s0 := Initial(slackOn, user); var s := Exec(s0, trace[..k]); var n := |s.audit|;
      var id := s.tasks[t].req.requestId;
      && n < |Exec(s0, trace).audit|
      && Exec(s0, trace).audit[n]
         == if ok then SlackFinalized(id, s.tasks[t].phase.decision.outcome) else ErrorLogged(id)
  {
    var s0 := Initial(slackOn, user);
    var s := Exec(s0, trace[..k]);
    RunRecorded(slackOn, user, trace[..k]);
    RunGood(slackOn, user, trace[..k]);
    CliFinalizes(s, t, ok);
    FinalizingId(s, t);
    LaterHistory(s0, trace, k);
  }

  lemma FinalizingId(s: Relay, t: nat)
    requires Good(s) && t < |s.tasks| && s.tasks[t].phase.Finalizing?
    ensures var owner := s.tasks[t].phase.taken.owner;
      owner < |s.tasks| && s.tasks[owner].req.requestId == s.tasks[t].req.requestId
  {
    var r := Removal(s.tasks[t].phase.taken.owner, ByCli(t));
    assert r in s.removals;
    var k :| 0 <= k < |s.removals| && s.removals[k] == r;
    assert RemoverTells(s, s.removals[k]);
  }

  /** What one step of a run appends stays where it is. */
  lemma LaterHistory(s0: Relay, trace: seq<Event>, k: nat)
    requires k < |trace|
    ensures EvidenceGrows(Next(Exec(s0, trace[..k]), trace[k]), Exec(s0, trace))
  {
    assert trace == trace[..k + 1] + trace[k + 1..];
    assert trace[..k + 1] == trace[..k] + [trace[k]];
    ExecSnoc(s0, trace[..k], trace[k]);
    ExecConcat(s0, trace[..k + 1], trace[k + 1..]);
    HistoryIsFinal(Exec(s0, trace[..k + 1]), trace[k + 1..]);
  }

  lemma CallbackIsLogged(slackOn: bool, user: string, trace: seq<Event>, k: nat, i: nat, ok: bool)
    requires var s0 := Initial(slackOn, user);
      k < |trace| && trace[k] == FinalizePress(i, ok) && Fired(s0, trace, k)
    ensures var s0 := Initial(slackOn, user); var s := Exec(s0, trace[..k]); var n := |s.audit|;
      && n < |Exec(s0, trace).audit| && s.presses[i].entry.owner < |s.tasks|
      && var id := s.tasks[s.presses[i].entry.owner].req.requestId;
         Exec(s0, trace).audit[n]
         == if ok then SlackFinalized(id, PressDecision(s.presses[i]).outcome) else ErrorLogged(id)
  {
    var s0 := Initial(slackOn, user);
    var s := Exec(s0, trace[..k]);
    RunRecorded(slackOn, user, trace[..k]);
    PressFinalizes(s, i, ok);
    assert EntryOk(s, s.presses[i].entry);
    LaterHistory(s0, trace, k);
  }

  /** The step of the run in which the terminal branch of task `t` looked for an entry. */
  lemma {:induction false} TakeTsHasCause(slackOn: bool, user: string, trace: seq<Event>, t: nat) returns (k: nat)
    requires slackOn
    requires var s := Exec(Initial(slackOn, user), trace);
      && t < |s.tasks| && s.tasks[t].winner.CliBranch?
      && s.tasks[t].phase.HasDecision() && !s.tasks[t].phase.CliWon?
    ensures k < |trace| && Fired(Initial(slackOn, user), trace, k) && trace[k] == TakeTs(t)
  {
    var s0 := Initial(slackOn, user);
    var n := |trace| - 1;
    assert trace != [];
    var s := Exec(s0, trace[..n]);
    assert trace[..n] == trace[..|trace| - 1];
    TasksShape(s, trace[n]);
    SlackOnStays(slackOn, user, trace[..n]);
    RunGood(slackOn, user, trace[..n]);
    assert t < |s.tasks| && TaskStep(s, trace[n], t, s.tasks[t], Next(s, trace[n]).tasks[t]);
    if s.tasks[t].phase.HasDecision() && !s.tasks[t].phase.CliWon? {
      k := TakeTsHasCause(slackOn, user, trace[..n], t);
      assert trace[..n][..k] == trace[..k];
    } else {
      assert RaceTask(s.slackOn, s.user, s.tasks[t]);
      if s.tasks[t].phase.Waiting? {
        SelectedOnTerminal(s, trace[n], t);
      }
      k := n;
    }
  }

  lemma {:induction false} SlackOnStays(slackOn: bool, user: string, trace: seq<Event>)
    ensures Exec(Initial(slackOn, user), trace).slackOn == slackOn
  {
    if trace != [] {
      SlackOnStays(slackOn, user, trace[..|trace| - 1]);
      TasksShape(Exec(Initial(slackOn, user), trace[..|trace| - 1]), trace[|trace| - 1]);
    }
  }

  /** With Slack on, a terminal branch that has just won has yet to look for the entry. */
  lemma SelectedOnTerminal(s: Relay, e: Event, t: nat)
    requires s.slackOn && t < |s.tasks| && s.tasks[t].phase.Waiting?
    requires t < |Next(s, e).tasks| && Next(s, e).tasks[t].winner.CliBranch? && !s.tasks[t].winner.CliBranch?
    ensures Next(s, e).tasks[t].phase.CliWon?
  {
    TasksShape(s, e);
    assert TaskStep(s, e, t, s.tasks[t], Next(s, e).tasks[t]);
  }

  /** In every run with Slack on: a request that the terminal decided has taken the entry under its id out of the map,
      whatever the decision; and if there was one, that entry's message has been rewritten. */
  lemma TerminalTakesEntry(slackOn: bool, user: string, trace: seq<Event>, t: nat) returns (k: nat)
    requires slackOn
    requires var s := Exec(Initial(slackOn, user), trace);
      && t < |s.tasks| && s.tasks[t].winner.CliBranch?
      && (s.tasks[t].phase.Decided? || s.tasks[t].phase.Logged? || s.tasks[t].phase.Done?)
    ensures var s0 := Initial(slackOn, user); k < |trace| && Fired(s0, trace, k) && trace[k] == TakeTs(t)
    ensures var s0 := Initial(slackOn, user); var s := Exec(s0, trace); var id := s.tasks[t].req.requestId;
      && id !in Exec(s0, trace[..k + 1]).pending
      && (id in Exec(s0, trace[..k]).pending ==>
            var owner := Exec(s0, trace[..k]).pending[id].owner;
            && Removal(owner, ByCli(t)) in s.removals
            && Update(owner, s.tasks[t].phase.decision.outcome, ByCli(t)) in s.updates)
  {
    var s0 := Initial(slackOn, user);
    k := TakeTsHasCause(slackOn, user, trace, t);
    var before := Exec(s0, trace[..k]);
    RunRecorded(slackOn, user, trace[..k]);
    TakesEntry(before, t);
    assert trace[..k + 1] == trace[..k] + [trace[k]];
    ExecSnoc(s0, trace[..k], trace[k]);
    LaterHistory(s0, trace, k);
    TasksShape(before, trace[k]);
    assert TaskStep(before, trace[k], t, before.tasks[t], Next(before, trace[k]).tasks[t]);
    var id := before.tasks[t].req.requestId;
    if id in before.pending {
      var r := Removal(before.pending[id].owner, ByCli(t));
      assert Next(before, trace[k]).removals[|before.removals|] == r;
      TerminalRewritesMessage(slackOn, user, trace, r.owner, t);
    }
  }
}
