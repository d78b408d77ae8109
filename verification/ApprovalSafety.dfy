/** What every step of the approval relay keeps. */
module ApprovalSafety {
  import opened Text
  import opened ApprovalTypes
  import opened ApprovalProtocol
  import opened ApprovalSteps

  /** The entry of task `t` is in the pending map. */
  predicate InMap(s: Relay, t: nat)
    requires t < |s.tasks|
  {
    var id := s.tasks[t].req.requestId;
    id in s.pending && s.pending[id].owner == t
  }

  /** Callback `i` holds the sender of task `t` and has not used it yet. */
  predicate InFlight(s: Relay, t: nat, i: nat) {
    i < |s.presses| && s.presses[i].entry.owner == t && !s.presses[i].stage.Sent?
  }

  /** Entry `k` of the removal history took the entry of task `t`. */
  predicate RemovedAt(s: Relay, t: nat, k: nat) {
    k < |s.removals| && s.removals[k].owner == t
  }

  ghost predicate Removed(s: Relay, t: nat) {
    exists k :: RemovedAt(s, t, k)
  }

  ghost predicate HeldByPress(s: Relay, t: nat) {
    exists i :: InFlight(s, t, i)
  }

  /** Entries sit under their own id and hold an unused sender. */
  ghost predicate PendingOk(s: Relay) {
    forall id | id in s.pending ::
      var e := s.pending[id];
      && e.owner < |s.tasks| && e.request == s.tasks[e.owner].req && e.request.requestId == id
      && e.channelTs.Some?
      && s.tasks[e.owner].post.Registered? && s.tasks[e.owner].slot.Open?
  }

  /** A callback carries a removed entry; until it sends, that entry's channel is open. */
  ghost predicate PressOk(s: Relay) {
    forall i | 0 <= i < |s.presses| ::
      var p := s.presses[i];
      && p.entry.owner < |s.tasks| && p.entry.request == s.tasks[p.entry.owner].req
      && p.id == p.entry.request.requestId && p.entry.channelTs.Some?
      && (!p.stage.Sent? ==> s.tasks[p.entry.owner].slot.Open?)
      && Removal(p.entry.owner, ByPress(i)) in s.removals
  }

  /** An entry is removed at most once, and not while it is still in the map. */
  ghost predicate RemovalOk(s: Relay) {
    && (forall k | 0 <= k < |s.removals| ::
          && s.removals[k].owner < |s.tasks| && s.tasks[s.removals[k].owner].post.Registered?
          && !InMap(s, s.removals[k].owner)
          && (s.removals[k].remover.ByPress? ==> s.removals[k].remover.press < |s.presses|))
    && (forall j, k | 0 <= j < k < |s.removals| :: s.removals[j].owner != s.removals[k].owner)
  }

  /** An inserted entry is in the map or in the removal history. */
  ghost predicate Conserved(s: Relay) {
    forall t | 0 <= t < |s.tasks| && s.tasks[t].post.Registered? ::
      InMap(s, t) || Removed(s, t)
  }

  /** A task's channel is open exactly while somebody holds its sender. */
  ghost predicate SlotOk(s: Relay) {
    forall t | 0 <= t < |s.tasks| ::
      var task := s.tasks[t];
      && (task.post.NotPosted? || task.post.Posting? || task.post.PostAccepted? ==> task.slot.Open?)
      && (task.post.PostRejected? ==> task.slot.SenderGone?)
      && (task.phase.Received? ==> task.post.NotPosted?)
      && (task.post.Registered? && task.slot.Open? ==> InMap(s, t) || HeldByPress(s, t))
  }

  /** The terminal said yes to `req`, and `d` is the prompt's decision. */
  ghost predicate ApprovedOnCli(s: Relay, t: nat, d: ApprovalDecision)
    requires t < |s.tasks|
  {
    var task := s.tasks[t];
    && task.prompt.Finished? && task.prompt.result.Answered? && task.prompt.result.read.Line?
    && IsYesLine(task.prompt.result.read.text)
    && d == PromptSync(task.req, s.user, task.prompt.result.read, task.prompt.result.at)
  }

  /** Callback `i` pressed approve on the entry of task `t` no later than its expiry, and made `d`. */
  ghost predicate ApprovedByPress(s: Relay, t: nat, d: ApprovalDecision, i: nat)
    requires t < |s.tasks|
  {
    && i < |s.presses| && s.presses[i].entry.owner == t
    && s.presses[i].action == "approve" && s.presses[i].now <= s.tasks[t].req.expiresAt
    && d == PressDecision(s.presses[i])
  }

  /** `d` answers task `t`, and if it approves then a human did. */
  ghost predicate Justified(s: Relay, t: nat, d: ApprovalDecision)
    requires t < |s.tasks|
  {
    && d.requestId == s.tasks[t].req.requestId
    && (d.outcome == Approve ==> ApprovedOnCli(s, t, d) || exists i :: ApprovedByPress(s, t, d, i))
  }

  ghost predicate DecisionOk(s: Relay) {
    forall t | 0 <= t < |s.tasks| ::
      && (s.tasks[t].phase.HasDecision() ==> Justified(s, t, s.tasks[t].phase.decision))
      && (s.tasks[t].slot.Carrying? ==> Justified(s, t, s.tasks[t].slot.decision))
  }

  /** Deliveries are exactly the decisions of the done tasks, one each. */
  ghost predicate DeliveryOk(s: Relay) {
    && (forall k | 0 <= k < |s.deliveries| ::
          var d := s.deliveries[k];
          d.task < |s.tasks| && s.tasks[d.task].phase == Done(d.decision))
    && (forall j, k | 0 <= j < k < |s.deliveries| :: s.deliveries[j].task != s.deliveries[k].task)
    && (forall t | 0 <= t < |s.tasks| && s.tasks[t].phase.Done? ::
          Delivery(t, s.tasks[t].phase.decision) in s.deliveries)
  }

  /** A decision is in the audit log before it is delivered. */
  ghost predicate AuditOk(s: Relay) {
    forall t | 0 <= t < |s.tasks| && (s.tasks[t].phase.Logged? || s.tasks[t].phase.Done?) ::
      DecisionMade(s.tasks[t].phase.decision) in s.audit
  }

  /** The decision of whoever removed the entry. */
  ghost predicate IsRemoverOutcome(s: Relay, r: Remover, outcome: Outcome) {
    match r
    case ByPress(i) => i < |s.presses| && outcome == PressDecision(s.presses[i]).outcome
    case ByCli(t) => t < |s.tasks| && s.tasks[t].phase.HasDecision() && outcome == s.tasks[t].phase.decision.outcome
    case ByOverwrite(_) => false
  }

  /** No update has been attempted yet for the message of task `t`. */
  predicate NoUpdate(s: Relay, t: nat) {
    forall k | 0 <= k < |s.updates| :: s.updates[k].owner != t
  }

  /** A message is rewritten at most once, by the remover of its entry and with the remover's outcome. */
  ghost predicate UpdateOk(s: Relay) {
    && (forall k | 0 <= k < |s.updates| ::
          && IsRemoverOutcome(s, s.updates[k].remover, s.updates[k].outcome)
          && Removal(s.updates[k].owner, s.updates[k].remover) in s.removals)
    && (forall j, k | 0 <= j < k < |s.updates| :: s.updates[j].owner != s.updates[k].owner)
    && (forall i | 0 <= i < |s.presses| && (s.presses[i].stage.Claimed? || s.presses[i].stage.Audited?) ::
          NoUpdate(s, s.presses[i].entry.owner))
    && (forall t | 0 <= t < |s.tasks| && s.tasks[t].phase.Finalizing? ::
          && NoUpdate(s, s.tasks[t].phase.taken.owner)
          && Removal(s.tasks[t].phase.taken.owner, ByCli(t)) in s.removals)
  }

  ghost predicate Ledger(s: Relay) {
    PendingOk(s) && PressOk(s) && RemovalOk(s) && Conserved(s) && SlotOk(s)
  }

  ghost predicate Inv(s: Relay) {
    Ledger(s) && DecisionOk(s) && DeliveryOk(s) && AuditOk(s) && UpdateOk(s)
  }

  // ---------------------------------------------------------------- the ledger of senders

  /** Events that leave every sender where it is. */
  predicate LedgerQuiet(e: Event) {
    !e.PostFails? && !e.Register? && !e.TakeTs? && !e.Button? && !e.SendPress?
  }

  /** The stretch of `post_request` a task is in, as far as its sender is concerned. */
  predicate SamePost(p: Post, q: Post) {
    || (p.Registered? && q == p)
    || (p.PostRejected? && q.PostRejected?)
    || ((p.NotPosted? || p.Posting? || p.PostAccepted?) && (q.NotPosted? || q.Posting? || q.PostAccepted?))
  }

  predicate SamePress(p: Press, q: Press) {
    q == p.(stage := q.stage) && (p.stage.Sent? <==> q.stage.Sent?)
  }

  ghost predicate SameLedger(s: Relay, s': Relay) {
    && s'.pending == s.pending && s'.removals == s.removals
    && |s'.presses| == |s.presses|
    && (forall i | 0 <= i < |s.presses| :: SamePress(s.presses[i], s'.presses[i]))
    && |s.tasks| <= |s'.tasks|
    && (forall t | 0 <= t < |s.tasks| ::
          && s'.tasks[t].req == s.tasks[t].req && s'.tasks[t].slot == s.tasks[t].slot
          && SamePost(s.tasks[t].post, s'.tasks[t].post))
    && (forall t | |s.tasks| <= t < |s'.tasks| :: s'.tasks[t].post.NotPosted? && s'.tasks[t].slot.Open?)
    && (forall t | 0 <= t < |s'.tasks| :: s'.tasks[t].phase.Received? ==> s'.tasks[t].post.NotPosted?)
  }

  lemma QuietKeepsLedger(s: Relay, e: Event)
    requires LedgerQuiet(e) && SlotOk(s)
    ensures SameLedger(s, Next(s, e))
  {
    if !Enabled(s, e) || e.Receive? {
      ReceiveQuiet(s, e);
    } else if e.AuditPress? || e.FinalizePress? {
      StageQuiet(s, e);
      OnePressQuiet(s, Next(s, e), e.i);
    } else {
      TaskStepQuiet(s, e);
      OneTaskQuiet(s, Next(s, e), e.t);
    }
  }

  lemma ReceiveQuiet(s: Relay, e: Event)
    requires SlotOk(s) && (!Enabled(s, e) || e.Receive?)
    ensures SameLedger(s, Next(s, e))
  {}

  lemma StageQuiet(s: Relay, e: Event)
    requires Enabled(s, e) && (e.AuditPress? || e.FinalizePress?)
    ensures SameButForPress(s, Next(s, e), e.i)
  {}

  /** Only the stage of callback `i` changes, and it still holds its sender. */
  ghost predicate SameButForPress(s: Relay, s': Relay, i: nat) {
    && i < |s.presses| == |s'.presses| && s'.presses == s.presses[i := s'.presses[i]]
    && SamePress(s.presses[i], s'.presses[i])
    && s'.tasks == s.tasks && s'.pending == s.pending && s'.removals == s.removals
  }

  lemma OnePressQuiet(s: Relay, s': Relay, i: nat)
    requires SlotOk(s) && SameButForPress(s, s', i)
    ensures SameLedger(s, s')
  {}

  lemma OneTaskQuiet(s: Relay, s': Relay, t: nat)
    requires SlotOk(s) && SameButFor(s, s', t)
    ensures SameLedger(s, s')
  {}

  lemma TaskStepQuiet(s: Relay, e: Event)
    requires LedgerQuiet(e) && SlotOk(s) && Enabled(s, e) && !e.Receive? && !e.AuditPress? && !e.FinalizePress?
    ensures SameButFor(s, Next(s, e), e.t)
  {}

  /** Only task `t` changes, and its sender stays where it is. */
  ghost predicate SameButFor(s: Relay, s': Relay, t: nat) {
    && t < |s.tasks| == |s'.tasks| && s'.tasks == s.tasks[t := s'.tasks[t]]
    && s'.tasks[t].req == s.tasks[t].req && s'.tasks[t].slot == s.tasks[t].slot
    && SamePost(s.tasks[t].post, s'.tasks[t].post) && !s'.tasks[t].phase.Received?
    && s'.pending == s.pending && s'.presses == s.presses && s'.removals == s.removals
  }

  lemma SameLedgerA(s: Relay, s': Relay)
    requires PendingOk(s) && PressOk(s) && RemovalOk(s) && SameLedger(s, s')
    ensures PendingOk(s') && PressOk(s') && RemovalOk(s')
  {
    assert PendingOk(s') && PressOk(s');
  }

  lemma SameLedgerB(s: Relay, s': Relay)
    requires Conserved(s) && SlotOk(s) && SameLedger(s, s')
    ensures Conserved(s') && SlotOk(s')
  {
    forall t | 0 <= t < |s'.tasks| && s'.tasks[t].post.Registered?
      ensures InMap(s, t) ==> InMap(s', t)
      ensures Removed(s, t) ==> Removed(s', t)
      ensures HeldByPress(s, t) ==> HeldByPress(s', t)
    {
      StillRemoved(s, s', t);
      if HeldByPress(s, t) {
        var i :| InFlight(s, t, i);
        assert InFlight(s', t, i);
      }
    }
  }

  lemma StillRemoved(s: Relay, s': Relay, t: nat)
    requires s.removals <= s'.removals
    ensures Removed(s, t) ==> Removed(s', t)
  {
    if Removed(s, t) {
      var k :| RemovedAt(s, t, k);
      assert RemovedAt(s', t, k);
    }
  }

  lemma LedgerNext(s: Relay, e: Event)
    requires Ledger(s)
    ensures Ledger(Next(s, e))
  {
    if LedgerQuiet(e) {
      QuietKeepsLedger(s, e);
      SameLedgerA(s, Next(s, e));
      SameLedgerB(s, Next(s, e));
    } else if Enabled(s, e) {
      match e
      case PostFails(t) => PostFailsLedger(s, t);
      case Register(t) => RegisterLedger(s, t);
      case TakeTs(t) => TakeTsLedger(s, t);
      case Button(id, action, userId, messageTs, now) => ButtonLedger(s, id, action, userId, messageTs, now);
      case SendPress(i) => SendPressLedger(s, i);
    }
  }

  lemma PostFailsLedger(s: Relay, t: nat)
    requires Ledger(s) && Enabled(s, PostFails(t))
    ensures Ledger(Next(s, PostFails(t)))
  {
    var s' := Next(s, PostFails(t));
    forall u | 0 <= u < |s.tasks| && s'.tasks[u].post.Registered?
      ensures InMap(s, u) ==> InMap(s', u)
      ensures Removed(s, u) ==> Removed(s', u)
      ensures HeldByPress(s, u) ==> HeldByPress(s', u)
    {
      StillRemoved(s, s', u);
      if HeldByPress(s, u) {
        var i :| InFlight(s, u, i);
        assert InFlight(s', u, i);
      }
    }
    assert PendingOk(s') && PressOk(s');
    assert RemovalOk(s');
  }

  /** Taking the entry under `id` out of the map and dropping its sender. */
  function Retire(s: Relay, id: Uuid, r: Remover): Relay
    requires id in s.pending
  {
    var u := s.pending[id].owner;
    s.(tasks := DropSender(s.tasks, u), pending := s.pending - {id}, removals := s.removals + [Removal(u, r)])
  }

  lemma RetireLedger(s: Relay, id: Uuid, r: Remover)
    requires Ledger(s) && id in s.pending && !r.ByPress?
    ensures Ledger(Retire(s, id, r))
  {
    var s' := Retire(s, id, r);
    var u := s.pending[id].owner;
    assert InMap(s, u);
    assert RemovedAt(s', u, |s.removals|);
    forall t | 0 <= t < |s.tasks|
      ensures InMap(s', t) <==> InMap(s, t) && t != u
      ensures Removed(s, t) ==> Removed(s', t)
      ensures t != u && HeldByPress(s, t) ==> HeldByPress(s', t)
    {
      StillRemoved(s, s', t);
      if HeldByPress(s, t) {
        var i :| InFlight(s, t, i);
        assert InFlight(s', t, i);
      }
    }
    assert PendingOk(s');
    RetirePresses(s, id, r);
    assert RemovalOk(s');
  }

  /** A sender in the map is not also held by a callback. */
  lemma RetirePresses(s: Relay, id: Uuid, r: Remover)
    requires PendingOk(s) && PressOk(s) && RemovalOk(s) && id in s.pending
    ensures PressOk(Retire(s, id, r))
  {
    var u := s.pending[id].owner;
    assert InMap(s, u);
    forall i | 0 <= i < |s.presses|
      ensures s.presses[i].entry.owner != u
    {
      assert Removal(s.presses[i].entry.owner, ByPress(i)) in s.removals;
      var k :| 0 <= k < |s.removals| && s.removals[k] == Removal(s.presses[i].entry.owner, ByPress(i));
    }
  }

  /** Storing a fresh entry for task `t` under a free id. */
  function Insert(s: Relay, t: nat): Relay
    requires Enabled(s, Register(t))
  {
    var task := s.tasks[t];
    s.(tasks := s.tasks[t := task.(post := Registered(task.post.ts))],
       pending := s.pending[task.req.requestId := Pending(t, task.req, Some(task.post.ts))])
  }

  lemma InsertLedger(s: Relay, t: nat)
    requires Ledger(s) && Enabled(s, Register(t)) && s.tasks[t].req.requestId !in s.pending
    ensures Ledger(Insert(s, t))
  {
    var s' := Insert(s, t);
    forall u | 0 <= u < |s.tasks|
      ensures InMap(s', u) <==> InMap(s, u) || u == t
      ensures Removed(s, u) ==> Removed(s', u)
      ensures HeldByPress(s, u) ==> HeldByPress(s', u)
    {
      StillRemoved(s, s', u);
      if HeldByPress(s, u) {
        var i :| InFlight(s, u, i);
        assert InFlight(s', u, i);
      }
    }
    assert PendingOk(s') && PressOk(s');
    assert RemovalOk(s');
  }

  lemma DropElsewhere(tasks: seq<Task>, t: nat, u: nat, task: Task)
    requires t < |tasks| && u != t
    ensures DropSender(tasks[t := task], u) == DropSender(tasks, u)[t := task]
  {}

  /** Overwriting an entry is taking it out, and storing the new one. */
  lemma OverwriteSplits(s: Relay, t: nat)
    requires PendingOk(s) && Enabled(s, Register(t)) && s.tasks[t].req.requestId in s.pending
    ensures Enabled(Retire(s, s.tasks[t].req.requestId, ByOverwrite(t)), Register(t))
    ensures Next(s, Register(t)) == Insert(Retire(s, s.tasks[t].req.requestId, ByOverwrite(t)), t)
  {
    var task := s.tasks[t];
    var id := task.req.requestId;
    var entry := Pending(t, task.req, Some(task.post.ts));
    DropElsewhere(s.tasks, t, s.pending[id].owner, task.(post := Registered(task.post.ts)));
    assert s.pending[id := entry] == (s.pending - {id})[id := entry];
  }

  lemma RegisterLedger(s: Relay, t: nat)
    requires Ledger(s) && Enabled(s, Register(t))
    ensures Ledger(Next(s, Register(t)))
  {
    var id := s.tasks[t].req.requestId;
    if id in s.pending {
      RetireLedger(s, id, ByOverwrite(t));
      InsertLedger(Retire(s, id, ByOverwrite(t)), t);
      OverwriteSplits(s, t);
    } else {
      InsertLedger(s, t);
    }
  }

  lemma TakeTsLedger(s: Relay, t: nat)
    requires Ledger(s) && Enabled(s, TakeTs(t))
    ensures Ledger(Next(s, TakeTs(t)))
  {
    var id := s.tasks[t].req.requestId;
    var d := s.tasks[t].phase.decision;
    var phase := if id in s.pending && s.pending[id].channelTs.Some?
                 then Finalizing(d, s.pending[id], s.pending[id].channelTs.value) else Decided(d);
    var s1 := SetTask(s, t, s.tasks[t].(phase := phase));
    SameLedgerA(s, s1);
    SameLedgerB(s, s1);
    if id in s.pending {
      RetireLedger(s1, id, ByCli(t));
    }
  }

  lemma ButtonLedger(s: Relay, id: Uuid, action: string, userId: string, messageTs: string, now: Time)
    requires Ledger(s) && id in s.pending
    ensures Ledger(Next(s, Button(id, action, userId, messageTs, now)))
  {
    var s' := Next(s, Button(id, action, userId, messageTs, now));
    var u := s.pending[id].owner;
    assert InMap(s, u);
    assert RemovedAt(s', u, |s.removals|);
    assert InFlight(s', u, |s.presses|);
    forall t | 0 <= t < |s.tasks|
      ensures InMap(s', t) <==> InMap(s, t) && t != u
      ensures Removed(s, t) ==> Removed(s', t)
      ensures HeldByPress(s, t) ==> HeldByPress(s', t)
    {
      StillRemoved(s, s', t);
      if HeldByPress(s, t) {
        var i :| InFlight(s, t, i);
        assert InFlight(s', t, i);
      }
    }
    ButtonMap(s, id, action, userId, messageTs, now);
  }

  lemma ButtonMap(s: Relay, id: Uuid, action: string, userId: string, messageTs: string, now: Time)
    requires Ledger(s) && id in s.pending
    ensures var s' := Next(s, Button(id, action, userId, messageTs, now)); PendingOk(s') && PressOk(s') && RemovalOk(s')
  {
    var s' := Next(s, Button(id, action, userId, messageTs, now));
    var u := s.pending[id].owner;
    assert InMap(s, u);
    assert PendingOk(s');
    assert s'.removals[|s.removals|] == Removal(u, ByPress(|s.presses|));
    assert PressOk(s');
    assert RemovalOk(s');
  }

  lemma SendPressLedger(s: Relay, i: nat)
    requires Ledger(s) && Enabled(s, SendPress(i))
    ensures Ledger(Next(s, SendPress(i)))
  {
    OnePressEach(s, i);
    SendPressMap(s, i);
    SendPressSlots(s, i);
  }

  lemma SendPressMap(s: Relay, i: nat)
    requires PendingOk(s) && PressOk(s) && RemovalOk(s) && Enabled(s, SendPress(i))
    requires !InMap(s, s.presses[i].entry.owner)
    requires forall j | 0 <= j < |s.presses| && j != i :: s.presses[j].entry.owner != s.presses[i].entry.owner
    ensures var s' := Next(s, SendPress(i)); PendingOk(s') && PressOk(s') && RemovalOk(s')
  {
    var s' := Next(s, SendPress(i));
    assert PendingOk(s') && RemovalOk(s');
  }

  lemma SendPressSlots(s: Relay, i: nat)
    requires PressOk(s) && Conserved(s) && SlotOk(s) && Enabled(s, SendPress(i))
    requires s.tasks[s.presses[i].entry.owner].post.Registered?
    ensures var s' := Next(s, SendPress(i)); Conserved(s') && SlotOk(s')
  {
    var s' := Next(s, SendPress(i));
    var u := s.presses[i].entry.owner;
    forall t | 0 <= t < |s.tasks|
      ensures Removed(s, t) ==> Removed(s', t)
      ensures t != u && HeldByPress(s, t) ==> HeldByPress(s', t)
    {
      StillRemoved(s, s', t);
      if t != u && HeldByPress(s, t) {
        var j :| InFlight(s, t, j);
        assert InFlight(s', t, j);
      }
    }
  }

  /** Two callbacks never hold entries of the same task. */
  lemma OnePressEach(s: Relay, i: nat)
    requires PressOk(s) && RemovalOk(s) && i < |s.presses|
    ensures !InMap(s, s.presses[i].entry.owner) && s.tasks[s.presses[i].entry.owner].post.Registered?
    ensures forall j | 0 <= j < |s.presses| && j != i :: s.presses[j].entry.owner != s.presses[i].entry.owner
  {
    assert Removal(s.presses[i].entry.owner, ByPress(i)) in s.removals;
    var k :| 0 <= k < |s.removals| && s.removals[k] == Removal(s.presses[i].entry.owner, ByPress(i));
    forall j | 0 <= j < |s.presses| && j != i
      ensures s.presses[j].entry.owner != s.presses[i].entry.owner
    {
      assert Removal(s.presses[j].entry.owner, ByPress(j)) in s.removals;
      var k' :| 0 <= k' < |s.removals| && s.removals[k'] == Removal(s.presses[j].entry.owner, ByPress(j));
    }
  }

  // ---------------------------------------------------------------- decisions and their causes

  /** What the three descriptions of one step say together. */
  ghost predicate StepShape(s: Relay, e: Event, s': Relay) {
    TasksStep(s, e, s') && PressesStep(s, e, s') && RecordsStep(s, e, s')
  }

  lemma NextShape(s: Relay, e: Event)
    ensures StepShape(s, e, Next(s, e))
  {
    TasksShape(s, e);
    PressesShape(s, e);
    RecordsShape(s, e);
  }

  /** Prompt answers, callbacks and histories, once there, stay as they are. */
  ghost predicate EvidenceGrows(s: Relay, s': Relay) {
    TasksGrow(s, s') && HistoriesGrow(s, s')
  }

  ghost predicate TasksGrow(s: Relay, s': Relay) {
    && s'.user == s.user && s'.slackOn == s.slackOn && |s.tasks| <= |s'.tasks|
    && (forall t | 0 <= t < |s.tasks| ::
          && s'.tasks[t].req == s.tasks[t].req
          && (s.tasks[t].prompt.Finished? ==> s'.tasks[t].prompt == s.tasks[t].prompt))
  }

  ghost predicate HistoriesGrow(s: Relay, s': Relay) {
    && |s.presses| <= |s'.presses|
    && (forall i | 0 <= i < |s.presses| :: s'.presses[i] == s.presses[i].(stage := s'.presses[i].stage))
    && s.removals <= s'.removals && s.updates <= s'.updates
    && s.audit <= s'.audit && s.deliveries <= s'.deliveries
  }

  lemma EvidenceNext(s: Relay, e: Event)
    ensures EvidenceGrows(s, Next(s, e))
  {
    NextShape(s, e);
    ShapeGrows(s, e, Next(s, e));
  }

  lemma ShapeGrows(s: Relay, e: Event, s': Relay)
    requires StepShape(s, e, s')
    ensures EvidenceGrows(s, s')
  {}

  lemma JustifiedGrows(s: Relay, s': Relay, t: nat, d: ApprovalDecision)
    requires EvidenceGrows(s, s') && t < |s.tasks| && Justified(s, t, d)
    ensures Justified(s', t, d)
  {
    if d.outcome == Approve && !ApprovedOnCli(s, t, d) {
      var i :| ApprovedByPress(s, t, d, i);
      assert ApprovedByPress(s', t, d, i);
    }
  }

  /** The decision that a `select!` branch fixes. */
  ghost predicate Chosen(s: Relay, e: Event, s': Relay) {
    Enabled(s, e) && (e.SelectCli? || e.SelectSlack?) ==>
      && |s'.tasks| == |s.tasks| && s'.tasks[e.t].phase.HasDecision() && !s'.tasks[e.t].phase.Finalizing?
      && !s'.tasks[e.t].listening && s'.tasks[e.t].slot == s.tasks[e.t].slot
      && (e.SelectSlack? ==> s'.tasks[e.t].phase.Decided?)
      && s'.tasks[e.t].winner == (if e.SelectCli? then CliBranch else SlackBranch)
      && s'.tasks[e.t].phase.decision ==
         if e.SelectCli? then CliDecision(s.tasks[e.t].req, s.user, s.slackOn, s.tasks[e.t].prompt.result, e.now)
         else if s.tasks[e.t].slot.Carrying? then s.tasks[e.t].slot.decision
         else SystemDenial(s.tasks[e.t].req.requestId, "Slack channel closed", e.now)
  }

  lemma NextChosen(s: Relay, e: Event)
    ensures Chosen(s, e, Next(s, e))
  {}

  lemma ChosenJustified(s: Relay, e: Event, s': Relay)
    requires DecisionOk(s) && Enabled(s, e) && (e.SelectCli? || e.SelectSlack?)
    requires Chosen(s, e, s') && StepShape(s, e, s')
    ensures Justified(s', e.t, s'.tasks[e.t].phase.decision)
  {
    var task := s.tasks[e.t];
    if e.SelectCli? {
      if task.prompt.result.Answered? {
        PromptApprovesExactly(task.req, s.user, task.prompt.result.read, task.prompt.result.at);
      }
    } else if task.slot.Carrying? {
      ShapeGrows(s, e, s');
      JustifiedGrows(s, s', e.t, task.slot.decision);
    }
  }

  lemma SendJustified(s: Relay, e: Event, s': Relay, t: nat)
    requires PressOk(s) && SendsTo(s, e, t) && StepShape(s, e, s')
    ensures t < |s.tasks| && Justified(s', t, PressDecision(s.presses[e.i]))
  {
    assert PressDecision(s'.presses[e.i]) == PressDecision(s.presses[e.i]);
    if PressDecision(s.presses[e.i]).outcome == Approve {
      assert ApprovedByPress(s', t, PressDecision(s.presses[e.i]), e.i);
    }
  }

  lemma DecisionStands(s: Relay, e: Event, s': Relay, t: nat)
    requires DecisionOk(s) && StepShape(s, e, s') && Chosen(s, e, s')
    requires t < |s'.tasks| && s'.tasks[t].phase.HasDecision()
    ensures Justified(s', t, s'.tasks[t].phase.decision)
  {
    ShapeGrows(s, e, s');
    assert t < |s.tasks| && TaskStep(s, e, t, s.tasks[t], s'.tasks[t]);
    if s.tasks[t].phase.HasDecision() {
      JustifiedGrows(s, s', t, s.tasks[t].phase.decision);
    } else {
      ChosenJustified(s, e, s');
    }
  }

  lemma CarriedStands(s: Relay, e: Event, s': Relay, t: nat)
    requires DecisionOk(s) && PressOk(s) && StepShape(s, e, s')
    requires t < |s'.tasks| && s'.tasks[t].slot.Carrying?
    ensures Justified(s', t, s'.tasks[t].slot.decision)
  {
    ShapeGrows(s, e, s');
    assert t < |s.tasks| && TaskStep(s, e, t, s.tasks[t], s'.tasks[t]);
    if s'.tasks[t].slot == s.tasks[t].slot {
      JustifiedGrows(s, s', t, s.tasks[t].slot.decision);
    } else {
      SendJustified(s, e, s', t);
    }
  }

  lemma DecisionOkNext(s: Relay, e: Event, s': Relay)
    requires DecisionOk(s) && PressOk(s) && StepShape(s, e, s') && Chosen(s, e, s')
    ensures DecisionOk(s')
  {
    forall t | 0 <= t < |s'.tasks|
      ensures s'.tasks[t].phase.HasDecision() ==> Justified(s', t, s'.tasks[t].phase.decision)
      ensures s'.tasks[t].slot.Carrying? ==> Justified(s', t, s'.tasks[t].slot.decision)
    {
      if s'.tasks[t].phase.HasDecision() {
        DecisionStands(s, e, s', t);
      }
      if s'.tasks[t].slot.Carrying? {
        CarriedStands(s, e, s', t);
      }
    }
  }

  /** What one step does to the deliveries and the audit log of final decisions. */
  ghost predicate Answers(s: Relay, e: Event, s': Relay) {
    && (if e.Deliver? && Enabled(s, e) then
          && |s'.tasks| == |s.tasks| && s'.tasks[e.t].phase == Done(s.tasks[e.t].phase.decision)
          && s'.deliveries == s.deliveries + [Delivery(e.t, s.tasks[e.t].phase.decision)]
        else s'.deliveries == s.deliveries)
    && (e.LogDecision? && Enabled(s, e) ==>
          s'.audit == s.audit + [DecisionMade(s.tasks[e.t].phase.decision)])
  }

  lemma NextAnswers(s: Relay, e: Event)
    ensures Answers(s, e, Next(s, e))
  {}

  lemma DeliveryOkNext(s: Relay, e: Event, s': Relay)
    requires DeliveryOk(s) && TasksStep(s, e, s') && Answers(s, e, s')
    ensures DeliveryOk(s')
  {
    if e.Deliver? && Enabled(s, e) {
      DeliveryMade(s, e, s');
    } else {
      DeliveriesStand(s, e, s');
    }
  }

  lemma DeliveryMade(s: Relay, e: Event, s': Relay)
    requires DeliveryOk(s) && TasksStep(s, e, s') && Answers(s, e, s') && e.Deliver? && Enabled(s, e)
    ensures DeliveryOk(s')
  {
    assert s'.deliveries[|s.deliveries|] == Delivery(e.t, s.tasks[e.t].phase.decision);
    forall t | 0 <= t < |s'.tasks| && s'.tasks[t].phase.Done?
      ensures Delivery(t, s'.tasks[t].phase.decision) in s'.deliveries
    {
      if t != e.t {
        assert s.tasks[t].phase == s'.tasks[t].phase;
        assert Delivery(t, s'.tasks[t].phase.decision) in s.deliveries;
      }
    }
  }

  lemma DeliveriesStand(s: Relay, e: Event, s': Relay)
    requires DeliveryOk(s) && TasksStep(s, e, s') && s'.deliveries == s.deliveries
    requires !(e.Deliver? && Enabled(s, e))
    ensures DeliveryOk(s')
  {
    forall t | 0 <= t < |s'.tasks|
      ensures t < |s.tasks| && s.tasks[t].phase.Done? ==> s'.tasks[t].phase == s.tasks[t].phase
      ensures s'.tasks[t].phase.Done? ==> t < |s.tasks| && s'.tasks[t].phase == s.tasks[t].phase
    {
      assert t < |s.tasks| ==> TaskStep(s, e, t, s.tasks[t], s'.tasks[t]);
    }
    DoneStands(s, s');
  }

  lemma DoneStands(s: Relay, s': Relay)
    requires DeliveryOk(s) && s'.deliveries == s.deliveries && |s.tasks| <= |s'.tasks|
    requires forall t | 0 <= t < |s.tasks| && s.tasks[t].phase.Done? :: s'.tasks[t].phase == s.tasks[t].phase
    requires forall t | 0 <= t < |s'.tasks| && s'.tasks[t].phase.Done? ::
      t < |s.tasks| && s'.tasks[t].phase == s.tasks[t].phase
    ensures DeliveryOk(s')
  {}

  lemma AuditOkNext(s: Relay, e: Event, s': Relay)
    requires AuditOk(s) && TasksStep(s, e, s') && RecordsStep(s, e, s') && Answers(s, e, s')
    ensures AuditOk(s')
  {
    forall t | 0 <= t < |s'.tasks| && (s'.tasks[t].phase.Logged? || s'.tasks[t].phase.Done?)
      ensures DecisionMade(s'.tasks[t].phase.decision) in s'.audit
    {
      assert t < |s.tasks| && TaskStep(s, e, t, s.tasks[t], s'.tasks[t]);
      if s.tasks[t].phase.Decided? {
        assert s'.audit[|s.audit|] == DecisionMade(s'.tasks[t].phase.decision);
      } else {
        assert DecisionMade(s.tasks[t].phase.decision) in s.audit;
      }
    }
  }

  // ---------------------------------------------------------------- rewriting the Slack message

  lemma RemoverUnique(s: Relay, u: nat, r1: Remover, r2: Remover)
    requires RemovalOk(s) && Removal(u, r1) in s.removals && Removal(u, r2) in s.removals
    ensures r1 == r2
  {
    var j :| 0 <= j < |s.removals| && s.removals[j] == Removal(u, r1);
    var k :| 0 <= k < |s.removals| && s.removals[k] == Removal(u, r2);
  }

  /** The message of a task whose entry is in the map has not been touched. */
  lemma PendingUntouched(s: Relay, id: Uuid)
    requires PendingOk(s) && RemovalOk(s) && UpdateOk(s) && id in s.pending
    ensures NoUpdate(s, s.pending[id].owner)
  {
    assert InMap(s, s.pending[id].owner);
    forall k | 0 <= k < |s.updates|
      ensures s.updates[k].owner != s.pending[id].owner
    {
      assert Removal(s.updates[k].owner, s.updates[k].remover) in s.removals;
      var j :| 0 <= j < |s.removals| && s.removals[j] == Removal(s.updates[k].owner, s.updates[k].remover);
    }
  }

  lemma OutcomeStands(s: Relay, e: Event, s': Relay, r: Remover, outcome: Outcome)
    requires IsRemoverOutcome(s, r, outcome) && TasksStep(s, e, s') && PressesStep(s, e, s')
    ensures IsRemoverOutcome(s', r, outcome)
  {}

  /** What a step that rewrites a message does. */
  ghost predicate IsNewUpdate(s: Relay, s': Relay, u: Update) {
    && s'.updates == s.updates + [u]
    && IsRemoverOutcome(s', u.remover, u.outcome)
    && Removal(u.owner, u.remover) in s'.removals && NoUpdate(s, u.owner)
    && match u.remover
       case ByPress(i) => !s'.presses[i].stage.Claimed? && !s'.presses[i].stage.Audited?
       case ByCli(t) => !s'.tasks[t].phase.Finalizing?
       case ByOverwrite(_) => false
  }

  ghost predicate UpdateStep(s: Relay, s': Relay) {
    || s'.updates == s.updates
    || (|s'.updates| == |s.updates| + 1 && IsNewUpdate(s, s', s'.updates[|s.updates|]))
  }

  lemma NextUpdate(s: Relay, e: Event)
    requires UpdateOk(s) && PressOk(s)
    ensures UpdateStep(s, Next(s, e))
  {
    if Enabled(s, e) && e.FinalizeByCli? {
      CliUpdates(s, e.t, e.ok);
    } else if Enabled(s, e) && e.FinalizePress? {
      PressUpdates(s, e.i, e.ok);
    } else {
      OthersUpdateNothing(s, e);
    }
  }

  lemma CliUpdates(s: Relay, t: nat, ok: bool)
    requires UpdateOk(s) && Enabled(s, FinalizeByCli(t, ok))
    ensures UpdateStep(s, Next(s, FinalizeByCli(t, ok)))
  {
    var s' := Next(s, FinalizeByCli(t, ok));
    assert IsNewUpdate(s, s', s'.updates[|s.updates|]);
  }

  lemma PressUpdates(s: Relay, i: nat, ok: bool)
    requires UpdateOk(s) && PressOk(s) && Enabled(s, FinalizePress(i, ok))
    ensures UpdateStep(s, Next(s, FinalizePress(i, ok)))
  {
    var s' := Next(s, FinalizePress(i, ok));
    assert PressDecision(s'.presses[i]) == PressDecision(s.presses[i]);
    assert IsNewUpdate(s, s', s'.updates[|s.updates|]);
  }

  lemma OthersUpdateNothing(s: Relay, e: Event)
    requires !(Enabled(s, e) && (e.FinalizeByCli? || e.FinalizePress?))
    ensures Next(s, e).updates == s.updates
  {}

  /** After a step, a message still to be rewritten by `r` has not been rewritten. */
  lemma StillUntouched(s: Relay, s': Relay, owner: nat, r: Remover)
    requires UpdateStep(s, s') && RemovalOk(s') && NoUpdate(s, owner)
    requires Removal(owner, r) in s'.removals
    requires match r
      case ByPress(i) => i < |s'.presses| && (s'.presses[i].stage.Claimed? || s'.presses[i].stage.Audited?)
      case ByCli(t) => t < |s'.tasks| && s'.tasks[t].phase.Finalizing?
      case ByOverwrite(_) => false
    ensures NoUpdate(s', owner)
  {
    if s'.updates != s.updates {
      var u := s'.updates[|s.updates|];
      if u.owner == owner {
        RemoverUnique(s', owner, r, u.remover);
        assert false;
      }
    }
  }

  lemma UpdateHistory(s: Relay, e: Event, s': Relay)
    requires UpdateOk(s) && StepShape(s, e, s') && UpdateStep(s, s')
    ensures forall k | 0 <= k < |s'.updates| ::
      && IsRemoverOutcome(s', s'.updates[k].remover, s'.updates[k].outcome)
      && Removal(s'.updates[k].owner, s'.updates[k].remover) in s'.removals
    ensures forall j, k | 0 <= j < k < |s'.updates| :: s'.updates[j].owner != s'.updates[k].owner
  {
    forall k | 0 <= k < |s.updates|
      ensures IsRemoverOutcome(s', s'.updates[k].remover, s'.updates[k].outcome)
      ensures Removal(s'.updates[k].owner, s'.updates[k].remover) in s'.removals
    {
      OutcomeStands(s, e, s', s.updates[k].remover, s.updates[k].outcome);
      assert Removal(s.updates[k].owner, s.updates[k].remover) in s.removals;
    }
  }

  /** The callbacks before their `finalize_resolution` have untouched messages. */
  lemma PressUntouched(s: Relay, e: Event, s': Relay, i: nat)
    requires Inv(s) && StepShape(s, e, s') && UpdateStep(s, s') && PressOk(s') && RemovalOk(s')
    requires i < |s'.presses| && (s'.presses[i].stage.Claimed? || s'.presses[i].stage.Audited?)
    ensures NoUpdate(s', s'.presses[i].entry.owner)
  {
    if i < |s.presses| {
      assert PressStep(e, i, s.presses[i], s'.presses[i]);
    } else {
      PendingUntouched(s, e.id);
    }
    StillUntouched(s, s', s'.presses[i].entry.owner, ByPress(i));
  }

  /** What the terminal branch takes out of the map. */
  ghost predicate Taken(s: Relay, e: Event, s': Relay) {
    e.TakeTs? && Enabled(s, e) && e.t < |s'.tasks| && s'.tasks[e.t].phase.Finalizing? ==>
      && NoUpdate(s, s'.tasks[e.t].phase.taken.owner)
      && Removal(s'.tasks[e.t].phase.taken.owner, ByCli(e.t)) in s'.removals
  }

  lemma NextTaken(s: Relay, e: Event)
    requires PendingOk(s) && RemovalOk(s) && UpdateOk(s)
    ensures Taken(s, e, Next(s, e))
  {
    if e.TakeTs? && Enabled(s, e) && Next(s, e).tasks[e.t].phase.Finalizing? {
      TakenUntouched(s, e.t);
    }
  }

  lemma TakenUntouched(s: Relay, t: nat)
    requires PendingOk(s) && RemovalOk(s) && UpdateOk(s)
    requires Enabled(s, TakeTs(t)) && Next(s, TakeTs(t)).tasks[t].phase.Finalizing?
    ensures var s' := Next(s, TakeTs(t)); var owner := s'.tasks[t].phase.taken.owner;
      NoUpdate(s, owner) && Removal(owner, ByCli(t)) in s'.removals
  {
    var s' := Next(s, TakeTs(t));
    var id := s.tasks[t].req.requestId;
    assert s'.tasks[t].phase.taken == s.pending[id];
    PendingUntouched(s, id);
    assert s'.removals[|s.removals|] == Removal(s.pending[id].owner, ByCli(t));
  }

  /** So have the terminal branches about to finalise. */
  lemma CliUntouched(s: Relay, e: Event, s': Relay, t: nat)
    requires UpdateOk(s) && StepShape(s, e, s') && UpdateStep(s, s') && Taken(s, e, s') && RemovalOk(s')
    requires t < |s'.tasks| && s'.tasks[t].phase.Finalizing?
    ensures NoUpdate(s', s'.tasks[t].phase.taken.owner)
    ensures Removal(s'.tasks[t].phase.taken.owner, ByCli(t)) in s'.removals
  {
    assert t < |s.tasks| && TaskStep(s, e, t, s.tasks[t], s'.tasks[t]);
    if s'.tasks[t].phase == s.tasks[t].phase {
      assert Removal(s'.tasks[t].phase.taken.owner, ByCli(t)) in s.removals;
    }
    StillUntouched(s, s', s'.tasks[t].phase.taken.owner, ByCli(t));
  }

  lemma UpdateOkNext(s: Relay, e: Event, s': Relay)
    requires Inv(s) && StepShape(s, e, s') && UpdateStep(s, s') && Taken(s, e, s') && Ledger(s')
    ensures UpdateOk(s')
  {
    UpdateHistory(s, e, s');
    forall i | 0 <= i < |s'.presses| && (s'.presses[i].stage.Claimed? || s'.presses[i].stage.Audited?)
      ensures NoUpdate(s', s'.presses[i].entry.owner)
    {
      PressUntouched(s, e, s', i);
    }
    forall t | 0 <= t < |s'.tasks| && s'.tasks[t].phase.Finalizing?
      ensures NoUpdate(s', s'.tasks[t].phase.taken.owner)
      ensures Removal(s'.tasks[t].phase.taken.owner, ByCli(t)) in s'.removals
    {
      CliUntouched(s, e, s', t);
    }
  }

  /** One step keeps the invariant. */
  lemma InvNext(s: Relay, e: Event)
    requires Inv(s)
    ensures Inv(Next(s, e))
  {
    NextShape(s, e);
    NextChosen(s, e);
    NextAnswers(s, e);
    NextUpdate(s, e);
    NextTaken(s, e);
    LedgerNext(s, e);
    InvStands(s, e, Next(s, e));
  }

  lemma InvStands(s: Relay, e: Event, s': Relay)
    requires Inv(s) && StepShape(s, e, s') && Chosen(s, e, s') && Answers(s, e, s') && UpdateStep(s, s')
    requires Taken(s, e, s') && Ledger(s')
    ensures Inv(s')
  {
    DecisionOkNext(s, e, s');
    DeliveryOkNext(s, e, s');
    AuditOkNext(s, e, s');
    UpdateOkNext(s, e, s');
  }
}
