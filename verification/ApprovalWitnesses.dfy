/** Runs that show what the relay does not promise. */
module ApprovalWitnesses {
  import opened Text
  import opened ApprovalTypes
  import opened ApprovalProtocol

  lemma Extend(s: Relay, trace: seq<Event>, e: Event) returns (r: seq<Event>)
    ensures r == trace + [e] && Exec(s, r) == Next(Exec(s, trace), e)
  {
    r := trace + [e];
    ExecSnoc(s, trace, e);
  }

  /** The state of a relay that received `tasks` and in which nothing was taken, shown or delivered yet. */
  function Waits(slackOn: bool, user: string, tasks: seq<Task>, pending: map<Uuid, Pending>, audit: seq<AuditEvent>)
    : Relay
  {
    Relay(slackOn, user, tasks, pending, [], audit, [], [], [])
  }

  // ---------------------------------------------------------------- the answer of a single request

  /** Task 0 waits for its prompt. */
  function Started(req: ApprovalRequest, user: string, slackOn: bool): Relay {
    var post := if slackOn then Posting else NotPosted;
    Waits(slackOn, user, [Task(req, Waiting, Undecided, Prompting, post, Open, true)], map[],
      [RequestCreated(req.requestId)])
  }

  lemma Starts(req: ApprovalRequest, user: string, slackOn: bool) returns (trace: seq<Event>)
    ensures Exec(Initial(slackOn, user), trace) == Started(req, user, slackOn)
    ensures trace == [Receive(req), Start(0)]
  {
    var s0 := Initial(slackOn, user);
    trace := Extend(s0, [], Receive(req));
    trace := Extend(s0, trace, Start(0));
    assert Exec(s0, trace).tasks == Started(req, user, slackOn).tasks;
  }

  /** The terminal answers task 0 and wins its race. */
  lemma TerminalWins(s: Relay, read: ReadResult, at: Time)
    requires |s.tasks| == 1 && s.tasks[0].phase.Waiting? && s.tasks[0].prompt.Prompting?
    ensures var d := PromptSync(s.tasks[0].req, s.user, read, at);
      var s' := Next(Next(s, PromptReturns(0, Answered(read, at))), SelectCli(0, at));
      s' == s.(tasks := [s.tasks[0].(phase := if s.slackOn then CliWon(d) else Decided(d), winner := CliBranch,
                                     prompt := Finished(Answered(read, at)), listening := false)])
  {
    var s1 := Next(s, PromptReturns(0, Answered(read, at)));
    assert s1.tasks == [s.tasks[0].(prompt := Finished(Answered(read, at)))];
    SelectsTerminal(s1, at);
  }

  lemma SelectsTerminal(s: Relay, now: Time)
    requires |s.tasks| == 1 && s.tasks[0].phase.Waiting? && s.tasks[0].prompt.Finished?
    ensures var d := CliDecision(s.tasks[0].req, s.user, s.slackOn, s.tasks[0].prompt.result, now);
      Next(s, SelectCli(0, now)) ==
        s.(tasks := [s.tasks[0].(phase := if s.slackOn then CliWon(d) else Decided(d), winner := CliBranch,
                                 listening := false)])
  {
    assert Next(s, SelectCli(0, now)).tasks == [Next(s, SelectCli(0, now)).tasks[0]];
  }

  /** Without an entry to take, the terminal branch goes on with its decision. */
  lemma TakesNothing(s: Relay, d: ApprovalDecision)
    requires |s.tasks| == 1 && (s.tasks[0].phase == CliWon(d) || s.tasks[0].phase == Decided(d))
    requires s.tasks[0].req.requestId !in s.pending
    ensures Next(s, TakeTs(0)) == s.(tasks := [s.tasks[0].(phase := Decided(d))])
  {
    assert Next(s, TakeTs(0)).tasks == [s.tasks[0].(phase := Decided(d))];
  }

  lemma AnswersIt(s: Relay, d: ApprovalDecision)
    requires |s.tasks| == 1 && s.tasks[0].phase == Decided(d)
    ensures Next(Next(s, LogDecision(0)), Deliver(0)) ==
      s.(tasks := [s.tasks[0].(phase := Done(d))], audit := s.audit + [DecisionMade(d)],
         deliveries := s.deliveries + [Delivery(0, d)])
  {
    var s1 := Next(s, LogDecision(0));
    assert s1 == s.(tasks := [s.tasks[0].(phase := Logged(d))], audit := s.audit + [DecisionMade(d)]);
    assert Next(s1, Deliver(0)).tasks == [s.tasks[0].(phase := Done(d))];
  }

  /** Once the terminal has won and no entry is left to take, its decision is logged and delivered. */
  lemma DeliverAnswer(s0: Relay, first: seq<Event>, s: Relay, d: ApprovalDecision) returns (trace: seq<Event>)
    requires s == Exec(s0, first) && |s.tasks| == 1 && (s.tasks[0].phase == CliWon(d) || s.tasks[0].phase == Decided(d))
    requires s.tasks[0].req.requestId !in s.pending
    ensures Exec(s0, trace) ==
      s.(tasks := [s.tasks[0].(phase := Done(d))], audit := s.audit + [DecisionMade(d)],
         deliveries := s.deliveries + [Delivery(0, d)])
  {
    trace := Extend(s0, first, TakeTs(0));
    TakesNothing(s, d);
    trace := Extend(s0, trace, LogDecision(0));
    trace := Extend(s0, trace, Deliver(0));
    AnswersIt(s.(tasks := [s.tasks[0].(phase := Decided(d))]), d);
  }

  // ---------------------------------------------------------------- a late yes

  /** Every request has a run in which a yes on the terminal after its expiry is delivered as an approval. */
  lemma LateYesApproves(req: ApprovalRequest, user: string, slackOn: bool) returns (trace: seq<Event>)
    ensures var s := Exec(Initial(slackOn, user), trace);
      && |s.deliveries| == 1 && s.deliveries[0].decision.outcome == Approve
      && s.deliveries[0].decision.decidedAt > req.expiresAt
  {
    var s0 := Initial(slackOn, user);
    var now := req.expiresAt + 1;
    trace := Starts(req, user, slackOn);
    trace := Extend(s0, trace, PromptReturns(0, Answered(Line("y"), now)));
    trace := Extend(s0, trace, SelectCli(0, now));
    TerminalWins(Started(req, user, slackOn), Line("y"), now);
    YesApproves(req, user, now);
    trace := DeliverAnswer(s0, trace, Exec(s0, trace), PromptSync(req, user, Line("y"), now));
  }

  lemma YesApproves(req: ApprovalRequest, user: string, now: Time)
    ensures PromptSync(req, user, Line("y"), now).outcome == Approve
  {
    YesLineTrims("y");
    assert IsSpacedWord("y", "", "y", "");
    PromptApprovesExactly(req, user, Line("y"), now);
  }

  // ---------------------------------------------------------------- a press after the terminal won

  /** A posted request. */
  function Posted(req: ApprovalRequest, user: string): Relay {
    Waits(true, user, [Task(req, Waiting, Undecided, Prompting, Registered("ts"), Open, true)],
          map[req.requestId := Pending(0, req, Some("ts"))],
          [RequestCreated(req.requestId), SlackPosted(req.requestId, "ts")])
  }

  lemma Posts(req: ApprovalRequest, user: string) returns (trace: seq<Event>)
    ensures Exec(Initial(true, user), trace) == Posted(req, user)
    ensures trace == [Receive(req), Start(0), PostSucceeds(0, "ts"), Register(0)]
  {
    var s0 := Initial(true, user);
    trace := Starts(req, user, true);
    trace := Extend(s0, trace, PostSucceeds(0, "ts"));
    trace := Extend(s0, trace, Register(0));
    assert Exec(s0, trace).tasks == Posted(req, user).tasks;
    assert Exec(s0, trace).audit == Posted(req, user).audit;
  }

  /** The entry of task 0 goes to a callback. */
  lemma Presses(s: Relay, id: Uuid, entry: Pending, now: Time)
    requires s.pending == map[id := entry] && s.presses == [] && s.removals == []
    ensures Next(s, Button(id, "approve", "U1", "ts", now)) ==
      s.(pending := map[], presses := [Press(entry, id, "approve", "U1", "ts", now, Claimed)],
         removals := [Removal(entry.owner, ByPress(0))])
  {
    assert s.pending - {id} == map[];
  }

  /** The only callback logs its decision and rewrites the message. */
  lemma Publishes(s: Relay, p: Press)
    requires s.presses == [p] && p.stage.Claimed? && p.entry.channelTs.Some?
    ensures var s' := Next(Next(s, AuditPress(0)), FinalizePress(0, true));
      && s'.deliveries == s.deliveries
      && s'.audit == s.audit + [DecisionMade(PressDecision(p))]
           + [SlackFinalized(p.entry.request.requestId, PressDecision(p).outcome)]
      && s'.updates == s.updates + [Update(p.entry.owner, PressDecision(p).outcome, ByPress(0))]
  {
    var s1 := Next(s, AuditPress(0));
    assert s1 == s.(presses := [p.(stage := Audited)], audit := s.audit + [DecisionMade(PressDecision(p))]);
    assert PressDecision(s1.presses[0]) == PressDecision(p);
  }

  /** Every request has a run in which the terminal denies it and that denial is delivered, while the
      audit log and the Slack message say that it was approved: the button was pressed between the
      terminal branch winning and its `take_channel_ts`. */
  lemma SlackMayDisagree(req: ApprovalRequest, user: string) returns (trace: seq<Event>)
    ensures var s := Exec(Initial(true, user), trace);
      && |s.deliveries| == 1 && s.deliveries[0].decision.outcome == Deny
      && |s.updates| == 1 && s.updates[0].outcome == Approve
      && exists k :: 0 <= k < |s.audit| && s.audit[k].DecisionMade? && s.audit[k].decision.outcome == Approve
  {
    var s0 := Initial(true, user);
    var now, id := req.expiresAt, req.requestId;
    var entry := Pending(0, req, Some("ts"));
    var p := Press(entry, id, "approve", "U1", "ts", now, Claimed);
    trace := Posts(req, user);
    trace := Extend(s0, trace, PromptReturns(0, Answered(ReadError, now)));
    trace := Extend(s0, trace, SelectCli(0, now));
    TerminalWins(Posted(req, user), ReadError, now);
    Presses(Exec(s0, trace), id, entry, now);
    trace := Extend(s0, trace, Button(id, "approve", "U1", "ts", now));
    trace := DeliverAnswer(s0, trace, Exec(s0, trace), PromptSync(req, user, ReadError, now));
    var s := Exec(s0, trace);
    Publishes(s, p);
    trace := Extend(s0, trace, AuditPress(0));
    trace := Extend(s0, trace, FinalizePress(0, true));
    assert Exec(s0, trace).audit[|s.audit|] == DecisionMade(PressDecision(p));
  }

  // ---------------------------------------------------------------- two requests, one id

  /** Two posted requests with one id: the entry of the second has replaced that of the first. */
  function Collided(req: ApprovalRequest, user: string, first: Task): Relay {
    Relay(true, user, [first, Task(req, Waiting, Undecided, Prompting, Registered("ts"), Open, true)],
          map[req.requestId := Pending(1, req, Some("ts"))], [],
          [RequestCreated(req.requestId), SlackPosted(req.requestId, "ts"),
           RequestCreated(req.requestId), SlackPosted(req.requestId, "ts")],
          [Removal(0, ByOverwrite(1))], [], [])
  }

  /** The second request arrives while the first waits, and is posted too. */
  lemma SecondPosts(req: ApprovalRequest, user: string, s: Relay)
    requires s == Posted(req, user)
    ensures Next(Next(Next(s, Receive(req)), Start(1)), PostSucceeds(1, "ts")) ==
      s.(tasks := [s.tasks[0], Task(req, Waiting, Undecided, Prompting, PostAccepted("ts"), Open, true)],
         audit := [RequestCreated(req.requestId), SlackPosted(req.requestId, "ts"),
                   RequestCreated(req.requestId), SlackPosted(req.requestId, "ts")])
  {
    var s1 := Next(s, Receive(req));
    assert s1 == s.(tasks := [s.tasks[0], NewTask(req)]);
    var s2 := Next(s1, Start(1));
    var second := Task(req, Waiting, Undecided, Prompting, Posting, Open, true);
    assert s2 == s.(tasks := [s.tasks[0], second], audit := s.audit + [RequestCreated(req.requestId)]);
    var s3 := Next(s2, PostSucceeds(1, "ts"));
    assert s3.tasks == [s.tasks[0], second.(post := PostAccepted("ts"))];
  }

  lemma Overwrites(req: ApprovalRequest, user: string, s: Relay)
    requires s == Posted(req, user)
    ensures var s' := s.(
        tasks := [s.tasks[0], Task(req, Waiting, Undecided, Prompting, PostAccepted("ts"), Open, true)],
        audit := [RequestCreated(req.requestId), SlackPosted(req.requestId, "ts"),
                  RequestCreated(req.requestId), SlackPosted(req.requestId, "ts")]);
      Next(s', Register(1)) == Collided(req, user, s.tasks[0].(slot := SenderGone))
  {
    var s' := s.(
      tasks := [s.tasks[0], Task(req, Waiting, Undecided, Prompting, PostAccepted("ts"), Open, true)],
      audit := [RequestCreated(req.requestId), SlackPosted(req.requestId, "ts"),
                RequestCreated(req.requestId), SlackPosted(req.requestId, "ts")]);
    assert Next(s', Register(1)).tasks == Collided(req, user, s.tasks[0].(slot := SenderGone)).tasks;
    assert Next(s', Register(1)).pending == map[req.requestId := Pending(1, req, Some("ts"))];
  }

  /** A closed channel denies task 0. */
  lemma ClosedDenies(s: Relay, now: Time)
    requires s.slackOn && s.deliveries == []
    requires |s.tasks| == 2 && s.tasks[0].phase.Waiting? && s.tasks[0].slot.SenderGone?
    ensures Next(Next(Next(s, SelectSlack(0, now)), LogDecision(0)), Deliver(0)).deliveries ==
      [Delivery(0, SystemDenial(s.tasks[0].req.requestId, "Slack channel closed", now))]
  {
    var d := SystemDenial(s.tasks[0].req.requestId, "Slack channel closed", now);
    var s1 := Next(s, SelectSlack(0, now));
    assert s1.tasks[0].phase == Decided(d) && s1.deliveries == [];
    var s2 := Next(s1, LogDecision(0));
    assert s2.tasks[0].phase == Logged(d) && s2.deliveries == [];
  }

  /** With colliding ids a request can be denied although nobody ever answered anything. */
  lemma CollisionDenies(req: ApprovalRequest, user: string) returns (trace: seq<Event>)
    ensures var s := Exec(Initial(true, user), trace);
      && |s.deliveries| == 1 && s.deliveries[0].decision.outcome == Deny && s.deliveries[0].decision.approver.System?
    ensures forall k | 0 <= k < |trace| :: !trace[k].PromptReturns? && !trace[k].Button? && !trace[k].PostFails?
  {
    var s0 := Initial(true, user);
    var s := Posted(req, user);
    trace := Posts(req, user);
    trace := Extend(s0, trace, Receive(req));
    trace := Extend(s0, trace, Start(1));
    trace := Extend(s0, trace, PostSucceeds(1, "ts"));
    SecondPosts(req, user, s);
    trace := Extend(s0, trace, Register(1));
    Overwrites(req, user, s);
    trace := Extend(s0, trace, SelectSlack(0, req.expiresAt));
    trace := Extend(s0, trace, LogDecision(0));
    trace := Extend(s0, trace, Deliver(0));
    ClosedDenies(Collided(req, user, s.tasks[0].(slot := SenderGone)), req.expiresAt);
  }
}
