/** Requests, decisions and the terminal answer of the approval relay. */
module ApprovalTypes {
  import opened Text

  /** Request ids are arbitrary; nothing below relies on their being distinct. */
  type Uuid = nat

  /** An instant of the wall clock. */
  type Time = int

  datatype Outcome = Approve | Deny | Expired

  datatype Approver =
    | Cli(user: string)
    | Slack(userId: string, messageTs: string)
    | System

  datatype ApprovalRequest = ApprovalRequest(requestId: Uuid, tool: string, expiresAt: Time)

  datatype ApprovalDecision = ApprovalDecision(
    requestId: Uuid, outcome: Outcome, approver: Approver, reason: Option<string>, decidedAt: Time)

  /** What reading one line from the terminal yields. */
  datatype ReadResult = Line(text: string) | ReadError

  /** How the blocking prompt task ends: it read something at some instant, or it panicked. */
  datatype CliResult = Answered(read: ReadResult, at: Time) | Panicked

  /** The decision the terminal prompt makes from what it read. */
  function PromptSync(req: ApprovalRequest, user: string, read: ReadResult, now: Time): (d: ApprovalDecision)
    ensures d.requestId == req.requestId && d.approver == Cli(user) && d.decidedAt == now
    ensures d.outcome != Expired && (d.outcome == Approve <==> d.reason == None)
  {
    match read
    case ReadError => MakeDecision(req.requestId, user, Deny, Some("input error"), now)
    case Line(text) =>
      var answer := ToLower(Trim(text));
      if answer == "y" || answer == "yes" then MakeDecision(req.requestId, user, Approve, None, now)
      else MakeDecision(req.requestId, user, Deny, Some("denied by operator"), now)
  }

  function MakeDecision(id: Uuid, user: string, outcome: Outcome, reason: Option<string>, now: Time): ApprovalDecision {
    ApprovalDecision(id, outcome, Cli(user), reason, now)
  }

  /** `y` or `yes`, each letter in either case. */
  predicate IsYesWord(w: string) {
    || (|w| == 1 && w[0] in "yY")
    || (|w| == 3 && w[0] in "yY" && w[1] in "eE" && w[2] in "sS")
  }

  /** A line that is one of the approving words with white space around it. */
  ghost predicate IsYesLine(line: string) {
    exists a, w, b :: IsSpacedWord(line, a, w, b) && IsYesWord(w)
  }

  ghost predicate IsSpacedWord(line: string, a: string, w: string, b: string) {
    AllSpace(a) && AllSpace(b) && line == a + w + b
  }

  lemma YesWordsFold(w: string)
    ensures IsYesWord(w) <==> ToLower(w) == "y" || ToLower(w) == "yes"
  {
    var l := ToLower(w);
    if |w| == 1 {
      assert w == [w[0]] && l == [LowerChar(w[0])];
    } else if |w| == 3 {
      assert w == [w[0], w[1], w[2]] && l == [LowerChar(w[0]), LowerChar(w[1]), LowerChar(w[2])];
    }
  }

  lemma YesLineTrims(line: string)
    ensures IsYesLine(line) <==> IsYesWord(Trim(line))
  {
    if IsYesLine(line) {
      var a, w, b :| IsSpacedWord(line, a, w, b) && IsYesWord(w);
      TrimAround(a, w, b);
    }
    if IsYesWord(Trim(line)) {
      var a, b := TrimSplit(line);
      assert IsSpacedWord(line, a, Trim(line), b);
    }
  }

  /** The prompt approves exactly on a yes line; every other line and every read error denies. */
  lemma PromptApprovesExactly(req: ApprovalRequest, user: string, read: ReadResult, now: Time)
    ensures PromptSync(req, user, read, now).outcome == Approve <==> read.Line? && IsYesLine(read.text)
  {
    if read.Line? {
      YesLineTrims(read.text);
      YesWordsFold(Trim(read.text));
    }
  }
}
