/**
 Consultation threads as a state machine over their table.

 A thread is named by its row number (the source draws a UUID); threads are not deleted while the
 table is in use, old messages are (`Prune`).  Every operation is one atomic step, except an approval:
 `ApproveRead` is its status check, and the
 transaction `ApproveCommit` may run any number of steps later.
 */
module ConsultationModel {
  import opened Common

  datatype Status = Open | Resolving | Resolved | Cancelled | Poisoned

  datatype MessageType = Context | Suggestion | Warning | Resolution | Approve | Contest

  datatype ResolutionType = Consensus | Timeout | Closed | MaxRounds | AgentDeparture | AutoResolved

  datatype Thread = Thread(
    org: string,
    initiator: string,
    status: Status,
    expected: seq<string>,
    claimedBy: Option<string>,
    assignedTo: Option<string>,
    summary: Option<string>,
    round: nat,
    maxRounds: nat,
    timeout: nat,
    createdAt: int,
    resolvedAt: Option<int>,
    files: seq<string>,
    unclaims: nat)

  datatype Message = Message(thread: nat, agent: string, kind: MessageType, round: nat)

  datatype Approver = Approver(id: string, name: string)

  datatype Event = Event(
    thread: nat,
    kind: ResolutionType,
    org: string,
    summary: Option<string>,
    createdAt: int,
    resolvedAt: int,
    approvedBy: Option<Approver>,
    hadMessages: bool)

  /** An approval that has passed its status check and not yet run its transaction. */
  datatype Approval = Approval(org: string, thread: nat, agent: string, name: Option<string>)

  datatype State = State(threads: seq<Thread>, messages: seq<Message>, events: seq<Event>, approvals: seq<Approval>)

  datatype OnlineAgent = OnlineAgent(id: string, modules: seq<string>)

  datatype Op =
    | Announce(org: string, agent: string, online: seq<OnlineAgent>, targets: seq<string>, files: seq<string>,
               keepOpen: bool, assignedTo: Option<string>, now: int)
    | Score(org: string, thread: nat, concerned: seq<string>, alone: bool, keepOpen: bool, now: int)
    | AddRespondent(org: string, thread: nat, agent: string)
    | Post(org: string, thread: nat, agent: string, kind: MessageType)
    | Claim(org: string, thread: nat, agent: string)
    | Unclaim(org: string, thread: nat, agent: string)
    | Propose(org: string, thread: nat, agent: string, text: string)
    | ApproveRead(org: string, thread: nat, agent: string, name: Option<string>)
    | ApproveCommit(approval: nat, now: int)
    | ContestIt(org: string, thread: nat, agent: string, now: int)
    | Cancel(org: string, thread: nat, agent: string, reasonGiven: bool, now: int)
    | Close(org: string, thread: nat, agent: string, text: string, now: int)
    | Depart(org: string, agent: string, now: int)
    | Sweep(now: int)
    | Prune(gone: set<nat>)

  const TIMEOUT_SUMMARY := "Résolu par timeout — pas de réponse dans le délai"
  const DEFAULT_MAX_ROUNDS: nat := 4
  const DEFAULT_TIMEOUT: nat := 600
  const POISON_THRESHOLD: nat := 2

  // ---------------------------------------------------------------- reading

  predicate Live(t: Thread) {
    t.status.Open? || t.status.Resolving?
  }

  predicate Finds(s: State, org: string, i: nat) {
    i < |s.threads| && s.threads[i].org == org
  }

  /** The thread is open and somebody works on it. */
  predicate Held(t: Thread) {
    t.status.Open? && t.claimedBy.Some?
  }

  predicate ShareFile(t: Thread, u: Thread) {
    exists f :: f in t.files && f in u.files
  }

  /** An open thread of the same organisation that shares a target file is claimed by another agent. */
  predicate HeldByOther(threads: seq<Thread>, i: nat, agent: string)
    requires i < |threads|
  {
    exists j :: 0 <= j < |threads| && Blocks(threads, i, j, agent)
  }

  /** Thread `j` keeps the agent from claiming thread `i`. */
  predicate Blocks(threads: seq<Thread>, i: int, j: int, agent: string)
    requires 0 <= i < |threads| && 0 <= j < |threads|
  {
    && j != i && threads[j].org == threads[i].org && Held(threads[j]) && threads[j].claimedBy != Some(agent)
    && ShareFile(threads[i], threads[j])
  }

  /** Everybody the thread waits for has an approval of the thread's current round. */
  predicate AllApproved(ms: seq<Message>, i: nat, t: Thread) {
    forall k :: 0 <= k < |t.expected| ==> Message(i, t.expected[k], Approve, t.round) in ms
  }

  predicate HasMessages(ms: seq<Message>, i: nat) {
    exists k :: 0 <= k < |ms| && ms[k].thread == i
  }

  function Without(ids: seq<string>, agent: string): (r: seq<string>)
    ensures forall x :: x in r <==> x in ids && x != agent
  {
    if ids == [] then []
    else if ids[0] == agent then Without(ids[1..], agent)
    else [ids[0]] + Without(ids[1..], agent)
  }

  function Including(ids: seq<string>, agent: string): (r: seq<string>)
    ensures forall x :: x in r <==> x in ids || x == agent
  {
    if agent in ids then ids else ids + [agent]
  }

  predicate TimedOut(t: Thread, now: int) {
    Live(t) && t.timeout > 0 && t.createdAt + t.timeout * t.round < now
  }

  /** The online agents, other than the announcer, one of whose modules overlaps a target. */
  function Respondents(online: seq<OnlineAgent>, announcer: string, targets: seq<string>): seq<string> {
    if online == [] then []
    else
      (if online[0].id != announcer && Overlaps(online[0].modules, targets) then [online[0].id] else [])
      + Respondents(online[1..], announcer, targets)
  }

  /** Who is asked: everybody online but the announcer with a module in the tree of a target. */
  lemma {:induction false} RespondentsAre(online: seq<OnlineAgent>, announcer: string, targets: seq<string>)
    ensures forall a :: a in Respondents(online, announcer, targets) <==>
              a != announcer && exists x :: x in online && x.id == a && Overlaps(x.modules, targets)
    decreases |online|
  {
    if online != [] {
      RespondentsAre(online[1..], announcer, targets);
      assert online == [online[0]] + online[1..];
    }
  }

  predicate Overlaps(modules: seq<string>, targets: seq<string>) {
    exists i, j :: 0 <= i < |modules| && 0 <= j < |targets| && SameTree(modules[i], targets[j])
  }

  // ---------------------------------------------------------------- writing

  function Put(s: State, i: nat, t: Thread): State
    requires i < |s.threads|
  {
    s.(threads := s.threads[i := t])
  }

  /** A message is stamped with the thread's round at the time it is written. */
  function Say(s: State, i: nat, agent: string, kind: MessageType): State
    requires i < |s.threads|
  {
    s.(messages := s.messages + [Message(i, agent, kind, s.threads[i].round)])
  }

  function EventFor(ms: seq<Message>, i: nat, t: Thread, kind: ResolutionType, approver: Option<Approver>, now: int)
    : Event
  {
    var resolvedAt := if t.resolvedAt.Some? then t.resolvedAt.value else now;
    Event(i, kind, t.org, t.summary, t.createdAt, resolvedAt, approver, HasMessages(ms, i))
  }

  /** The agent under the name it gave, or under its id when it gave none. */
  function ApproverOf(a: Approval): Approver {
    Approver(a.agent, if a.name.Some? && a.name.value != "" then a.name.value else a.agent)
  }

  /** Row `i` becomes the resolved row `t`, and its resolution is announced. */
  function Resolve(s: State, i: nat, t: Thread, kind: ResolutionType, approver: Option<Approver>, now: int): State
    requires i < |s.threads|
  {
    Put(s, i, t).(events := s.events + [EventFor(s.messages, i, t, kind, approver, now)])
  }

  function AnnounceStep(s: State, op: Op): State
    requires op.Announce?
  {
    var respondents := Respondents(op.online, op.agent, op.targets);
    var keepOpen := op.keepOpen || op.assignedTo.Some?;
    var auto := respondents == [] && !keepOpen;
    s.(threads := s.threads + [Thread(
         op.org, op.agent, if auto then Resolved else Open, respondents, None, op.assignedTo, None,
         1, DEFAULT_MAX_ROUNDS, if keepOpen then 0 else DEFAULT_TIMEOUT, op.now, if auto then Some(op.now) else None,
         op.files, 0)])
  }

  /** The scored agents replace the respondents; an open thread that concerns nobody, with nobody else online, ends. */
  function ScoreStep(s: State, i: nat, concerned: seq<string>, mayResolve: bool, now: int): State
    requires i < |s.threads|
  {
    var row := s.threads[i].(expected := concerned);
    if concerned == [] && mayResolve && row.status.Open? then
      Resolve(s, i, row.(status := Resolved, resolvedAt := Some(now)), AutoResolved, None, now)
    else Put(s, i, row)
  }

  /** The approval transaction: post, check, compare-and-set on `resolving`. */
  function CommitStep(s: State, a: Approval, now: int): State
    requires Finds(s, a.org, a.thread)
  {
    var t := Say(s, a.thread, a.agent, Approve);
    var row := s.threads[a.thread];
    if AllApproved(t.messages, a.thread, row) && row.status.Resolving? then
      Resolve(t, a.thread, row.(status := Resolved, resolvedAt := Some(now)), Consensus, Some(ApproverOf(a)), now)
    else t
  }

  function ContestStep(s: State, i: nat, agent: string, now: int): State
    requires i < |s.threads|
  {
    var t := Say(s, i, agent, Contest);
    var row := s.threads[i];
    if row.round + 1 > row.maxRounds then
      Resolve(t, i, row.(status := Resolved, resolvedAt := Some(now)), MaxRounds, None, now)
    else
      Put(t, i, row.(status := Open, round := row.round + 1, summary := None))
  }

  /** Given up once more; after the second time nobody is to claim it again. */
  function UnclaimedRow(t: Thread): Thread {
    t.(claimedBy := None, unclaims := t.unclaims + 1,
       status := if t.unclaims + 1 >= POISON_THRESHOLD then Poisoned else t.status)
  }

  /** The messages that retention leaves: all but those at the given places. */
  function Remaining(ms: seq<Message>, gone: set<nat>): (r: seq<Message>)
    ensures forall m :: m in r ==> m in ms
  {
    if ms == [] then []
    else Remaining(ms[..|ms| - 1], gone) + if |ms| - 1 in gone then [] else [ms[|ms| - 1]]
  }

  lemma {:induction false} RemainingAre(ms: seq<Message>, gone: set<nat>)
    ensures forall m :: m in Remaining(ms, gone) <==> exists k: nat :: k < |ms| && k !in gone && ms[k] == m
    decreases |ms|
  {
    if ms != [] {
      var n := |ms| - 1;
      RemainingAre(ms[..n], gone);
      forall m ensures m in Remaining(ms, gone) <==> exists k: nat :: k < |ms| && k !in gone && ms[k] == m {
        assert (exists k: nat :: k < |ms| && k !in gone && ms[k] == m) <==>
               (n !in gone && ms[n] == m) || exists k: nat :: k < n && k !in gone && ms[..n][k] == m;
      }
    }
  }

  /** One row of the departure of `agent` from `org`. */
  function DepartRow(ms: seq<Message>, i: nat, t: Thread, org: string, agent: string, now: int): Thread {
    if t.org != org || !Live(t) then t
    else
      var u := t.(expected := Without(t.expected, agent),
                  claimedBy := if t.status.Open? && t.claimedBy == Some(agent) then None else t.claimedBy);
      if (u.status.Resolving? && AllApproved(ms, i, u)) || (u.status.Open? && u.expected == []) then
        u.(status := Resolved, resolvedAt := Some(now))
      else u
  }

  function SweepRow(t: Thread, now: int): Thread {
    if TimedOut(t, now) then t.(status := Resolved, summary := Some(TIMEOUT_SUMMARY), resolvedAt := Some(now)) else t
  }

  /** One event, in row order, for each of the first `n` rows that went from live to resolved. */
  function MoveEvents(ms: seq<Message>, before: seq<Thread>, after: seq<Thread>, kind: ResolutionType, now: int, n: nat)
    : seq<Event>
    requires n <= |before| == |after|
  {
    if n == 0 then []
    else
      MoveEvents(ms, before, after, kind, now, n - 1)
      + if Moved(before[n - 1], after[n - 1]) then [EventFor(ms, n - 1, after[n - 1], kind, None, now)] else []
  }

  predicate Moved(before: Thread, after: Thread) {
    Live(before) && after.status.Resolved?
  }

  function Rewrite(s: State, rows: seq<Thread>, kind: ResolutionType, now: int): State
    requires |rows| == |s.threads|
  {
    s.(threads := rows, events := s.events + MoveEvents(s.messages, s.threads, rows, kind, now, |rows|))
  }

  function DepartRows(s: State, org: string, agent: string, now: int): (r: seq<Thread>)
    ensures |r| == |s.threads|
  {
    seq(|s.threads|, i requires 0 <= i < |s.threads| => DepartRow(s.messages, i, s.threads[i], org, agent, now))
  }

  function SweepRows(s: State, now: int): (r: seq<Thread>)
    ensures |r| == |s.threads|
  {
    seq(|s.threads|, i requires 0 <= i < |s.threads| => SweepRow(s.threads[i], now))
  }

  /** Whether the operation is accepted; a refused one throws and changes nothing. */
  predicate Accepts(s: State, op: Op) {
    match op
    case Announce(_, _, _, _, _, _, _, _) => true
    case Score(org, i, _, _, _, _) => Finds(s, org, i)
    case AddRespondent(org, i, _) => Finds(s, org, i) && Live(s.threads[i])
    case Post(org, i, _, _) => Finds(s, org, i) && !s.threads[i].status.Cancelled?
    case Claim(org, i, agent) =>
      Finds(s, org, i) && s.threads[i].claimedBy == None && s.threads[i].status.Open?
      && (s.threads[i].assignedTo == None || s.threads[i].assignedTo == Some(agent))
      && !HeldByOther(s.threads, i, agent)
    case Unclaim(org, i, agent) =>
      Finds(s, org, i) && s.threads[i].claimedBy == Some(agent) && s.threads[i].status.Open?
    case Propose(org, i, agent, _) =>
      Finds(s, org, i) && (s.threads[i].initiator == agent || s.threads[i].claimedBy == Some(agent))
    case ApproveRead(org, i, _, _) => Finds(s, org, i) && s.threads[i].status.Resolving?
    case ApproveCommit(k, _) => k < |s.approvals| && Finds(s, s.approvals[k].org, s.approvals[k].thread)
    case ContestIt(org, i, _, _) => Finds(s, org, i) && s.threads[i].status.Resolving?
    case Cancel(org, i, agent, _, _) => Finds(s, org, i) && s.threads[i].initiator == agent
    case Close(org, i, agent, _, _) => Finds(s, org, i) && s.threads[i].initiator == agent && Live(s.threads[i])
    case Depart(_, _, _) => true
    case Sweep(_) => true
    case Prune(_) => true
  }

  function Step(s: State, op: Op): State {
    if !Accepts(s, op) then s
    else
      match op
      case Announce(_, _, _, _, _, _, _, _) => AnnounceStep(s, op)
      case Score(_, i, concerned, alone, keepOpen, now) => ScoreStep(s, i, concerned, alone && !keepOpen, now)
      case AddRespondent(_, i, agent) => Put(s, i, s.threads[i].(expected := Including(s.threads[i].expected, agent)))
      case Post(_, i, agent, kind) => Say(s, i, agent, kind)
      case Claim(_, i, agent) => Put(s, i, s.threads[i].(claimedBy := Some(agent)))
      case Unclaim(_, i, _) => Put(s, i, UnclaimedRow(s.threads[i]))
      case Propose(_, i, agent, text) =>
        Say(Put(s, i, s.threads[i].(status := Resolving, summary := Some(text))), i, agent, Resolution)
      case ApproveRead(org, i, agent, name) => s.(approvals := s.approvals + [Approval(org, i, agent, name)])
      case ApproveCommit(k, now) =>
        CommitStep(s, s.approvals[k], now).(approvals := s.approvals[..k] + s.approvals[k + 1..])
      case ContestIt(_, i, agent, now) => ContestStep(s, i, agent, now)
      case Cancel(_, i, agent, reasonGiven, now) =>
        var t := Put(s, i, s.threads[i].(status := Cancelled, resolvedAt := Some(now)));
        if reasonGiven then Say(t, i, agent, Context) else t
      case Close(_, i, _, text, now) =>
        Resolve(s, i, s.threads[i].(status := Resolved, summary := Some(text), resolvedAt := Some(now)),
                Closed, None, now)
      case Depart(org, agent, now) => Rewrite(s, DepartRows(s, org, agent, now), AgentDeparture, now)
      case Sweep(now) => Rewrite(s, SweepRows(s, now), Timeout, now)
      case Prune(gone) => s.(messages := Remaining(s.messages, gone))
  }

  function Run(s: State, ops: seq<Op>): State
    decreases |ops|
  {
    if ops == [] then s else Run(Step(s, ops[0]), ops[1..])
  }

  const EMPTY: State := State([], [], [], [])

  // ---------------------------------------------------------------- rounds

  ghost predicate RoundsBounded(s: State) {
    forall i :: 0 <= i < |s.threads| ==> 1 <= s.threads[i].round <= s.threads[i].maxRounds
  }

  /** No message comes from a round its thread has not reached. */
  ghost predicate MessagesCurrent(s: State) {
    forall m :: m in s.messages ==> m.thread < |s.threads| && m.round <= s.threads[m.thread].round
  }

  ghost predicate ApprovalsKnown(s: State) {
    forall k :: 0 <= k < |s.approvals| ==> Finds(s, s.approvals[k].org, s.approvals[k].thread)
  }

  /** A thread that is resolved or cancelled carries the time it ended. */
  ghost predicate EndsDated(s: State) {
    forall i :: 0 <= i < |s.threads| ==> Dated(s.threads[i])
  }

  predicate Dated(t: Thread) {
    t.status.Resolved? || t.status.Cancelled? ==> t.resolvedAt.Some?
  }

  ghost predicate Inv(s: State) {
    RoundsBounded(s) && MessagesCurrent(s) && ApprovalsKnown(s) && EndsDated(s)
  }

  /** What no operation ever changes about a thread; its round only grows. */
  ghost predicate Continues(t: Thread, u: Thread) {
    && u.org == t.org && u.initiator == t.initiator && u.maxRounds == t.maxRounds && u.assignedTo == t.assignedTo
    && u.timeout == t.timeout && u.createdAt == t.createdAt && u.files == t.files
    && t.round <= u.round
  }

  /** A contest of thread `i` that sends it back to another round. */
  ghost predicate Reopens(s: State, op: Op, i: nat) {
    op.ContestIt? && op.thread == i && Accepts(s, op) && s.threads[i].round < s.threads[i].maxRounds
  }

  lemma StepContinues(s: State, op: Op, i: nat)
    requires i < |s.threads|
    ensures i < |Step(s, op).threads| && Continues(s.threads[i], Step(s, op).threads[i])
    ensures Step(s, op).threads[i].round == s.threads[i].round + if Reopens(s, op, i) then 1 else 0
  {
    if Accepts(s, op) {
      match op
      case Announce(_, _, _, _, _, _, _, _) => assert Step(s, op).threads[i] == s.threads[i];
      case Score(_, j, concerned, alone, keepOpen, now) => ScoreContinues(s, j, concerned, alone && !keepOpen, now, i);
      case ApproveCommit(k, now) => CommitContinues(s, s.approvals[k], now, i);
      case ContestIt(_, j, agent, now) => ContestContinues(s, j, agent, now, i);
      case Depart(org, agent, now) =>
        assert Step(s, op).threads[i] == DepartRow(s.messages, i, s.threads[i], org, agent, now);
      case Sweep(now) => assert Step(s, op).threads[i] == SweepRow(s.threads[i], now);
      case _ => SmallStepContinues(s, op, i);
    }
  }

  lemma SmallStepContinues(s: State, op: Op, i: nat)
    requires i < |s.threads| && !op.Announce? && (KindOf(op) == None || op.Close?)
    ensures |Step(s, op).threads| == |s.threads| && Continues(s.threads[i], Step(s, op).threads[i])
    ensures Step(s, op).threads[i].round == s.threads[i].round
  {
  }

  lemma ScoreContinues(s: State, j: nat, concerned: seq<string>, mayResolve: bool, now: int, i: nat)
    requires j < |s.threads| && i < |s.threads|
    ensures var t := ScoreStep(s, j, concerned, mayResolve, now);
            |t.threads| == |s.threads| && Continues(s.threads[i], t.threads[i])
            && t.threads[i].round == s.threads[i].round
  {
  }

  lemma CommitContinues(s: State, a: Approval, now: int, i: nat)
    requires Finds(s, a.org, a.thread) && i < |s.threads|
    ensures var t := CommitStep(s, a, now);
            |t.threads| == |s.threads| && Continues(s.threads[i], t.threads[i])
            && t.threads[i].round == s.threads[i].round
  {
  }

  lemma ContestContinues(s: State, j: nat, agent: string, now: int, i: nat)
    requires j < |s.threads| && i < |s.threads|
    ensures var t := ContestStep(s, j, agent, now);
            && |t.threads| == |s.threads| && Continues(s.threads[i], t.threads[i])
            && t.threads[i].round ==
               s.threads[i].round + if i == j && s.threads[j].round < s.threads[j].maxRounds then 1 else 0
  {
  }

  lemma StepContinuesAll(s: State, op: Op)
    ensures |s.threads| <= |Step(s, op).threads|
    ensures forall i :: 0 <= i < |s.threads| ==> Continues(s.threads[i], Step(s, op).threads[i])
  {
    forall i: nat | i < |s.threads|
      ensures i < |Step(s, op).threads| && Continues(s.threads[i], Step(s, op).threads[i])
    {
      StepContinues(s, op, i);
    }
  }

  lemma StepRoundsBounded(s: State, op: Op)
    requires RoundsBounded(s)
    ensures RoundsBounded(Step(s, op))
  {
    forall i: nat | i < |s.threads|
      ensures var t := Step(s, op).threads[i]; 1 <= t.round <= t.maxRounds
    {
      StepContinues(s, op, i);
    }
  }

  /** A message is an old one, or stamped with its thread's round before the step. */
  lemma StepMessages(s: State, op: Op)
    ensures forall m :: m in Step(s, op).messages ==>
              m in s.messages || (m.thread < |s.threads| && m.round == s.threads[m.thread].round)
  {
  }

  lemma StepMessagesCurrent(s: State, op: Op)
    requires MessagesCurrent(s)
    ensures MessagesCurrent(Step(s, op))
  {
    StepMessages(s, op);
    StepContinuesAll(s, op);
  }

  lemma StepApprovals(s: State, op: Op)
    ensures forall a :: a in Step(s, op).approvals ==> a in s.approvals || Finds(s, a.org, a.thread)
  {
  }

  lemma StepApprovalsKnown(s: State, op: Op)
    requires ApprovalsKnown(s)
    ensures ApprovalsKnown(Step(s, op))
  {
    StepApprovals(s, op);
    StepContinuesAll(s, op);
    var t := Step(s, op);
    forall k | 0 <= k < |t.approvals| ensures Finds(t, t.approvals[k].org, t.approvals[k].thread) {
      var a := t.approvals[k];
      assert a in t.approvals;
      assert Finds(s, a.org, a.thread);
    }
  }

  lemma StepEndsDated(s: State, op: Op)
    requires EndsDated(s)
    ensures EndsDated(Step(s, op))
  {
    forall i: nat | i < |Step(s, op).threads| ensures Dated(Step(s, op).threads[i]) {
      StepDated(s, op, i);
    }
  }

  lemma StepDated(s: State, op: Op, i: nat)
    requires i < |Step(s, op).threads| && (i < |s.threads| ==> Dated(s.threads[i]))
    ensures Dated(Step(s, op).threads[i])
  {
  }

  lemma StepInv(s: State, op: Op)
    requires Inv(s)
    ensures Inv(Step(s, op))
  {
    StepRoundsBounded(s, op);
    StepMessagesCurrent(s, op);
    StepApprovalsKnown(s, op);
    StepEndsDated(s, op);
  }

  lemma {:induction false} RunInv(s: State, ops: seq<Op>)
    requires Inv(s)
    ensures Inv(Run(s, ops))
    decreases |ops|
  {
    if ops != [] {
      StepInv(s, ops[0]);
      RunInv(Step(s, ops[0]), ops[1..]);
    }
  }

  lemma ReachableInv(ops: seq<Op>)
    ensures Inv(Run(EMPTY, ops))
  {
    RunInv(EMPTY, ops);
  }

  /** How many contests of thread `i` reopened it along a run. */
  ghost function Reopenings(s: State, ops: seq<Op>, i: nat): nat
    decreases |ops|
  {
    if ops == [] then 0
    else (if Reopens(s, ops[0], i) then 1 else 0) + Reopenings(Step(s, ops[0]), ops[1..], i)
  }

  lemma {:induction false} RunContinues(s: State, ops: seq<Op>, i: nat)
    requires i < |s.threads|
    ensures i < |Run(s, ops).threads| && Continues(s.threads[i], Run(s, ops).threads[i])
    ensures Run(s, ops).threads[i].round == s.threads[i].round + Reopenings(s, ops, i)
    decreases |ops|
  {
    if ops != [] {
      StepContinues(s, ops[0], i);
      RunContinues(Step(s, ops[0]), ops[1..], i);
    }
  }

  /** However often it is contested, a thread is reopened fewer times than it has rounds. */
  lemma ReopenedLessThanMaxRounds(s: State, ops: seq<Op>, i: nat)
    requires Inv(s) && i < |s.threads|
    ensures Reopenings(s, ops, i) <= s.threads[i].maxRounds - s.threads[i].round
    ensures Reopenings(s, ops, i) <= s.threads[i].maxRounds - 1
  {
    RunContinues(s, ops, i);
    RunInv(s, ops);
  }

  lemma ScaleLe(t: nat, a: nat, b: nat)
    requires a <= b
    ensures t * a <= t * b
  {
  }

  /**
   The hard deadline: a sweep later than created + timeout * max_rounds finds no thread with a
   positive timeout still live, whatever happened before.
   */
  lemma SweepMeetsDeadline(ops: seq<Op>, now: int, i: nat)
    requires i < |Run(EMPTY, ops).threads|
    requires var t := Run(EMPTY, ops).threads[i]; t.timeout > 0 && t.createdAt + t.timeout * t.maxRounds < now
    ensures !Live(Step(Run(EMPTY, ops), Sweep(now)).threads[i])
  {
    ReachableInv(ops);
    var t := Run(EMPTY, ops).threads[i];
    ScaleLe(t.timeout, t.round, t.maxRounds);
  }

  /**
   What a sweep ends, and what it leaves alone: exactly the open and resolving threads whose timeout is
   positive and has passed as many times over as they have had rounds.
   */
  lemma SweepEndsExactly(s: State, now: int, i: nat)
    requires i < |s.threads|
    ensures var t, u := s.threads[i], Step(s, Sweep(now)).threads[i];
            if (t.status == Open || t.status == Resolving) && t.timeout > 0 && t.createdAt + t.timeout * t.round < now
            then u == t.(status := Resolved, summary := Some(TIMEOUT_SUMMARY), resolvedAt := Some(now))
            else u == t
    ensures |Step(s, Sweep(now)).threads| == |s.threads| && Step(s, Sweep(now)).messages == s.messages
  {
  }

  // ---------------------------------------------------------------- events

  function Count(es: seq<Event>, i: nat, kind: ResolutionType): nat {
    if es == [] then 0
    else Count(es[..|es| - 1], i, kind)
         + if es[|es| - 1].thread == i && es[|es| - 1].kind == kind then 1 else 0
  }

  lemma {:induction false} CountConcat(es: seq<Event>, fs: seq<Event>, i: nat, kind: ResolutionType)
    ensures Count(es + fs, i, kind) == Count(es, i, kind) + Count(fs, i, kind)
    decreases |fs|
  {
    if fs == [] {
      assert es + fs == es;
    } else {
      assert (es + fs)[..|es + fs| - 1] == es + fs[..|fs| - 1];
      CountConcat(es, fs[..|fs| - 1], i, kind);
    }
  }

  lemma CountOne(es: seq<Event>, e: Event, i: nat, kind: ResolutionType)
    ensures Count(es + [e], i, kind) == Count(es, i, kind) + if e.thread == i && e.kind == kind then 1 else 0
  {
    assert (es + [e])[..|es|] == es;
  }

  lemma {:induction false} CountMoves(ms: seq<Message>, before: seq<Thread>, after: seq<Thread>, kind: ResolutionType,
                                      now: int, n: nat, i: nat, k: ResolutionType)
    requires n <= |before| == |after|
    ensures Count(MoveEvents(ms, before, after, kind, now, n), i, k) ==
            if i < n && Moved(before[i], after[i]) && k == kind then 1 else 0
  {
    if n > 0 {
      CountMoves(ms, before, after, kind, now, n - 1, i, k);
      var earlier := MoveEvents(ms, before, after, kind, now, n - 1);
      if Moved(before[n - 1], after[n - 1]) {
        CountOne(earlier, EventFor(ms, n - 1, after[n - 1], kind, None, now), i, k);
      } else {
        assert MoveEvents(ms, before, after, kind, now, n) == earlier;
      }
    }
  }

  /** The kind of resolution an operation announces, if it can resolve anything at all. */
  function KindOf(op: Op): Option<ResolutionType> {
    match op
    case Score(_, _, _, _, _, _) => Some(AutoResolved)
    case ApproveCommit(_, _) => Some(Consensus)
    case ContestIt(_, _, _, _) => Some(MaxRounds)
    case Close(_, _, _, _, _) => Some(Closed)
    case Depart(_, _, _) => Some(AgentDeparture)
    case Sweep(_) => Some(Timeout)
    case _ => None
  }

  /** The step takes thread `i` from open or resolving to resolved. */
  ghost predicate MovesNow(s: State, op: Op, i: nat) {
    i < |s.threads| && i < |Step(s, op).threads| && Moved(s.threads[i], Step(s, op).threads[i])
  }

  /** Announcing, posting, claiming, proposing and cancelling resolve nothing and announce nothing. */
  lemma QuietStep(s: State, op: Op, i: nat)
    requires KindOf(op) == None
    ensures !MovesNow(s, op, i) && Step(s, op).events == s.events
  {
  }

  lemma RewriteEvents(s: State, rows: seq<Thread>, kind: ResolutionType, now: int, i: nat, k: ResolutionType)
    requires |rows| == |s.threads|
    ensures Count(Rewrite(s, rows, kind, now).events, i, k) ==
            Count(s.events, i, k) + if i < |rows| && Moved(s.threads[i], rows[i]) && k == kind then 1 else 0
  {
    CountMoves(s.messages, s.threads, rows, kind, now, |rows|, i, k);
    CountConcat(s.events, MoveEvents(s.messages, s.threads, rows, kind, now, |rows|), i, k);
  }

  /** Resolving one live row moves that row and no other, and announces it once. */
  lemma ResolveEvents(s: State, j: nat, row: Thread, kind: ResolutionType, approver: Option<Approver>, now: int,
                      i: nat, k: ResolutionType)
    requires j < |s.threads| && Live(s.threads[j]) && row.status.Resolved?
    ensures var t := Resolve(s, j, row, kind, approver, now);
            && (i < |s.threads| ==> (Moved(s.threads[i], t.threads[i]) <==> i == j))
            && Count(t.events, i, k) == Count(s.events, i, k) + if i == j && k == kind then 1 else 0
  {
    CountOne(s.events, EventFor(s.messages, j, row, kind, approver, now), i, k);
  }

  lemma CommitEvents(s: State, a: Approval, now: int, i: nat, k: ResolutionType)
    requires Finds(s, a.org, a.thread)
    ensures Count(CommitStep(s, a, now).events, i, k) ==
            Count(s.events, i, k)
            + if i < |s.threads| && Moved(s.threads[i], CommitStep(s, a, now).threads[i]) && k == Consensus
              then 1 else 0
  {
    var t := Say(s, a.thread, a.agent, Approve);
    var row := s.threads[a.thread];
    if AllApproved(t.messages, a.thread, row) && row.status.Resolving? {
      ResolveEvents(t, a.thread, row.(status := Resolved, resolvedAt := Some(now)), Consensus, Some(ApproverOf(a)),
                    now, i, k);
    } else {
      assert CommitStep(s, a, now) == t;
    }
  }

  lemma ContestEvents(s: State, j: nat, agent: string, now: int, i: nat, k: ResolutionType)
    requires j < |s.threads| && Live(s.threads[j])
    ensures Count(ContestStep(s, j, agent, now).events, i, k) ==
            Count(s.events, i, k)
            + if i < |s.threads| && Moved(s.threads[i], ContestStep(s, j, agent, now).threads[i]) && k == MaxRounds
              then 1 else 0
  {
    var t := Say(s, j, agent, Contest);
    var row := s.threads[j];
    if row.round + 1 > row.maxRounds {
      ResolveEvents(t, j, row.(status := Resolved, resolvedAt := Some(now)), MaxRounds, None, now, i, k);
    }
  }

  lemma ScoreEvents(s: State, j: nat, concerned: seq<string>, mayResolve: bool, now: int, i: nat, k: ResolutionType)
    requires j < |s.threads|
    ensures var t := ScoreStep(s, j, concerned, mayResolve, now);
            Count(t.events, i, k) ==
            Count(s.events, i, k)
            + if i < |s.threads| && Moved(s.threads[i], t.threads[i]) && k == AutoResolved then 1 else 0
  {
    var row := s.threads[j].(expected := concerned);
    if concerned == [] && mayResolve && row.status.Open? {
      ResolveEvents(s, j, row.(status := Resolved, resolvedAt := Some(now)), AutoResolved, None, now, i, k);
    }
  }

  /** A step announces thread `i` exactly when it moves it, once, under the step's own kind. */
  lemma StepEvents(s: State, op: Op, i: nat, k: ResolutionType)
    ensures Count(Step(s, op).events, i, k) ==
            Count(s.events, i, k) + if MovesNow(s, op, i) && KindOf(op) == Some(k) then 1 else 0
  {
    if KindOf(op) == None || !Accepts(s, op) {
      if KindOf(op) == None {
        QuietStep(s, op, i);
      }
    } else {
      match op
      case Score(_, j, concerned, alone, keepOpen, now) => ScoreEvents(s, j, concerned, alone && !keepOpen, now, i, k);
      case ApproveCommit(a, now) => CommitEvents(s, s.approvals[a], now, i, k);
      case ContestIt(_, j, agent, now) => ContestEvents(s, j, agent, now, i, k);
      case Close(_, j, _, text, now) =>
        ResolveEvents(s, j, s.threads[j].(status := Resolved, summary := Some(text), resolvedAt := Some(now)),
                      Closed, None, now, i, k);
      case Depart(org, agent, now) => RewriteEvents(s, DepartRows(s, org, agent, now), AgentDeparture, now, i, k);
      case Sweep(now) => RewriteEvents(s, SweepRows(s, now), Timeout, now, i, k);
      case _ =>
    }
  }

  /** How often thread `i` went from open or resolving to resolved through operations of kind `k`. */
  ghost function Moves(s: State, ops: seq<Op>, i: nat, k: ResolutionType): nat
    decreases |ops|
  {
    if ops == [] then 0
    else (if MovesNow(s, ops[0], i) && KindOf(ops[0]) == Some(k) then 1 else 0) + Moves(Step(s, ops[0]), ops[1..], i, k)
  }

  /** Event accounting: over any run, a thread's events are its moves into resolved, kind by kind. */
  lemma {:induction false} EventsAreMoves(s: State, ops: seq<Op>, i: nat, k: ResolutionType)
    ensures Count(Run(s, ops).events, i, k) == Count(s.events, i, k) + Moves(s, ops, i, k)
    decreases |ops|
  {
    if ops != [] {
      StepEvents(s, ops[0], i, k);
      EventsAreMoves(Step(s, ops[0]), ops[1..], i, k);
    }
  }

  /** Each thread a sweep ends is announced once, as timed out; no other is announced. */
  lemma SweepAnnounces(s: State, now: int, i: nat, k: ResolutionType)
    requires i < |s.threads|
    ensures Count(Step(s, Sweep(now)).events, i, k) == Count(s.events, i, k)
            + if k == Timeout && Step(s, Sweep(now)).threads[i] != s.threads[i] then 1 else 0
  {
    StepEvents(s, Sweep(now), i, k);
    SweepEndsExactly(s, now, i);
  }

  /** A timeout was announced for a thread that has one, and after it had passed. */
  ghost predicate TimeoutDue(s: State, e: Event) {
    e.kind == Timeout ==>
      && e.thread < |s.threads| && s.threads[e.thread].timeout > 0
      && s.threads[e.thread].createdAt + s.threads[e.thread].timeout < e.resolvedAt
  }

  ghost predicate TimeoutsDue(s: State) {
    forall e :: e in s.events ==> TimeoutDue(s, e)
  }

  lemma {:induction false} MoveEventsAre(ms: seq<Message>, before: seq<Thread>, after: seq<Thread>,
                                         kind: ResolutionType, now: int, n: nat, e: Event)
    requires n <= |before| == |after| && e in MoveEvents(ms, before, after, kind, now, n)
    ensures e.kind == kind && e.thread < n && Moved(before[e.thread], after[e.thread])
    ensures e == EventFor(ms, e.thread, after[e.thread], kind, None, now)
  {
    if n > 0 && e in MoveEvents(ms, before, after, kind, now, n - 1) {
      MoveEventsAre(ms, before, after, kind, now, n - 1, e);
    }
  }

  /** A new event is of the operation's kind. */
  lemma NewEventKind(s: State, op: Op, e: Event)
    requires e in Step(s, op).events && e !in s.events
    ensures KindOf(op) == Some(e.kind)
  {
    if Accepts(s, op) {
      match op
      case Depart(org, agent, now) =>
        MoveEventsAre(s.messages, s.threads, DepartRows(s, org, agent, now), AgentDeparture, now, |s.threads|, e);
      case Sweep(now) =>
        MoveEventsAre(s.messages, s.threads, SweepRows(s, now), Timeout, now, |s.threads|, e);
      case _ =>
    }
  }

  lemma SweepEventDue(s: State, now: int, e: Event)
    requires RoundsBounded(s) && e in Step(s, Sweep(now)).events && e !in s.events
    ensures TimeoutDue(Step(s, Sweep(now)), e)
  {
    MoveEventsAre(s.messages, s.threads, SweepRows(s, now), Timeout, now, |s.threads|, e);
    var t := s.threads[e.thread];
    SweepEndsExactly(s, now, e.thread);
    ScaleLe(t.timeout, 1, t.round);
  }

  lemma StepTimeoutsDue(s: State, op: Op)
    requires RoundsBounded(s) && TimeoutsDue(s)
    ensures TimeoutsDue(Step(s, op))
  {
    StepContinuesAll(s, op);
    var t := Step(s, op);
    forall e | e in t.events ensures TimeoutDue(t, e) {
      if e in s.events {
        assert TimeoutDue(s, e);
      } else {
        NewEventKind(s, op, e);
        if op.Sweep? {
          SweepEventDue(s, op.now, e);
        }
      }
    }
  }

  lemma {:induction false} RunTimeoutsDue(s: State, ops: seq<Op>)
    requires RoundsBounded(s) && TimeoutsDue(s)
    ensures TimeoutsDue(Run(s, ops))
    decreases |ops|
  {
    if ops != [] {
      StepTimeoutsDue(s, ops[0]);
      StepRoundsBounded(s, ops[0]);
      RunTimeoutsDue(Step(s, ops[0]), ops[1..]);
    }
  }

  /**
   Over any run, a timeout is announced only for a thread with a positive timeout, and only after that
   time has passed since its creation: directed and kept-open tasks never time out.
   */
  lemma NoEarlyTimeout(ops: seq<Op>, e: Event)
    requires e in Run(EMPTY, ops).events && e.kind == Timeout
    ensures var s := Run(EMPTY, ops);
            && e.thread < |s.threads| && s.threads[e.thread].timeout > 0
            && s.threads[e.thread].createdAt + s.threads[e.thread].timeout < e.resolvedAt
  {
    RunTimeoutsDue(EMPTY, ops);
    assert TimeoutDue(Run(EMPTY, ops), e);
  }

  /** Only a proposal brings an ended thread back. */
  lemma OnlyProposeRevives(s: State, op: Op, i: nat)
    requires i < |s.threads| && !Live(s.threads[i])
    requires !(op.Propose? && op.thread == i)
    ensures i < |Step(s, op).threads| && !Live(Step(s, op).threads[i]) && !MovesNow(s, op, i)
  {
  }

  /** Exactly an accepted proposal for it does. */
  lemma RevivedIffProposed(s: State, op: Op, i: nat)
    requires i < |s.threads| && !Live(s.threads[i])
    ensures i < |Step(s, op).threads|
    ensures Live(Step(s, op).threads[i]) <==> op.Propose? && op.thread == i && Accepts(s, op)
  {
    if !(op.Propose? && op.thread == i) {
      OnlyProposeRevives(s, op, i);
    }
  }

  lemma {:induction false} EndedStaysQuiet(s: State, ops: seq<Op>, i: nat)
    requires i < |s.threads| && !Live(s.threads[i])
    requires forall k :: 0 <= k < |ops| ==> !(ops[k].Propose? && ops[k].thread == i)
    ensures i < |Run(s, ops).threads| && !Live(Run(s, ops).threads[i])
    decreases |ops|
  {
    if ops != [] {
      OnlyProposeRevives(s, ops[0], i);
      EndedStaysQuiet(Step(s, ops[0]), ops[1..], i);
    }
  }

  lemma {:induction false} RunSplit(s: State, ops: seq<Op>, j: nat, k: nat)
    requires j <= k <= |ops|
    ensures Run(s, ops[..k]) == Run(Run(s, ops[..j]), ops[j..k])
    decreases j
  {
    if j == 0 {
      assert ops[..k] == ops[0..k];
    } else {
      assert ops[..k][1..] == ops[1..][..k - 1] && ops[..j][1..] == ops[1..][..j - 1];
      assert ops[1..][j - 1..k - 1] == ops[j..k];
      RunSplit(Step(s, ops[0]), ops[1..], j - 1, k - 1);
    }
  }

  /** Two announcements of one thread always have a proposal for it in between. */
  lemma EventsSeparatedByPropose(s: State, ops: seq<Op>, j: nat, k: nat, i: nat) returns (p: nat)
    requires j < k < |ops|
    requires MovesNow(Run(s, ops[..j]), ops[j], i) && MovesNow(Run(s, ops[..k]), ops[k], i)
    ensures j < p < k && ops[p].Propose? && ops[p].thread == i
  {
    if exists q: nat :: j < q < k && ops[q].Propose? && ops[q].thread == i {
      p :| j < p < k && ops[p].Propose? && ops[p].thread == i;
    } else {
      p := j + 1;
      RunSplit(s, ops, j, j + 1);
      assert ops[j..j + 1] == [ops[j]];
      assert Run(Run(s, ops[..j]), [ops[j]]) == Step(Run(s, ops[..j]), ops[j]);
      RunSplit(s, ops, j + 1, k);
      EndedStaysQuiet(Run(s, ops[..j + 1]), ops[j + 1..k], i);
      assert false;
    }
  }

  // ---------------------------------------------------------------- quorum

  /**
   An approval transaction resolves a resolving thread exactly when, its own message counted,
   everybody expected has approved in the thread's current round.
   */
  lemma CommitResolvesAtQuorum(s: State, k: nat, now: int)
    requires Accepts(s, ApproveCommit(k, now))
    ensures var a := s.approvals[k];
            var t := Step(s, ApproveCommit(k, now));
            && (MovesNow(s, ApproveCommit(k, now), a.thread) <==>
                  s.threads[a.thread].status.Resolving? && AllApproved(t.messages, a.thread, t.threads[a.thread]))
            && t.messages == s.messages + [Message(a.thread, a.agent, Approve, s.threads[a.thread].round)]
            && t.threads[a.thread].expected == s.threads[a.thread].expected
            && t.threads[a.thread].round == s.threads[a.thread].round
            && forall i :: 0 <= i < |s.threads| && i != a.thread ==> t.threads[i] == s.threads[i]
  {
  }

  /** Whoever ends a resolving thread by approval or departure, the remaining respondents agreed. */
  lemma QuorumWhenResolved(s: State, op: Op, i: nat)
    requires op.ApproveCommit? || op.Depart?
    requires MovesNow(s, op, i) && s.threads[i].status.Resolving?
    ensures AllApproved(Step(s, op).messages, i, Step(s, op).threads[i])
    ensures Step(s, op).threads[i].round == s.threads[i].round
    ensures Count(Step(s, op).events, i, if op.Depart? then AgentDeparture else Consensus) ==
            Count(s.events, i, if op.Depart? then AgentDeparture else Consensus) + 1
  {
    StepEvents(s, op, i, if op.Depart? then AgentDeparture else Consensus);
  }

  /** A contest that reopens a thread voids every approval: the next round starts with none. */
  lemma ReopeningVoidsApprovals(s: State, op: Op, i: nat)
    requires Inv(s) && i < |s.threads| && Reopens(s, op, i)
    ensures forall a :: Message(i, a, Approve, Step(s, op).threads[i].round) !in Step(s, op).messages
    ensures AllApproved(Step(s, op).messages, i, Step(s, op).threads[i]) <==> s.threads[i].expected == []
  {
    StepMessages(s, op);
    var t := Step(s, op);
    assert t.threads[i].round == s.threads[i].round + 1 && t.threads[i].expected == s.threads[i].expected;
    assert forall m :: m in t.messages && m.thread == i ==> m.round < t.threads[i].round;
    if s.threads[i].expected != [] {
      assert Message(i, t.threads[i].expected[0], Approve, t.threads[i].round) !in t.messages;
    }
  }

  /** A proposal voids none: approvals belong to the round, not to the text that was proposed. */
  lemma ProposingKeepsApprovals(s: State, op: Op, i: nat)
    requires op.Propose? && op.thread == i && Accepts(s, op)
    ensures AllApproved(Step(s, op).messages, i, Step(s, op).threads[i]) <==> AllApproved(s.messages, i, s.threads[i])
  {
    var t := Step(s, op);
    var row := s.threads[i];
    assert t.messages == s.messages + [Message(i, op.agent, Resolution, row.round)];
    forall k | 0 <= k < |row.expected|
      ensures Message(i, row.expected[k], Approve, row.round) in t.messages
         <==> Message(i, row.expected[k], Approve, row.round) in s.messages
    {
    }
  }

  // ---------------------------------------------------------------- where approvals come from

  /** The callers of `postToThread` accept context, suggestion and warning only. */
  ghost predicate PostsAreTalk(ops: seq<Op>) {
    forall k :: 0 <= k < |ops| && ops[k].Post? ==>
      ops[k].kind.Context? || ops[k].kind.Suggestion? || ops[k].kind.Warning?
  }

  /** The agent calls for approval of thread `i`, finds it resolving, and its round is at most `r`. */
  ghost predicate IsCall(s: State, op: Op, i: nat, agent: string, r: nat) {
    op.ApproveRead? && op.thread == i && op.agent == agent && Accepts(s, op) && s.threads[i].round <= r
  }

  ghost predicate CalledFor(ops: seq<Op>, n: nat, i: nat, agent: string, r: nat)
    requires n <= |ops|
  {
    exists j :: 0 <= j < n && IsCall(Run(EMPTY, ops[..j]), ops[j], i, agent, r)
  }

  lemma CallsAreKept(ops: seq<Op>, n: nat, i: nat, agent: string, r: nat, later: nat)
    requires n < |ops| && CalledFor(ops, n, i, agent, r) && r <= later
    ensures CalledFor(ops, n + 1, i, agent, later)
  {
    var j :| 0 <= j < n && IsCall(Run(EMPTY, ops[..j]), ops[j], i, agent, r);
    assert IsCall(Run(EMPTY, ops[..j]), ops[j], i, agent, later);
  }

  ghost predicate MessagesCalledFor(ops: seq<Op>, n: nat, s: State)
    requires n <= |ops|
  {
    forall m :: m in s.messages && m.kind.Approve? ==> CalledFor(ops, n, m.thread, m.agent, m.round)
  }

  ghost predicate ApprovalsCalledFor(ops: seq<Op>, n: nat, s: State)
    requires n <= |ops|
  {
    forall a :: a in s.approvals ==>
      a.thread < |s.threads| && CalledFor(ops, n, a.thread, a.agent, s.threads[a.thread].round)
  }

  /** An approve message is written only by the transaction of a pending approval, in the thread's round. */
  lemma ApproveMessageHasApproval(s: State, op: Op, m: Message)
    requires m in Step(s, op).messages && m !in s.messages && m.kind.Approve?
    requires op.Post? ==> !op.kind.Approve?
    ensures m.thread < |s.threads| && m.round == s.threads[m.thread].round
    ensures exists a :: a in s.approvals && a.thread == m.thread && a.agent == m.agent
  {
    StepMessages(s, op);
    if op.ApproveCommit? {
      assert s.approvals[op.approval] in s.approvals;
    }
  }

  /** A pending approval is an old one, or the call this very step makes. */
  lemma NewApprovalIsCall(s: State, op: Op, a: Approval)
    requires a in Step(s, op).approvals && a !in s.approvals
    ensures a.thread < |s.threads| && IsCall(s, op, a.thread, a.agent, s.threads[a.thread].round)
  {
  }

  lemma RunSnoc(s: State, ops: seq<Op>, n: nat)
    requires n < |ops|
    ensures Run(s, ops[..n + 1]) == Step(Run(s, ops[..n]), ops[n])
  {
    RunSplit(s, ops, n, n + 1);
    assert ops[n..n + 1] == [ops[n]];
    var t := Run(s, ops[..n]);
    assert Run(t, [ops[n]]) == Run(Step(t, ops[n]), []);
  }

  lemma {:induction false} CallsTraced(ops: seq<Op>, n: nat)
    requires n <= |ops| && PostsAreTalk(ops)
    ensures MessagesCalledFor(ops, n, Run(EMPTY, ops[..n])) && ApprovalsCalledFor(ops, n, Run(EMPTY, ops[..n]))
  {
    if n > 0 {
      CallsTraced(ops, n - 1);
      RunSnoc(EMPTY, ops, n - 1);
      CallsTracedStep(ops, n - 1);
    }
  }

  lemma CallsTracedStep(ops: seq<Op>, n: nat)
    requires n < |ops| && PostsAreTalk(ops)
    requires MessagesCalledFor(ops, n, Run(EMPTY, ops[..n])) && ApprovalsCalledFor(ops, n, Run(EMPTY, ops[..n]))
    ensures var t := Step(Run(EMPTY, ops[..n]), ops[n]);
            MessagesCalledFor(ops, n + 1, t) && ApprovalsCalledFor(ops, n + 1, t)
  {
    var s, op := Run(EMPTY, ops[..n]), ops[n];
    var t := Step(s, op);
    forall m | m in t.messages && m.kind.Approve? ensures CalledFor(ops, n + 1, m.thread, m.agent, m.round) {
      if m !in s.messages {
        ApproveMessageHasApproval(s, op, m);
      }
      CallsAreKept(ops, n, m.thread, m.agent, m.round, m.round);
    }
    forall a | a in t.approvals
      ensures a.thread < |t.threads| && CalledFor(ops, n + 1, a.thread, a.agent, t.threads[a.thread].round)
    {
      if a in s.approvals {
        StepContinues(s, op, a.thread);
        CallsAreKept(ops, n, a.thread, a.agent, s.threads[a.thread].round, t.threads[a.thread].round);
      } else {
        NewApprovalIsCall(s, op, a);
        StepContinues(s, op, a.thread);
        assert IsCall(s, op, a.thread, a.agent, t.threads[a.thread].round);
      }
    }
  }

  /**
   Nobody's agreement is made up: over any run, when the last operation ends a resolving thread by
   approval or departure, each respondent it still waits for had called for approval of that thread
   itself and found it resolving, in this round or an earlier one.
   */
  lemma ConsensusWasCalledFor(ops: seq<Op>, i: nat, agent: string)
    requires ops != [] && PostsAreTalk(ops)
    requires var n := |ops| - 1;
             var s := Run(EMPTY, ops[..n]);
             && (ops[n].ApproveCommit? || ops[n].Depart?)
             && MovesNow(s, ops[n], i) && s.threads[i].status.Resolving?
             && agent in Step(s, ops[n]).threads[i].expected
    ensures var n := |ops| - 1; CalledFor(ops, |ops|, i, agent, Run(EMPTY, ops[..n]).threads[i].round)
  {
    var n := |ops| - 1;
    var s := Run(EMPTY, ops[..n]);
    QuorumWhenResolved(s, ops[n], i);
    CallsTraced(ops, |ops|);
    RunSnoc(EMPTY, ops, n);
    var t := Step(s, ops[n]);
    var k :| 0 <= k < |t.threads[i].expected| && t.threads[i].expected[k] == agent;
    assert Message(i, agent, Approve, t.threads[i].round) in t.messages;
  }

  /**
   The earlier round is possible: an approval checked before a contest and committed after the next
   proposal counts for that proposal, although the agent never saw it.
   */
  lemma LateApprovalCountsForNextRound(s: State, i: nat, agent: string, other: string, text: string, now: int)
    requires i < |s.threads| && s.threads[i].status.Resolving? && s.threads[i].round < s.threads[i].maxRounds
    requires s.threads[i].expected == [agent]
    ensures var org := s.threads[i].org;
            var s1 := Step(s, ApproveRead(org, i, agent, None));
            var s2 := Step(s1, ContestIt(org, i, other, now));
            var s3 := Step(s2, Propose(org, i, s.threads[i].initiator, text));
            var s4 := Step(s3, ApproveCommit(|s.approvals|, now));
            && s4.threads[i].status.Resolved? && s4.threads[i].round == s.threads[i].round + 1
            && s4.threads[i].summary == Some(text)
  {
    var org := s.threads[i].org;
    var s1 := Step(s, ApproveRead(org, i, agent, None));
    assert s1.approvals[|s.approvals|] == Approval(org, i, agent, None);
    var s2 := Step(s1, ContestIt(org, i, other, now));
    assert s2.threads[i] == s.threads[i].(status := Open, round := s.threads[i].round + 1, summary := None);
    var s3 := Step(s2, Propose(org, i, s.threads[i].initiator, text));
    assert s3.threads[i].status.Resolving? && s3.threads[i].summary == Some(text) && s3.threads[i].expected == [agent];
    CommitResolvesAtQuorum(s3, |s.approvals|, now);
  }

  /**
   Which round an approval counts for: the one in which it passed its status check if and only if no
   contest reopened the thread before its transaction.
   */
  lemma ApprovalCountsForItsRound(s: State, org: string, i: nat, agent: string, name: Option<string>, ops: seq<Op>,
                                  k: nat, now: int)
    requires Accepts(s, ApproveRead(org, i, agent, name))
    requires var t := Run(Step(s, ApproveRead(org, i, agent, name)), ops);
             k < |t.approvals| && t.approvals[k] == Approval(org, i, agent, name)
    ensures var s0 := Step(s, ApproveRead(org, i, agent, name));
            var t := Run(s0, ops);
            var u := Step(t, ApproveCommit(k, now));
            && i < |t.threads| && u.messages == t.messages + [Message(i, agent, Approve, t.threads[i].round)]
            && (t.threads[i].round == s.threads[i].round <==> Reopenings(s0, ops, i) == 0)
            && (MovesNow(t, ApproveCommit(k, now), i) ==>
                  u.threads[i].round == s.threads[i].round + Reopenings(s0, ops, i))
  {
    var s0 := Step(s, ApproveRead(org, i, agent, name));
    RunContinues(s0, ops, i);
    var t := Run(s0, ops);
    assert Finds(t, org, i);
    CommitResolvesAtQuorum(t, k, now);
  }

  // ---------------------------------------------------------------- departure

  /** The state a departure leaves behind, row by row. */
  lemma DeparturePostState(s: State, org: string, agent: string, now: int, i: nat)
    requires i < |s.threads|
    ensures var op := Depart(org, agent, now);
            var t := Step(s, op).threads[i];
            && |Step(s, op).threads| == |s.threads| && Step(s, op).messages == s.messages
            && (s.threads[i].org != org ==> t == s.threads[i])
            && (!(s.threads[i].status == Open || s.threads[i].status == Resolving) ==> t == s.threads[i])
            && (s.threads[i].org == org && (s.threads[i].status == Open || s.threads[i].status == Resolving) ==>
                  && (forall x :: x in t.expected <==> x in s.threads[i].expected && x != agent)
                  && t.claimedBy == (if s.threads[i].status == Open && s.threads[i].claimedBy == Some(agent) then None
                                     else s.threads[i].claimedBy)
                  && t.summary == s.threads[i].summary && t.round == s.threads[i].round
                  && (t.status == Resolved || t.status == s.threads[i].status)
                  && t.resolvedAt == (if t.status == Resolved then Some(now) else s.threads[i].resolvedAt))
            && (t.org == org && Live(t) ==> agent !in t.expected)
            && (t.org == org && t.status.Open? ==> t.claimedBy != Some(agent) && t.expected != [])
            && (t.org == org && t.status.Resolving? ==> !AllApproved(s.messages, i, t))
            && (Live(s.threads[i]) && !Live(t) ==> t.status.Resolved?)
            && Count(Step(s, op).events, i, AgentDeparture) ==
               Count(s.events, i, AgentDeparture) + if MovesNow(s, op, i) then 1 else 0
  {
    StepEvents(s, Depart(org, agent, now), i, AgentDeparture);
  }

  /**
   Which open threads a departure ends: exactly those of the organisation that wait for nobody
   else.  A thread that waits for nobody at all (a directed or kept-open task) is among them, so it
   is ended by the departure of any agent of its organisation.
   */
  lemma DepartureEndsOpenThread(s: State, org: string, agent: string, now: int, i: nat)
    requires i < |s.threads| && s.threads[i].status.Open?
    ensures MovesNow(s, Depart(org, agent, now), i) <==>
            s.threads[i].org == org && forall x :: x in s.threads[i].expected ==> x == agent
  {
    var rest := Without(s.threads[i].expected, agent);
    assert rest != [] ==> rest[0] in rest;
  }
}
