/**
 The consultation service as the object the source updates, statement by statement.  Each method
 is proved to perform the matching step of `ConsultationModel`, so every claim made there about
 runs is a claim about sequences of these calls.
 */
module Consultation {
  import opened Common
  import opened ConsultationModel

  /** The unclaim statement of a departure. */
  function Unclaimed(t: Thread, org: string, agent: string): Thread {
    if t.claimedBy == Some(agent) && t.status.Open? && t.org == org then t.(claimedBy := None) else t
  }

  /** The two conditions under which the departure loop resolves a row it has just shortened. */
  predicate Ends(ms: seq<Message>, i: nat, u: Thread) {
    (u.status.Resolving? && AllApproved(ms, i, u)) || (u.status.Open? && u.expected == [])
  }

  /** Unclaiming first and shortening later is the row-wise departure of the model. */
  lemma DepartRowInTwoPasses(ms: seq<Message>, i: nat, t: Thread, org: string, agent: string, now: int)
    ensures var w := Unclaimed(t, org, agent);
            var u := w.(expected := Without(w.expected, agent));
            var r := DepartRow(ms, i, t, org, agent, now);
            if w.org == org && Live(w)
            then r == (if Ends(ms, i, u) then u.(status := Resolved, resolvedAt := Some(now)) else u)
                 && (Moved(t, r) <==> Ends(ms, i, u))
            else r == w && !Moved(t, r)
  {
    var w := Unclaimed(t, org, agent);
    var u := w.(expected := Without(w.expected, agent));
    assert AllApproved(ms, i, u) <==> AllApproved(ms, i, u.(claimedBy := t.claimedBy));
  }

  /** Row `j` of `after` is what the departure makes of row `j`. */
  ghost predicate BecomesRow(before: State, after: seq<Thread>, j: nat, org: string, agent: string, now: int)
    requires j < |before.threads| == |after|
  {
    after[j] == DepartRow(before.messages, j, before.threads[j], org, agent, now)
  }

  class Service {
    var threads: seq<Thread>
    var messages: seq<Message>
    /** What the resolution callback was told, in order. */
    var events: seq<Event>
    /** Approvals between their status check and their transaction. */
    var approvals: seq<Approval>

    function View(): State
      reads this
    {
      State(threads, messages, events, approvals)
    }

    constructor ()
      ensures View() == EMPTY
    {
      threads, messages, events, approvals := [], [], [], [];
    }

    method PostResolutionMessage(i: nat, agent: string, kind: MessageType)
      requires i < |threads|
      modifies this`messages
      ensures messages == old(messages) + [Message(i, agent, kind, threads[i].round)]
    {
      messages := messages + [Message(i, agent, kind, threads[i].round)];
    }

    method EmitResolution(i: nat, kind: ResolutionType, approver: Option<Approver>, now: int)
      requires i < |threads|
      modifies this`events
      ensures events == old(events) + [EventFor(messages, i, threads[i], kind, approver, now)]
      ensures var t, e := threads[i], events[|old(events)|];
              && e.thread == i && e.kind == kind && e.org == t.org && e.summary == t.summary
              && e.createdAt == t.createdAt && e.resolvedAt == (if t.resolvedAt.Some? then t.resolvedAt.value else now)
              && e.approvedBy == approver && (e.hadMessages <==> exists m :: m in messages && m.thread == i)
    {
      var t := threads[i];
      var resolvedAt := if t.resolvedAt.Some? then t.resolvedAt.value else now;
      events := events + [Event(i, kind, t.org, t.summary, t.createdAt, resolvedAt, approver,
                                HasMessages(messages, i))];
    }

    method AllRespondentsApproved(i: nat) returns (all: bool)
      requires i < |threads|
      ensures all <==> AllApproved(messages, i, threads[i])
    {
      var expected := threads[i].expected;
      if |expected| == 0 {
        return true;
      }
      var approvedIds: set<string> := {};
      for k := 0 to |messages|
        invariant forall a :: a in approvedIds <==> Message(i, a, Approve, threads[i].round) in messages[..k]
      {
        var m := messages[k];
        if m.thread == i && m.kind == Approve && m.round == threads[i].round {
          approvedIds := approvedIds + {m.agent};
        }
      }
      assert messages[..|messages|] == messages;
      all := forall k :: 0 <= k < |expected| ==> expected[k] in approvedIds;
    }

    method AnnounceWork(org: string, agent: string, online: seq<OnlineAgent>, targets: seq<string>,
                        files: seq<string>, keepOpen: bool, assignedTo: Option<string>, now: int) returns (i: nat)
      modifies this
      ensures View() == Step(old(View()), Announce(org, agent, online, targets, files, keepOpen, assignedTo, now))
      ensures i == |old(threads)| && threads == old(threads) + [threads[i]]
      ensures messages == old(messages) && events == old(events) && approvals == old(approvals)
      ensures forall a :: a in threads[i].expected <==>
                a != agent && exists x :: x in online && x.id == a && Overlaps(x.modules, targets)
      ensures var t := threads[i];
              && t.org == org && t.initiator == agent && t.files == files && t.assignedTo == assignedTo
              && t.claimedBy == None && t.summary == None && t.round == 1 && t.maxRounds == 4 && t.unclaims == 0
              && t.createdAt == now && t.timeout == (if keepOpen || assignedTo.Some? then 0 else 600)
              && t.status == (if t.expected == [] && !keepOpen && assignedTo == None then Resolved else Open)
              && t.resolvedAt == (if t.status == Resolved then Some(now) else None)
    {
      RespondentsAre(online, agent, targets);
      var respondents := Respondents(online, agent, targets);
      var keep := keepOpen || assignedTo.Some?;
      var autoResolve := |respondents| == 0 && !keep;
      i := |threads|;
      threads := threads + [Thread(org, agent, if autoResolve then Resolved else Open, respondents,
                                   None, assignedTo, None,
                                   1, DEFAULT_MAX_ROUNDS, if keep then 0 else DEFAULT_TIMEOUT, now,
                                   if autoResolve then Some(now) else None, files, 0)];
    }

    /** The scored agents replace the expected ones; alone with an open thread, the announcer needs nobody. */
    method OverrideRespondents(org: string, i: nat, concerned: seq<string>, otherOnline: nat, keepOpen: bool, now: int)
      returns (ok: bool)
      modifies this
      ensures View() == Step(old(View()), Score(org, i, concerned, otherOnline == 0, keepOpen, now))
      ensures ok <==> Accepts(old(View()), Score(org, i, concerned, otherOnline == 0, keepOpen, now))
      ensures ok <==> i < |old(threads)| && old(threads)[i].org == org
      ensures !ok ==> View() == old(View())
      ensures ok ==>
                var ends := concerned == [] && otherOnline == 0 && !keepOpen && old(threads)[i].status == Open;
                && threads == old(threads)[i := old(threads)[i].(
                                                  expected := concerned,
                                                  status := if ends then Resolved else old(threads)[i].status,
                                                  resolvedAt := if ends then Some(now) else old(threads)[i].resolvedAt)]
                && messages == old(messages) && approvals == old(approvals)
                && |events| == |old(events)| + (if ends then 1 else 0)
                && (ends ==> events[|old(events)|].thread == i && events[|old(events)|].kind == AutoResolved)
    {
      ok := i < |threads| && threads[i].org == org;
      if !ok {
        return;
      }
      threads := threads[i := threads[i].(expected := concerned)];
      var shouldAutoResolve := |concerned| == 0 && otherOnline == 0;
      if shouldAutoResolve && threads[i].status.Open? && !keepOpen {
        threads := threads[i := threads[i].(status := Resolved, resolvedAt := Some(now))];
        EmitResolution(i, AutoResolved, None, now);
      }
    }

    /** An agent that was asked and says it is concerned joins a live thread, once. */
    method JoinRespondents(org: string, i: nat, agent: string)
      modifies this
      ensures View() == Step(old(View()), AddRespondent(org, i, agent))
      ensures messages == old(messages) && events == old(events) && approvals == old(approvals)
      ensures if i < |old(threads)| && old(threads)[i].org == org && agent !in old(threads)[i].expected
                 && (old(threads)[i].status == Open || old(threads)[i].status == Resolving)
              then threads == old(threads)[i := old(threads)[i].(expected := old(threads)[i].expected + [agent])]
              else threads == old(threads)
    {
      if i < |threads| && threads[i].org == org && (threads[i].status.Open? || threads[i].status.Resolving?) {
        if agent !in threads[i].expected {
          threads := threads[i := threads[i].(expected := threads[i].expected + [agent])];
        }
      }
    }

    /** One UPDATE with the overlap test inside it. */
    method ClaimTask(org: string, i: nat, agent: string) returns (ok: bool)
      modifies this
      ensures View() == Step(old(View()), Claim(org, i, agent))
      ensures ok <==> Accepts(old(View()), Claim(org, i, agent))
      ensures ok <==> i < |old(threads)| && old(threads)[i].org == org && old(threads)[i].status == Open
                      && old(threads)[i].claimedBy == None && !HeldByOther(old(threads), i, agent)
                      && (old(threads)[i].assignedTo == None || old(threads)[i].assignedTo == Some(agent))
      ensures !ok ==> View() == old(View())
      ensures ok ==>
                && threads == old(threads)[i := old(threads)[i].(claimedBy := Some(agent))]
                && messages == old(messages) && events == old(events) && approvals == old(approvals)
    {
      ok := i < |threads| && threads[i].org == org && threads[i].claimedBy == None && threads[i].status.Open?
            && (threads[i].assignedTo == None || threads[i].assignedTo == Some(agent));
      if !ok {
        return;
      }
      var held := OtherHolds(i, agent);
      if held {
        return false;
      }
      threads := threads[i := threads[i].(claimedBy := Some(agent))];
    }

    /** The scan for an open thread with a common file that somebody else has claimed. */
    method OtherHolds(i: nat, agent: string) returns (held: bool)
      requires i < |threads|
      ensures held <==> HeldByOther(threads, i, agent)
    {
      for j := 0 to |threads|
        invariant forall k :: 0 <= k < j ==> !Blocks(threads, i, k, agent)
      {
        if j != i && threads[j].org == threads[i].org && threads[j].status.Open? && threads[j].claimedBy.Some?
           && threads[j].claimedBy != Some(agent) && ShareFile(threads[i], threads[j])
        {
          assert Blocks(threads, i, j, agent);
          return true;
        }
      }
      held := false;
    }

    /** Only the claimant gives a thread up; the second time it leaves the pool. */
    method UnclaimTask(org: string, i: nat, agent: string) returns (ok: bool, poisoned: bool)
      modifies this
      ensures View() == Step(old(View()), Unclaim(org, i, agent))
      ensures ok <==> Accepts(old(View()), Unclaim(org, i, agent))
      ensures poisoned <==> ok && threads[i].status.Poisoned?
      ensures ok <==> i < |old(threads)| && old(threads)[i].org == org && old(threads)[i].status == Open
                      && old(threads)[i].claimedBy == Some(agent)
      ensures !ok ==> View() == old(View())
      ensures ok ==>
                && threads == old(threads)[i := old(threads)[i].(
                                                  claimedBy := None, unclaims := old(threads)[i].unclaims + 1,
                                                  status := if poisoned then Poisoned else Open)]
                && (poisoned <==> old(threads)[i].unclaims + 1 >= 2)
                && messages == old(messages) && events == old(events) && approvals == old(approvals)
    {
      poisoned := false;
      ok := i < |threads| && threads[i].org == org && threads[i].claimedBy == Some(agent) && threads[i].status.Open?;
      if !ok {
        return;
      }
      threads := threads[i := threads[i].(claimedBy := None, unclaims := threads[i].unclaims + 1)];
      if threads[i].unclaims >= POISON_THRESHOLD {
        threads := threads[i := threads[i].(status := Poisoned)];
        poisoned := true;
      }
    }

    method PostToThread(org: string, i: nat, agent: string, kind: MessageType) returns (ok: bool)
      modifies this
      ensures View() == Step(old(View()), Post(org, i, agent, kind))
      ensures ok <==> Accepts(old(View()), Post(org, i, agent, kind))
      ensures ok <==> i < |old(threads)| && old(threads)[i].org == org && old(threads)[i].status != Cancelled
      ensures !ok ==> View() == old(View())
      ensures ok ==>
                && messages == old(messages) + [Message(i, agent, kind, old(threads)[i].round)]
                && threads == old(threads) && events == old(events) && approvals == old(approvals)
    {
      ok := i < |threads| && threads[i].org == org;
      if !ok {
        return;
      }
      if threads[i].status.Cancelled? {
        return false;
      }
      PostResolutionMessage(i, agent, kind);
    }

    method ProposeResolution(org: string, i: nat, agent: string, text: string) returns (ok: bool)
      modifies this
      ensures View() == Step(old(View()), Propose(org, i, agent, text))
      ensures ok <==> Accepts(old(View()), Propose(org, i, agent, text))
      ensures ok <==> i < |old(threads)| && old(threads)[i].org == org
                      && (old(threads)[i].initiator == agent || old(threads)[i].claimedBy == Some(agent))
      ensures !ok ==> View() == old(View())
      ensures ok ==>
                && threads == old(threads)[i := old(threads)[i].(status := Resolving, summary := Some(text))]
                && messages == old(messages) + [Message(i, agent, Resolution, old(threads)[i].round)]
                && events == old(events) && approvals == old(approvals)
    {
      ok := i < |threads| && threads[i].org == org;
      if !ok {
        return;
      }
      if threads[i].initiator != agent && threads[i].claimedBy != Some(agent) {
        return false;
      }
      threads := threads[i := threads[i].(status := Resolving, summary := Some(text))];
      PostResolutionMessage(i, agent, Resolution);
    }

    /** The status check of an approval. */
    method ApproveCheck(org: string, i: nat, agent: string, name: Option<string>) returns (ok: bool)
      modifies this
      ensures View() == Step(old(View()), ApproveRead(org, i, agent, name))
      ensures ok <==> Accepts(old(View()), ApproveRead(org, i, agent, name))
      ensures ok <==> i < |old(threads)| && old(threads)[i].org == org && old(threads)[i].status == Resolving
      ensures threads == old(threads) && messages == old(messages) && events == old(events)
      ensures approvals == old(approvals) + if ok then [Approval(org, i, agent, name)] else []
    {
      ok := i < |threads| && threads[i].org == org;
      if !ok {
        return;
      }
      if !threads[i].status.Resolving? {
        return false;
      }
      approvals := approvals + [Approval(org, i, agent, name)];
    }

    /** The transaction of the `k`-th pending approval: post, check, compare-and-set, announce. */
    method ApproveTransaction(k: nat, now: int) returns (wonRace: bool)
      requires Accepts(View(), ApproveCommit(k, now))
      modifies this
      ensures View() == Step(old(View()), ApproveCommit(k, now))
      ensures wonRace <==> MovesNow(old(View()), ApproveCommit(k, now), old(approvals)[k].thread)
      ensures var a := old(approvals)[k];
              var t := old(threads)[a.thread];
              && messages == old(messages) + [Message(a.thread, a.agent, Approve, t.round)]
              && (wonRace <==> t.status == Resolving
                               && forall x :: x in t.expected ==> Message(a.thread, x, Approve, t.round) in messages)
              && threads == (if wonRace then old(threads)[a.thread := t.(status := Resolved, resolvedAt := Some(now))]
                             else old(threads))
              && |events| == |old(events)| + (if wonRace then 1 else 0)
              && (wonRace ==>
                    && events[|old(events)|].thread == a.thread && events[|old(events)|].kind == Consensus
                    && events[|old(events)|].approvedBy ==
                       Some(Approver(a.agent, if a.name == None || a.name == Some("") then a.agent else a.name.value)))
    {
      var a := approvals[k];
      PostResolutionMessage(a.thread, a.agent, Approve);
      var all := AllRespondentsApproved(a.thread);
      wonRace := false;
      if all && threads[a.thread].status.Resolving? {
        threads := threads[a.thread := threads[a.thread].(status := Resolved, resolvedAt := Some(now))];
        wonRace := true;
      }
      approvals := approvals[..k] + approvals[k + 1..];
      if wonRace {
        EmitResolution(a.thread, Consensus, Some(ApproverOf(a)), now);
      }
    }

    method ContestResolution(org: string, i: nat, agent: string, now: int) returns (ok: bool)
      modifies this
      ensures View() == Step(old(View()), ContestIt(org, i, agent, now))
      ensures ok <==> Accepts(old(View()), ContestIt(org, i, agent, now))
      ensures ok <==> i < |old(threads)| && old(threads)[i].org == org && old(threads)[i].status == Resolving
      ensures !ok ==> View() == old(View())
      ensures ok ==>
                var t := old(threads)[i];
                var last := t.round >= t.maxRounds;
                && messages == old(messages) + [Message(i, agent, Contest, t.round)]
                && threads == old(threads)[i := if last then t.(status := Resolved, resolvedAt := Some(now))
                                                else t.(status := Open, round := t.round + 1, summary := None)]
                && |events| == |old(events)| + (if last then 1 else 0) && approvals == old(approvals)
                && (last ==> events[|old(events)|].thread == i && events[|old(events)|].kind == MaxRounds)
    {
      ok := i < |threads| && threads[i].org == org;
      if !ok {
        return;
      }
      var thread := threads[i];
      if !thread.status.Resolving? {
        return false;
      }
      PostResolutionMessage(i, agent, Contest);
      var nextRound := thread.round + 1;
      if nextRound > thread.maxRounds {
        threads := threads[i := threads[i].(status := Resolved, resolvedAt := Some(now))];
        EmitResolution(i, MaxRounds, None, now);
        assert HasMessages(messages, i) by {
          assert messages[|messages| - 1].thread == i;
        }
      } else {
        threads := threads[i := threads[i].(status := Open, round := nextRound, summary := None)];
      }
    }

    method CancelThread(org: string, i: nat, agent: string, reasonGiven: bool, now: int) returns (ok: bool)
      modifies this
      ensures View() == Step(old(View()), Cancel(org, i, agent, reasonGiven, now))
      ensures ok <==> Accepts(old(View()), Cancel(org, i, agent, reasonGiven, now))
      ensures ok <==> i < |old(threads)| && old(threads)[i].org == org && old(threads)[i].initiator == agent
      ensures !ok ==> View() == old(View())
      ensures ok ==>
                && threads == old(threads)[i := old(threads)[i].(status := Cancelled, resolvedAt := Some(now))]
                && messages == (old(messages)
                                + if reasonGiven then [Message(i, agent, Context, old(threads)[i].round)] else [])
                && events == old(events) && approvals == old(approvals)
    {
      ok := i < |threads| && threads[i].org == org;
      if !ok {
        return;
      }
      if threads[i].initiator != agent {
        return false;
      }
      threads := threads[i := threads[i].(status := Cancelled, resolvedAt := Some(now))];
      if reasonGiven {
        PostResolutionMessage(i, agent, Context);
      }
    }

    method CloseThread(org: string, i: nat, agent: string, text: string, now: int) returns (ok: bool)
      modifies this
      ensures View() == Step(old(View()), Close(org, i, agent, text, now))
      ensures ok <==> Accepts(old(View()), Close(org, i, agent, text, now))
      ensures ok <==> i < |old(threads)| && old(threads)[i].org == org && old(threads)[i].initiator == agent
                      && (old(threads)[i].status == Open || old(threads)[i].status == Resolving)
      ensures !ok ==> View() == old(View())
      ensures ok ==>
                && threads == old(threads)[i := old(threads)[i].(
                                                  status := Resolved, summary := Some(text), resolvedAt := Some(now))]
                && messages == old(messages) && approvals == old(approvals) && |events| == |old(events)| + 1
                && events[|old(events)|].thread == i && events[|old(events)|].kind == Closed
    {
      ok := i < |threads| && threads[i].org == org;
      if !ok {
        return;
      }
      if threads[i].initiator != agent || (threads[i].status != Open && threads[i].status != Resolving) {
        return false;
      }
      threads := threads[i := threads[i].(status := Resolved, summary := Some(text), resolvedAt := Some(now))];
      EmitResolution(i, Closed, None, now);
    }

    /** The body of the departure loop for a live thread. */
    method DepartThread(i: nat, agent: string, now: int)
      requires i < |threads| && Live(threads[i])
      modifies this`threads, this`events
      ensures var was := old(threads)[i];
              var u := was.(expected := Without(was.expected, agent));
              var ends := Ends(messages, i, u);
              && threads == old(threads)[i := if ends then u.(status := Resolved, resolvedAt := Some(now)) else u]
              && events ==
                 old(events) + if ends then [EventFor(messages, i, threads[i], AgentDeparture, None, now)] else []
    {
      var updated := Without(threads[i].expected, agent);
      threads := threads[i := threads[i].(expected := updated)];
      var t := threads[i];
      if t.status.Resolving? {
        var all := AllRespondentsApproved(i);
        if all {
          threads := threads[i := threads[i].(status := Resolved, resolvedAt := Some(now))];
          EmitResolution(i, AgentDeparture, None, now);
        }
      }
      if t.status.Open? && |updated| == 0 {
        threads := threads[i := threads[i].(status := Resolved, resolvedAt := Some(now))];
        EmitResolution(i, AgentDeparture, None, now);
      }
    }

    /** One iteration; `before` is the row before the unclaiming, `after` what it has to become. */
    method DepartIteration(i: nat, ghost before: Thread, ghost after: Thread, org: string, agent: string, now: int)
      requires i < |threads| && threads[i] == Unclaimed(before, org, agent)
      requires after == DepartRow(messages, i, before, org, agent, now)
      modifies this`threads, this`events
      ensures threads == old(threads)[i := after]
      ensures events ==
              old(events)
              + if Moved(before, after) then [EventFor(messages, i, after, AgentDeparture, None, now)] else []
    {
      DepartRowInTwoPasses(messages, i, before, org, agent, now);
      if threads[i].org == org && (threads[i].status == Open || threads[i].status == Resolving) {
        DepartThread(i, agent, now);
      }
    }

    method HandleAgentDeparture(org: string, agent: string, now: int)
      modifies this
      ensures View() == Step(old(View()), Depart(org, agent, now))
    {
      ghost var before := View();
      var rows := threads;
      threads := seq(|rows|, i requires 0 <= i < |rows| => Unclaimed(rows[i], org, agent));
      ghost var after := DepartRows(before, org, agent, now);
      forall j | 0 <= j < |rows| ensures BecomesRow(before, after, j, org, agent, now) {
      }
      DepartLoop(before, after, org, agent, now);
    }

    /** The loop over the organisation's live threads; `before` is the state before the unclaiming. */
    method DepartLoop(ghost before: State, ghost after: seq<Thread>, org: string, agent: string, now: int)
      requires |threads| == |before.threads| == |after| && messages == before.messages
      requires forall j :: 0 <= j < |threads| ==> threads[j] == Unclaimed(before.threads[j], org, agent)
      requires forall j :: 0 <= j < |after| ==> BecomesRow(before, after, j, org, agent, now)
      modifies this`threads, this`events
      ensures threads == after
      ensures events == old(events) + MoveEvents(messages, before.threads, after, AgentDeparture, now, |after|)
    {
      var n := |threads|;
      for i := 0 to n
        invariant n == |threads|
        invariant forall j :: 0 <= j < i ==> threads[j] == after[j]
        invariant forall j :: i <= j < n ==> threads[j] == Unclaimed(before.threads[j], org, agent)
        invariant events == old(events) + MoveEvents(messages, before.threads, after, AgentDeparture, now, i)
      {
        assert BecomesRow(before, after, i, org, agent, now);
        DepartIteration(i, before.threads[i], after[i], org, agent, now);
      }
    }

    method CheckTimeouts(now: int)
      modifies this
      ensures View() == Step(old(View()), Sweep(now))
      ensures |threads| == |old(threads)| && messages == old(messages) && approvals == old(approvals)
      ensures forall i :: 0 <= i < |threads| ==>
                var t := old(threads)[i];
                if (t.status == Open || t.status == Resolving) && t.timeout > 0
                   && t.createdAt + t.timeout * t.round < now
                then threads[i] == t.(status := Resolved, summary := Some(TIMEOUT_SUMMARY), resolvedAt := Some(now))
                else threads[i] == t
    {
      ghost var before := threads;
      ghost var rows := SweepRows(View(), now);
      var n := |threads|;
      var timedOut := seq(n, i requires 0 <= i < n && n == |threads| reads this => TimedOut(threads[i], now));
      threads := seq(n, i requires 0 <= i < n && n == |threads| reads this => SweepRow(threads[i], now));
      assert threads == rows;
      for i := 0 to n
        invariant threads == rows && messages == old(messages) && approvals == old(approvals)
        invariant events == old(events) + MoveEvents(messages, before, rows, Timeout, now, i)
      {
        if timedOut[i] {
          EmitResolution(i, Timeout, None, now);
        }
      }
    }
  }
}
