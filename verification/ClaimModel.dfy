/**
 What a claim is to guarantee: no two agents hold open threads of one organisation with a target file
 in common.  Claiming tests for it; reopening a claimed thread does not.
 */
module ClaimModel {
  import opened Common
  import opened ConsultationModel

  /** Threads `i` and `j` are held by two agents and share a file. */
  predicate Clash(threads: seq<Thread>, i: int, j: int)
    requires 0 <= i < |threads| && 0 <= j < |threads|
  {
    Held(threads[i]) && Blocks(threads, i, j, threads[i].claimedBy.value)
  }

  ghost predicate Exclusive(s: State) {
    forall i, j :: 0 <= i < |s.threads| && 0 <= j < |s.threads| ==> !Clash(s.threads, i, j)
  }

  /** A contest sends a claimed thread back while somebody else holds one of its files. */
  ghost predicate ReopensIntoClash(s: State, op: Op) {
    && op.ContestIt? && Reopens(s, op, op.thread)
    && s.threads[op.thread].claimedBy.Some?
    && HeldByOther(s.threads, op.thread, s.threads[op.thread].claimedBy.value)
  }

  ghost predicate Claims(s: State, op: Op, i: int) {
    op.Claim? && op.thread == i && Accepts(s, op)
  }

  /** A held thread was held by the same agent before, has just been claimed, or has just been reopened. */
  lemma HeldBefore(s: State, op: Op, i: nat)
    requires i < |Step(s, op).threads| && Held(Step(s, op).threads[i])
    ensures i < |s.threads|
    ensures var t, u := s.threads[i], Step(s, op).threads[i];
            if Claims(s, op, i) then u.claimedBy == Some(op.agent)
            else u.claimedBy == t.claimedBy && (Held(t) || Reopens(s, op, i))
  {
  }

  lemma SameFiles(s: State, op: Op, i: nat, j: nat)
    requires i < |s.threads| && j < |s.threads|
    ensures var t := Step(s, op).threads;
            && |t| >= |s.threads| && t[i].org == s.threads[i].org && t[j].org == s.threads[j].org
            && (ShareFile(t[i], t[j]) <==> ShareFile(s.threads[i], s.threads[j]))
  {
    StepContinues(s, op, i);
    StepContinues(s, op, j);
  }

  lemma ClashIsSymmetric(threads: seq<Thread>, i: int, j: int)
    requires 0 <= i < |threads| && 0 <= j < |threads| && Clash(threads, i, j)
    ensures Clash(threads, j, i)
  {
    assert ShareFile(threads[j], threads[i]);
  }

  /** A clash that a step makes comes from reopening one of the two threads. */
  lemma NewClash(s: State, op: Op, i: nat, j: nat)
    requires Exclusive(s) && i < |Step(s, op).threads| && j < |Step(s, op).threads|
    requires Clash(Step(s, op).threads, i, j) && !(op.ContestIt? && op.thread == j) && !(op.Claim? && op.thread == j)
    ensures ReopensIntoClash(s, op)
  {
    HeldBefore(s, op, i);
    HeldBefore(s, op, j);
    SameFiles(s, op, i, j);
    if Claims(s, op, i) {
      assert Blocks(s.threads, i, j, op.agent);
    } else {
      assert Blocks(s.threads, i, j, s.threads[i].claimedBy.value);
      assert !Clash(s.threads, i, j);
    }
  }

  lemma ReopeningClashes(s: State, op: Op)
    requires ReopensIntoClash(s, op)
    ensures !Exclusive(Step(s, op))
  {
    var i := op.thread;
    var j :| 0 <= j < |s.threads| && Blocks(s.threads, i, j, s.threads[i].claimedBy.value);
    SameFiles(s, op, i, j);
    assert Step(s, op).threads[j] == s.threads[j];
    assert Clash(Step(s, op).threads, i, j);
  }

  /** A step keeps claims exclusive if and only if it does not reopen a claimed thread into a clash. */
  lemma StepExclusive(s: State, op: Op)
    requires Exclusive(s)
    ensures Exclusive(Step(s, op)) <==> !ReopensIntoClash(s, op)
  {
    if ReopensIntoClash(s, op) {
      ReopeningClashes(s, op);
    } else {
      var t := Step(s, op).threads;
      forall i, j | 0 <= i < |t| && 0 <= j < |t| ensures !Clash(t, i, j) {
        if Clash(t, i, j) {
          if (op.ContestIt? || op.Claim?) && op.thread == j {
            ClashIsSymmetric(t, i, j);
            NewClash(s, op, j, i);
          } else {
            NewClash(s, op, i, j);
          }
        }
      }
    }
  }

  ghost predicate ExclusiveUpTo(ops: seq<Op>, n: nat)
    requires n <= |ops|
  {
    forall k :: 0 <= k <= n ==> Exclusive(Run(EMPTY, ops[..k]))
  }

  ghost predicate NoClashUpTo(ops: seq<Op>, n: nat)
    requires n <= |ops|
  {
    forall k :: 0 <= k < n ==> !ReopensIntoClash(Run(EMPTY, ops[..k]), ops[k])
  }

  /**
   Over any run: claims are exclusive at every moment if and only if no contest of the run reopens a
   claimed thread while somebody else holds one of its files.
   */
  lemma {:induction false} ExclusiveThroughout(ops: seq<Op>, n: nat)
    requires n <= |ops|
    ensures ExclusiveUpTo(ops, n) <==> NoClashUpTo(ops, n)
  {
    if n == 0 {
      assert ops[..0] == [];
    } else {
      ExclusiveThroughout(ops, n - 1);
      RunSnoc(EMPTY, ops, n - 1);
      if ExclusiveUpTo(ops, n - 1) {
        StepExclusive(Run(EMPTY, ops[..n - 1]), ops[n - 1]);
      }
    }
  }

  /**
   It happens: while the first agent's proposal is pending, the second claims an overlapping thread;
   the contest then puts both to work on the file.
   */
  lemma ContestBreaksExclusivity(s: State, i: nat, j: nat, first: string, second: string, text: string, now: int)
    requires i < |s.threads| && j < |s.threads| && i != j && s.threads[i].org == s.threads[j].org
    requires s.threads[i].status.Open? && s.threads[i].claimedBy == Some(first)
    requires s.threads[i].round < s.threads[i].maxRounds
    requires s.threads[j].status.Open? && s.threads[j].claimedBy == None && s.threads[j].assignedTo == None
    requires first != second && ShareFile(s.threads[i], s.threads[j])
    requires forall k :: 0 <= k < |s.threads| && k != i ==> !Held(s.threads[k])
    ensures var org := s.threads[i].org;
            var s1 := Step(s, Propose(org, i, first, text));
            var s2 := Step(s1, Claim(org, j, second));
            Exclusive(s2) && !Exclusive(Step(s2, ContestIt(org, i, second, now)))
  {
    var org := s.threads[i].org;
    var s1 := Step(s, Propose(org, i, first, text));
    assert forall k :: 0 <= k < |s1.threads| ==> !Held(s1.threads[k]);
    var s2 := Step(s1, Claim(org, j, second));
    assert s2.threads[j].claimedBy == Some(second);
    assert forall k :: 0 <= k < |s2.threads| && k != j ==> !Held(s2.threads[k]);
    var s3 := Step(s2, ContestIt(org, i, second, now));
    assert s3.threads[i].status.Open? && s3.threads[i].claimedBy == Some(first) && s3.threads[j] == s2.threads[j];
    assert ShareFile(s3.threads[i], s3.threads[j]);
    assert Clash(s3.threads, i, j);
  }

  // ---------------------------------------------------------------- poisoned threads

  predicate Ended(s: State, i: nat) {
    i < |s.threads| && !Live(s.threads[i])
  }

  predicate Proposed(s: State, op: Op, i: nat) {
    op.Propose? && op.thread == i && Accepts(s, op)
  }

  lemma StepEnded(s: State, op: Op, i: nat)
    requires Ended(s, i)
    ensures Ended(Step(s, op), i) <==> !Proposed(s, op, i)
    ensures !Claims(s, op, i)
  {
    RevivedIffProposed(s, op, i);
  }

  ghost predicate EndedUpTo(s: State, ops: seq<Op>, n: nat, i: nat)
    requires n <= |ops|
  {
    forall k :: 0 <= k <= n ==> Ended(Run(s, ops[..k]), i)
  }

  ghost predicate NotProposedUpTo(s: State, ops: seq<Op>, n: nat, i: nat)
    requires n <= |ops|
  {
    forall k :: 0 <= k < n ==> !Proposed(Run(s, ops[..k]), ops[k], i)
  }

  /**
   A poisoned thread is to be claimed by nobody again.  Over any run it stays out of the pool, as any
   ended thread does, if and only if no proposal for it is accepted.
   */
  lemma {:induction false} OutOfPoolUnlessProposed(s: State, ops: seq<Op>, n: nat, i: nat)
    requires Ended(s, i) && n <= |ops|
    ensures EndedUpTo(s, ops, n, i) <==> NotProposedUpTo(s, ops, n, i)
    ensures EndedUpTo(s, ops, n, i) ==> forall k :: 0 <= k < n ==> !Claims(Run(s, ops[..k]), ops[k], i)
  {
    if n == 0 {
      assert ops[..0] == [];
    } else {
      OutOfPoolUnlessProposed(s, ops, n - 1, i);
      RunSnoc(s, ops, n - 1);
      if EndedUpTo(s, ops, n - 1, i) {
        StepEnded(Run(s, ops[..n - 1]), ops[n - 1], i);
      }
    }
  }

  /** With one it can be claimed again: a proposal of its initiator and a contest put it back into the pool. */
  lemma PoisonedCanBeReclaimed(s: State, i: nat, agent: string, text: string, now: int)
    requires i < |s.threads| && s.threads[i].status.Poisoned? && s.threads[i].claimedBy == None
    requires s.threads[i].round < s.threads[i].maxRounds
    requires s.threads[i].assignedTo == None && !HeldByOther(s.threads, i, agent)
    ensures var org := s.threads[i].org;
            var s1 := Step(s, Propose(org, i, s.threads[i].initiator, text));
            Accepts(Step(s1, ContestIt(org, i, agent, now)), Claim(org, i, agent))
  {
    var org := s.threads[i].org;
    var s1 := Step(s, Propose(org, i, s.threads[i].initiator, text));
    var s2 := Step(s1, ContestIt(org, i, agent, now));
    assert s2.threads[i].status.Open? && s2.threads[i].claimedBy == None && s2.threads[i].files == s.threads[i].files;
    forall j | 0 <= j < |s2.threads| ensures !Blocks(s2.threads, i, j, agent) {
      assert !Blocks(s.threads, i, j, agent);
      assert j != i ==> s2.threads[j] == s.threads[j];
    }
  }
}
