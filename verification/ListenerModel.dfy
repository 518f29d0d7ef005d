/**
 The life of one agent listener of the MQTT bridge, as a state machine.

 A message is named by its arrival number at the listener, so that two equal payloads stay two
 messages.  Besides the four fields the bridge keeps (queue, waiter, in-flight batch, ack mode) a
 state carries the history the claims are about: what was handed out for good, what was
 acknowledged, what was dropped, how many `queue_full` records were written and which blocked
 waiters were answered.
 */
module ListenerModel {
  import opened Common

  const MAX_LISTENER_QUEUE: nat := 1000

  /** A batch handed out under acknowledgement. */
  datatype Flight = Flight(id: string, messages: seq<nat>)

  /** The outcome of one blocked `waitForMessage`: a message, or nothing after its timeout. */
  datatype Answer = Answer(waiter: nat, message: Option<nat>)

  datatype Listener = Listener(
    arrivals: nat,
    queue: seq<nat>,
    waiter: Option<nat>,
    inFlight: Option<Flight>,
    ackMode: bool,
    waits: nat,
    answers: seq<Answer>,
    handed: seq<nat>,
    acked: seq<nat>,
    dropped: seq<nat>,
    dropRecords: nat)

  const FRESH: Listener := Listener(0, [], None, None, false, 0, [], [], [], [], 0)

  // ---------------------------------------------------------------- the operations

  /** One routed message reaches the listener. */
  function Deliver(s: Listener): Listener {
    var n := s.arrivals;
    var t := s.(arrivals := n + 1);
    if s.waiter.Some? then
      t.(waiter := None, handed := s.handed + [n], answers := s.answers + [Answer(s.waiter.value, Some(n))])
    else if |s.queue| >= MAX_LISTENER_QUEUE then
      t.(queue := s.queue[1..] + [n], dropped := s.dropped + [s.queue[0]], dropRecords := s.dropRecords + 1)
    else
      t.(queue := s.queue + [n])
  }

  /** `waitForMessage`: the head of the queue at once, or a waiter blocked under a new name. */
  function Wait(s: Listener): Listener {
    if s.queue != [] then
      s.(queue := s.queue[1..], handed := s.handed + [s.queue[0]])
    else
      s.(waiter := Some(s.waits), waits := s.waits + 1)
  }

  /** The timer of waiter `w` fires; it only acts when `w` is still the registered waiter. */
  function Expire(s: Listener, w: nat): Listener {
    if s.waiter == Some(w) then s.(waiter := None, answers := s.answers + [Answer(w, None)]) else s
  }

  /** Drop oldest entries until the cap holds, one record each. */
  function Trim(s: Listener): Listener {
    var excess := if |s.queue| > MAX_LISTENER_QUEUE then |s.queue| - MAX_LISTENER_QUEUE else 0;
    s.(queue := s.queue[excess..], dropped := s.dropped + s.queue[..excess], dropRecords := s.dropRecords + excess)
  }

  /** What a drain does with the batch of the previous drain. */
  function Settle(s: Listener, ack: Option<string>): Listener {
    match s.inFlight
    case None => s
    case Some(f) =>
      var t := s.(inFlight := None);
      if ack == Some(f.id) then t.(acked := s.acked + f.messages)
      else if !s.ackMode then t.(handed := s.handed + f.messages)
      else Trim(t.(queue := f.messages + s.queue))
  }

  /** Hand out the whole queue: for good without acknowledgement, as the in-flight batch with it. */
  function HandOut(s: Listener, id: string): Listener {
    if s.queue == [] then s
    else if !s.ackMode then s.(queue := [], handed := s.handed + s.queue)
    else s.(queue := [], inFlight := Some(Flight(id, s.queue)))
  }

  /** The state in which a drain reads the queue. */
  function Drainable(s: Listener, requireAck: bool, ack: Option<string>): Listener {
    Settle(s.(ackMode := s.ackMode || requireAck), ack)
  }

  /** `getQueuedMessages`; `id` is the identifier drawn for the new batch. */
  function Drain(s: Listener, requireAck: bool, ack: Option<string>, id: string): Listener {
    HandOut(Drainable(s, requireAck, ack), id)
  }

  /** `ackBatch`. */
  function Ack(s: Listener, id: string): Listener {
    if s.inFlight.Some? && s.inFlight.value.id == id then
      s.(inFlight := None, acked := s.acked + s.inFlight.value.messages)
    else s
  }

  datatype Event =
    | Delivered
    | Waited
    | Expired(waiter: nat)
    | Drained(requireAck: bool, ack: Option<string>, batchId: string)
    | Acked(id: string)

  function Step(s: Listener, e: Event): Listener {
    match e
    case Delivered => Deliver(s)
    case Waited => Wait(s)
    case Expired(w) => Expire(s, w)
    case Drained(r, a, id) => Drain(s, r, a, id)
    case Acked(id) => Ack(s, id)
  }

  function Run(s: Listener, es: seq<Event>): Listener
    decreases |es|
  {
    if es == [] then s else Run(Step(s, es[0]), es[1..])
  }

  lemma {:induction false} RunSnoc(s: Listener, es: seq<Event>, e: Event)
    ensures Run(s, es + [e]) == Step(Run(s, es), e)
    decreases |es|
  {
    if es == [] {
      assert [e][1..] == [] && es + [e] == [e];
    } else {
      assert (es + [e])[1..] == es[1..] + [e];
      RunSnoc(Step(s, es[0]), es[1..], e);
    }
  }

  // ---------------------------------------------------------------- what every step keeps

  function Flying(s: Listener): seq<nat> {
    if s.inFlight.Some? then s.inFlight.value.messages else []
  }

  /** Everything the listener still owes its agent, oldest first. */
  function Owed(s: Listener): seq<nat> {
    Flying(s) + s.queue
  }

  /** How often arrival `i` occurs among the five fates. */
  ghost function Fates(s: Listener, i: nat): nat {
    Times(s.handed, i) + Times(s.acked, i) + Times(s.dropped, i) + Times(Flying(s), i) + Times(s.queue, i)
  }

  ghost function Times(q: seq<nat>, i: nat): nat {
    multiset(q)[i]
  }

  /** Each arrival so far has exactly one fate, and nothing else has any; every drop is recorded. */
  ghost predicate Conserved(s: Listener) {
    && (forall i: nat :: Fates(s, i) == if i < s.arrivals then 1 else 0)
    && |s.dropped| == s.dropRecords
  }

  ghost predicate Increasing(q: seq<nat>) {
    forall i, j :: 0 <= i < j < |q| ==> q[i] < q[j]
  }

  /** Everything in `p` is older than everything in `q`. */
  ghost predicate Older(p: seq<nat>, q: seq<nat>) {
    forall i, j :: 0 <= i < |p| && 0 <= j < |q| ==> p[i] < q[j]
  }

  ghost predicate Before(p: seq<nat>, n: nat) {
    forall i :: 0 <= i < |p| ==> p[i] < n
  }

  ghost predicate OldestFirst(acked: seq<nat>, flying: seq<nat>, queue: seq<nat>, arrivals: nat) {
    && Increasing(flying) && Increasing(queue)
    && Older(acked, flying) && Older(acked, queue) && Older(flying, queue)
    && Before(acked, arrivals) && Before(flying, arrivals) && Before(queue, arrivals)
  }

  ghost predicate Ordered(s: Listener) {
    OldestFirst(s.acked, Flying(s), s.queue, s.arrivals)
  }

  ghost predicate Bounded(s: Listener) {
    && |s.queue| <= MAX_LISTENER_QUEUE
    && (s.inFlight.Some? ==> s.ackMode && 0 < |Flying(s)| <= MAX_LISTENER_QUEUE)
    && (s.waiter.Some? ==> s.queue == [])
  }

  ghost predicate Answered(s: Listener, w: nat) {
    exists k :: 0 <= k < |s.answers| && s.answers[k].waiter == w
  }

  ghost predicate WaitersOnce(s: Listener) {
    && (forall k :: 0 <= k < |s.answers| ==> s.answers[k].waiter < s.waits)
    && (forall j, k :: 0 <= j < k < |s.answers| ==> s.answers[j].waiter != s.answers[k].waiter)
    && (s.waiter.Some? ==> s.waiter.value < s.waits && !Answered(s, s.waiter.value))
  }

  ghost predicate Inv(s: Listener) {
    Conserved(s) && Ordered(s) && Bounded(s) && WaitersOnce(s)
  }

  // ---------------------------------------------------------------- conservation

  lemma TimesConcat(p: seq<nat>, q: seq<nat>, i: nat)
    ensures Times(p + q, i) == Times(p, i) + Times(q, i)
  {
    assert multiset(p + q) == multiset(p) + multiset(q);
  }

  lemma TimesSplit(q: seq<nat>, k: nat, i: nat)
    requires k <= |q|
    ensures Times(q, i) == Times(q[..k], i) + Times(q[k..], i)
  {
    assert q == q[..k] + q[k..];
    TimesConcat(q[..k], q[k..], i);
  }

  lemma TrimFates(s: Listener, i: nat)
    ensures Fates(Trim(s), i) == Fates(s, i)
  {
    var excess := |s.queue| - |Trim(s).queue|;
    TimesSplit(s.queue, excess, i);
    TimesConcat(s.dropped, s.queue[..excess], i);
  }

  /** Acknowledging, forgetting and requeueing move a batch between fates and lose none of it. */
  lemma SettleFates(s: Listener, ack: Option<string>, i: nat)
    ensures Fates(Settle(s, ack), i) == Fates(s, i)
  {
    if s.inFlight.Some? {
      var f := s.inFlight.value;
      if ack == Some(f.id) {
        TimesConcat(s.acked, f.messages, i);
      } else if !s.ackMode {
        TimesConcat(s.handed, f.messages, i);
      } else {
        TimesConcat(f.messages, s.queue, i);
        TrimFates(s.(inFlight := None, queue := f.messages + s.queue), i);
      }
    }
  }

  lemma HandOutFates(s: Listener, id: string, i: nat)
    requires s.inFlight == None
    ensures Fates(HandOut(s, id), i) == Fates(s, i)
  {
    TimesConcat(s.handed, s.queue, i);
  }

  lemma DeliverFates(s: Listener, i: nat)
    ensures Fates(Deliver(s), i) == Fates(s, i) + if i == s.arrivals then 1 else 0
  {
    var n := s.arrivals;
    assert Times([n], i) == if i == n then 1 else 0;
    if s.waiter.Some? {
      TimesConcat(s.handed, [n], i);
    } else if |s.queue| >= MAX_LISTENER_QUEUE {
      TimesSplit(s.queue, 1, i);
      assert s.queue[..1] == [s.queue[0]];
      TimesConcat(s.dropped, [s.queue[0]], i);
      TimesConcat(s.queue[1..], [n], i);
    } else {
      TimesConcat(s.queue, [n], i);
    }
  }

  lemma WaitFates(s: Listener, i: nat)
    ensures Fates(Wait(s), i) == Fates(s, i)
  {
    if s.queue != [] {
      TimesSplit(s.queue, 1, i);
      assert s.queue[..1] == [s.queue[0]];
      TimesConcat(s.handed, [s.queue[0]], i);
    }
  }

  /** A step adds one fate for the message it delivers and otherwise only moves messages. */
  lemma StepFates(s: Listener, e: Event, i: nat)
    ensures Fates(Step(s, e), i) == Fates(s, i) + if e.Delivered? && i == s.arrivals then 1 else 0
  {
    match e
    case Delivered => DeliverFates(s, i);
    case Waited => WaitFates(s, i);
    case Expired(w) =>
    case Drained(r, a, id) => DrainFates(s, r, a, id, i);
    case Acked(id) => AckFates(s, id, i);
  }

  lemma DrainFates(s: Listener, requireAck: bool, ack: Option<string>, id: string, i: nat)
    ensures Fates(Drain(s, requireAck, ack, id), i) == Fates(s, i)
  {
    SettleFates(s.(ackMode := s.ackMode || requireAck), ack, i);
    HandOutFates(Drainable(s, requireAck, ack), id, i);
  }

  lemma AckFates(s: Listener, id: string, i: nat)
    ensures Fates(Ack(s, id), i) == Fates(s, i)
  {
    TimesConcat(s.acked, Flying(s), i);
  }

  lemma StepCounters(s: Listener, e: Event)
    ensures Step(s, e).arrivals == s.arrivals + if e.Delivered? then 1 else 0
    ensures |Step(s, e).dropped| - Step(s, e).dropRecords == |s.dropped| - s.dropRecords
  {
  }

  lemma StepConserves(s: Listener, e: Event)
    requires Conserved(s)
    ensures Conserved(Step(s, e))
  {
    StepCounters(s, e);
    var t := Step(s, e);
    forall i: nat
      ensures Fates(t, i) == if i < t.arrivals then 1 else 0
    {
      StepFates(s, e, i);
      assert Fates(s, i) == if i < s.arrivals then 1 else 0;
    }
  }

  // ---------------------------------------------------------------- order

  lemma SettleOrdered(s: Listener, ack: Option<string>)
    requires Ordered(s)
    ensures Ordered(Settle(s, ack))
  {
    if s.inFlight.Some? && ack != Some(s.inFlight.value.id) && s.ackMode {
      var q := Flying(s) + s.queue;
      assert Increasing(q) && Older(s.acked, q) && Before(q, s.arrivals);
    }
  }

  lemma DropOldest(acked: seq<nat>, flying: seq<nat>, queue: seq<nat>, n: nat)
    requires queue != [] && OldestFirst(acked, flying, queue, n)
    ensures OldestFirst(acked, flying, queue[1..], n)
  {
  }

  lemma PushNewest(acked: seq<nat>, flying: seq<nat>, queue: seq<nat>, n: nat)
    requires OldestFirst(acked, flying, queue, n)
    ensures OldestFirst(acked, flying, queue + [n], n + 1)
  {
  }

  lemma DeliverOrdered(s: Listener)
    requires Ordered(s)
    ensures Ordered(Deliver(s))
  {
    if s.waiter.Some? {
    } else if |s.queue| >= MAX_LISTENER_QUEUE {
      DropOldest(s.acked, Flying(s), s.queue, s.arrivals);
      PushNewest(s.acked, Flying(s), s.queue[1..], s.arrivals);
    } else {
      PushNewest(s.acked, Flying(s), s.queue, s.arrivals);
    }
  }

  lemma HandOutOrdered(s: Listener, id: string)
    requires Ordered(s) && s.inFlight == None
    ensures Ordered(HandOut(s, id))
  {
  }

  lemma AckOrdered(s: Listener, id: string)
    requires Ordered(s)
    ensures Ordered(Ack(s, id))
  {
  }

  lemma StepOrdered(s: Listener, e: Event)
    requires Ordered(s)
    ensures Ordered(Step(s, e))
  {
    match e
    case Delivered => DeliverOrdered(s);
    case Waited =>
    case Expired(w) =>
    case Drained(r, a, id) =>
      SettleOrdered(s.(ackMode := s.ackMode || r), a);
      HandOutOrdered(Drainable(s, r, a), id);
    case Acked(id) => AckOrdered(s, id);
  }

  // ---------------------------------------------------------------- bounds and waiters

  lemma StepBounded(s: Listener, e: Event)
    requires Bounded(s)
    ensures Bounded(Step(s, e))
  {
  }

  lemma StepWaitersOnce(s: Listener, e: Event)
    requires WaitersOnce(s)
    ensures WaitersOnce(Step(s, e))
    ensures s.answers <= Step(s, e).answers
  {
    match e
    case Delivered =>
      if s.waiter.Some? {
        AnsweredOnce(s, Deliver(s), Answer(s.waiter.value, Some(s.arrivals)));
      }
    case Expired(w) =>
      if s.waiter == Some(w) {
        AnsweredOnce(s, Expire(s, w), Answer(w, None));
      }
    case Drained(r, a, id) => DrainKeepsWaiters(s, r, a, id);
    case _ =>
  }

  lemma AnsweredOnce(s: Listener, t: Listener, a: Answer)
    requires WaitersOnce(s) && s.waiter == Some(a.waiter)
    requires t.answers == s.answers + [a] && t.waiter == None && t.waits == s.waits
    ensures WaitersOnce(t)
  {
    assert forall k :: 0 <= k < |s.answers| ==> s.answers[k].waiter != a.waiter;
  }

  lemma DrainKeepsWaiters(s: Listener, requireAck: bool, ack: Option<string>, id: string)
    ensures var t := Drain(s, requireAck, ack, id); t.answers == s.answers && t.waiter == s.waiter && t.waits == s.waits
  {
  }

  lemma StepInv(s: Listener, e: Event)
    requires Inv(s)
    ensures Inv(Step(s, e))
  {
    StepConserves(s, e);
    StepOrdered(s, e);
    StepBounded(s, e);
    StepWaitersOnce(s, e);
  }

  /** Every run keeps every clause. */
  lemma {:induction false} RunInv(s: Listener, es: seq<Event>)
    requires Inv(s)
    ensures Inv(Run(s, es))
    decreases |es|
  {
    if es != [] {
      StepInv(s, es[0]);
      RunInv(Step(s, es[0]), es[1..]);
    }
  }

  /** A fresh listener meets every clause, so every reachable one does. */
  lemma ReachableInv(es: seq<Event>)
    ensures Inv(Run(FRESH, es))
  {
    assert forall i: nat :: Fates(FRESH, i) == 0;
    RunInv(FRESH, es);
  }

  lemma FlightNeedsAckMode(es: seq<Event>)
    ensures Run(FRESH, es).inFlight.Some? ==> Run(FRESH, es).ackMode
  {
    ReachableInv(es);
  }

  /** A waiter gets the message that arrives while it is registered, or nothing when its timer fires first. */
  lemma WaiterIsAnswered(s: Listener, w: nat)
    requires s.waiter == Some(w)
    ensures Deliver(s).answers == s.answers + [Answer(w, Some(s.arrivals))] && Deliver(s).waiter == None
    ensures Deliver(s).handed == s.handed + [s.arrivals] && Deliver(s).queue == s.queue
    ensures Expire(s, w).answers == s.answers + [Answer(w, None)] && Expire(s, w).waiter == None
    ensures forall v :: v != w ==> Expire(s, v) == s
  {
  }

  // ---------------------------------------------------------------- what follows for an agent

  /** Every message that ever arrived has exactly one fate, and every dropped one has its record. */
  lemma EveryMessageHasOneFate(es: seq<Event>, i: nat)
    ensures var s := Run(FRESH, es);
            && (i < s.arrivals <==> i in s.handed || i in s.acked || i in s.dropped || i in Owed(s))
            && Fates(s, i) <= 1
            && |s.dropped| == s.dropRecords
  {
    ReachableInv(es);
    var s := Run(FRESH, es);
    assert Fates(s, i) == if i < s.arrivals then 1 else 0;
    assert forall q: seq<nat> {:trigger Times(q, i)} :: i in q <==> Times(q, i) > 0;
  }

  /** What is owed comes oldest first, and there are never more than two full queues of it. */
  lemma OwedInArrivalOrder(es: seq<Event>)
    ensures Increasing(Owed(Run(FRESH, es)))
    ensures |Owed(Run(FRESH, es))| <= 2 * MAX_LISTENER_QUEUE
  {
    ReachableInv(es);
  }

  /** No drain of the run asks for acknowledgement. */
  ghost predicate NeverAsksForAck(es: seq<Event>) {
    forall k :: 0 <= k < |es| && es[k].Drained? ==> !es[k].requireAck
  }

  /** Without acknowledgement: what was handed out is in arrival order and older than the queue. */
  ghost predicate PlainOrder(s: Listener) {
    && !s.ackMode && s.inFlight == None && (s.waiter.Some? ==> s.queue == [])
    && Increasing(s.handed + s.queue) && Before(s.handed + s.queue, s.arrivals)
  }

  lemma IncreasingWithout(p: seq<nat>, x: nat, q: seq<nat>, n: nat)
    requires Increasing(p + [x] + q) && Before(p + [x] + q, n)
    ensures Increasing(p + q) && Before(p + q, n)
  {
    var all := p + [x] + q;
    forall i | 0 <= i < |p + q| ensures (p + q)[i] == all[if i < |p| then i else i + 1] {
    }
  }

  lemma DeliverPlainOrder(s: Listener)
    requires PlainOrder(s)
    ensures PlainOrder(Deliver(s))
  {
    var n, all := s.arrivals, s.handed + s.queue;
    assert Increasing(all + [n]) && Before(all + [n], n + 1);
    if s.waiter.Some? {
      assert s.handed + [n] + s.queue == all + [n];
    } else if |s.queue| >= MAX_LISTENER_QUEUE {
      assert s.handed + [s.queue[0]] + (s.queue[1..] + [n]) == all + [n];
      IncreasingWithout(s.handed, s.queue[0], s.queue[1..] + [n], n + 1);
    } else {
      assert s.handed + (s.queue + [n]) == all + [n];
    }
  }

  lemma StepPlainOrder(s: Listener, e: Event)
    requires PlainOrder(s) && (e.Drained? ==> !e.requireAck)
    ensures PlainOrder(Step(s, e))
  {
    match e
    case Delivered => DeliverPlainOrder(s);
    case Waited =>
      if s.queue != [] {
        assert (s.handed + [s.queue[0]]) + s.queue[1..] == s.handed + s.queue;
      }
    case Expired(_) =>
    case Drained(_, _, _) => assert (s.handed + s.queue) + [] == s.handed + s.queue;
    case Acked(_) =>
  }

  lemma {:induction false} RunPlainOrder(s: Listener, es: seq<Event>)
    requires PlainOrder(s) && NeverAsksForAck(es)
    ensures PlainOrder(Run(s, es))
    decreases |es|
  {
    if es != [] {
      StepPlainOrder(s, es[0]);
      RunPlainOrder(Step(s, es[0]), es[1..]);
    }
  }

  /** A consumer that never asks for acknowledgement gets its messages in arrival order, waits and drains mixed. */
  lemma HandedInArrivalOrder(es: seq<Event>)
    requires NeverAsksForAck(es)
    ensures Increasing(Run(FRESH, es).handed + Run(FRESH, es).queue)
  {
    RunPlainOrder(FRESH, es);
  }

  /** The branch that forgets an in-flight batch for want of acknowledgement is never taken. */
  lemma SettlingNeverForgets(es: seq<Event>, requireAck: bool, ack: Option<string>)
    ensures Drainable(Run(FRESH, es), requireAck, ack).handed == Run(FRESH, es).handed
  {
    ReachableInv(es);
  }

  ghost predicate KeepsBatch(es: seq<Event>, id: string) {
    forall k :: 0 <= k < |es| ==> !es[k].Drained? && es[k] != Acked(id)
  }

  lemma {:induction false} BatchStaysInFlight(s: Listener, es: seq<Event>)
    requires s.inFlight.Some? && KeepsBatch(es, s.inFlight.value.id)
    ensures Run(s, es).inFlight == s.inFlight && Run(s, es).ackMode == s.ackMode
    decreases |es|
  {
    if es != [] {
      BatchStaysInFlight(Step(s, es[0]), es[1..]);
    }
  }

  function Newest(q: seq<nat>): seq<nat> {
    if |q| > MAX_LISTENER_QUEUE then q[|q| - MAX_LISTENER_QUEUE..] else q
  }

  /**
   Whatever arrives, is taken by waiters or expires between two drains, the drain that does not
   acknowledge the batch returns exactly the newest 1000 of batch-then-queue, and records one drop
   for each message that did not fit.
   */
  lemma UnacknowledgedBatchReturns(s: Listener, es: seq<Event>, requireAck: bool, ack: Option<string>, id: string)
    requires Inv(s) && s.inFlight.Some?
    requires KeepsBatch(es, s.inFlight.value.id) && ack != Some(s.inFlight.value.id)
    ensures var t := Run(s, es);
            var due := s.inFlight.value.messages + t.queue;
            && Drainable(t, requireAck, ack).queue == Newest(due)
            && Drain(t, requireAck, ack, id).inFlight == Some(Flight(id, Newest(due)))
            && Drain(t, requireAck, ack, id).dropped == t.dropped + due[..|due| - |Newest(due)|]
            && Drain(t, requireAck, ack, id).dropRecords == t.dropRecords + |due| - |Newest(due)|
  {
    BatchStaysInFlight(s, es);
    var t := Run(s, es);
    RequeueAll(t.(ackMode := t.ackMode || requireAck), ack);
  }

  /** An unacknowledged batch and the queue behind it, cut to the newest that fit. */
  lemma RequeueAll(s: Listener, ack: Option<string>)
    requires s.inFlight.Some? && s.ackMode && ack != Some(s.inFlight.value.id)
    ensures var due, t := s.inFlight.value.messages + s.queue, Settle(s, ack);
            && t.inFlight == None && t.ackMode && t.queue == Newest(due)
            && t.dropped == s.dropped + due[..|due| - |Newest(due)|]
            && t.dropRecords == s.dropRecords + |due| - |Newest(due)|
  {
    var due := s.inFlight.value.messages + s.queue;
    assert due[0..] == due && due[..0] == [];
  }

  /** A delivery to a listener nobody waits on keeps exactly the newest 1000 of what there was and what came. */
  lemma DeliveryKeepsNewest(s: Listener)
    requires Bounded(s) && s.waiter == None
    ensures Deliver(s).queue == Newest(s.queue + [s.arrivals])
    ensures Deliver(s).dropped == s.dropped + (s.queue + [s.arrivals])[..|s.queue| + 1 - |Deliver(s).queue|]
  {
    if |s.queue| == MAX_LISTENER_QUEUE {
      assert (s.queue + [s.arrivals])[1..] == s.queue[1..] + [s.arrivals];
      assert (s.queue + [s.arrivals])[..1] == [s.queue[0]];
    }
  }

  lemma {:induction false} AckedOnlyGrows(s: Listener, es: seq<Event>)
    ensures s.acked <= Run(s, es).acked
    decreases |es|
  {
    if es != [] {
      AckedOnlyGrows(Step(s, es[0]), es[1..]);
    }
  }

  /** Once acknowledged, a message is never owed again, and every later drain is strictly newer. */
  lemma LaterDrainsAreNewer(s: Listener, es: seq<Event>, requireAck: bool, ack: Option<string>)
    requires Inv(s)
    ensures Older(s.acked, Drainable(Run(s, es), requireAck, ack).queue)
    ensures Older(s.acked, Owed(Run(s, es)))
  {
    RunInv(s, es);
    AckedOnlyGrows(s, es);
    var t := Run(s, es);
    var u := t.(ackMode := t.ackMode || requireAck);
    SettleOrdered(u, ack);
    SettleKeepsAcked(u, ack);
    OlderPrefix(s.acked, Settle(u, ack).acked, Settle(u, ack).queue);
    OlderPrefix(s.acked, t.acked, Flying(t));
    OlderPrefix(s.acked, t.acked, t.queue);
  }

  lemma SettleKeepsAcked(s: Listener, ack: Option<string>)
    ensures s.acked <= Settle(s, ack).acked
  {
  }

  lemma OlderPrefix(p: seq<nat>, longer: seq<nat>, q: seq<nat>)
    requires p <= longer && Older(longer, q)
    ensures Older(p, q)
  {
    assert forall i :: 0 <= i < |p| ==> p[i] == longer[i];
  }

  /** The drain that names the in-flight batch acknowledges it and returns only newer messages. */
  lemma AcknowledgingDrainIsNewer(s: Listener, requireAck: bool)
    requires Inv(s) && s.inFlight.Some?
    ensures var t := Drainable(s, requireAck, Some(s.inFlight.value.id));
            && t.queue == s.queue
            && t.acked == s.acked + s.inFlight.value.messages
            && Older(t.acked, t.queue)
  {
    SettleOrdered(s.(ackMode := s.ackMode || requireAck), Some(s.inFlight.value.id));
  }

  ghost predicate Holds(s: Listener, id: string) {
    s.inFlight.Some? && s.inFlight.value.id == id
  }

  /** An id that is no longer in flight stays so, as long as it is not drawn again; acknowledging it does nothing. */
  lemma {:induction false} SettledBatchStaysSettled(s: Listener, es: seq<Event>, id: string)
    requires !Holds(s, id)
    requires forall k :: 0 <= k < |es| && es[k].Drained? ==> es[k].batchId != id
    ensures !Holds(Run(s, es), id) && Ack(Run(s, es), id) == Run(s, es)
    decreases |es|
  {
    if es != [] {
      SettledBatchStaysSettled(Step(s, es[0]), es[1..], id);
    }
  }

  lemma {:induction false} NothingHandedForGood(s: Listener, es: seq<Event>)
    requires Bounded(s) && s.ackMode && s.waiter == None
    requires forall k :: 0 <= k < |es| ==> !es[k].Waited?
    ensures Run(s, es).handed == s.handed
    decreases |es|
  {
    if es != [] {
      StepBounded(s, es[0]);
      NothingHandedForGood(Step(s, es[0]), es[1..]);
    }
  }

  /**
   A consumer that asked for acknowledgement and only drains loses nothing that is not counted:
   every arrival is acknowledged, still owed, or dropped with a record.
   */
  lemma AckConsumerLosesNothingUncounted(id: string, ack: Option<string>, es: seq<Event>, i: nat)
    requires forall k :: 0 <= k < |es| ==> !es[k].Waited?
    ensures var s := Run(FRESH, [Drained(true, ack, id)] + es);
            && (i < s.arrivals <==> i in s.acked || i in Owed(s) || i in s.dropped)
            && |s.dropped| == s.dropRecords
  {
    var all := [Drained(true, ack, id)] + es;
    assert all[1..] == es;
    NothingHandedForGood(Step(FRESH, all[0]), es);
    EveryMessageHasOneFate(all, i);
  }

  // ---------------------------------------------------------------- which waiters are answered

  lemma {:induction false} AnswersOnlyGrow(s: Listener, es: seq<Event>)
    requires WaitersOnce(s)
    ensures s.answers <= Run(s, es).answers && WaitersOnce(Run(s, es))
    decreases |es|
  {
    if es != [] {
      StepWaitersOnce(s, es[0]);
      AnswersOnlyGrow(Step(s, es[0]), es[1..]);
    }
  }

  lemma StepForgets(s: Listener, e: Event, w: nat)
    requires w < s.waits && s.waiter != Some(w) && !Answered(s, w)
    ensures w < Step(s, e).waits && Step(s, e).waiter != Some(w) && !Answered(Step(s, e), w)
  {
  }

  /** A waiter that is neither registered nor answered never gets an answer. */
  lemma {:induction false} ForgottenNeverAnswered(s: Listener, es: seq<Event>, w: nat)
    requires WaitersOnce(s) && w < s.waits && s.waiter != Some(w) && !Answered(s, w)
    ensures !Answered(Run(s, es), w)
    decreases |es|
  {
    if es != [] {
      StepWaitersOnce(s, es[0]);
      StepForgets(s, es[0], w);
      ForgottenNeverAnswered(Step(s, es[0]), es[1..], w);
    }
  }

  /** A second `waitForMessage` arrives while `w` is the registered waiter. */
  ghost predicate Superseded(s: Listener, es: seq<Event>, w: nat) {
    exists k :: 0 <= k < |es| && es[k].Waited? && Run(s, es[..k]).waiter == Some(w)
  }

  lemma RunPrefix(s: Listener, es: seq<Event>, k: nat)
    requires 0 < k <= |es|
    ensures Run(s, es[..k]) == Run(Step(s, es[0]), es[1..][..k - 1])
  {
    assert es[..k][1..] == es[1..][..k - 1];
  }

  lemma AnsweredIsNotSuperseded(s: Listener, es: seq<Event>, w: nat)
    requires WaitersOnce(s) && Answered(s, w)
    ensures !Superseded(s, es, w) && Answered(Run(s, es), w)
  {
    AnswersOnlyGrow(s, es);
    forall k | 0 <= k < |es|
      ensures Run(s, es[..k]).waiter != Some(w)
    {
      AnswersOnlyGrow(s, es[..k]);
    }
  }

  lemma SupersededLater(s: Listener, es: seq<Event>, w: nat)
    requires es != [] && !es[0].Waited?
    ensures Superseded(s, es, w) <==> Superseded(Step(s, es[0]), es[1..], w)
  {
    var t, rest := Step(s, es[0]), es[1..];
    if Superseded(s, es, w) {
      var k :| 0 <= k < |es| && es[k].Waited? && Run(s, es[..k]).waiter == Some(w);
      RunPrefix(s, es, k);
      assert rest[k - 1].Waited? && Run(t, rest[..k - 1]).waiter == Some(w);
    }
    if Superseded(t, rest, w) {
      var k :| 0 <= k < |rest| && rest[k].Waited? && Run(t, rest[..k]).waiter == Some(w);
      RunPrefix(s, es, k + 1);
      assert es[k + 1].Waited? && Run(s, es[..k + 1]).waiter == Some(w);
    }
  }

  lemma WaiterLeavesAnswered(s: Listener, e: Event, w: nat)
    requires s.waiter == Some(w) && !e.Waited?
    ensures Step(s, e).waiter == Some(w) || Answered(Step(s, e), w)
    ensures Step(s, Expired(w)).waiter != Some(w)
  {
    var t := Step(s, e);
    if t.waiter != Some(w) {
      assert t.answers[|t.answers| - 1].waiter == w;
    }
  }

  lemma OvertakenWaiterIsForgotten(s: Listener, w: nat)
    requires WaitersOnce(s) && Bounded(s) && s.waiter == Some(w)
    ensures WaitersOnce(Wait(s)) && Wait(s).waiter != Some(w) && w < Wait(s).waits && !Answered(Wait(s), w)
  {
  }

  /**
   Registering overwrites the previous waiter, so not every waiter is answered.  Exactly: once the
   timer of a blocked waiter has fired, it has been answered if and only if no second wait arrived
   while it was registered.
   */
  lemma {:induction false} AnsweredUnlessSuperseded(s: Listener, es: seq<Event>, w: nat)
    requires WaitersOnce(s) && Bounded(s) && s.waiter == Some(w) && Expired(w) in es
    ensures Answered(Run(s, es), w) <==> !Superseded(s, es, w)
    decreases |es|
  {
    var t, rest := Step(s, es[0]), es[1..];
    if es[0].Waited? {
      assert es[0].Waited? && Run(s, es[..0]).waiter == Some(w);
      OvertakenWaiterIsForgotten(s, w);
      ForgottenNeverAnswered(t, rest, w);
    } else {
      SupersededLater(s, es, w);
      WaiterLeavesAnswered(s, es[0], w);
      StepWaitersOnce(s, es[0]);
      StepBounded(s, es[0]);
      if t.waiter == Some(w) {
        assert es == [es[0]] + rest;
        AnsweredUnlessSuperseded(t, rest, w);
      } else {
        AnsweredIsNotSuperseded(t, rest, w);
      }
    }
  }
}
