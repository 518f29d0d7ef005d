/**
 The bridge's listeners as the objects the source mutates.  Every method is tied to the matching
 operation of `ListenerModel` through the ghost field `model`, so the run theorems proved there
 hold of these objects.
 */
module MqttBridge {
  import opened Common
  import opened ListenerModel

  datatype QueuedMessage = QueuedMessage(topic: string, payload: string, timestamp: int)

  datatype Batch = Batch(id: string, messages: seq<QueuedMessage>)

  datatype WaitResult = Got(message: QueuedMessage) | Blocked(waiter: nat)

  datatype DropReason = NoListener | QueueFull | MalformedPayload

  /** The messages that the arrival numbers `ids` stand for. */
  ghost function Named(all: seq<QueuedMessage>, ids: seq<nat>): (r: seq<QueuedMessage>)
    requires Before(ids, |all|)
    ensures |r| == |ids| && forall k :: 0 <= k < |ids| ==> r[k] == all[ids[k]]
  {
    seq(|ids|, k requires 0 <= k < |ids| => all[ids[k]])
  }

  lemma NamedTail(all: seq<QueuedMessage>, ids: seq<nat>, k: nat)
    requires k <= |ids| && Before(ids, |all|)
    ensures Before(ids[k..], |all|) && Named(all, ids[k..]) == Named(all, ids)[k..]
  {
  }

  lemma NamedConcat(all: seq<QueuedMessage>, p: seq<nat>, q: seq<nat>)
    requires Before(p, |all|) && Before(q, |all|)
    ensures Before(p + q, |all|) && Named(all, p + q) == Named(all, p) + Named(all, q)
  {
  }

  lemma NamedGrow(all: seq<QueuedMessage>, ids: seq<nat>, msg: QueuedMessage)
    requires Before(ids, |all|)
    ensures Before(ids, |all + [msg]|) && Named(all + [msg], ids) == Named(all, ids)
    ensures Named(all + [msg], [|all|]) == [msg]
  {
  }

  /** The newest messages that fit into a queue. */
  function NewestFitting(q: seq<QueuedMessage>): seq<QueuedMessage> {
    if |q| > MAX_LISTENER_QUEUE then q[|q| - MAX_LISTENER_QUEUE..] else q
  }

  /** The logs of a listener: what was returned for good, acknowledged, and lost to the cap, in order. */
  datatype Logs = Logs(returned: seq<QueuedMessage>, acknowledged: seq<QueuedMessage>, lost: seq<QueuedMessage>)

  ghost predicate Logged(all: seq<QueuedMessage>, s: Listener, logs: Logs) {
    && Before(s.handed, |all|) && Before(s.acked, |all|) && Before(s.dropped, |all|)
    && logs == Logs(Named(all, s.handed), Named(all, s.acked), Named(all, s.dropped))
  }

  lemma LogsGrow(all: seq<QueuedMessage>, s: Listener, logs: Logs, msg: QueuedMessage)
    requires Logged(all, s, logs)
    ensures Logged(all + [msg], s, logs)
  {
    NamedGrow(all, s.handed, msg);
    NamedGrow(all, s.acked, msg);
    NamedGrow(all, s.dropped, msg);
  }

  /** What can be seen of a listener. */
  datatype Snap = Snap(queue: seq<QueuedMessage>, waitResolve: Option<nat>, inFlight: Option<Batch>, ackMode: bool,
                       waits: nat, arrived: seq<QueuedMessage>, logs: Logs, history: seq<Event>)

  ghost predicate Full(v: Snap) {
    v.waitResolve == None && |v.queue| >= MAX_LISTENER_QUEUE
  }

  /** A message goes to whoever waits, else to the end of the queue, whose oldest makes room when it is full. */
  ghost function AfterDelivery(v: Snap, msg: QueuedMessage): Snap {
    Snap(if v.waitResolve.Some? then v.queue else (if Full(v) then v.queue[1..] else v.queue) + [msg],
         None, v.inFlight, v.ackMode, v.waits, v.arrived + [msg],
         if v.waitResolve.Some? then v.logs.(returned := v.logs.returned + [msg])
         else if Full(v) then v.logs.(lost := v.logs.lost + [v.queue[0]]) else v.logs,
         v.history + [Delivered])
  }

  /** The model's delivery, message for message. */
  lemma DeliverNamed(all: seq<QueuedMessage>, s: Listener, v: Snap, msg: QueuedMessage)
    requires |all| == s.arrivals && v.arrived == all && v.waitResolve == s.waiter
    requires Before(s.queue, |all|) && v.queue == Named(all, s.queue) && Logged(all, s, v.logs)
    ensures var t, w := Deliver(s), AfterDelivery(v, msg);
            Before(t.queue, |all| + 1) && w.queue == Named(all + [msg], t.queue) && Logged(all + [msg], t, w.logs)
  {
    var more := all + [msg];
    NamedGrow(all, s.queue, msg);
    LogsGrow(all, s, v.logs, msg);
    if s.waiter.Some? {
      NamedConcat(more, s.handed, [|all|]);
    } else if |s.queue| >= MAX_LISTENER_QUEUE {
      NamedTail(more, s.queue, 1);
      NamedConcat(more, s.dropped, [s.queue[0]]);
      NamedConcat(more, s.queue[1..], [|all|]);
    } else {
      NamedConcat(more, s.queue, [|all|]);
    }
  }

  /** The head of the queue is handed out. */
  lemma WaitNamed(all: seq<QueuedMessage>, s: Listener, queue: seq<QueuedMessage>, logs: Logs)
    requires Before(s.queue, |all|) && queue == Named(all, s.queue) && queue != [] && Logged(all, s, logs)
    ensures Before(Wait(s).queue, |all|) && queue[1..] == Named(all, Wait(s).queue)
    ensures Logged(all, Wait(s), logs.(returned := logs.returned + [queue[0]]))
  {
    NamedTail(all, s.queue, 1);
    NamedConcat(all, s.handed, [s.queue[0]]);
  }

  /** The batch and the queue behind it, cut to the newest that fit. */
  lemma RequeueNamed(all: seq<QueuedMessage>, s: Listener, ack: Option<string>, flown: seq<QueuedMessage>,
                     queue: seq<QueuedMessage>, logs: Logs)
    requires s.inFlight.Some? && s.ackMode && ack != Some(s.inFlight.value.id)
    requires Before(Flying(s), |all|) && Before(s.queue, |all|) && Logged(all, s, logs)
    requires flown == Named(all, Flying(s)) && queue == Named(all, s.queue)
    ensures var due, t := flown + queue, Settle(s, ack);
            var dropped := |due| - |NewestFitting(due)|;
            && Before(t.queue, |all|) && NewestFitting(due) == Named(all, t.queue)
            && Logged(all, t, logs.(lost := logs.lost + due[..dropped]))
            && t.dropRecords == s.dropRecords + dropped
  {
    var owed, due := Flying(s) + s.queue, flown + queue;
    var dropped := |due| - |NewestFitting(due)|;
    RequeueAll(s, ack);
    NamedConcat(all, Flying(s), s.queue);
    NamedTail(all, owed, dropped);
    NamedHead(all, owed, dropped);
    NamedConcat(all, s.dropped, owed[..dropped]);
  }

  /**
   The effect of a drain.  A batch in flight that is not named comes back in front, as far as the cap
   allows; then everything is returned, for good or, with acknowledgement on, as the new batch.
   */
  ghost predicate IsDrain(v: Snap, w: Snap, requireAck: bool, ack: Option<string>, freshId: string,
                          messages: seq<QueuedMessage>, batchId: Option<string>, dropped: nat) {
    var flown := if v.inFlight.Some? then v.inFlight.value.messages else [];
    var named := v.inFlight == None || ack == Some(v.inFlight.value.id);
    var due := if named then v.queue else flown + v.queue;
    && w.queue == [] && w.waitResolve == v.waitResolve && w.waits == v.waits && w.arrived == v.arrived
    && w.ackMode == (v.ackMode || requireAck)
    && messages == (if named then due else NewestFitting(due)) && dropped == |due| - |messages|
    && batchId == (if messages != [] && w.ackMode then Some(freshId) else None)
    && w.inFlight == (if batchId.Some? then Some(Batch(freshId, messages)) else None)
    && w.logs.returned == v.logs.returned + (if batchId.Some? then [] else messages)
    && w.logs.acknowledged == v.logs.acknowledged + (if named then flown else [])
    && w.logs.lost == v.logs.lost + due[..dropped]
  }

  /** The first half of it, on the batch of the previous drain. */
  ghost predicate IsSettle(v: Snap, w: Snap, ack: Option<string>, dropped: nat) {
    var flown := if v.inFlight.Some? then v.inFlight.value.messages else [];
    if v.inFlight == None || ack == Some(v.inFlight.value.id) then
      && dropped == 0
      && w == v.(inFlight := None, logs := v.logs.(acknowledged := v.logs.acknowledged + flown))
    else
      var due := flown + v.queue;
      && dropped == |due| - |NewestFitting(due)|
      && w == v.(inFlight := None, queue := NewestFitting(due), logs := v.logs.(lost := v.logs.lost + due[..dropped]))
  }

  /** The second half, on the queue that then stands. */
  ghost predicate IsTake(v: Snap, w: Snap, freshId: string, messages: seq<QueuedMessage>, batchId: Option<string>) {
    && messages == v.queue && batchId == (if messages != [] && v.ackMode then Some(freshId) else None)
    && w == if batchId.Some?
            then v.(queue := [], inFlight := Some(Batch(freshId, messages)))
            else v.(queue := [], logs := v.logs.(returned := v.logs.returned + messages))
  }

  lemma SettleThenTake(v: Snap, mid: Snap, w: Snap, requireAck: bool, ack: Option<string>, freshId: string,
                       messages: seq<QueuedMessage>, batchId: Option<string>, dropped: nat)
    requires IsSettle(v.(ackMode := v.ackMode || requireAck), mid, ack, dropped)
    requires IsTake(mid, w, freshId, messages, batchId)
    ensures IsDrain(v, w, requireAck, ack, freshId, messages, batchId, dropped)
  {
  }

  class AgentListener {
    var queue: seq<QueuedMessage>
    var waitResolve: Option<nat>
    var inFlight: Option<Batch>
    var ackMode: bool
    /** Names for blocked calls; stands for the identity of the promise's resolve function. */
    var waits: nat

    ghost var arrived: seq<QueuedMessage>
    ghost var logs: Logs
    ghost var history: seq<Event>
    ghost var model: Listener

    ghost predicate Valid()
      reads this
    {
      model == Run(FRESH, history) && Coupled() && Logged(arrived, model, logs)
    }

    /** The real fields are what the model says, message for message. */
    ghost predicate Coupled()
      reads this
    {
      && |arrived| == model.arrivals
      && Before(model.queue, |arrived|) && Before(Flying(model), |arrived|)
      && queue == Named(arrived, model.queue)
      && waitResolve == model.waiter
      && ackMode == model.ackMode
      && waits == model.waits
      && inFlight.Some? == model.inFlight.Some?
      && (inFlight.Some? ==>
            && inFlight.value.id == model.inFlight.value.id
            && inFlight.value.messages == Named(arrived, Flying(model)))
    }

    ghost function Flown(): seq<QueuedMessage>
      reads this
    {
      if inFlight.Some? then inFlight.value.messages else []
    }

    constructor ()
      ensures Valid() && history == [] && arrived == [] && logs == Logs([], [], [])
      ensures queue == [] && waitResolve == None && inFlight == None && !ackMode
    {
      queue, waitResolve, inFlight, ackMode, waits := [], None, None, false, 0;
      arrived, logs, history, model := [], Logs([], [], []), [], FRESH;
    }

    ghost function Snapshot(): Snap
      reads this
    {
      Snap(queue, waitResolve, inFlight, ackMode, waits, arrived, logs, history)
    }

    /** Since then the listener got this one message and nothing else happened to it. */
    twostate predicate Received(msg: QueuedMessage)
      reads this
    {
      history == old(history) + [Delivered] && arrived == old(arrived) + [msg]
    }

    /** A delivery right now would drop the oldest message. */
    predicate IsFull()
      reads this
    {
      waitResolve == None && |queue| >= MAX_LISTENER_QUEUE
    }

    /** The body of the delivery loop for one listener. */
    method Receive(msg: QueuedMessage) returns (resolved: Option<nat>, dropped: bool)
      requires Valid()
      modifies this
      ensures Valid() && Received(msg)
      ensures Snapshot() == AfterDelivery(old(Snapshot()), msg)
      ensures resolved == old(waitResolve)
      ensures dropped <==> old(IsFull())
    {
      RunSnoc(FRESH, history, Delivered);
      DeliverNamed(arrived, model, Snapshot(), msg);
      NamedGrow(arrived, Flying(model), msg);
      ghost var after := AfterDelivery(Snapshot(), msg);
      resolved, dropped := waitResolve, false;
      if waitResolve.Some? {
        waitResolve := None;
      } else {
        if |queue| >= MAX_LISTENER_QUEUE {
          queue := queue[1..];
          dropped := true;
        }
        queue := queue + [msg];
      }
      arrived, logs, history, model := arrived + [msg], after.logs, history + [Delivered], Deliver(model);
    }

    /** The oldest message leaves the queue and is returned, or the caller is registered as the waiter. */
    method WaitForMessage() returns (r: WaitResult)
      requires Valid()
      modifies this
      ensures Valid()
      ensures history == old(history) + [Waited] && arrived == old(arrived)
      ensures inFlight == old(inFlight) && ackMode == old(ackMode)
      ensures r.Got? <==> old(queue) != []
      ensures r.Got? ==>
                && old(queue) == [r.message] + queue && waitResolve == old(waitResolve)
                && logs == old(logs).(returned := old(logs).returned + [r.message])
      ensures r.Blocked? ==>
                && queue == [] && waitResolve == Some(r.waiter) && r.waiter == old(waits) && waits == old(waits) + 1
                && logs == old(logs)
    {
      RunSnoc(FRESH, history, Waited);
      if |queue| > 0 {
        r := Got(queue[0]);
        WaitNamed(arrived, model, queue, logs);
        logs := logs.(returned := logs.returned + [queue[0]]);
        queue := queue[1..];
      } else {
        r := Blocked(waits);
        waitResolve := Some(waits);
        waits := waits + 1;
      }
      history, model := history + [Waited], Wait(model);
    }

    /** The timer set by a blocked call. */
    method Timeout(waiter: nat) returns (resolvedNull: bool)
      requires Valid()
      modifies this`waitResolve, this`history, this`model
      ensures Valid()
      ensures history == old(history) + [Expired(waiter)]
      ensures resolvedNull <==> old(waitResolve) == Some(waiter)
      ensures waitResolve == if resolvedNull then None else old(waitResolve)
    {
      RunSnoc(FRESH, history, Expired(waiter));
      resolvedNull := waitResolve == Some(waiter);
      if resolvedNull {
        waitResolve := None;
      }
      history, model := history + [Expired(waiter)], Expire(model, waiter);
    }

    /** Enforce the cap after a requeue, oldest first; returns how many drops were recorded. */
    method TrimQueue() returns (dropped: nat)
      modifies this`queue
      ensures dropped == if |old(queue)| > MAX_LISTENER_QUEUE then |old(queue)| - MAX_LISTENER_QUEUE else 0
      ensures queue == old(queue)[dropped..]
    {
      dropped := 0;
      while |queue| > MAX_LISTENER_QUEUE
        invariant dropped <= |old(queue)| && queue == old(queue)[dropped..]
        invariant dropped > 0 ==> |queue| >= MAX_LISTENER_QUEUE
      {
        queue := queue[1..];
        dropped := dropped + 1;
      }
    }

    /** The first half of a drain: what becomes of the previous batch. */
    method SettleInFlight(ack: Option<string>) returns (dropped: nat)
      requires Coupled() && Logged(arrived, model, logs) && (inFlight.Some? ==> ackMode)
      modifies this`queue, this`inFlight, this`model, this`logs
      ensures Coupled() && Logged(arrived, model, logs)
      ensures model == Settle(old(model), ack) && inFlight == None
      ensures IsSettle(old(Snapshot()), Snapshot(), ack, dropped)
      ensures dropped == model.dropRecords - old(model).dropRecords
    {
      dropped := 0;
      if inFlight.Some? {
        var settled := ack.Some? && ack.value == inFlight.value.id;
        if settled || !ackMode {
          NamedConcat(arrived, model.acked, Flying(model));
          logs := logs.(acknowledged := logs.acknowledged + inFlight.value.messages);
          inFlight := None;
          model := Settle(model, ack);
        } else {
          dropped := Requeue(ack);
        }
      } else {
        model := Settle(model, ack);
      }
    }

    /** An unacknowledged batch goes back in front of the queue, which is then trimmed. */
    method Requeue(ghost ack: Option<string>) returns (dropped: nat)
      requires Coupled() && Logged(arrived, model, logs)
      requires inFlight.Some? && ackMode && ack != Some(inFlight.value.id)
      modifies this`queue, this`inFlight, this`model, this`logs
      ensures Coupled() && Logged(arrived, model, logs) && model == Settle(old(model), ack) && inFlight == None
      ensures IsSettle(old(Snapshot()), Snapshot(), ack, dropped)
      ensures dropped == model.dropRecords - old(model).dropRecords
    {
      RequeueNamed(arrived, model, ack, inFlight.value.messages, queue, logs);
      queue := inFlight.value.messages + queue;
      ghost var due := queue;
      inFlight := None;
      dropped := TrimQueue();
      assert queue == NewestFitting(due);
      logs := logs.(lost := logs.lost + due[..dropped]);
      model := Settle(model, ack);
    }

    /** The second half: copy, clear, and hold the copy when acknowledgement was asked for. */
    method TakeQueue(freshId: string) returns (messages: seq<QueuedMessage>, batchId: Option<string>)
      requires Coupled() && Logged(arrived, model, logs) && inFlight == None
      modifies this`queue, this`inFlight, this`model, this`logs
      ensures Coupled() && Logged(arrived, model, logs)
      ensures model == HandOut(old(model), freshId)
      ensures IsTake(old(Snapshot()), Snapshot(), freshId, messages, batchId)
    {
      messages := queue;
      queue := [];
      batchId := None;
      if |messages| > 0 && ackMode {
        inFlight := Some(Batch(freshId, messages));
        batchId := Some(freshId);
      } else {
        NamedConcat(arrived, model.handed, model.queue);
        logs := logs.(returned := logs.returned + messages);
      }
      model := HandOut(model, freshId);
    }

    method GetQueuedMessages(requireAck: bool, ack: Option<string>, freshId: string)
      returns (messages: seq<QueuedMessage>, batchId: Option<string>, dropped: nat)
      requires Valid()
      modifies this
      ensures Valid()
      ensures history == old(history) + [Drained(requireAck, ack, freshId)]
      ensures IsDrain(old(Snapshot()), Snapshot(), requireAck, ack, freshId, messages, batchId, dropped)
      ensures dropped == model.dropRecords - old(model).dropRecords
    {
      RunSnoc(FRESH, history, Drained(requireAck, ack, freshId));
      FlightNeedsAckMode(history);
      history := history + [Drained(requireAck, ack, freshId)];
      messages, batchId, dropped := DrainQueue(requireAck, ack, freshId);
    }

    method DrainQueue(requireAck: bool, ack: Option<string>, freshId: string)
      returns (messages: seq<QueuedMessage>, batchId: Option<string>, dropped: nat)
      requires Coupled() && Logged(arrived, model, logs) && (inFlight.Some? ==> ackMode)
      modifies this`queue, this`inFlight, this`ackMode, this`model, this`logs
      ensures Coupled() && Logged(arrived, model, logs)
      ensures model == Drain(old(model), requireAck, ack, freshId)
      ensures IsDrain(old(Snapshot()), Snapshot(), requireAck, ack, freshId, messages, batchId, dropped)
      ensures dropped == model.dropRecords - old(model).dropRecords
    {
      if requireAck {
        ackMode := true;
      }
      model := model.(ackMode := ackMode);
      assert Coupled() && Logged(arrived, model, logs);
      ghost var v := old(Snapshot());
      dropped := SettleInFlight(ack);
      ghost var mid := Snapshot();
      messages, batchId := TakeQueue(freshId);
      SettleThenTake(v, mid, Snapshot(), requireAck, ack, freshId, messages, batchId, dropped);
    }

    method AckBatch(batchId: string) returns (ok: bool)
      requires Valid()
      modifies this`inFlight, this`logs, this`history, this`model
      ensures Valid()
      ensures history == old(history) + [Acked(batchId)]
      ensures ok <==> old(inFlight).Some? && old(inFlight).value.id == batchId
      ensures if ok
              then inFlight == None && logs == old(logs).(acknowledged := old(logs).acknowledged + old(Flown()))
              else inFlight == old(inFlight) && logs == old(logs)
    {
      RunSnoc(FRESH, history, Acked(batchId));
      ok := inFlight.Some? && inFlight.value.id == batchId;
      if ok {
        NamedConcat(arrived, model.acked, Flying(model));
        logs := logs.(acknowledged := logs.acknowledged + inFlight.value.messages);
        inFlight := None;
      }
      history, model := history + [Acked(batchId)], Ack(model, batchId);
    }

    /**
     The messages themselves, after any sequence of calls: those that arrived are those returned for
     good, acknowledged, lost to the cap, in flight and queued, each as often as it arrived.
     */
    lemma EveryMessageAccounted()
      requires Valid()
      ensures multiset(arrived) ==
              multiset(logs.returned) + multiset(logs.acknowledged) + multiset(logs.lost)
              + multiset(Flown()) + multiset(queue)
    {
      ReachableInv(history);
      FatesAccount(arrived, model);
    }
  }

  lemma NamedHead(all: seq<QueuedMessage>, ids: seq<nat>, k: nat)
    requires k <= |ids| && Before(ids, |all|)
    ensures Before(ids[..k], |all|) && Named(all, ids[..k]) == Named(all, ids)[..k]
  {
  }

  /** The arrival numbers 0 to n - 1. */
  ghost function Numbers(n: nat): (r: seq<nat>)
    ensures |r| == n && forall i :: 0 <= i < n ==> r[i] == i
  {
    seq(n, i => i)
  }

  /** Equally many of each number stand for equally many of each message. */
  lemma {:induction false} NamedPermutes(all: seq<QueuedMessage>, p: seq<nat>, q: seq<nat>)
    requires Before(p, |all|) && Before(q, |all|) && multiset(p) == multiset(q)
    ensures multiset(Named(all, p)) == multiset(Named(all, q))
    decreases |p|
  {
    if p == [] {
      assert |multiset(q)| == 0;
      assert Named(all, p) == Named(all, q);
    } else {
      var x := p[0];
      assert x in multiset(q);
      var k :| 0 <= k < |q| && q[k] == x;
      SameRest(p, q, k);
      NamedPermutes(all, p[1..], q[..k] + q[k + 1..]);
      NamedFirst(all, p);
      NamedPick(all, q, k);
    }
  }

  lemma NamedFirst(all: seq<QueuedMessage>, ids: seq<nat>)
    requires ids != [] && Before(ids, |all|)
    ensures Before(ids[1..], |all|)
    ensures multiset(Named(all, ids)) == multiset(Named(all, ids[1..])) + multiset{all[ids[0]]}
  {
    assert Named(all, ids) == [all[ids[0]]] + Named(all, ids[1..]);
  }

  lemma SameRest(p: seq<nat>, q: seq<nat>, k: nat)
    requires p != [] && k < |q| && p[0] == q[k] && multiset(p) == multiset(q)
    ensures multiset(p[1..]) == multiset(q[..k] + q[k + 1..])
  {
    assert p == [p[0]] + p[1..];
    assert q == q[..k] + [q[k]] + q[k + 1..];
    assert multiset(q[..k] + q[k + 1..]) == multiset(q) - multiset{q[k]};
  }

  lemma NamedPick(all: seq<QueuedMessage>, ids: seq<nat>, k: nat)
    requires k < |ids| && Before(ids, |all|)
    ensures Before(ids[..k] + ids[k + 1..], |all|)
    ensures multiset(Named(all, ids)) == multiset(Named(all, ids[..k] + ids[k + 1..])) + multiset{all[ids[k]]}
  {
    var ms, rest := Named(all, ids), ids[..k] + ids[k + 1..];
    assert ms == ms[..k] + [ms[k]] + ms[k + 1..];
    assert Named(all, rest) == ms[..k] + ms[k + 1..];
  }

  lemma FatesAccount(all: seq<QueuedMessage>, s: Listener)
    requires Inv(s) && |all| == s.arrivals
    requires Before(s.handed, |all|) && Before(s.acked, |all|) && Before(s.dropped, |all|)
    requires Before(Flying(s), |all|) && Before(s.queue, |all|)
    ensures multiset(all) == multiset(Named(all, s.handed)) + multiset(Named(all, s.acked))
                             + multiset(Named(all, s.dropped)) + multiset(Named(all, Flying(s)))
                             + multiset(Named(all, s.queue))
  {
    var ids := s.handed + s.acked + s.dropped + Flying(s) + s.queue;
    NamedConcat(all, s.handed, s.acked);
    NamedConcat(all, s.handed + s.acked, s.dropped);
    NamedConcat(all, s.handed + s.acked + s.dropped, Flying(s));
    NamedConcat(all, s.handed + s.acked + s.dropped + Flying(s), s.queue);
    EachNumberOnce(s, ids);
    NamedPermutes(all, Numbers(|all|), ids);
    assert Named(all, Numbers(|all|)) == all;
  }

  lemma EachNumberOnce(s: Listener, ids: seq<nat>)
    requires Conserved(s) && ids == s.handed + s.acked + s.dropped + Flying(s) + s.queue
    ensures multiset(Numbers(s.arrivals)) == multiset(ids)
  {
    forall i: nat ensures multiset(ids)[i] == multiset(Numbers(s.arrivals))[i] {
      assert Fates(s, i) == if i < s.arrivals then 1 else 0;
      NumbersOnce(s.arrivals, i);
    }
  }

  lemma {:induction false} NumbersOnce(n: nat, i: nat)
    ensures multiset(Numbers(n))[i] == if i < n then 1 else 0
  {
    if n > 0 {
      NumbersOnce(n - 1, i);
      assert Numbers(n) == Numbers(n - 1) + [n - 1];
    }
  }

  /** An agent within an organisation; the source nests one map in another to the same effect. */
  datatype Address = Address(org: string, agent: string)

  class Bridge {
    var listeners: map<Address, AgentListener>
    /** The reasons handed to the drop sink, in order. */
    var drops: seq<DropReason>

    /** Every address has its own listener, and each of them is consistent. */
    ghost predicate Valid()
      reads this, listeners.Values
    {
      && (forall k :: k in listeners ==> listeners[k].Valid())
      && (forall k, m :: k in listeners && m in listeners && listeners[k] == listeners[m] ==> k == m)
    }

    constructor ()
      ensures Valid() && listeners == map[] && drops == []
    {
      listeners, drops := map[], [];
    }

    /** Idempotent; a listener that exists keeps its queue, its batch and its ack mode. */
    method RegisterListener(at: Address) returns (l: AgentListener)
      requires Valid()
      modifies this`listeners
      ensures Valid() && l.Valid()
      ensures listeners == old(listeners)[at := l]
      ensures if at in old(listeners) then l == old(listeners)[at] else fresh(l) && l.history == []
    {
      if at in listeners {
        l := listeners[at];
      } else {
        l := new AgentListener();
        listeners := listeners[at := l];
      }
    }

    /** Forget a departed agent's listener; whoever was blocked on it is released empty-handed. */
    method RemoveListener(at: Address) returns (released: Option<nat>)
      requires Valid()
      modifies this`listeners
      ensures Valid()
      ensures listeners == old(listeners) - {at}
      ensures released == if at in old(listeners) then old(listeners[at].waitResolve) else None
    {
      released := if at in listeners then listeners[at].waitResolve else None;
      listeners := listeners - {at};
    }

    /** Queued plus unacknowledged, never more than two full queues, and nothing for a stranger. */
    method QueueDepth(at: Address) returns (n: nat)
      requires Valid()
      ensures n == if at in listeners then |listeners[at].queue| + |listeners[at].Flown()| else 0
      ensures n <= 2 * MAX_LISTENER_QUEUE
    {
      if at !in listeners {
        return 0;
      }
      var l := listeners[at];
      OwedInArrivalOrder(l.history);
      n := |l.queue| + if l.inFlight.Some? then |l.inFlight.value.messages| else 0;
    }

    /** The listeners of one organisation. */
    function OrgListeners(org: string): set<AgentListener>
      reads this
    {
      set k | k in listeners && k.org == org :: listeners[k]
    }

    /**
     The message handler for consultation and broadcast topics; `None` is a payload that is not
     JSON.  Every listener of the organisation receives the message once, no listener of another
     one is touched, and each full listener costs one `queue_full` record.
     */
    method Route(org: string, msg: Option<QueuedMessage>) returns (ghost dropping: set<AgentListener>)
      requires Valid()
      modifies this`drops, OrgListeners(org)
      ensures Valid()
      ensures msg == None ==> drops == old(drops) + [MalformedPayload]
      ensures msg == None ==> forall l :: l in OrgListeners(org) ==> unchanged(l)
      ensures msg.Some? ==> forall l :: l in OrgListeners(org) ==>
                l.Received(msg.value)
      ensures msg.Some? ==> forall l :: l in dropping <==> l in OrgListeners(org) && old(l.IsFull())
      ensures msg.Some? ==>
                drops == old(drops) + if OrgListeners(org) == {} then [NoListener] else seq(|dropping|, _ => QueueFull)
      ensures forall k :: k in listeners && k.org != org ==> unchanged(listeners[k])
    {
      dropping := {};
      if msg == None {
        drops := drops + [MalformedPayload];
        return;
      }
      var full := DeliverToOrg(org, msg.value);
      dropping := full;
      RecordDrops(OrgListeners(org) == {}, |full|);
    }

    /** Nobody to deliver to is one record, each full queue another. */
    method RecordDrops(nobody: bool, full: nat)
      modifies this`drops
      ensures drops == old(drops) + if nobody then [NoListener] else seq(full, _ => QueueFull)
    {
      if nobody {
        drops := drops + [NoListener];
      } else {
        drops := drops + seq(full, _ => QueueFull);
      }
    }

    /** Delivery to the listeners of one organisation; those of the others keep what they have. */
    method DeliverToOrg(org: string, msg: QueuedMessage) returns (dropping: set<AgentListener>)
      requires Valid()
      modifies OrgListeners(org)
      ensures Valid()
      ensures forall l :: l in OrgListeners(org) ==> l.Received(msg)
      ensures forall l :: l in dropping <==> l in OrgListeners(org) && old(l.IsFull())
      ensures forall k :: k in listeners && k.org != org ==> unchanged(listeners[k])
    {
      var targets := OrgListeners(org);
      assert forall k :: k in listeners ==> (listeners[k] in targets <==> k.org == org);
      dropping := DeliverAll(targets, msg);
    }
  }

  /** The delivery loop; returns the listeners that dropped their oldest message. */
  method DeliverAll(targets: set<AgentListener>, msg: QueuedMessage) returns (dropping: set<AgentListener>)
    requires forall l :: l in targets ==> l.Valid()
    modifies targets
    ensures forall l :: l in targets ==> l.Valid()
    ensures forall l :: l in targets ==> l.Received(msg)
    ensures forall l :: l in dropping <==> l in targets && old(l.IsFull())
  {
    var todo := targets;
    dropping := {};
    while todo != {}
      invariant todo <= targets
      invariant forall l :: l in dropping <==> l in targets && l !in todo && old(l.IsFull())
      invariant forall l :: l in todo ==> unchanged(l)
      invariant forall l :: l in targets && l !in todo ==> l.Valid() && l.Received(msg)
      decreases |todo|
    {
      var l :| l in todo;
      assert l.Valid() && (l.IsFull() <==> old(l.IsFull()));
      var _, dropped := l.Receive(msg);
      todo := todo - {l};
      if dropped {
        dropping := dropping + {l};
      }
    }
  }
}
