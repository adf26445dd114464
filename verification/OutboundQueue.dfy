/** The bounded send queue of one WebSocket connection. */
module OutboundQueue {

  // A message is its bytes.
  type Payload = string

  datatype Limits = Limits(messages: nat, bytes: nat)

  datatype Outbox = Outbox(queue: seq<Payload>, queuedBytes: nat, writing: bool, closing: bool)

  const OPEN := Outbox([], 0, false, false)

  function Size(messages: seq<Payload>): nat {
    if messages == [] then 0 else Size(messages[..|messages| - 1]) + |messages[|messages| - 1]|
  }

  // ---- Transitions: the new state, and what is handed to the socket ----

  function WriteNext(o: Outbox): (Outbox, seq<Payload>) {
    if o.queue == [] || o.closing then (o, []) else (o.(writing := true), [o.queue[0]])
  }

  predicate Fits(limits: Limits, count: nat, bytes: nat, message: Payload) {
    count < limits.messages && bytes + |message| <= limits.bytes
  }

  function CloseForBackpressure(o: Outbox): Outbox {
    if o.closing then o else o.(closing := true, queue := [], queuedBytes := 0)
  }

  function Enqueue(limits: Limits, o: Outbox, message: Payload): (Outbox, seq<Payload>) {
    if o.closing then (o, [])
    else if !Fits(limits, |o.queue|, o.queuedBytes, message) then (CloseForBackpressure(o), [])
    else
      var next := o.(queue := o.queue + [message], queuedBytes := o.queuedBytes + |message|);
      if next.writing then (next, []) else WriteNext(next)
  }

  predicate BytesCoverFront(o: Outbox) {
    o.queue != [] ==> o.queuedBytes >= |o.queue[0]|
  }

  function PopFront(o: Outbox): Outbox
    requires BytesCoverFront(o)
  {
    if o.queue == [] then o else o.(queue := o.queue[1..], queuedBytes := o.queuedBytes - |o.queue[0]|)
  }

  function OnWrite(o: Outbox, ok: bool): (Outbox, seq<Payload>)
    requires BytesCoverFront(o)
  {
    var popped := PopFront(o);
    if !ok then (popped.(closing := true), [])
    else
      var idle := popped.(writing := false);
      if idle.queue != [] then WriteNext(idle) else (idle, [])
  }

  // ---- Whole connections ----

  // A write callback only fires for a write that was started; done counts the successful ones.
  datatype Event = Send(message: Payload) | Written(ok: bool)

  datatype History = History(outbox: Outbox, accepted: seq<Payload>, handed: seq<Payload>, inFlight: nat, done: nat)

  const START := History(OPEN, [], [], 0, 0)

  ghost predicate Accounting(limits: Limits, o: Outbox) {
    o.queuedBytes == Size(o.queue) && |o.queue| <= limits.messages && o.queuedBytes <= limits.bytes
  }

  // While the connection is open, the queue holds the accepted messages whose write has not completed, and the first
  // of them is being written. Afterwards only the order of what was handed out matters.
  ghost predicate Consistent(limits: Limits, h: History) {
    && Accounting(limits, h.outbox)
    && h.inFlight <= 1
    && h.handed <= h.accepted
    && (!h.outbox.closing ==>
          && h.done <= |h.accepted| && h.outbox.queue == h.accepted[h.done..]
          && (h.outbox.writing <==> h.outbox.queue != [])
          && h.inFlight == (if h.outbox.writing then 1 else 0)
          && |h.handed| == h.done + h.inFlight)
  }

  lemma {:induction false} SizeOfConcat(a: seq<Payload>, b: seq<Payload>)
    ensures Size(a + b) == Size(a) + Size(b)
  {
    if b == [] {
      assert a + b == a;
    } else {
      assert (a + b)[..|a| + |b| - 1] == a + b[..|b| - 1];
      SizeOfConcat(a, b[..|b| - 1]);
    }
  }

  lemma FrontIsCovered(limits: Limits, o: Outbox)
    requires Accounting(limits, o)
    ensures BytesCoverFront(o)
    ensures Accounting(limits, PopFront(o))
  {
    if o.queue != [] {
      assert o.queue == o.queue[..1] + o.queue[1..];
      SizeOfConcat(o.queue[..1], o.queue[1..]);
      assert Size(o.queue[..1]) == Size(o.queue[..0]) + |o.queue[0]|;
    }
  }

  function AfterSend(limits: Limits, h: History, message: Payload): History {
    var (next, out) := Enqueue(limits, h.outbox, message);
    var taken := !h.outbox.closing && Fits(limits, |h.outbox.queue|, h.outbox.queuedBytes, message);
    History(next, if taken then h.accepted + [message] else h.accepted, h.handed + out, h.inFlight + |out|, h.done)
  }

  function AfterWritten(h: History, ok: bool): History
    requires BytesCoverFront(h.outbox)
  {
    if h.inFlight == 0 then h
    else
      var (next, out) := OnWrite(h.outbox, ok);
      History(next, h.accepted, h.handed + out, h.inFlight - 1 + |out|, if ok then h.done + 1 else h.done)
  }

  lemma SizeAppend(queue: seq<Payload>, message: Payload)
    ensures Size(queue + [message]) == Size(queue) + |message|
  {
    assert (queue + [message])[..|queue|] == queue;
  }

  lemma HandedStaysAPrefix(handed: seq<Payload>, accepted: seq<Payload>, message: Payload)
    requires handed <= accepted
    ensures handed <= accepted + [message]
    ensures |handed| == |accepted| ==> handed + [message] <= accepted + [message]
  {
  }

  lemma SendKeepsTaken(limits: Limits, h: History, message: Payload)
    requires Consistent(limits, h) && !h.outbox.closing
    requires Fits(limits, |h.outbox.queue|, h.outbox.queuedBytes, message)
    ensures Consistent(limits, AfterSend(limits, h, message))
  {
    hide Size;
    SizeAppend(h.outbox.queue, message);
    HandedStaysAPrefix(h.handed, h.accepted, message);
    assert (h.accepted + [message])[h.done..] == h.outbox.queue + [message];
  }

  lemma SendKeeps(limits: Limits, h: History, message: Payload)
    requires Consistent(limits, h)
    ensures Consistent(limits, AfterSend(limits, h, message))
  {
    if !h.outbox.closing && Fits(limits, |h.outbox.queue|, h.outbox.queuedBytes, message) {
      SendKeepsTaken(limits, h, message);
    } else {
      assert Size([]) == 0;
    }
  }

  lemma WrittenKeeps(limits: Limits, h: History, ok: bool)
    requires Consistent(limits, h) && BytesCoverFront(h.outbox)
    ensures Consistent(limits, AfterWritten(h, ok))
  {
    FrontIsCovered(limits, h.outbox);
    if h.inFlight > 0 && !h.outbox.closing {
      assert h.accepted[h.done..][1..] == h.accepted[h.done + 1..];
    }
  }

  // The history of a connection, or of as much of it as has happened.
  ghost function Run(limits: Limits, events: seq<Event>): (h: History)
    ensures Consistent(limits, h)
  {
    if events == [] then START
    else
      var before := Run(limits, events[..|events| - 1]);
      match events[|events| - 1]
      case Send(message) =>
        SendKeeps(limits, before, message);
        AfterSend(limits, before, message)
      case Written(ok) =>
        FrontIsCovered(limits, before.outbox);
        WrittenKeeps(limits, before, ok);
        AfterWritten(before, ok)
  }

  // Both limits hold, at most one write is outstanding, and the socket gets the accepted messages in order; as long
  // as the connection is open it gets all of them, one ahead of the completed writes.
  lemma RunIsSafe(limits: Limits, events: seq<Event>)
    ensures var h := Run(limits, events);
            && |h.outbox.queue| <= limits.messages
            && Size(h.outbox.queue) == h.outbox.queuedBytes <= limits.bytes
            && h.inFlight <= 1
            && h.handed == h.accepted[..|h.handed|]
            && (!h.outbox.closing ==>
                  h.done <= |h.accepted|
                  && (h.outbox.writing <==> h.outbox.queue != [])
                  && |h.handed| == if h.done < |h.accepted| then h.done + 1 else h.done)
  {
  }

  // A message is taken exactly when the connection is open and the messages not yet written leave room for it;
  // otherwise the connection closes.
  lemma SendOutcome(limits: Limits, events: seq<Event>, message: Payload)
    requires !Run(limits, events).outbox.closing
    ensures var h, next := Run(limits, events), Run(limits, events + [Send(message)]);
            var waiting := h.accepted[h.done..];
            if |waiting| < limits.messages && Size(waiting) + |message| <= limits.bytes
            then next.accepted == h.accepted + [message] && !next.outbox.closing
            else next.accepted == h.accepted && next.outbox.closing && next.outbox.queue == []
  {
    assert (events + [Send(message)])[..|events|] == events;
  }

  // A completed write hands out the next accepted message if there is one, and a failed one closes the connection.
  lemma WriteOutcome(limits: Limits, events: seq<Event>, ok: bool)
    requires !Run(limits, events).outbox.closing && Run(limits, events).inFlight > 0
    ensures var h, next := Run(limits, events), Run(limits, events + [Written(ok)]);
            && next.accepted == h.accepted
            && next.outbox.closing == !ok
            && next.done == h.done + (if ok then 1 else 0)
            && next.handed == if ok && h.done + 1 < |h.accepted| then h.handed + [h.accepted[h.done + 1]] else h.handed
  {
    assert (events + [Written(ok)])[..|events|] == events;
  }

  // Closing is final: afterwards nothing is taken and nothing is handed out.
  lemma {:induction false} NothingAfterClosing(limits: Limits, events: seq<Event>, more: seq<Event>)
    requires Run(limits, events).outbox.closing
    ensures var h, later := Run(limits, events), Run(limits, events + more);
            later.outbox.closing && later.accepted == h.accepted && later.handed == h.handed
  {
    hide Run, Consistent;
    if more == [] {
      assert events + more == events;
    } else {
      var rest := more[..|more| - 1];
      NothingAfterClosing(limits, events, rest);
      assert events + more == (events + rest) + [more[|rest|]];
      ClosedStaysClosed(limits, events + rest, more[|rest|]);
    }
  }

  lemma ClosedStaysClosed(limits: Limits, events: seq<Event>, e: Event)
    requires Run(limits, events).outbox.closing
    ensures var h, later := Run(limits, events), Run(limits, events + [e]);
            later.outbox.closing && later.accepted == h.accepted && later.handed == h.handed
  {
    assert (events + [e])[..|events|] == events;
  }

  class WebSocketSession {
    const limits: Limits
    var sendQueue: seq<Payload>
    var queuedBytes: nat
    var writing: bool
    var closing: bool
    // Everything handed to the socket, in order.
    ghost var handed: seq<Payload>

    ghost function View(): Outbox
      reads this
    {
      Outbox(sendQueue, queuedBytes, writing, closing)
    }

    constructor (limits: Limits)
      ensures this.limits == limits && View() == OPEN && handed == []
    {
      this.limits := limits;
      sendQueue, queuedBytes, writing, closing, handed := [], 0, false, false, [];
    }

    method EnqueueMessage(message: Payload)
      modifies this
      ensures View() == Enqueue(limits, old(View()), message).0
      ensures handed == old(handed) + Enqueue(limits, old(View()), message).1
    {
      if closing {
        return;
      }
      if |sendQueue| >= limits.messages || queuedBytes + |message| > limits.bytes {
        TriggerBackpressureClose();
        return;
      }
      sendQueue := sendQueue + [message];
      queuedBytes := queuedBytes + |message|;
      if !writing {
        WriteNextMessage();
      }
    }

    method WriteNextMessage()
      modifies this
      ensures View() == WriteNext(old(View())).0
      ensures handed == old(handed) + WriteNext(old(View())).1
    {
      if sendQueue == [] || closing {
        return;
      }
      writing := true;
      handed := handed + [sendQueue[0]];
    }

    // The completion callback of one write.
    method OnWriteDone(ok: bool)
      requires BytesCoverFront(View())
      modifies this
      ensures View() == OnWrite(old(View()), ok).0
      ensures handed == old(handed) + OnWrite(old(View()), ok).1
    {
      if sendQueue != [] {
        queuedBytes := queuedBytes - |sendQueue[0]|;
        sendQueue := sendQueue[1..];
      }
      if !ok {
        closing := true;
        return;
      }
      writing := false;
      if sendQueue != [] {
        WriteNextMessage();
      }
    }

    method TriggerBackpressureClose()
      modifies this
      ensures View() == CloseForBackpressure(old(View()))
      ensures handed == old(handed)
    {
      if closing {
        return;
      }
      closing := true;
      sendQueue := [];
      queuedBytes := 0;
    }
  }
}
