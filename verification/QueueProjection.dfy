/** The queue inside the interleaved pipeline behaves as the queue on its own: every run of the one projects to a run of
    the other, and the sessions are that run's pairs. */
module QueueProjection {
  import opened Basics
  import opened Ratings
  import opened Results
  import opened Sessions
  import opened MatchQueue
  import opened Protocol
  import opened Safety
  import opened StrandSteps
  import Sim = Simulations
  import SR = SessionRuns
  import SM = SessionManagers
  import QH = QueueHistory

  // What a step means to the queue: a join happens at its push, a timer tick when it takes the mutex.
  ghost function TraceOf(g: System, step: Step): seq<QH.Event> {
    match step
    case JoinPush(expiresAt, now) =>
      if g.lock.Joining? then [QH.JoinQueue(g.lock.user, expiresAt, now, false)] else []
    case Leave(userId) => if g.lock.Free? then [QH.LeaveQueue(userId)] else []
    case Expire(now) => if g.lock.Free? then [QH.Timer(now)] else []
    case _ => []
  }

  ghost function Trace(maxTicks: nat, steps: seq<Step>): seq<QH.Event> {
    if steps == [] then []
    else
      var front := steps[..|steps| - 1];
      Trace(maxTicks, front) + TraceOf(Run(maxTicks, front), steps[|steps| - 1])
  }

  // The history of the queue with the pairs of a timer tick formed one by one, as the steps do it.
  ghost function Ongoing(maxTicks: nat, steps: seq<Step>): QH.History {
    if steps == [] then QH.START
    else OngoingNext(Run(maxTicks, steps[..|steps| - 1]), Ongoing(maxTicks, steps[..|steps| - 1]), steps[|steps| - 1])
  }

  ghost function OngoingNext(g: System, h: QH.History, step: Step): QH.History {
    match step
    case JoinPush(expiresAt, now) =>
      if g.lock.Joining? then h.(queue := Push(h.queue, g.lock.user, expiresAt, now)) else h
    case Leave(userId) => if g.lock.Free? then QH.After(h, QH.LeaveQueue(userId)) else h
    case Expire(now) => if g.lock.Free? then QH.ExpireAll(h, now) else h
    case PairTwo => if g.lock.Pairing? && |h.queue.nodes| >= 2 then QH.PairOnce(h) else h
    case _ => h
  }

  // ---- The relation ----

  ghost predicate NodesNamed(nodes: seq<Node>, joiners: seq<Participant>) {
    forall n :: n in nodes ==> n.ticket < |joiners| && n.user == joiners[n.ticket]
  }

  // The i-th session is of the users of the i-th pair.
  ghost predicate IsPair(sessions: Table, i: nat, paired: seq<nat>, joiners: seq<Participant>)
    requires 2 * i + 1 < |paired|
  {
    && SessionId(1 + i) in sessions
    && paired[2 * i] < |joiners| && paired[2 * i + 1] < |joiners|
    && sessions[SessionId(1 + i)].ctx.participants == [joiners[paired[2 * i]], joiners[paired[2 * i + 1]]]
  }

  // The sessions ever created are exactly the pairs, numbered from one in the order of pairing.
  ghost predicate SessionsArePairs(sessions: Table, nextId: nat, paired: seq<nat>, joiners: seq<Participant>) {
    && |paired| == 2 * (nextId - 1)
    && (forall id: SessionId :: id in sessions <==> 1 <= id.number < nextId)
    && (forall i: nat :: 2 * i + 1 < |paired| ==> IsPair(sessions, i, paired, joiners))
  }

  ghost predicate Projects(g: System, h: QH.History, events: seq<QH.Event>) {
    && h.queue == g.queue
    && |QH.Joiners(events)| == h.queue.nextTicket
    && NodesNamed(h.queue.nodes, QH.Joiners(events))
    && SessionsArePairs(g.sessions, g.nextId, h.paired, QH.Joiners(events))
    && (if g.lock.Pairing? then QH.PairAll(h) == QH.Run(events) else h == QH.Run(events))
  }

  // ---- Every step keeps it ----

  lemma JoinersAppend(events: seq<QH.Event>, e: QH.Event)
    ensures QH.Joiners(events + [e])
            == if e.JoinQueue? && e.user.userId !in QH.Run(events).queue.index && !e.busy
               then QH.Joiners(events) + [e.user] else QH.Joiners(events)
  {
    assert (events + [e])[..|events|] == events;
  }

  lemma MoreJoiners(sessions: Table, nextId: nat, paired: seq<nat>, joiners: seq<Participant>, user: Participant)
    requires SessionsArePairs(sessions, nextId, paired, joiners)
    ensures SessionsArePairs(sessions, nextId, paired, joiners + [user])
  {
    forall i: nat | 2 * i + 1 < |paired| ensures IsPair(sessions, i, paired, joiners + [user]) {
      assert IsPair(sessions, i, paired, joiners);
    }
  }

  lemma PushProjects(g: System, h: QH.History, events: seq<QH.Event>, expiresAt: int, now: int)
    requires Projects(g, h, events) && g.lock.Joining? && g.lock.user.userId !in g.queue.index
    ensures var queue := Push(g.queue, g.lock.user, expiresAt, now);
            Projects(g.(queue := queue, lock := Free), h.(queue := queue),
                     events + [QH.JoinQueue(g.lock.user, expiresAt, now, false)])
  {
    hide SessionsArePairs, QH.Run, QH.Joiners;
    var e := QH.JoinQueue(g.lock.user, expiresAt, now, false);
    JoinersAppend(events, e);
    QH.RunAppend(events, e);
    MoreJoiners(g.sessions, g.nextId, h.paired, QH.Joiners(events), g.lock.user);
    PushedNamed(g.queue, QH.Joiners(events), g.lock.user, expiresAt, now);
  }

  lemma PushedNamed(q: Queue, joiners: seq<Participant>, user: Participant, expiresAt: int, now: int)
    requires NodesNamed(q.nodes, joiners) && |joiners| == q.nextTicket
    ensures NodesNamed(Push(q, user, expiresAt, now).nodes, joiners + [user])
  {
  }

  lemma LeaveProjects(g: System, h: QH.History, events: seq<QH.Event>, userId: int)
    requires Projects(g, h, events) && g.lock.Free? && Valid(g.queue)
    ensures Projects(g.(queue := Cancel(g.queue, userId)), QH.After(h, QH.LeaveQueue(userId)),
                     events + [QH.LeaveQueue(userId)])
  {
    hide SessionsArePairs, QH.Run, QH.Joiners, Cancel, Valid;
    JoinersAppend(events, QH.LeaveQueue(userId));
    QH.RunAppend(events, QH.LeaveQueue(userId));
    CancelKeepsValid(g.queue, userId);
    CancelCounts(g.queue, userId);
  }

  lemma CancelCounts(q: Queue, userId: int)
    ensures Cancel(q, userId).nextTicket == q.nextTicket
    ensures userId !in q.index ==> Cancel(q, userId) == q
  {
  }

  lemma ExpireProjects(g: System, h: QH.History, events: seq<QH.Event>, now: int)
    requires Projects(g, h, events) && g.lock.Free? && Valid(g.queue)
    ensures Projects(g.(queue := DropExpired(g.queue, now), lock := Pairing), QH.ExpireAll(h, now),
                     events + [QH.Timer(now)])
  {
    hide SessionsArePairs, QH.Run, QH.Joiners, QH.PairAll, Unexpired, Expired;
    JoinersAppend(events, QH.Timer(now));
    QH.RunAppend(events, QH.Timer(now));
    UnexpiredElements(g.queue.nodes, now);
  }

  lemma OneMorePair(sessions: Table, nextId: nat, paired: seq<nat>, joiners: seq<Participant>, a: nat, b: nat,
                    s: Session)
    requires SessionsArePairs(sessions, nextId, paired, joiners) && a < |joiners| && b < |joiners| && nextId >= 1
    requires s.ctx.participants == [joiners[a], joiners[b]]
    ensures SessionsArePairs(sessions[SessionId(nextId) := s], nextId + 1, paired + [a, b], joiners)
  {
    var next, more := sessions[SessionId(nextId) := s], paired + [a, b];
    forall i: nat | 2 * i + 1 < |more| ensures IsPair(next, i, more, joiners) {
      if 2 * i + 1 < |paired| {
        assert IsPair(sessions, i, paired, joiners);
        assert more[2 * i] == paired[2 * i] && more[2 * i + 1] == paired[2 * i + 1];
      } else {
        assert i == nextId - 1;
      }
    }
  }

  lemma PairProjects(maxTicks: nat, g: System, h: QH.History, events: seq<QH.Event>)
    requires Projects(g, h, events) && g.lock.Pairing? && |g.queue.nodes| >= 2 && g.nextId >= 1
    ensures Projects(Next(maxTicks, g, PairTwo), QH.PairOnce(h), events)
  {
    hide SessionsArePairs, QH.Run, QH.Joiners, SM.Assigned, NewContext;
    var one, two, joiners := h.queue.nodes[0], h.queue.nodes[1], QH.Joiners(events);
    assert one in h.queue.nodes && two in h.queue.nodes;
    var s := NewSession(SessionId(g.nextId), [one.user, two.user]);
    NewSessionUsers(SessionId(g.nextId), [one.user, two.user]);
    OneMorePair(g.sessions, g.nextId, h.paired, joiners, one.ticket, two.ticket, s);
    assert forall n :: n in h.queue.nodes[2..] ==> n in h.queue.nodes;
  }

  // The steps that create no session and leave the queue alone.
  ghost predicate Beside(g: System, next: System) {
    && next.queue == g.queue && next.nextId == g.nextId && next.lock.Pairing? == g.lock.Pairing?
    && next.sessions.Keys == g.sessions.Keys
    && forall id :: id in g.sessions ==> next.sessions[id].ctx.participants == g.sessions[id].ctx.participants
  }

  lemma BesideProjects(g: System, next: System, h: QH.History, events: seq<QH.Event>)
    requires Projects(g, h, events) && Beside(g, next)
    ensures Projects(next, h, events)
  {
    hide QH.Run, QH.Joiners, QH.PairAll;
    var joiners := QH.Joiners(events);
    forall i: nat | 2 * i + 1 < |h.paired| ensures IsPair(next.sessions, i, h.paired, joiners) {
      assert IsPair(g.sessions, i, h.paired, joiners);
    }
    assert forall id: SessionId :: id in next.sessions <==> id in g.sessions;
  }

  predicate OfTheQueue(step: Step) {
    step.JoinPush? || step.Leave? || step.Expire? || step.PairTwo? || step.Unlock?
  }

  lemma OneSessionBeside(g: System, next: System, id: SessionId, s: Session)
    requires id in g.sessions && s.ctx.participants == g.sessions[id].ctx.participants
    requires next.sessions == g.sessions[id := s]
    requires next.queue == g.queue && next.nextId == g.nextId && next.lock == g.lock
    ensures Beside(g, next)
  {
  }

  lemma NoSessionBeside(g: System, next: System)
    requires next.sessions == g.sessions && next.queue == g.queue && next.nextId == g.nextId
    requires next.lock.Pairing? == g.lock.Pairing?
    ensures Beside(g, next)
  {
  }

  lemma StrandStepsAreBeside(maxTicks: nat, g: System, step: Step)
    requires OnStrand(step) && step.id in g.sessions
    ensures Beside(g, Next(maxTicks, g, step))
  {
    hide Started, Ticked, Delivered, Beside, Next;
    NoSessionBeside(g, g);
    var id, next, s := step.id, Next(maxTicks, g, step), g.sessions[step.id];
    HandlersKeepParticipants(s, maxTicks);
    match step {
      case Deliver(_, input) =>
        DeliverReplaces(maxTicks, g, id, input);
        InputsKeepParticipants(s, input.command);
      case Save(_) => SaveReplaces(maxTicks, g, id);
      case Start(_) => StartAndTimerReplace(maxTicks, g, step);
      case Timer(_) => StartAndTimerReplace(maxTicks, g, step);
      case _ => FinishingReplaces(maxTicks, g, step);
    }
    if next != g {
      OneSessionBeside(g, next, id, next.sessions[id]);
    }
  }

  lemma OtherStepsAreBeside(maxTicks: nat, g: System, step: Step)
    requires !OfTheQueue(step)
    ensures Beside(g, Next(maxTicks, g, step))
  {
    if OnStrand(step) {
      hide Next, Beside;
      if step.id in g.sessions {
        StrandStepsAreBeside(maxTicks, g, step);
      } else {
        UnknownSession(maxTicks, g, step);
        NoSessionBeside(g, g);
      }
    } else {
      hide WithUser, Beside;
      NoSessionBeside(g, Next(maxTicks, g, step));
    }
  }

  lemma StepProjects(maxTicks: nat, g: System, h: QH.History, events: seq<QH.Event>, step: Step, next: seq<QH.Event>)
    requires Inv(maxTicks, g) && Projects(g, h, events) && g.nextId >= 1
    requires next == events + TraceOf(g, step)
    ensures Projects(Next(maxTicks, g, step), OngoingNext(g, h, step), next)
    ensures Next(maxTicks, g, step).nextId >= 1
  {
    hide Inv, Projects, Valid, Push, Cancel, DropExpired, QH.After, QH.ExpireAll, QH.PairOnce, Beside;
    QueueInInv(maxTicks, g);
    SameQueue(g, h, events);
    assert events + [] == events;
    match step
    case JoinPush(expiresAt, now) => if g.lock.Joining? { PushProjects(g, h, events, expiresAt, now); }
    case Leave(userId) => if g.lock.Free? { LeaveProjects(g, h, events, userId); }
    case Expire(now) => if g.lock.Free? { ExpireProjects(g, h, events, now); }
    case PairTwo =>
      if g.lock.Pairing? && |g.queue.nodes| >= 2 {
        PairProjects(maxTicks, g, h, events);
      }
    case Unlock => UnlockProjects(maxTicks, g, h, events);
    case _ =>
      OtherStepsAreBeside(maxTicks, g, step);
      BesideProjects(g, Next(maxTicks, g, step), h, events);
      BesideCounts(g, Next(maxTicks, g, step));
  }

  lemma SameQueue(g: System, h: QH.History, events: seq<QH.Event>)
    requires Projects(g, h, events)
    ensures h.queue == g.queue
  {
  }

  lemma BesideCounts(g: System, next: System)
    requires Beside(g, next)
    ensures next.nextId == g.nextId
  {
  }

  lemma UnlockProjects(maxTicks: nat, g: System, h: QH.History, events: seq<QH.Event>)
    requires Projects(g, h, events)
    ensures Projects(Next(maxTicks, g, Unlock), h, events)
  {
    hide SessionsArePairs, QH.Run, QH.Joiners;
  }

  lemma {:induction false} RunProjects(maxTicks: nat, steps: seq<Step>)
    requires SR.FitsInt(maxTicks)
    ensures Projects(Run(maxTicks, steps), Ongoing(maxTicks, steps), Trace(maxTicks, steps))
    ensures Run(maxTicks, steps).nextId >= 1
  {
    if steps == [] {
    } else {
      hide Inv, Next, OngoingNext, Projects, TraceOf;
      var front, last := steps[..|steps| - 1], steps[|steps| - 1];
      RunProjects(maxTicks, front);
      EveryRunIsSafe(maxTicks, front);
      StepProjects(maxTicks, Run(maxTicks, front), Ongoing(maxTicks, front), Trace(maxTicks, front), last,
                   Trace(maxTicks, steps));
    }
  }

  // ---- The sessions of a run are the pairs of its queue ----

  lemma {:induction false} PairAllExtends(h: QH.History)
    ensures |h.paired| <= |QH.PairAll(h).paired| && h.paired == QH.PairAll(h).paired[..|h.paired|]
    decreases |h.queue.nodes|
  {
    if |h.queue.nodes| < 2 {
    } else {
      PairAllExtends(QH.PairOnce(h));
    }
  }

  // In every interleaving: the joins, departures and timer ticks form a history of the queue on its own, with all that
  // holds of it, and the sessions created so far are exactly the first pairs of that history, in order; outside of a
  // timer tick they are all of them, and the queue is the queue of that history.
  lemma SessionsAreThePairs(maxTicks: nat, steps: seq<Step>)
    requires SR.FitsInt(maxTicks)
    ensures var g, events := Run(maxTicks, steps), Trace(maxTicks, steps);
            var h, made := QH.Run(events), 2 * (g.nextId - 1);
            && QH.Consistent(h)
            && 0 <= made <= |h.paired|
            && SessionsArePairs(g.sessions, g.nextId, h.paired[..made], QH.Joiners(events))
            && (!g.lock.Pairing? ==> made == |h.paired| && g.queue == h.queue)
  {
    hide Run, Trace, Ongoing, QH.Run, QH.Joiners, QH.Consistent, NodesNamed, QH.PairAll;
    RunProjects(maxTicks, steps);
    QH.RunIsConsistent(Trace(maxTicks, steps));
    PairAllExtends(Ongoing(maxTicks, steps));
    var paired := Ongoing(maxTicks, steps).paired;
    assert paired[..|paired|] == paired;
  }

  // Whoever is in an earlier session joined the queue before whoever is in a later one.
  lemma EarlierJoinersPlayEarlier(maxTicks: nat, steps: seq<Step>, i: nat, j: nat)
    requires SR.FitsInt(maxTicks) && i < j < Run(maxTicks, steps).nextId - 1
    ensures var g, joiners := Run(maxTicks, steps), QH.Joiners(Trace(maxTicks, steps));
            exists a: nat, b: nat, c: nat, d: nat :: a < b < c < d < |joiners|
              && PlayedBy(g.sessions, SessionId(1 + i), joiners[a], joiners[b])
              && PlayedBy(g.sessions, SessionId(1 + j), joiners[c], joiners[d])
  {
    hide Run, Trace, QH.Run, QH.Joiners, QH.Consistent, SessionsArePairs;
    SessionsAreThePairs(maxTicks, steps);
    var g, events := Run(maxTicks, steps), Trace(maxTicks, steps);
    var h := QH.Run(events);
    PairedRises(h);
    TwoPairs(g.sessions, g.nextId, h.paired, QH.Joiners(events), i, j);
  }

  predicate PlayedBy(sessions: Table, id: SessionId, one: Participant, two: Participant) {
    id in sessions && sessions[id].ctx.participants == [one, two]
  }

  lemma PairedRises(h: QH.History)
    requires QH.Consistent(h)
    ensures QH.Rising(h.paired)
  {
  }

  lemma TwoPairs(sessions: Table, nextId: nat, paired: seq<nat>, joiners: seq<Participant>, i: nat, j: nat)
    requires i < j < nextId - 1 && 2 * (nextId - 1) <= |paired| && QH.Rising(paired)
    requires SessionsArePairs(sessions, nextId, paired[..2 * (nextId - 1)], joiners)
    ensures exists a: nat, b: nat, c: nat, d: nat :: a < b < c < d < |joiners|
              && PlayedBy(sessions, SessionId(1 + i), joiners[a], joiners[b])
              && PlayedBy(sessions, SessionId(1 + j), joiners[c], joiners[d])
  {
    var made := paired[..2 * (nextId - 1)];
    assert IsPair(sessions, i, made, joiners) && IsPair(sessions, j, made, joiners);
    var a, b, c, d := made[2 * i], made[2 * i + 1], made[2 * j], made[2 * j + 1];
    assert a < b < c < d;
    assert PlayedBy(sessions, SessionId(1 + i), joiners[a], joiners[b]);
    assert PlayedBy(sessions, SessionId(1 + j), joiners[c], joiners[d]);
  }
}
