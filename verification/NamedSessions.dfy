/** Submissions name a session, but are routed by their user: when an input reaches the session it names, and when an
    input naming an ended session is refused as the protocol contract promises. */
module NamedSessions {
  import opened Basics
  import opened Sessions
  import opened MatchQueue
  import opened Protocol
  import opened Safety
  import opened Uninterrupted
  import Serializability
  import Sim = Simulations
  import SR = SessionRuns
  import SM = SessionManagers
  import MQS = MatchQueueServices

  // A session is live until the final erase.
  predicate Live(g: System, id: SessionId) {
    id in g.sessions && !g.sessions[id].phase.Closed?
  }

  // A submission is routed to its user's live session, whatever session it names, and to none if there is none.
  lemma TargetIsTheLiveSession(maxTicks: nat, steps: seq<Step>, u: int, id: SessionId)
    requires SR.FitsInt(maxTicks)
    ensures var g := Run(maxTicks, steps);
            TargetOf(g, u) == Some(id) <==> TakesPart(g.sessions, u, id) && Live(g, id)
  {
    hide Inv, Run, UserIds;
    EveryRunIsSafe(maxTicks, steps);
    TablesInInv(maxTicks, Run(maxTicks, steps));
    TableTarget(Run(maxTicks, steps), u, id);
  }

  lemma TableTarget(g: System, u: int, id: SessionId)
    requires TablesOk(g.sessions, g.registered, g.userToSession)
    ensures TargetOf(g, u) == Some(id) <==> TakesPart(g.sessions, u, id) && Live(g, id)
  {
  }

  // An input goes to the session it names exactly if its user takes part in that session and it is live.
  lemma RoutedAsNamedExactly(maxTicks: nat, steps: seq<Step>, input: SessionInput)
    requires SR.FitsInt(maxTicks)
    ensures var g, named := Run(maxTicks, steps), input.sessionId;
            && (TargetOf(g, input.command.userId) == Some(named)
                <==> TakesPart(g.sessions, input.command.userId, named) && Live(g, named))
            && (forall id :: id != named && TakesPart(g.sessions, input.command.userId, id) && Live(g, id) ==>
                  Next(maxTicks, g, Route(input)).pending == g.pending + multiset{(id, input)})
  {
    hide Run, TakesPart, Live;
    var g, u := Run(maxTicks, steps), input.command.userId;
    TargetIsTheLiveSession(maxTicks, steps, u, input.sessionId);
    forall id | id != input.sessionId && TakesPart(g.sessions, u, id) && Live(g, id)
      ensures Next(maxTicks, g, Route(input)).pending == g.pending + multiset{(id, input)}
    {
      TargetIsTheLiveSession(maxTicks, steps, u, id);
    }
  }

  // The contract promises that an input of a participant naming an ended session is refused as "session_not_found".
  // It is so exactly if none of the user's sessions is live. While the named one is still being finalized, the answer
  // is "session_closed"; once it is closed and the user plays again, the input goes to the later session.
  lemma EndedNamesAreNotFoundExactly(maxTicks: nat, steps: seq<Step>, input: SessionInput)
    requires SR.FitsInt(maxTicks)
    requires TakesPart(Run(maxTicks, steps).sessions, input.command.userId, input.sessionId)
    requires Run(maxTicks, steps).sessions[input.sessionId].ctx.ended
    ensures var g, u, named := Run(maxTicks, steps), input.command.userId, input.sessionId;
            && (TargetOf(g, u) == None <==> forall id :: TakesPart(g.sessions, u, id) ==> !Live(g, id))
            && (Live(g, named) ==>
                  TargetOf(g, u) == Some(named) && Respond(g.sessions[named].ctx, input.command) == SessionClosed)
  {
    hide Run, UserIds;
    var g, u := Run(maxTicks, steps), input.command.userId;
    forall id ensures TargetOf(g, u) == Some(id) <==> TakesPart(g.sessions, u, id) && Live(g, id) {
      TargetIsTheLiveSession(maxTicks, steps, u, id);
    }
    if TargetOf(g, u).Some? {
      assert TakesPart(g.sessions, u, TargetOf(g, u).value);
    }
  }

  // ---- An input that reaches another session than the one it names ----

  // The queue is empty and the two users are in no session.
  ghost predicate Idle(g: System, a: Participant, b: Participant) {
    && g.lock.Free? && Valid(g.queue) && g.queue.nodes == []
    && a.userId != b.userId && a.userId !in g.userToSession && b.userId !in g.userToSession
  }

  function JoinSteps(user: Participant): seq<Step> {
    [JoinCheck(user), JoinPush(1, 0)]
  }

  lemma JoinOne(maxTicks: nat, g: System, user: Participant)
    requires g.lock.Free? && user.userId !in g.queue.index && user.userId !in g.userToSession
    ensures Follow(maxTicks, g, JoinSteps(user)) == g.(queue := Push(g.queue, user, 1, 0))
  {
    hide Follow;
    FollowTwo(maxTicks, g, JoinCheck(user), JoinPush(1, 0));
  }

  lemma JoinBoth(maxTicks: nat, g: System, a: Participant, b: Participant)
    requires Idle(g, a, b)
    ensures var q := Push(Push(g.queue, a, 1, 0), b, 1, 0);
            && Follow(maxTicks, g, JoinSteps(a) + JoinSteps(b)) == g.(queue := q)
            && Valid(q) && Unexpired(q.nodes, 0) == q.nodes && |q.nodes| == 2 && PairOf(q.nodes) == [a, b]
  {
    hide Follow, JoinSteps, Valid, Push, Unexpired;
    FollowConcat(maxTicks, g, JoinSteps(a), JoinSteps(b));
    PushBoth(g.queue, a, b);
    JoinOne(maxTicks, g, a);
    JoinOne(maxTicks, g.(queue := Push(g.queue, a, 1, 0)), b);
  }

  lemma PushBoth(q: Queue, a: Participant, b: Participant)
    requires Valid(q) && q.nodes == [] && a.userId != b.userId
    ensures a.userId !in q.index && b.userId !in Push(q, a, 1, 0).index
    ensures var both := Push(Push(q, a, 1, 0), b, 1, 0);
            && Valid(both) && Unexpired(both.nodes, 0) == both.nodes
            && |both.nodes| == 2 && PairOf(both.nodes) == [a, b]
  {
    hide Valid, Unexpired;
    NobodyIndexed(q);
    var one := Push(q, a, 1, 0);
    PushKeepsValid(q, a, 1, 0);
    PushKeepsValid(one, b, 1, 0);
    AllWait(Push(one, b, 1, 0).nodes, 0);
  }

  function PairOf(nodes: seq<Node>): seq<Participant>
    requires |nodes| == 2
  {
    [nodes[0].user, nodes[1].user]
  }

  lemma NobodyIndexed(q: Queue)
    requires Valid(q) && q.nodes == []
    ensures q.index == map[]
  {
    forall u ensures u !in q.index {
      IndexedHasNode(q, u);
    }
  }

  lemma {:induction false} AllWait(nodes: seq<Node>, now: int)
    requires forall i :: 0 <= i < |nodes| ==> nodes[i].expiresAt > now
    ensures Unexpired(nodes, now) == nodes
  {
    if nodes == [] {
    } else {
      AllWait(nodes[..|nodes| - 1], now);
      FrontAndLast(nodes);
    }
  }

  // Two idle users join, and are brought together in a session that has just started.
  lemma MeetInASession(maxTicks: nat, steps: seq<Step>, a: Participant, b: Participant) returns (more: seq<Step>)
    requires SR.FitsInt(maxTicks) && Idle(Run(maxTicks, steps), a, b)
    ensures var g, h := Run(maxTicks, steps), Run(maxTicks, steps + more);
            var id := SessionId(g.nextId);
            && h.lock.Free? && Valid(h.queue) && h.queue.nodes == [] && h.nextId == g.nextId + 1
            && h.userToSession == SM.Assigned(g.userToSession, [a, b], id)
            && At(h, id, Ticking) && h.sessions[id].ctx == NewContext(id, [a, b]) && id in h.registered
            && ElseUnchanged(g, h)
  {
    hide Run, Follow, Next, Valid, NewContext, SM.Assigned, Unexpired, TickSteps, JoinSteps;
    var g := Run(maxTicks, steps);
    var joins, id := JoinSteps(a) + JoinSteps(b), SessionId(g.nextId);
    JoinBoth(maxTicks, g, a, b);
    RunContinues(maxTicks, steps, joins);
    var q := Push(Push(g.queue, a, 1, 0), b, 1, 0);
    EveryQueueTick(maxTicks, steps + joins, 0);
    var ticked := steps + joins + TickSteps(0, 1);
    OnePairTicked(g.(queue := q), Run(maxTicks, ticked), q.nodes);
    FollowOne(maxTicks, Run(maxTicks, ticked), [], Protocol.Start(id));
    FollowNothing(maxTicks, Run(maxTicks, ticked));
    RunContinues(maxTicks, ticked, [Protocol.Start(id)]);
    assert [] + [Protocol.Start(id)] == [Protocol.Start(id)];
    StartStep(maxTicks, g, Run(maxTicks, ticked), id);
    more := joins + TickSteps(0, 1) + [Protocol.Start(id)];
    assert steps + more == ticked + [Protocol.Start(id)];
  }

  lemma OnePairTicked(g: System, h: System, waiting: seq<Node>)
    requires |waiting| == 2 && TickedAs(g, h, waiting)
    ensures h.lock.Free? && Valid(h.queue) && h.queue.nodes == [] && h.nextId == g.nextId + 1
    ensures h.userToSession == SM.Assigned(g.userToSession, PairOf(waiting), SessionId(g.nextId))
    ensures MadeFor(h, SessionId(g.nextId), PairOf(waiting)) && ElseUnchanged(g, h)
  {
    hide Valid, SM.Assigned, MadeFor, ElseUnchanged;
    assert MQS.AssignPairs(g.userToSession, waiting, 0, g.nextId) == g.userToSession;
    assert MadeFor(h, SessionId(g.nextId + 0), MQS.PairAt(waiting, 0));
  }

  lemma StartStep(maxTicks: nat, g: System, h: System, id: SessionId)
    requires At(h, id, Dispatched) && ElseUnchanged(g, h) && id.number >= g.nextId
    ensures var next := Next(maxTicks, h, Protocol.Start(id));
            && next == WithSession(h, id, next.sessions[id]) && At(next, id, Ticking)
            && next.sessions[id].ctx == h.sessions[id].ctx && ElseUnchanged(g, next)
  {
    hide Sim.SnapshotRows, ElseUnchanged;
    LaterSessionChanged(g, h, id, Next(maxTicks, h, Protocol.Start(id)).sessions[id]);
  }

  lemma LaterSessionChanged(g: System, h: System, id: SessionId, s: Session)
    requires ElseUnchanged(g, h) && id.number >= g.nextId
    ensures ElseUnchanged(g, WithSession(h, id, s))
  {
  }

  function Timers(id: SessionId, n: nat): seq<Step> {
    if n == 0 then [] else Timers(id, n - 1) + [Timer(id)]
  }

  lemma {:induction false} TimersRun(maxTicks: nat, g: System, id: SessionId, n: nat)
    requires At(g, id, Ticking) && !g.sessions[id].ctx.ended && g.sessions[id].ctx.tickSent == 0
    requires n < SR.LastTick(maxTicks)
    ensures var h := Follow(maxTicks, g, Timers(id, n));
            && At(h, id, Ticking) && h == WithSession(g, id, h.sessions[id])
            && h.sessions[id].ctx.participants == g.sessions[id].ctx.participants
            && !h.sessions[id].ctx.ended && h.sessions[id].ctx.tickSent == n
  {
    hide Follow, Next;
    if n == 0 {
      FollowNothing(maxTicks, g);
    } else {
      TimersRun(maxTicks, g, id, n - 1);
      FollowOne(maxTicks, g, Timers(id, n - 1), Timer(id));
      OneTimer(maxTicks, Follow(maxTicks, g, Timers(id, n - 1)), id);
    }
  }

  lemma OneTimer(maxTicks: nat, g: System, id: SessionId)
    requires At(g, id, Ticking) && !g.sessions[id].ctx.ended && g.sessions[id].ctx.tickSent + 1 < maxTicks
    ensures var h := Next(maxTicks, g, Timer(id));
            && At(h, id, Ticking) && h == WithSession(g, id, h.sessions[id])
            && h.sessions[id].ctx.participants == g.sessions[id].ctx.participants
            && !h.sessions[id].ctx.ended && h.sessions[id].ctx.tickSent == g.sessions[id].ctx.tickSent + 1
  {
    hide Sim.SnapshotRows, Sim.Tick, WinnerOf;
  }

  // A session that has just started is played to its end.
  lemma PlayToTheEnd(maxTicks: nat, steps: seq<Step>, id: SessionId) returns (more: seq<Step>)
    requires SR.FitsInt(maxTicks) && At(Run(maxTicks, steps), id, Ticking)
    requires Run(maxTicks, steps).sessions[id].ctx.tickSent == 0 && !Run(maxTicks, steps).sessions[id].ctx.ended
    ensures var g, h := Run(maxTicks, steps), Run(maxTicks, steps + more);
            && At(h, id, Closed) && h.sessions[id].ctx.participants == g.sessions[id].ctx.participants
            && h.userToSession == g.userToSession - UserIds(g.sessions[id].ctx.participants)
            && h.queue == g.queue && h.lock == g.lock && h.nextId == g.nextId
  {
    hide Run, Follow, UserIds, ConcludedAs, AfterTick, LastSteps, Timers;
    var n := SR.LastTick(maxTicks) - 1;
    TimersRun(maxTicks, Run(maxTicks, steps), id, n);
    RunContinues(maxTicks, steps, Timers(id, n));
    EveryLastTick(maxTicks, steps + Timers(id, n), id);
    ParticipantsStay(Run(maxTicks, steps + Timers(id, n)).sessions[id].ctx, maxTicks);
    ConcludedParts(Run(maxTicks, steps + Timers(id, n)), Run(maxTicks, steps + Timers(id, n) + LastSteps(id)), id,
                   AfterTick(Run(maxTicks, steps + Timers(id, n)).sessions[id].ctx, maxTicks));
    more := Timers(id, n) + LastSteps(id);
    assert steps + more == steps + Timers(id, n) + LastSteps(id);
  }

  lemma ConcludedParts(g: System, h: System, id: SessionId, last: Context)
    requires ConcludedAs(g, h, id, last)
    ensures At(h, id, Closed) && h.sessions[id].ctx == last
    ensures h.userToSession == g.userToSession - UserIds(last.participants)
    ensures h.queue == g.queue && h.lock == g.lock && h.nextId == g.nextId
  {
    hide RecordOf, LastMessages, Broadcasts, SM.TickMessages, UserIds;
  }

  lemma ParticipantsStay(ctx: Context, maxTicks: nat)
    ensures AfterTick(ctx, maxTicks).participants == ctx.participants
  {
    hide Sim.Tick;
  }

  lemma FreshSessionAccepts(id: SessionId, a: Participant, b: Participant)
    ensures Respond(NewContext(id, [a, b]), Sim.Input(a.userId, 1, 3, 1)) == Accepted
    ensures a.userId in UserIds([a, b]) && b.userId in UserIds([a, b])
  {
    NewPlayers([a, b]);
    assert [a, b][0] in [a, b] && [a, b][1] in [a, b];
  }

  // Whatever the number of ticks and whoever the two users: there is a run in which their first session is closed, an
  // input of one of them naming that session waits at their second session, and that session accepts it.
  lemma LateInputIsTaken(maxTicks: nat, a: Participant, b: Participant)
    returns (steps: seq<Step>, input: SessionInput)
    requires SR.FitsInt(maxTicks) && a.userId != b.userId
    ensures var g, one, two := Run(maxTicks, steps), SessionId(1), SessionId(2);
            && input.sessionId == one && input.command.userId == a.userId
            && At(g, one, Closed) && TakesPart(g.sessions, a.userId, one) && TakesPart(g.sessions, a.userId, two)
            && (two, input) in g.pending && Respond(g.sessions[two].ctx, input.command) == Accepted
            && Next(maxTicks, g, Deliver(two, input)).sessions[two].accepted
               == g.sessions[two].accepted + [input.command]
  {
    hide Run, Valid, NewContext, UserIds, SM.Assigned, SR.SessionOk, Inv;
    var one, two := SessionId(1), SessionId(2);
    input := SessionInput(one, Sim.Input(a.userId, 1, 3, 1));
    RunOfNothing(maxTicks);
    var first := MeetInASession(maxTicks, [], a, b);
    assert [] + first == first;
    NewContextFacts(one, [a, b]);
    var rest := PlayToTheEnd(maxTicks, first, one);
    var played := first + rest;
    SM.AssignedTable(map[], [a, b], one);
    FreshSessionAccepts(two, a, b);
    var again := MeetInASession(maxTicks, played, a, b);
    steps := played + again + [Route(input)];
    NewContextFacts(two, [a, b]);
    SM.AssignedTable(Run(maxTicks, played).userToSession, [a, b], two);
    RunOne(maxTicks, played + again, Route(input));
    RouteThenDeliver(maxTicks, Run(maxTicks, played + again), two, input);
  }

  lemma RunOfNothing(maxTicks: nat)
    ensures Run(maxTicks, []) == START && Valid(START.queue)
  {
  }

  lemma RunOne(maxTicks: nat, steps: seq<Step>, step: Step)
    ensures Run(maxTicks, steps + [step]) == Next(maxTicks, Run(maxTicks, steps), step)
  {
    hide Next;
    assert (steps + [step])[..|steps|] == steps;
  }

  lemma NewContextFacts(id: SessionId, participants: seq<Participant>)
    ensures var ctx := NewContext(id, participants);
            ctx.participants == participants && ctx.tickSent == 0 && !ctx.ended
  {
  }

  lemma RouteThenDeliver(maxTicks: nat, g: System, id: SessionId, input: SessionInput)
    requires TargetOf(g, input.command.userId) == Some(id) && id in g.sessions
    requires Respond(g.sessions[id].ctx, input.command) == Accepted
    ensures var h := Next(maxTicks, g, Route(input));
            && h == g.(pending := h.pending) && (id, input) in h.pending
            && Next(maxTicks, h, Deliver(id, input)).sessions[id].accepted
               == g.sessions[id].accepted + [input.command]
  {
    hide AfterInput, Respond;
  }
}
