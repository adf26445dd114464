/** Left alone, the interleaved steps do what the sequential methods of the services promise. */
module Uninterrupted {
  import opened Basics
  import opened Ratings
  import opened Results
  import opened Sessions
  import opened MatchQueue
  import opened Protocol
  import opened Safety
  import opened MatchQueueServices
  import Serializability
  import Sim = Simulations
  import SR = SessionRuns
  import SM = SessionManagers

  // The system after some more steps.
  ghost function Follow(maxTicks: nat, g: System, steps: seq<Step>): System {
    if steps == [] then g else Next(maxTicks, Follow(maxTicks, g, steps[..|steps| - 1]), steps[|steps| - 1])
  }

  lemma FollowNothing(maxTicks: nat, g: System)
    ensures Follow(maxTicks, g, []) == g
  {
  }

  lemma FollowOne(maxTicks: nat, g: System, steps: seq<Step>, step: Step)
    ensures Follow(maxTicks, g, steps + [step]) == Next(maxTicks, Follow(maxTicks, g, steps), step)
  {
    hide Next;
    assert (steps + [step])[..|steps|] == steps;
  }

  lemma FollowTwo(maxTicks: nat, g: System, one: Step, two: Step)
    ensures Follow(maxTicks, g, [one, two]) == Next(maxTicks, Next(maxTicks, g, one), two)
  {
    hide Next;
    FollowNothing(maxTicks, g);
    FollowOne(maxTicks, g, [], one);
    FollowOne(maxTicks, g, [one], two);
    assert [] + [one] == [one] && [one] + [two] == [one, two];
  }

  lemma {:induction false} FollowConcat(maxTicks: nat, g: System, a: seq<Step>, b: seq<Step>)
    ensures Follow(maxTicks, g, a + b) == Follow(maxTicks, Follow(maxTicks, g, a), b)
  {
    hide Next;
    if b == [] {
      assert a + b == a;
    } else {
      FollowConcat(maxTicks, g, a, b[..|b| - 1]);
      assert (a + b)[..|a| + |b| - 1] == a + b[..|b| - 1];
    }
  }

  // Following the steps of a run is running them.
  lemma {:induction false} RunIsFollowing(maxTicks: nat, steps: seq<Step>)
    ensures Run(maxTicks, steps) == Follow(maxTicks, START, steps)
  {
    hide Next;
    if steps == [] {
    } else {
      RunIsFollowing(maxTicks, steps[..|steps| - 1]);
    }
  }

  // ---- A timer tick of the queue ----

  function PairSteps(n: nat): seq<Step> {
    if n == 0 then [] else PairSteps(n - 1) + [PairTwo]
  }

  // One timer tick of the queue, as the steps its holder of the lock goes through.
  function TickSteps(now: int, pairs: nat): seq<Step> {
    [Expire(now)] + PairSteps(pairs) + [Unlock]
  }

  // The first k pairs have new sessions, numbered consecutively.
  ghost predicate NewSessions(g: System, h: System, waiting: seq<Node>, k: nat)
    requires 2 * k <= |waiting|
  {
    forall i :: 0 <= i < k ==> MadeFor(h, SessionId(g.nextId + i), PairAt(waiting, i))
  }

  ghost predicate MadeFor(h: System, id: SessionId, pair: seq<Participant>) {
    id in h.sessions && id in h.registered && h.sessions[id] == NewSession(id, pair)
  }

  // Sessions numbered before are untouched, and so is everything a queue tick does not work on.
  ghost predicate ElseUnchanged(g: System, h: System) {
    && (forall id: SessionId :: id.number < g.nextId ==>
          && (id in h.sessions <==> id in g.sessions)
          && (id in h.sessions ==> h.sessions[id] == g.sessions[id])
          && (id in h.registered <==> id in g.registered))
    && h.pending == g.pending && h.records == g.records && h.saved == g.saved && h.entries == g.entries
  }

  // k pairs out of the waiting users got their sessions.
  ghost predicate PairedUp(g: System, h: System, waiting: seq<Node>, k: nat)
    requires 2 * k <= |waiting|
  {
    && Valid(h.queue) && h.queue.nextTicket == g.queue.nextTicket
    && h.lock == Pairing && h.queue.nodes == waiting[2 * k..] && h.nextId == g.nextId + k
    && h.userToSession == AssignPairs(g.userToSession, waiting, k, g.nextId)
    && NewSessions(g, h, waiting, k)
    && ElseUnchanged(g, h)
  }

  lemma OnePairUp(maxTicks: nat, g: System, h: System, waiting: seq<Node>, k: nat)
    requires 2 * k + 2 <= |waiting| && PairedUp(g, h, waiting, k)
    ensures PairedUp(g, Next(maxTicks, h, PairTwo), waiting, k + 1)
  {
    hide NewSession, SM.Assigned, Valid, PairAt, AssignPairs, MadeFor, NewSessions, ElseUnchanged;
    PopPairKeepsValid(h.queue);
    DropTwo(waiting, k);
    AssignOneMore(g.userToSession, waiting, k, g.nextId);
    OnePairStep(maxTicks, g, h, waiting, k);
  }

  lemma OnePairStep(maxTicks: nat, g: System, h: System, waiting: seq<Node>, k: nat)
    requires 2 * k + 2 <= |waiting| && h.lock == Pairing
    requires h.queue.nodes == waiting[2 * k..] && h.nextId == g.nextId + k
    requires NewSessions(g, h, waiting, k) && ElseUnchanged(g, h)
    ensures var next := Next(maxTicks, h, PairTwo);
            && next.queue == PopPair(h.queue) && next.lock == Pairing && next.nextId == h.nextId + 1
            && next.userToSession == SM.Assigned(h.userToSession, PairAt(waiting, k), SessionId(h.nextId))
            && NewSessions(g, next, waiting, k + 1) && ElseUnchanged(g, next)
  {
    hide NewSession, SM.Assigned, Valid, NewSessions, ElseUnchanged;
    var pair, id := PairAt(waiting, k), SessionId(h.nextId);
    assert h.queue.nodes[0] == waiting[2 * k] && h.queue.nodes[1] == waiting[2 * k + 1];
    var next := Next(maxTicks, h, PairTwo);
    assert next.sessions == h.sessions[id := NewSession(id, pair)] && next.registered == h.registered + {id};
    OneMoreSession(g, h, next, waiting, k);
    StillUnchanged(g, h, next, id, NewSession(id, pair));
  }

  lemma OneMoreSession(g: System, h: System, next: System, waiting: seq<Node>, k: nat)
    requires 2 * k + 2 <= |waiting| && h.nextId == g.nextId + k && NewSessions(g, h, waiting, k)
    requires next.sessions == h.sessions[SessionId(h.nextId) := NewSession(SessionId(h.nextId), PairAt(waiting, k))]
    requires next.registered == h.registered + {SessionId(h.nextId)}
    ensures NewSessions(g, next, waiting, k + 1)
  {
    hide NewSession, PairAt;
    forall i | 0 <= i < k ensures MadeFor(next, SessionId(g.nextId + i), PairAt(waiting, i)) {
      assert MadeFor(h, SessionId(g.nextId + i), PairAt(waiting, i));
    }
  }

  lemma StillUnchanged(g: System, h: System, next: System, id: SessionId, s: Session)
    requires ElseUnchanged(g, h) && id.number >= g.nextId
    requires next.sessions == h.sessions[id := s] && next.registered == h.registered + {id}
    requires next.pending == h.pending && next.records == h.records && next.saved == h.saved
    requires next.entries == h.entries
    ensures ElseUnchanged(g, next)
  {
  }

  lemma {:induction false} PairsUp(maxTicks: nat, g: System, h: System, waiting: seq<Node>, k: nat)
    requires 2 * k <= |waiting| && PairedUp(g, h, waiting, 0)
    ensures PairedUp(g, Follow(maxTicks, h, PairSteps(k)), waiting, k)
  {
    hide Next, PairedUp, Follow;
    if k == 0 {
      FollowNothing(maxTicks, h);
    } else {
      PairsUp(maxTicks, g, h, waiting, k - 1);
      FollowOne(maxTicks, h, PairSteps(k - 1), PairTwo);
      OnePairUp(maxTicks, g, Follow(maxTicks, h, PairSteps(k - 1)), waiting, k - 1);
    }
  }

  // What the method OnTick promises when the users waiting at that time are unexpired.
  ghost predicate TickedAs(g: System, h: System, waiting: seq<Node>) {
    var pairs := |waiting| / 2;
    && h.lock.Free? && Valid(h.queue) && h.queue.nextTicket == g.queue.nextTicket
    && h.queue.nodes == waiting[pairs * 2..] && |h.queue.nodes| <= 1
    && h.nextId == g.nextId + pairs
    && h.userToSession == AssignPairs(g.userToSession, waiting, pairs, g.nextId)
    && NewSessions(g, h, waiting, pairs)
    && ElseUnchanged(g, h)
  }

  // Run through without interruption, the steps of a queue tick leave the queue with its index, the user table, new
  // and old sessions as the method OnTick does.
  lemma TickStepsAreOnTick(maxTicks: nat, g: System, now: int)
    requires g.lock.Free? && Valid(g.queue)
    ensures var waiting := Unexpired(g.queue.nodes, now);
            TickedAs(g, Follow(maxTicks, g, TickSteps(now, |waiting| / 2)), waiting)
  {
    var waiting := Unexpired(g.queue.nodes, now);
    var pairs := |waiting| / 2;
    var one := Next(maxTicks, g, Expire(now));
    NonePairedYet(maxTicks, g, now);
    hide Next, PairedUp, TickedAs, Follow, Unexpired, Valid;
    FollowNothing(maxTicks, g);
    FollowOne(maxTicks, g, [], Expire(now));
    assert [] + [Expire(now)] == [Expire(now)];
    FollowConcat(maxTicks, g, [Expire(now)], PairSteps(pairs));
    PairsUp(maxTicks, g, one, waiting, pairs);
    FollowOne(maxTicks, g, [Expire(now)] + PairSteps(pairs), Unlock);
    LastUnlock(maxTicks, g, Follow(maxTicks, one, PairSteps(pairs)), waiting, pairs);
  }

  lemma NonePairedYet(maxTicks: nat, g: System, now: int)
    requires g.lock.Free? && Valid(g.queue)
    ensures PairedUp(g, Next(maxTicks, g, Expire(now)), Unexpired(g.queue.nodes, now), 0)
  {
    hide Unexpired, Expired, Valid;
    DropExpiredKeepsValid(g.queue, now);
  }

  lemma LastUnlock(maxTicks: nat, g: System, h: System, waiting: seq<Node>, pairs: nat)
    requires pairs == |waiting| / 2 && PairedUp(g, h, waiting, pairs)
    ensures TickedAs(g, Next(maxTicks, h, Unlock), waiting)
  {
    hide AssignPairs, NewSession, Valid;
    assert Next(maxTicks, h, Unlock) == h.(lock := Free);
  }

  // ---- The last tick of a session ----

  // The steps of the strand of a session from its last timer tick to the final erase.
  function LastSteps(id: SessionId): seq<Step> {
    [Timer(id), Save(id), NameNext(id), NameNext(id), NameNext(id), NameNext(id), Rate(id), Erase(id)]
  }

  // What a session says at its last tick.
  ghost function LastMessages(last: Context): seq<Message> {
    [SessionState(last.simulation.tick, Sim.SnapshotRows(last.simulation.players)),
     SessionEnded(WinnerOf(last), last.simulation.tick)]
  }

  // Events as the realtime coordinator gets them: one after the other, each to every participant.
  function Broadcasts(participants: seq<Participant>, messages: seq<Message>): seq<(int, Message)> {
    if messages == [] then []
    else Broadcasts(participants, messages[..|messages| - 1]) + SM.ToEach(participants, messages[|messages| - 1])
  }

  lemma LastBroadcasts(last: Context)
    requires last.ended
    ensures Broadcasts(last.participants, LastMessages(last)) == SM.TickMessages(false, last)
  {
    hide SM.ToEach, Sim.SnapshotRows, WinnerOf;
    var messages := LastMessages(last);
    assert messages[..1] == [messages[0]] && messages[..1][..0] == [];
    assert Broadcasts(last.participants, []) == [];
    assert Broadcasts(last.participants, messages[..1]) == SM.ToEach(last.participants, messages[0]);
  }

  // What the method HandleTick promises of the tick that ends a session.
  ghost predicate ConcludedAs(g: System, h: System, id: SessionId, last: Context) {
    && |last.participants| >= 2
    && id in g.sessions && id in h.sessions && h.sessions == g.sessions[id := h.sessions[id]]
    && h.sessions[id].ctx == last && h.sessions[id].phase == Closed
    && h.sessions[id].messages == g.sessions[id].messages + LastMessages(last)
    && Broadcasts(last.participants, LastMessages(last)) == SM.TickMessages(false, last)
    && h.queue == g.queue && h.lock == g.lock && h.nextId == g.nextId && h.pending == g.pending
    && h.registered == g.registered - {id}
    && h.userToSession == g.userToSession - UserIds(last.participants)
    && h.records == Saved(g.records, RecordOf(last)) && h.saved == g.saved + [RecordOf(last)]
    && h.entries == Finalized(g.entries, RecordOf(last), last.participants)
  }

  ghost predicate SaysItsLast(g: System, h: System, id: SessionId, last: Context)
    requires id in g.sessions && id in h.sessions
  {
    && h.sessions[id].messages == g.sessions[id].messages + LastMessages(last)
    && Broadcasts(last.participants, LastMessages(last)) == SM.TickMessages(false, last)
  }

  lemma SavingStep(maxTicks: nat, g: System, id: SessionId)
    requires At(g, id, Saving) && |g.sessions[id].ctx.participants| == 2 && g.sessions[id].ctx.id == id
    requires id !in g.records
    ensures var h, r := Next(maxTicks, g, Save(id)), RecordOf(g.sessions[id].ctx);
            h == WithSession(g, id, g.sessions[id].(phase := Naming(0))).(records := Saved(g.records, r),
                                                                          saved := g.saved + [r])
  {
    hide WinnerOf, Sim.SnapshotRows;
  }

  lemma NamingSteps(maxTicks: nat, g: System, id: SessionId)
    requires At(g, id, Naming(0)) && |g.sessions[id].ctx.participants| == 2
    ensures var h := Follow(maxTicks, g, [NameNext(id), NameNext(id), NameNext(id), NameNext(id)]);
            var ctx := g.sessions[id].ctx;
            h == WithSession(g, id, g.sessions[id].(phase := Rating))
                 .(entries := NameCall(NameCall(NameCall(NameCall(g.entries, ctx, 0), ctx, 1), ctx, 2), ctx, 3))
  {
    hide Next, NameCall, Follow;
    var step := NameNext(id);
    assert [step, step, step, step] == [step, step] + [step, step];
    FollowConcat(maxTicks, g, [step, step], [step, step]);
    var a := OneNaming(maxTicks, g, id, 0);
    var b := OneNaming(maxTicks, a, id, 1);
    FollowTwo(maxTicks, g, step, step);
    FollowTwo(maxTicks, b, step, step);
    var c := OneNaming(maxTicks, b, id, 2);
    var d := OneNaming(maxTicks, c, id, 3);
  }

  lemma OneNaming(maxTicks: nat, g: System, id: SessionId, k: nat) returns (h: System)
    requires k < 4 && At(g, id, Naming(k)) && |g.sessions[id].ctx.participants| == 2
    ensures h == Next(maxTicks, g, NameNext(id))
    ensures h == WithSession(g, id, g.sessions[id].(phase := if k < 3 then Naming(k + 1) else Rating))
                 .(entries := NameCall(g.entries, g.sessions[id].ctx, k))
  {
    hide NameCall;
    h := Next(maxTicks, g, NameNext(id));
  }

  lemma ClosingSteps(maxTicks: nat, g: System, id: SessionId)
    requires At(g, id, Rating) && |g.sessions[id].ctx.participants| == 2
    ensures var h, r := Follow(maxTicks, g, [Rate(id), Erase(id)]), RecordOf(g.sessions[id].ctx);
            h == WithSession(g, id, g.sessions[id].(phase := Closed))
                 .(entries := WithMatch(g.entries, r.winner, LoserOf(r)),
                   registered := g.registered - {id},
                   userToSession := g.userToSession - UserIds(g.sessions[id].ctx.participants))
  {
    hide RecordOf, WithMatch, UserIds, Follow;
    FollowTwo(maxTicks, g, Rate(id), Erase(id));
  }

  // Run through without interruption, the steps from the last timer tick on leave tables, records, ratings and
  // messages as the method HandleTick does.
  lemma LastStepsAreHandleTick(maxTicks: nat, g: System, id: SessionId)
    requires FitsInv(maxTicks, g) && At(g, id, Ticking) && g.sessions[id].ctx.tickSent + 1 >= maxTicks
    ensures ConcludedAs(g, Follow(maxTicks, g, LastSteps(id)), id, AfterTick(g.sessions[id].ctx, maxTicks))
  {
    hide Inv, Next, SR.SessionOk, RecordOf, WithMatch, NameCall, UserIds, AfterTick, Saved, Finalized, LastMessages,
         Broadcasts, SM.TickMessages, Follow;
    var names := [NameNext(id), NameNext(id), NameNext(id), NameNext(id)];
    assert LastSteps(id) == [Timer(id), Save(id)] + (names + [Rate(id), Erase(id)]);
    FollowConcat(maxTicks, g, [Timer(id), Save(id)], names + [Rate(id), Erase(id)]);
    var a := TimerAndSave(maxTicks, g, id);
    FollowConcat(maxTicks, a, names, [Rate(id), Erase(id)]);
    NamingSteps(maxTicks, a, id);
    ClosingSteps(maxTicks, Follow(maxTicks, a, names), id);
    Serializability.StepsAreFinalizeResult(g.entries, a.sessions[id].ctx);
  }

  lemma TimerAndSave(maxTicks: nat, g: System, id: SessionId) returns (h: System)
    requires FitsInv(maxTicks, g) && At(g, id, Ticking) && g.sessions[id].ctx.tickSent + 1 >= maxTicks
    ensures h == Follow(maxTicks, g, [Timer(id), Save(id)])
    ensures At(h, id, Naming(0)) && h.sessions[id].ctx == AfterTick(g.sessions[id].ctx, maxTicks)
    ensures |h.sessions[id].ctx.participants| == 2
    ensures SaysItsLast(g, h, id, h.sessions[id].ctx)
    ensures h == WithSession(g, id, h.sessions[id]).(records := Saved(g.records, RecordOf(h.sessions[id].ctx)),
                                                     saved := g.saved + [RecordOf(h.sessions[id].ctx)])
  {
    hide Inv, Next, SR.SessionOk, RecordOf, Saved, AfterTick, LastMessages, Broadcasts, SM.TickMessages;
    FollowTwo(maxTicks, g, Timer(id), Save(id));
    var one := LastTimer(maxTicks, g, id);
    h := Next(maxTicks, one, Save(id));
    SavingStep(maxTicks, one, id);
  }

  lemma LastTimer(maxTicks: nat, g: System, id: SessionId) returns (h: System)
    requires FitsInv(maxTicks, g) && At(g, id, Ticking) && g.sessions[id].ctx.tickSent + 1 >= maxTicks
    ensures h == Next(maxTicks, g, Timer(id))
    ensures At(h, id, Saving) && h.sessions[id].ctx == AfterTick(g.sessions[id].ctx, maxTicks)
    ensures |h.sessions[id].ctx.participants| == 2 && h.sessions[id].ctx.id == id && id !in h.records
    ensures SaysItsLast(g, h, id, h.sessions[id].ctx)
    ensures h == WithSession(g, id, h.sessions[id])
  {
    hide Inv, SR.SessionOk, Sim.SnapshotRows, WinnerOf, Sim.Tick, RecordOf, Broadcasts, SM.TickMessages;
    LastBroadcasts(AfterTick(g.sessions[id].ctx, maxTicks));
    h := Next(maxTicks, g, Timer(id));
    SessionInInv(maxTicks, g, id);
    Serializability.TwoDifferentUsers(maxTicks, id, g.sessions[id]);
    Serializability.TickingFacts(maxTicks, id, g.sessions[id]);
    Serializability.RecordFacts(maxTicks, g, id);
    PhaseFacts(maxTicks, id, g.sessions[id]);
  }

  // ---- In every run ----

  // In every reachable state with the queue mutex free, a whole queue tick may follow and does what OnTick promises.
  lemma EveryQueueTick(maxTicks: nat, steps: seq<Step>, now: int)
    requires SR.FitsInt(maxTicks) && Run(maxTicks, steps).lock.Free?
    ensures var g := Run(maxTicks, steps);
            var waiting := Unexpired(g.queue.nodes, now);
            TickedAs(g, Run(maxTicks, steps + TickSteps(now, |waiting| / 2)), waiting)
  {
    hide Inv, Run, Follow, TickedAs, TickSteps, Valid, Unexpired;
    var g := Run(maxTicks, steps);
    var more := TickSteps(now, |Unexpired(g.queue.nodes, now)| / 2);
    EveryRunIsSafe(maxTicks, steps);
    QueueInInv(maxTicks, g);
    RunContinues(maxTicks, steps, more);
    TickStepsAreOnTick(maxTicks, g, now);
  }

  // In every reachable state, the last tick of a session may be followed by its whole end, as HandleTick promises.
  lemma EveryLastTick(maxTicks: nat, steps: seq<Step>, id: SessionId)
    requires SR.FitsInt(maxTicks) && At(Run(maxTicks, steps), id, Ticking)
    requires Run(maxTicks, steps).sessions[id].ctx.tickSent + 1 >= maxTicks
    ensures var g := Run(maxTicks, steps);
            ConcludedAs(g, Run(maxTicks, steps + LastSteps(id)), id, AfterTick(g.sessions[id].ctx, maxTicks))
  {
    hide Inv, Run, Follow, ConcludedAs, LastSteps, AfterTick;
    EveryRunIsSafe(maxTicks, steps);
    RunContinues(maxTicks, steps, LastSteps(id));
    LastStepsAreHandleTick(maxTicks, Run(maxTicks, steps), id);
  }

  lemma RunContinues(maxTicks: nat, steps: seq<Step>, more: seq<Step>)
    ensures Run(maxTicks, steps + more) == Follow(maxTicks, Run(maxTicks, steps), more)
  {
    hide Run, Follow;
    RunIsFollowing(maxTicks, steps);
    RunIsFollowing(maxTicks, steps + more);
    FollowConcat(maxTicks, START, steps, more);
  }
}
