/** What one user is sent over a whole run: the transcripts of that user's sessions, one after the other. */
module UserEvents {
  import opened Basics
  import opened Ratings
  import opened Sessions
  import opened MatchQueue
  import opened Protocol
  import opened Safety
  import opened StrandSteps
  import Serializability
  import Sim = Simulations
  import SR = SessionRuns
  import SM = SessionManagers
  import SL = SimulationLog

  datatype Event = Event(session: SessionId, message: Message)

  function Tagged(id: SessionId, messages: seq<Message>): (events: seq<Event>)
    ensures |events| == |messages|
    ensures forall i :: 0 <= i < |messages| ==> events[i] == Event(id, messages[i])
  {
    if messages == [] then []
    else Tagged(id, messages[..|messages| - 1]) + [Event(id, messages[|messages| - 1])]
  }

  // What a step broadcasts to the participants of its session.
  ghost function Emitted(maxTicks: nat, g: System, step: Step): seq<Message> {
    match step
    case Start(id) =>
      if At(g, id, Dispatched)
      then [SessionCreated(g.sessions[id].ctx.participants),
            SessionStarted(Sim.SnapshotRows(g.sessions[id].ctx.simulation.players))]
      else []
    case Timer(id) =>
      if At(g, id, Ticking) then
        var next := AfterTick(g.sessions[id].ctx, maxTicks);
        var state := SessionState(next.simulation.tick, Sim.SnapshotRows(next.simulation.players));
        if next.ended then [state, SessionEnded(WinnerOf(next), next.simulation.tick)] else [state]
      else []
    case _ => []
  }

  // The steps broadcast what the methods send: the news of the start and of each tick.
  lemma EmittedIsTheNews(maxTicks: nat, g: System, id: SessionId)
    ensures At(g, id, Dispatched) ==> Emitted(maxTicks, g, Protocol.Start(id)) == SM.StartNews(g.sessions[id].ctx)
    ensures At(g, id, Ticking) ==>
              Emitted(maxTicks, g, Timer(id)) == SM.TickNews(false, AfterTick(g.sessions[id].ctx, maxTicks))
  {
    hide Sim.SnapshotRows, WinnerOf, AfterTick;
  }

  // The events sent to one user, in the order of sending.
  ghost function Received(maxTicks: nat, steps: seq<Step>, u: int): seq<Event> {
    if steps == [] then []
    else
      var front, last := steps[..|steps| - 1], steps[|steps| - 1];
      Received(maxTicks, front, u) + ReceivedNow(maxTicks, Run(maxTicks, front), last, u)
  }

  ghost function ReceivedNow(maxTicks: nat, g: System, step: Step, u: int): seq<Event> {
    if OnStrand(step) && TakesPart(g.sessions, u, step.id) then Tagged(step.id, Emitted(maxTicks, g, step)) else []
  }

  // The messages of a user's sessions with numbers below n, session by session.
  function SessionBySession(sessions: Table, u: int, n: nat): seq<Event> {
    if n == 0 then [] else SessionBySession(sessions, u, n - 1) + PartOf(sessions, u, SessionId(n - 1))
  }

  function PartOf(sessions: Table, u: int, id: SessionId): seq<Event> {
    if TakesPart(sessions, u, id) then Tagged(id, sessions[id].messages) else []
  }

  // Of two sessions of the same user, the earlier one is closed.
  ghost predicate OneAfterTheOther(sessions: Table) {
    forall id, later, u :: TakesPart(sessions, u, id) && TakesPart(sessions, u, later) && id.number < later.number ==>
      sessions[id].phase.Closed?
  }

  // ---- Sequences of events ----

  lemma TaggedConcat(id: SessionId, a: seq<Message>, b: seq<Message>)
    ensures Tagged(id, a + b) == Tagged(id, a) + Tagged(id, b)
  {
    hide Tagged;
  }

  lemma {:induction false} SameBelow(sessions: Table, other: Table, u: int, n: nat)
    requires forall k: nat :: k < n ==> PartOf(other, u, SessionId(k)) == PartOf(sessions, u, SessionId(k))
    ensures SessionBySession(other, u, n) == SessionBySession(sessions, u, n)
  {
    hide PartOf;
    if n == 0 {
    } else {
      SameBelow(sessions, other, u, n - 1);
    }
  }

  lemma {:induction false} NothingFrom(sessions: Table, u: int, m: nat, n: nat)
    requires m <= n && forall k: nat :: m <= k < n ==> !TakesPart(sessions, u, SessionId(k))
    ensures SessionBySession(sessions, u, n) == SessionBySession(sessions, u, m)
    decreases n
  {
    if n == m {
    } else {
      NothingFrom(sessions, u, m, n - 1);
    }
  }

  // ---- One session says more ----

  ghost predicate SaysMore(s: Session, t: Session, more: seq<Message>) {
    t.ctx.participants == s.ctx.participants && t.messages == s.messages + more
  }

  lemma OtherParts(sessions: Table, id: SessionId, t: Session, more: seq<Message>, u: int, k: nat)
    requires id in sessions && SaysMore(sessions[id], t, more)
    requires k != id.number || more == [] || !TakesPart(sessions, u, id)
    ensures PartOf(sessions[id := t], u, SessionId(k)) == PartOf(sessions, u, SessionId(k))
  {
    hide UserIds, Tagged;
    if k == id.number {
      assert SessionId(k) == id;
      assert TakesPart(sessions[id := t], u, id) == TakesPart(sessions, u, id);
      if more == [] {
        assert t.messages == sessions[id].messages;
      }
    }
  }

  // A session of a user that is still open is the user's last, so what it says comes last.
  lemma SpokenLast(sessions: Table, id: SessionId, t: Session, more: seq<Message>, u: int, n: nat)
    requires id in sessions && id.number < n && SaysMore(sessions[id], t, more)
    requires more != [] ==> !sessions[id].phase.Closed?
    requires OneAfterTheOther(sessions)
    ensures SessionBySession(sessions[id := t], u, n)
            == SessionBySession(sessions, u, n) + if TakesPart(sessions, u, id) then Tagged(id, more) else []
  {
    hide PartOf, SaysMore, SR.UsersOf;
    var next, m := sessions[id := t], id.number;
    if more == [] || !TakesPart(sessions, u, id) {
      forall k: nat | k < n ensures PartOf(next, u, SessionId(k)) == PartOf(sessions, u, SessionId(k)) {
        OtherParts(sessions, id, t, more, u, k);
      }
      SameBelow(sessions, next, u, n);
    } else {
      forall k: nat | k < m ensures PartOf(next, u, SessionId(k)) == PartOf(sessions, u, SessionId(k)) {
        OtherParts(sessions, id, t, more, u, k);
      }
      SameBelow(sessions, next, u, m);
      assert SessionId(m) == id;
      LastPart(sessions, id, t, more, u);
      NothingFrom(sessions, u, m + 1, n);
      NothingLater(sessions, id, t, u, m + 1, n);
      Associate(SessionBySession(sessions, u, m), PartOf(sessions, u, id), Tagged(id, more));
    }
  }

  lemma NothingLater(sessions: Table, id: SessionId, t: Session, u: int, m: nat, n: nat)
    requires m == id.number + 1 <= n
    requires forall k: nat :: m <= k < n ==> !TakesPart(sessions, u, SessionId(k))
    ensures SessionBySession(sessions[id := t], u, n) == SessionBySession(sessions[id := t], u, m)
  {
    hide SR.UsersOf;
    NothingFrom(sessions[id := t], u, m, n);
  }

  lemma LastPart(sessions: Table, id: SessionId, t: Session, more: seq<Message>, u: int)
    requires TakesPart(sessions, u, id) && SaysMore(sessions[id], t, more)
    ensures PartOf(sessions[id := t], u, id) == PartOf(sessions, u, id) + Tagged(id, more)
  {
    hide UserIds;
    var next, before := sessions[id := t], sessions[id].messages;
    assert next[id] == t && TakesPart(next, u, id);
    TaggedConcat(id, before, more);
    hide Tagged;
    assert t.messages == before + more;
    assert PartOf(next, u, id) == Tagged(id, before + more);
    assert PartOf(sessions, u, id) == Tagged(id, before);
  }

  lemma OneMoved(sessions: Table, id: SessionId, t: Session)
    requires OneAfterTheOther(sessions) && id in sessions && t.ctx.participants == sessions[id].ctx.participants
    requires sessions[id].phase.Closed? ==> t.phase.Closed?
    ensures OneAfterTheOther(sessions[id := t])
  {
    hide UserIds;
    var next := sessions[id := t];
    forall one, later, u | TakesPart(next, u, one) && TakesPart(next, u, later) && one.number < later.number
      ensures next[one].phase.Closed?
    {
      assert TakesPart(sessions, u, one) && TakesPart(sessions, u, later);
    }
  }

  // ---- A new session ----

  lemma OneAdded(sessions: Table, id: SessionId, s: Session, n: nat)
    requires OneAfterTheOther(sessions) && id == SessionId(n) && id !in sessions
    requires forall other :: other in sessions ==> other.number < n
    requires forall other, u :: TakesPart(sessions, u, other) && u in SR.UsersOf(s) ==> sessions[other].phase.Closed?
    ensures OneAfterTheOther(sessions[id := s])
  {
    hide UserIds;
    var next := sessions[id := s];
    forall one, later, u | TakesPart(next, u, one) && TakesPart(next, u, later) && one.number < later.number
      ensures next[one].phase.Closed?
    {
      assert TakesPart(sessions, u, one);
      assert later != id ==> TakesPart(sessions, u, later);
    }
  }

  lemma SilentAdded(sessions: Table, id: SessionId, s: Session, u: int, n: nat)
    requires id == SessionId(n) && id !in sessions && s.messages == []
    ensures SessionBySession(sessions[id := s], u, n + 1) == SessionBySession(sessions, u, n)
  {
    forall k: nat | k < n ensures PartOf(sessions[id := s], u, SessionId(k)) == PartOf(sessions, u, SessionId(k)) {
    }
    SameBelow(sessions, sessions[id := s], u, n);
  }

  // ---- Every step ----

  ghost predicate Told(g: System, received: seq<Event>, u: int) {
    received == SessionBySession(g.sessions, u, g.nextId) && OneAfterTheOther(g.sessions)
  }

  lemma StartedSays(s: Session)
    ensures SaysMore(s, Started(s), [SessionCreated(s.ctx.participants),
                                     SessionStarted(Sim.SnapshotRows(s.ctx.simulation.players))])
    ensures Started(s).phase == Ticking
  {
    hide Sim.SnapshotRows;
  }

  lemma TickedSays(maxTicks: nat, g: System, id: SessionId)
    requires At(g, id, Ticking)
    ensures SaysMore(g.sessions[id], Ticked(g.sessions[id], maxTicks), Emitted(maxTicks, g, Timer(id)))
    ensures !Ticked(g.sessions[id], maxTicks).phase.Closed?
  {
    hide Sim.SnapshotRows, Sim.Tick, WinnerOf;
  }

  // A step of a strand makes its session say what it emits, and only if the session is open.
  ghost predicate StrandSpeaks(maxTicks: nat, g: System, step: Step, next: System)
    requires OnStrand(step) && step.id in g.sessions
  {
    var id := step.id;
    && id in next.sessions && next.sessions == g.sessions[id := next.sessions[id]] && next.nextId == g.nextId
    && SaysMore(g.sessions[id], next.sessions[id], Emitted(maxTicks, g, step))
    && (Emitted(maxTicks, g, step) != [] ==> !g.sessions[id].phase.Closed?)
    && (g.sessions[id].phase.Closed? ==> next.sessions[id].phase.Closed?)
  }

  lemma StartSpeaks(maxTicks: nat, g: System, id: SessionId)
    requires id in g.sessions
    ensures StrandSpeaks(maxTicks, g, Protocol.Start(id), Next(maxTicks, g, Protocol.Start(id)))
  {
    hide Started, Sim.SnapshotRows;
    if At(g, id, Dispatched) {
      StartedSays(g.sessions[id]);
    }
  }

  lemma TimerSpeaks(maxTicks: nat, g: System, id: SessionId)
    requires id in g.sessions
    ensures StrandSpeaks(maxTicks, g, Timer(id), Next(maxTicks, g, Timer(id)))
  {
    if At(g, id, Ticking) {
      TickedSays(maxTicks, g, id);
      TimerTicks(maxTicks, g, id);
      hide Ticked, Emitted, SaysMore, Next;
    } else {
      TimerIsIdle(maxTicks, g, id);
      hide Ticked, Next;
    }
  }

  lemma TimerTicks(maxTicks: nat, g: System, id: SessionId)
    requires At(g, id, Ticking)
    ensures Next(maxTicks, g, Timer(id)) == WithSession(g, id, Ticked(g.sessions[id], maxTicks))
  {
    hide Ticked;
  }

  lemma TimerIsIdle(maxTicks: nat, g: System, id: SessionId)
    requires !At(g, id, Ticking)
    ensures Next(maxTicks, g, Timer(id)) == g
  {
  }

  lemma DeliverSpeaks(maxTicks: nat, g: System, id: SessionId, input: SessionInput)
    requires id in g.sessions
    ensures StrandSpeaks(maxTicks, g, Deliver(id, input), Next(maxTicks, g, Deliver(id, input)))
  {
    hide Next;
    DeliverReplaces(maxTicks, g, id, input);
    InputsKeepParticipants(g.sessions[id], input.command);
    hide AfterInput, Respond;
  }

  lemma SaveSpeaks(maxTicks: nat, g: System, id: SessionId)
    requires id in g.sessions
    ensures StrandSpeaks(maxTicks, g, Save(id), Next(maxTicks, g, Save(id)))
  {
    hide Next;
    SaveReplaces(maxTicks, g, id);
    if g.sessions[id].phase.Closed? {
      ClosedIsIdle(maxTicks, g, Save(id));
    }
  }

  lemma FinishingSpeaks(maxTicks: nat, g: System, step: Step)
    requires (step.NameNext? || step.Rate? || step.Erase?) && step.id in g.sessions
    ensures StrandSpeaks(maxTicks, g, step, Next(maxTicks, g, step))
  {
    hide Next;
    FinishingReplaces(maxTicks, g, step);
    if g.sessions[step.id].phase.Closed? {
      ClosedIsIdle(maxTicks, g, step);
    }
  }

  lemma ClosedIsIdle(maxTicks: nat, g: System, step: Step)
    requires step.Save? || step.NameNext? || step.Rate? || step.Erase?
    requires step.id in g.sessions && g.sessions[step.id].phase.Closed?
    ensures Next(maxTicks, g, step) == g
  {
  }

  lemma StrandTells(maxTicks: nat, g: System, step: Step, received: seq<Event>, u: int)
    requires Inv(maxTicks, g) && Told(g, received, u) && OnStrand(step)
    ensures Told(Next(maxTicks, g, step), received + ReceivedNow(maxTicks, g, step, u), u)
  {
    hide Inv, Next, Emitted, SR.UsersOf, SessionBySession, Tagged;
    var id := step.id;
    if id in g.sessions {
      match step {
        case Start(_) => StartSpeaks(maxTicks, g, id);
        case Timer(_) => TimerSpeaks(maxTicks, g, id);
        case Deliver(_, input) => DeliverSpeaks(maxTicks, g, id, input);
        case Save(_) => SaveSpeaks(maxTicks, g, id);
        case _ => FinishingSpeaks(maxTicks, g, step);
      }
      var next := Next(maxTicks, g, step);
      NumberedBelow(maxTicks, g, id);
      SpokenLast(g.sessions, id, next.sessions[id], Emitted(maxTicks, g, step), u, g.nextId);
      OneMoved(g.sessions, id, next.sessions[id]);
    } else {
      UnknownSession(maxTicks, g, step);
      assert received + [] == received;
    }
  }

  lemma NumberedBelow(maxTicks: nat, g: System, id: SessionId)
    requires Inv(maxTicks, g) && id in g.sessions
    ensures id.number < g.nextId
  {
    hide Valid, Apart, SessionsOk, TablesOk, RecordsOk, SavedOk, OrderOk, StandingsOk, PendingOk;
  }

  lemma PairTells(maxTicks: nat, g: System, received: seq<Event>, u: int)
    requires Inv(maxTicks, g) && Told(g, received, u) && g.lock.Pairing? && |g.queue.nodes| >= 2
    ensures Told(Next(maxTicks, g, PairTwo), received, u)
  {
    hide Inv, SR.UsersOf, SessionBySession, NewContext, SM.Assigned, PopPair, OneAfterTheOther;
    var id, pair := SessionId(g.nextId), [g.queue.nodes[0].user, g.queue.nodes[1].user];
    var s := NewSession(id, pair);
    forall other | other in g.sessions ensures other.number < g.nextId {
      NumberedBelow(maxTicks, g, other);
    }
    forall other, v | TakesPart(g.sessions, v, other) && v in SR.UsersOf(s) ensures g.sessions[other].phase.Closed? {
      QueuedUsersAreFree(maxTicks, g, v, other);
    }
    SilentAdded(g.sessions, id, s, u, g.nextId);
    OneAdded(g.sessions, id, s, g.nextId);
  }

  lemma QueuedUsersAreFree(maxTicks: nat, g: System, u: int, id: SessionId)
    requires Inv(maxTicks, g) && |g.queue.nodes| >= 2 && TakesPart(g.sessions, u, id)
    requires u in SR.UsersOf(NewSession(SessionId(g.nextId), [g.queue.nodes[0].user, g.queue.nodes[1].user]))
    ensures g.sessions[id].phase.Closed?
  {
    hide Inv, UserIds;
    var pair := [g.queue.nodes[0].user, g.queue.nodes[1].user];
    NewSessionUsers(SessionId(g.nextId), pair);
    SR.UsersAreTheTwo(pair);
    Serializability.QueuedAreFree(maxTicks, g, if u == pair[0].userId then 0 else 1);
    TablesInInv(maxTicks, g);
    Serializability.FreeUserHasNoLiveSession(g, u, id);
  }

  lemma OtherStepsTell(maxTicks: nat, g: System, step: Step, received: seq<Event>, u: int)
    requires Told(g, received, u) && !OnStrand(step)
    requires !(step.PairTwo? && g.lock.Pairing? && |g.queue.nodes| >= 2)
    ensures Told(Next(maxTicks, g, step), received, u)
  {
    hide SessionBySession, OneAfterTheOther, WithUser, Push, Cancel, DropExpired;
    assert Next(maxTicks, g, step).sessions == g.sessions && Next(maxTicks, g, step).nextId == g.nextId;
  }

  lemma {:induction false} RunTells(maxTicks: nat, steps: seq<Step>, u: int)
    requires SR.FitsInt(maxTicks)
    ensures Told(Run(maxTicks, steps), Received(maxTicks, steps, u), u)
  {
    if steps == [] {
      assert SessionBySession(map[], u, 0) == [];
      assert PartOf(map[], u, SessionId(0)) == [];
    } else {
      hide Inv, Next, Told;
      var front, last := steps[..|steps| - 1], steps[|steps| - 1];
      var g, received := Run(maxTicks, front), Received(maxTicks, front, u);
      RunTells(maxTicks, front, u);
      EveryRunIsSafe(maxTicks, front);
      assert received + [] == received;
      if OnStrand(last) {
        StrandTells(maxTicks, g, last, received, u);
      } else if last.PairTwo? && g.lock.Pairing? && |g.queue.nodes| >= 2 {
        PairTells(maxTicks, g, received, u);
      } else {
        OtherStepsTell(maxTicks, g, last, received, u);
      }
    }
  }

  // A transcript from the creation of a session to its end.
  ghost predicate Complete(maxTicks: nat, s: Session) {
    s.messages == SR.Transcript(s.ctx.participants, s.accepted, SR.LastTick(maxTicks))
                  + [SessionEnded(WinnerOf(s.ctx), SR.LastTick(maxTicks))]
  }

  lemma ClosedIsComplete(maxTicks: nat, id: SessionId, s: Session)
    requires SR.SessionOk(maxTicks, id, s) && s.phase.Closed?
    ensures Complete(maxTicks, s)
  {
    hide SR.Transcript, SL.Refines, WinnerOf, UserIds;
  }

  // In every interleaving a user is sent the messages of the own sessions, session by session in the order of their
  // numbers, and all of them but the last are complete transcripts.
  lemma SessionsAreToldInTurn(maxTicks: nat, steps: seq<Step>, u: int)
    requires SR.FitsInt(maxTicks)
    ensures var g := Run(maxTicks, steps);
            && Received(maxTicks, steps, u) == SessionBySession(g.sessions, u, g.nextId)
            && (forall id, later ::
                  TakesPart(g.sessions, u, id) && TakesPart(g.sessions, u, later) && id.number < later.number ==>
                    Complete(maxTicks, g.sessions[id]))
            && (forall id :: TakesPart(g.sessions, u, id) ==>
                  id.number < g.nextId && g.sessions[id].messages == SR.ExpectedMessages(g.sessions[id]))
  {
    hide Inv, Run, Received, SessionBySession, Complete, SR.SessionOk, SR.ExpectedMessages, UserIds;
    var g := Run(maxTicks, steps);
    EveryRunIsSafe(maxTicks, steps);
    RunTells(maxTicks, steps, u);
    forall id | TakesPart(g.sessions, u, id)
      ensures id.number < g.nextId && g.sessions[id].messages == SR.ExpectedMessages(g.sessions[id])
      ensures g.sessions[id].phase.Closed? ==> Complete(maxTicks, g.sessions[id])
    {
      NumberedBelow(maxTicks, g, id);
      SessionInInv(maxTicks, g, id);
      Serializability.TranscriptFacts(maxTicks, id, g.sessions[id]);
      if g.sessions[id].phase.Closed? {
        ClosedIsComplete(maxTicks, id, g.sessions[id]);
      }
    }
  }
}
