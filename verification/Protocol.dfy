/** The match pipeline as interleaved atomic steps: queue operations under the queue mutex, session table accesses under
    the session mutex, strand handlers per session, and the separate repository and rating calls of a finishing one. */
module Protocol {
  import opened Basics
  import opened Ratings
  import opened Results
  import opened Sessions
  import opened MatchQueue
  import Sim = Simulations
  import SL = SimulationLog
  import SessionManagers

  // Where the strand of a session stands. Once its last tick was handled, the handler goes on with the separately
  // locked calls: save the record, ensure the four users one by one, apply the match, erase the session.
  datatype Phase = Dispatched | Ticking | Saving | Naming(done: nat) | Rating | Erasing | Closed

  // A context with the history of its accepted inputs and of the events sent to both participants.
  datatype Session = Session(ctx: Context, phase: Phase, accepted: SL.Log, messages: seq<Message>)

  // Who holds the queue mutex: nobody, a join that has passed its check, or a timer tick that is pairing.
  datatype Lock = Free | Joining(user: Participant) | Pairing

  datatype System = System(
    queue: Queue,
    lock: Lock,
    // Every context ever created; strand handlers keep it alive after it left the table.
    sessions: map<SessionId, Session>,
    // The keys of the session table.
    registered: set<SessionId>,
    userToSession: map<int, SessionId>,
    nextId: nat,
    // Submissions that found their session and wait for its strand.
    pending: multiset<(SessionId, SessionInput)>,
    records: Records,
    // The saved records in the order of saving.
    saved: seq<Record>,
    entries: Entries)

  datatype Step =
    | Register(userId: int, username: string)
    | JoinCheck(user: Participant)
    | JoinPush(expiresAt: int, now: int)
    | Leave(userId: int)
    | Expire(now: int)
    | PairTwo
    | Unlock
    | Start(id: SessionId)
    | Route(input: SessionInput)
    | Deliver(id: SessionId, input: SessionInput)
    | Timer(id: SessionId)
    | Save(id: SessionId)
    | NameNext(id: SessionId)
    | Rate(id: SessionId)
    | Erase(id: SessionId)

  const START := System(MatchQueue.EMPTY, Free, map[], {}, map[], 1, multiset{}, map[], [], map[])

  predicate At(g: System, id: SessionId, phase: Phase) {
    id in g.sessions && g.sessions[id].phase == phase
  }

  // The session a user's submissions are routed to; without one they are answered "session_not_found".
  function TargetOf(g: System, u: int): Option<SessionId> {
    if u in g.userToSession && g.userToSession[u] in g.registered then Some(g.userToSession[u]) else None
  }

  function WithSession(g: System, id: SessionId, s: Session): System {
    g.(sessions := g.sessions[id := s])
  }

  ghost function Started(s: Session): Session {
    s.(phase := Ticking,
       messages := s.messages + [SessionCreated(s.ctx.participants),
                                 SessionStarted(Sim.SnapshotRows(s.ctx.simulation.players))])
  }

  // One timer tick; the last one sends the end of the session and leaves the strand at the saving of the record.
  ghost function Ticked(s: Session, maxTicks: nat): Session {
    var next := AfterTick(s.ctx, maxTicks);
    var sent := s.messages + [SessionState(next.simulation.tick, Sim.SnapshotRows(next.simulation.players))];
    if next.ended
    then s.(ctx := next, phase := Saving, messages := sent + [SessionEnded(WinnerOf(next), next.simulation.tick)])
    else s.(ctx := next, messages := sent)
  }

  function Delivered(s: Session, input: Sim.Input): Session {
    s.(ctx := AfterInput(s.ctx, input),
       accepted := if Respond(s.ctx, input) == Response.Accepted then s.accepted + [input] else s.accepted)
  }

  // The k-th of the four calls that make sure the users have entries.
  function NameCall(entries: Entries, ctx: Context, k: nat): Entries
    requires |ctx.participants| >= 2
  {
    if k == 0 then WithUser(entries, ctx.participants[0].userId, ctx.participants[0].username)
    else if k == 1 then WithUser(entries, ctx.participants[1].userId, ctx.participants[1].username)
    else if k == 2 then WithUser(entries, ctx.participants[0].userId, "")
    else WithUser(entries, ctx.participants[1].userId, "")
  }

  function NewSession(id: SessionId, participants: seq<Participant>): Session {
    Session(NewContext(id, participants), Dispatched, [], [])
  }

  // One atomic step; a step that is not enabled changes nothing.
  ghost function Next(maxTicks: nat, g: System, step: Step): System {
    match step
    case Register(userId, username) => g.(entries := WithUser(g.entries, userId, username))

    case JoinCheck(user) =>
      if g.lock.Free? && user.userId !in g.queue.index && user.userId !in g.userToSession
      then g.(lock := Joining(user)) else g

    case JoinPush(expiresAt, now) =>
      if g.lock.Joining? then g.(queue := Push(g.queue, g.lock.user, expiresAt, now), lock := Free) else g

    case Leave(userId) =>
      if g.lock.Free? then g.(queue := Cancel(g.queue, userId)) else g

    case Expire(now) =>
      if g.lock.Free? then g.(queue := DropExpired(g.queue, now), lock := Pairing) else g

    case PairTwo =>
      if g.lock.Pairing? && |g.queue.nodes| >= 2 then
        var id, pair := SessionId(g.nextId), [g.queue.nodes[0].user, g.queue.nodes[1].user];
        g.(queue := PopPair(g.queue),
           sessions := g.sessions[id := NewSession(id, pair)],
           registered := g.registered + {id},
           userToSession := SessionManagers.Assigned(g.userToSession, pair, id),
           nextId := g.nextId + 1)
      else g

    case Unlock =>
      if g.lock.Pairing? && |g.queue.nodes| < 2 then g.(lock := Free) else g

    case Start(id) =>
      if At(g, id, Dispatched) then WithSession(g, id, Started(g.sessions[id])) else g

    case Route(input) =>
      (match TargetOf(g, input.command.userId)
       case None => g
       case Some(id) => g.(pending := g.pending + multiset{(id, input)}))

    case Deliver(id, input) =>
      if (id, input) in g.pending && id in g.sessions
      then WithSession(g, id, Delivered(g.sessions[id], input.command)).(pending := g.pending - multiset{(id, input)})
      else g

    case Timer(id) =>
      if At(g, id, Ticking) then WithSession(g, id, Ticked(g.sessions[id], maxTicks)) else g

    case Save(id) =>
      if At(g, id, Saving) && |g.sessions[id].ctx.participants| >= 2 then
        var record := RecordOf(g.sessions[id].ctx);
        if record.sessionId in g.records then WithSession(g, id, g.sessions[id].(phase := Erasing))
        else WithSession(g, id, g.sessions[id].(phase := Naming(0)))
             .(records := Saved(g.records, record), saved := g.saved + [record])
      else g

    case NameNext(id) =>
      if id in g.sessions && g.sessions[id].phase.Naming? && |g.sessions[id].ctx.participants| >= 2 then
        var k := g.sessions[id].phase.done;
        WithSession(g, id, g.sessions[id].(phase := if k < 3 then Naming(k + 1) else Rating))
        .(entries := NameCall(g.entries, g.sessions[id].ctx, k))
      else g

    case Rate(id) =>
      if At(g, id, Rating) && |g.sessions[id].ctx.participants| >= 2 then
        var record := RecordOf(g.sessions[id].ctx);
        WithSession(g, id, g.sessions[id].(phase := Erasing))
        .(entries := WithMatch(g.entries, record.winner, LoserOf(record)))
      else g

    case Erase(id) =>
      if At(g, id, Erasing) then
        WithSession(g, id, g.sessions[id].(phase := Closed))
        .(registered := g.registered - {id},
          userToSession := g.userToSession - UserIds(g.sessions[id].ctx.participants))
      else g
  }

  // The system after any sequence of steps.
  ghost function Run(maxTicks: nat, steps: seq<Step>): System {
    if steps == [] then START else Next(maxTicks, Run(maxTicks, steps[..|steps| - 1]), steps[|steps| - 1])
  }
}
