/** What holds of every single session at every point of its life, whatever else the system does. */
module SessionRuns {
  import opened Basics
  import opened Sorting
  import opened Simulations
  import opened SimulationLog
  import opened Sessions
  import opened Results
  import Serial
  import P = Protocol

  type Session = P.Session

  // A session ends after its last tick: the configured number, and never before the first.
  function LastTick(maxTicks: nat): nat {
    if maxTicks == 0 then 1 else maxTicks
  }

  // No position can overflow a 32-bit int before the session ends.
  predicate FitsInt(maxTicks: nat) {
    12 * LastTick(maxTicks) <= 0x7FFF_FFFF
  }

  function UsersOf(s: Session): set<int> {
    UserIds(s.ctx.participants)
  }

  ghost predicate TwoUsers(participants: seq<Participant>) {
    |participants| == 2 && participants[0].userId != participants[1].userId
  }

  // ---- The event log a session must have sent ----

  ghost function RowsAfter(users: set<int>, schedule: Log): seq<Row> {
    SnapshotRows(ApplyAll(Fresh(users), schedule))
  }

  // The snapshot after n ticks, read off the accepted inputs.
  ghost function RowsAt(users: set<int>, log: Log, n: nat): seq<Row> {
    RowsAfter(users, Schedule(log, n))
  }

  // Created, started at tick 0, then one state for each of the ticks 1..n.
  ghost function Transcript(participants: seq<Participant>, log: Log, n: nat): seq<Message> {
    var rows := RowsAt(UserIds(participants), log, n);
    if n == 0 then [SessionCreated(participants), SessionStarted(rows)]
    else Transcript(participants, log, n - 1) + [SessionState(n, rows)]
  }

  ghost function ExpectedMessages(s: Session): seq<Message> {
    if s.phase.Dispatched? then []
    else
      var transcript := Transcript(s.ctx.participants, s.accepted, s.ctx.tickSent);
      if s.ctx.ended then transcript + [SessionEnded(WinnerOf(s.ctx), s.ctx.tickSent)] else transcript
  }

  ghost predicate PhaseFits(maxTicks: nat, s: Session) {
    match s.phase
    case Dispatched => s.ctx.tickSent == 0 && !s.ctx.ended
    case Ticking => s.ctx.tickSent < LastTick(maxTicks) && !s.ctx.ended
    case Naming(k) => k < 4 && s.ctx.tickSent == LastTick(maxTicks) && s.ctx.ended
    case _ => s.ctx.tickSent == LastTick(maxTicks) && s.ctx.ended
  }

  ghost predicate OnlyFrom(users: set<int>, log: Log) {
    forall x :: x in log ==> x.userId in users
  }

  ghost predicate ContextFits(id: SessionId, ctx: Context) {
    && ctx.id == id && TwoUsers(ctx.participants)
    && ctx.participantMap.Keys == UserIds(ctx.participants)
    && ctx.tickSent == ctx.simulation.tick
  }

  ghost predicate SessionOk(maxTicks: nat, id: SessionId, s: Session) {
    && ContextFits(id, s.ctx)
    && PhaseFits(maxTicks, s)
    && Refines(s.ctx.simulation, s.accepted, UsersOf(s))
    && OnlyFrom(UsersOf(s), s.accepted)
    && s.messages == ExpectedMessages(s)
  }

  // ---- Facts about logs ----

  lemma RowsUnchanged(users: set<int>, log: Log, x: Input, n: nat)
    requires x.targetTick > n
    ensures RowsAt(users, log + [x], n) == RowsAt(users, log, n)
  {
    ScheduleIgnoresLater(log, x, n);
  }

  lemma {:induction false} TranscriptUnchanged(participants: seq<Participant>, log: Log, x: Input, n: nat)
    requires x.targetTick > n
    ensures Transcript(participants, log + [x], n) == Transcript(participants, log, n)
  {
    hide RowsAt;
    RowsUnchanged(UserIds(participants), log, x, n);
    if n == 0 {
    } else {
      TranscriptUnchanged(participants, log, x, n - 1);
    }
  }

  lemma {:induction false} KeysAfterAll(players: Players, events: Log)
    ensures ApplyAll(players, events).Keys == players.Keys + set x | x in events :: x.userId
  {
    if events == [] {
    } else {
      var rest, last := events[..|events| - 1], events[|events| - 1];
      KeysAfterAll(players, rest);
      assert events == rest + [last];
    }
  }

  // The players of a session's simulation are exactly its participants.
  lemma PlayersAreParticipants(maxTicks: nat, id: SessionId, s: Session)
    requires SessionOk(maxTicks, id, s)
    ensures s.ctx.simulation.players.Keys == UsersOf(s)
  {
    var log, tick := s.accepted, s.ctx.simulation.tick;
    KeysAfterAll(Fresh(UsersOf(s)), Schedule(log, tick));
    ScheduleTicks(log, tick);
    forall x | x in Schedule(log, tick) ensures x.userId in UsersOf(s) {
      assert x in log;
    }
  }

  lemma StartRowsAreZero(users: set<int>, log: Log)
    ensures |RowsAt(users, log, 0)| == |users|
    ensures forall i :: 0 <= i < |RowsAt(users, log, 0)| ==>
              RowsAt(users, log, 0)[i].userId in users
              && RowsAt(users, log, 0)[i].position == 0 && RowsAt(users, log, 0)[i].lastSequence == 0
    ensures forall i, j :: 0 <= i < j < |RowsAt(users, log, 0)| ==>
              RowsAt(users, log, 0)[i].userId < RowsAt(users, log, 0)[j].userId
  {
    var players := Fresh(users);
    assert Schedule(log, 0) == [];
    AscendingIsStrict(players.Keys);
    assert players.Keys == users;
    var rows := RowsFor(players, Ascending(users));
    forall i, j | 0 <= i < j < |rows| ensures rows[i].userId < rows[j].userId {
      assert Below(Ascending(users)[i], Ascending(users)[j]);
      assert rows[i] == RowOf(players, Ascending(users)[i]) && rows[j] == RowOf(players, Ascending(users)[j]);
    }
    forall i | 0 <= i < |rows| ensures rows[i].userId in users && rows[i].position == 0 && rows[i].lastSequence == 0 {
      assert Ascending(users)[i] in Ascending(users);
      assert rows[i] == RowOf(players, Ascending(users)[i]);
    }
  }

  // ---- Every strand handler keeps its session in order ----

  lemma NewSessionOk(maxTicks: nat, id: SessionId, participants: seq<Participant>)
    requires TwoUsers(participants)
    ensures SessionOk(maxTicks, id, P.NewSession(id, participants))
  {
    var s := P.NewSession(id, participants);
    NewPlayers(participants);
    assert s.ctx.simulation == Initial(UsersOf(s));
    InitialRefines(UsersOf(s));
  }

  lemma StartedOk(maxTicks: nat, id: SessionId, s: Session)
    requires SessionOk(maxTicks, id, s) && s.phase.Dispatched?
    ensures SessionOk(maxTicks, id, P.Started(s))
  {
    var next := P.Started(s);
    assert Schedule(s.accepted, 0) == [];
  }

  lemma RejectedInputKeeps(maxTicks: nat, id: SessionId, s: Session, x: Input)
    requires SessionOk(maxTicks, id, s) && Respond(s.ctx, x) != Response.Accepted
    ensures P.Delivered(s, x) == s
  {
    if !s.ctx.ended && x.userId in s.ctx.participantMap {
      assert Validate(s.ctx.simulation, x).Rejected?;
    }
  }

  lemma AcceptedInputMessages(s: Session, x: Input)
    requires !s.ctx.ended && Respond(s.ctx, x) == Response.Accepted && s.ctx.tickSent == s.ctx.simulation.tick
    ensures ExpectedMessages(P.Delivered(s, x)) == ExpectedMessages(s)
  {
    TranscriptUnchanged(s.ctx.participants, s.accepted, x, s.ctx.tickSent);
  }

  // An input changes nothing that was sent before, and after the end it changes nothing at all.
  lemma DeliveredOk(maxTicks: nat, id: SessionId, s: Session, x: Input)
    requires SessionOk(maxTicks, id, s)
    ensures SessionOk(maxTicks, id, P.Delivered(s, x))
    ensures s.ctx.ended ==> P.Delivered(s, x) == s
  {
    hide ExpectedMessages, Refines;
    if Respond(s.ctx, x) == Response.Accepted {
      EnqueueRefines(s.ctx.simulation, s.accepted, UsersOf(s), x);
      AcceptedInputMessages(s, x);
    } else {
      RejectedInputKeeps(maxTicks, id, s, x);
    }
  }

  lemma RowsAfterTick(users: set<int>, sim: State, log: Log)
    requires Refines(sim, log, users)
    ensures RowsAt(users, log, sim.tick + 1) == SnapshotRows(Tick(sim).players)
  {
    hide SnapshotRows, Tick, Schedule, ApplyAll;
    TickRefines(sim, log, users);
  }

  lemma TickExtendsTranscript(participants: seq<Participant>, sim: State, log: Log, n: nat)
    requires Refines(sim, log, UserIds(participants)) && sim.tick == n
    ensures Transcript(participants, log, n + 1)
            == Transcript(participants, log, n) + [SessionState(n + 1, SnapshotRows(Tick(sim).players))]
  {
    hide RowsAt, SnapshotRows, Refines;
    RowsAfterTick(UserIds(participants), sim, log);
  }

  lemma TickedMessages(maxTicks: nat, id: SessionId, s: Session)
    requires SessionOk(maxTicks, id, s) && s.phase.Ticking?
    ensures P.Ticked(s, maxTicks).messages == ExpectedMessages(P.Ticked(s, maxTicks))
  {
    hide SnapshotRows, RowsAt, Refines;
    TickExtendsTranscript(s.ctx.participants, s.ctx.simulation, s.accepted, s.ctx.tickSent);
  }

  lemma TickedOk(maxTicks: nat, id: SessionId, s: Session)
    requires SessionOk(maxTicks, id, s) && s.phase.Ticking?
    ensures SessionOk(maxTicks, id, P.Ticked(s, maxTicks))
  {
    hide ExpectedMessages, SnapshotRows, Refines;
    TickRefines(s.ctx.simulation, s.accepted, UsersOf(s));
    TickedMessages(maxTicks, id, s);
  }

  // After the end only the strand's position moves.
  lemma LaterPhaseOk(maxTicks: nat, id: SessionId, s: Session, phase: P.Phase)
    requires SessionOk(maxTicks, id, s) && s.ctx.ended
    requires !phase.Dispatched? && !phase.Ticking? && (phase.Naming? ==> phase.done < 4)
    ensures SessionOk(maxTicks, id, s.(phase := phase))
  {
  }

  // ---- The record a session leaves ----

  lemma EndedWinner(maxTicks: nat, id: SessionId, s: Session)
    requires SessionOk(maxTicks, id, s) && FitsInt(maxTicks)
    ensures WinnerOf(s.ctx) in UsersOf(s)
    ensures s.ctx.simulation.players.Keys == UsersOf(s)
    ensures forall u :: u in UsersOf(s) ==> Beats(s.ctx.simulation.players, WinnerOf(s.ctx), u)
  {
    PlayersAreParticipants(maxTicks, id, s);
    assert s.ctx.participants[0].userId in UsersOf(s) by {
      assert s.ctx.participants[0] in s.ctx.participants;
    }
    forall u | u in s.ctx.simulation.players ensures s.ctx.simulation.players[u].position > INT_MIN {
      PositionBound(s.ctx.simulation, s.accepted, UsersOf(s), u);
      assert s.ctx.simulation.tick <= LastTick(maxTicks);
    }
    WinnerIsTheBest(s.ctx);
  }

  lemma UsersAreTheTwo(participants: seq<Participant>)
    requires |participants| == 2
    ensures UserIds(participants) == {participants[0].userId, participants[1].userId}
  {
    assert participants == [participants[0], participants[1]];
    assert participants[0] in participants && participants[1] in participants;
  }

  lemma EndedRows(maxTicks: nat, id: SessionId, s: Session)
    requires SessionOk(maxTicks, id, s)
    ensures RowsAt(UsersOf(s), s.accepted, s.ctx.tickSent) == SnapshotRows(s.ctx.simulation.players)
  {
    hide ApplyAll, Schedule, SnapshotRows, WellFormed, BucketsMatch, TrackersMatch, ExpectedMessages;
  }

  // The recorded winner is one of the two participants, has the best final position, and on a tie the smaller user
  // id; the loser is the other participant.
  lemma RecordNamesTheBetterPlayer(maxTicks: nat, id: SessionId, s: Session)
    requires SessionOk(maxTicks, id, s) && FitsInt(maxTicks)
    ensures var r := RecordOf(s.ctx);
            && r.sessionId == id && Serial.Proper(r) && Serial.PlayersOf(r) == UsersOf(s) == {r.winner, LoserOf(r)}
            && s.ctx.simulation.players.Keys == UsersOf(s)
            && Beats(s.ctx.simulation.players, r.winner, LoserOf(r)) && r.winner != LoserOf(r)
            && r.user1 == s.ctx.participants[0].userId && r.user2 == s.ctx.participants[1].userId
            && r.ticks == s.ctx.tickSent
            && r.snapshot == RowsAt(UsersOf(s), s.accepted, r.ticks)
  {
    hide Refines, ExpectedMessages, SnapshotRows, RowsAt, Beats, UserIds, WinnerOf;
    EndedWinner(maxTicks, id, s);
    EndedRows(maxTicks, id, s);
    UsersAreTheTwo(s.ctx.participants);
  }
}
