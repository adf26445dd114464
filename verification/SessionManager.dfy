/** The session manager: contexts shared between its tables and the strands that run them. */
module SessionManagers {
  import opened Basics
  import opened Simulations
  import opened Ratings
  import opened Results
  import opened Sessions

  // The user table after a session was assigned to its participants.
  function Assigned(table: map<int, SessionId>, participants: seq<Participant>, id: SessionId): map<int, SessionId> {
    if participants == [] then table
    else Assigned(table, participants[..|participants| - 1], id)[participants[|participants| - 1].userId := id]
  }

  // One event to every participant.
  function ToEach(participants: seq<Participant>, message: Message): seq<(int, Message)> {
    if participants == [] then []
    else ToEach(participants[..|participants| - 1], message) + [(participants[|participants| - 1].userId, message)]
  }

  // What one user is sent, in order.
  function SentTo(sent: seq<(int, Message)>, u: int): seq<Message> {
    if sent == [] then []
    else
      var last := sent[|sent| - 1];
      SentTo(sent[..|sent| - 1], u) + if last.0 == u then [last.1] else []
  }

  ghost predicate DifferentUsers(participants: seq<Participant>) {
    forall i, j :: 0 <= i < j < |participants| ==> participants[i].userId != participants[j].userId
  }

  // Every participant was sent these messages, once each and in this order, and nobody else was sent anything.
  ghost predicate Reached(before: seq<(int, Message)>, after: seq<(int, Message)>, participants: seq<Participant>,
                          messages: seq<Message>) {
    forall u: int :: SentTo(after, u) == SentTo(before, u) + if u in UserIds(participants) then messages else []
  }

  lemma {:induction false} SentToConcat(a: seq<(int, Message)>, b: seq<(int, Message)>, u: int)
    ensures SentTo(a + b, u) == SentTo(a, u) + SentTo(b, u)
  {
    if b == [] {
      assert a + b == a;
    } else {
      var rest, last := b[..|b| - 1], b[|b| - 1];
      SentToConcat(a, rest, u);
      ConcatLast(a, b);
      SentToLast(a + rest, last, u);
      SentToLast(rest, last, u);
      FrontAndLast(b);
      Associate(SentTo(a, u), SentTo(rest, u), if last.0 == u then [last.1] else []);
    }
  }

  lemma SentToLast(sent: seq<(int, Message)>, last: (int, Message), u: int)
    ensures SentTo(sent + [last], u) == SentTo(sent, u) + if last.0 == u then [last.1] else []
  {
    assert (sent + [last])[..|sent|] == sent;
  }

  // One event to each of some different users reaches exactly them, exactly once.
  lemma {:induction false} ToEachReaches(participants: seq<Participant>, message: Message, u: int)
    requires DifferentUsers(participants)
    ensures SentTo(ToEach(participants, message), u) == if u in UserIds(participants) then [message] else []
  {
    if participants == [] {
    } else {
      var rest, last := participants[..|participants| - 1], participants[|participants| - 1];
      ToEachReaches(rest, message, u);
      SentToLast(ToEach(rest, message), (last.userId, message), u);
      LastUserId(participants);
      assert last.userId !in UserIds(rest);
    }
  }

  lemma BroadcastReaches(before: seq<(int, Message)>, participants: seq<Participant>, message: Message)
    requires DifferentUsers(participants)
    ensures Reached(before, before + ToEach(participants, message), participants, [message])
  {
    hide SentTo, UserIds, ToEach, DifferentUsers;
    forall u: int
      ensures SentTo(before + ToEach(participants, message), u)
              == SentTo(before, u) + if u in UserIds(participants) then [message] else []
    {
      SentToConcat(before, ToEach(participants, message), u);
      ToEachReaches(participants, message, u);
    }
  }

  lemma ReachedTwice(a: seq<(int, Message)>, b: seq<(int, Message)>, c: seq<(int, Message)>,
                     participants: seq<Participant>, m: seq<Message>, n: seq<Message>)
    requires Reached(a, b, participants, m) && Reached(b, c, participants, n)
    ensures Reached(a, c, participants, m + n)
  {
    hide SentTo, UserIds;
    forall u: int ensures SentTo(c, u) == SentTo(a, u) + if u in UserIds(participants) then m + n else [] {
      assert SentTo(b, u) == SentTo(a, u) + if u in UserIds(participants) then m else [];
      if u in UserIds(participants) {
        Associate(SentTo(a, u), m, n);
      }
    }
  }

  lemma NothingReached(sent: seq<(int, Message)>, participants: seq<Participant>)
    ensures Reached(sent, sent, participants, [])
  {
  }

  // What the start of a session has to say.
  ghost function StartNews(ctx: Context): seq<Message> {
    [SessionCreated(ctx.participants), SessionStarted(SnapshotRows(ctx.simulation.players))]
  }

  // What a timer tick has to say, given the context it leaves.
  ghost function TickNews(wasEnded: bool, after: Context): seq<Message> {
    if wasEnded then []
    else
      [SessionState(after.simulation.tick, SnapshotRows(after.simulation.players))]
      + if after.ended then EndNews(after) else []
  }

  ghost function EndNews(ctx: Context): seq<Message> {
    [SessionEnded(WinnerOf(ctx), ctx.simulation.tick)]
  }

  lemma {:induction false} AssignedTable(table: map<int, SessionId>, participants: seq<Participant>, id: SessionId)
    ensures Assigned(table, participants, id).Keys == table.Keys + UserIds(participants)
    ensures forall u :: u in UserIds(participants) ==> Assigned(table, participants, id)[u] == id
    ensures forall u :: u in table && u !in UserIds(participants) ==> Assigned(table, participants, id)[u] == table[u]
  {
    if participants == [] {
    } else {
      var rest, last := participants[..|participants| - 1], participants[|participants| - 1];
      AssignedTable(table, rest, id);
      assert participants == rest + [last];
      assert UserIds(participants) == UserIds(rest) + {last.userId};
    }
  }

  class SessionContext {
    const id: SessionId
    const participants: seq<Participant>
    const participantMap: map<int, Participant>
    const simulation: Simulation
    var tickSent: nat
    var ended: bool

    ghost function View(): Context
      reads this, simulation
    {
      Context(id, participants, participantMap, simulation.View(), tickSent, ended)
    }

    constructor (id: SessionId, participants: seq<Participant>)
      ensures fresh(simulation)
      ensures View() == NewContext(id, participants)
    {
      this.id, this.participants, this.participantMap := id, participants, MapOf(participants);
      tickSent, ended := 0, false;
      simulation := new Simulation();
      new;
      for i := 0 to |participants|
        invariant fresh(simulation)
        invariant simulation.View() == WithPlayers(Simulations.EMPTY, participants[..i])
        invariant tickSent == 0 && !ended
      {
        assert participants[..i + 1][..i] == participants[..i];
        simulation.AddPlayer(participants[i].userId);
      }
      assert participants[..|participants|] == participants;
    }
  }

  class SessionManager {
    const resultService: ResultService
    const maxTicks: nat
    var nextSessionId: nat
    var sessions: map<SessionId, SessionContext>
    var userToSession: map<int, SessionId>
    // Everything handed to the realtime coordinator, in order.
    ghost var sent: seq<(int, Message)>

    constructor (resultService: ResultService, maxTicks: nat)
      ensures this.resultService == resultService && this.maxTicks == maxTicks
      ensures nextSessionId == 1 && sessions == map[] && userToSession == map[] && sent == []
    {
      this.resultService, this.maxTicks := resultService, maxTicks;
      nextSessionId, sessions, userToSession, sent := 1, map[], map[], [];
    }

    method CreateSession(participants: seq<Participant>) returns (id: SessionId)
      modifies this
      ensures id == SessionId(old(nextSessionId)) && nextSessionId == old(nextSessionId) + 1
      ensures id in sessions && fresh(sessions[id]) && fresh(sessions[id].simulation)
      ensures sessions == old(sessions)[id := sessions[id]]
      ensures sessions[id].View() == NewContext(id, participants)
      ensures userToSession == Assigned(old(userToSession), participants, id)
      ensures sent == old(sent)
    {
      id := SessionId(nextSessionId);
      nextSessionId := nextSessionId + 1;
      var ctx := new SessionContext(id, participants);
      for i := 0 to |participants|
        invariant userToSession == Assigned(old(userToSession), participants[..i], id)
        invariant nextSessionId == old(nextSessionId) + 1 && sessions == old(sessions) && sent == old(sent)
        invariant ctx.View() == NewContext(id, participants)
      {
        assert participants[..i + 1][..i] == participants[..i];
        userToSession := userToSession[participants[i].userId := id];
      }
      assert participants[..|participants|] == participants;
      sessions := sessions[id := ctx];
    }

    method IsUserInSession(userId: int) returns (found: bool)
      ensures found <==> userId in userToSession
    {
      found := userId in userToSession;
    }

    // The session a user's inputs are routed to.
    predicate Routed(userId: int)
      reads this
    {
      userId in userToSession && userToSession[userId] in sessions
    }

    function Route(userId: int): SessionContext
      requires Routed(userId)
      reads this
    {
      sessions[userToSession[userId]]
    }

    // The session is found by the user alone; the one the input names is not looked at.
    method SubmitInput(input: SessionInput) returns (response: Response)
      modifies if Routed(input.command.userId) then {Route(input.command.userId).simulation} else {}
      ensures !Routed(input.command.userId) ==> response == SessionNotFound
      ensures Routed(input.command.userId) ==>
                var ctx := Route(input.command.userId);
                && response == Respond(old(ctx.View()), input.command)
                && ctx.View() == AfterInput(old(ctx.View()), input.command)
    {
      if input.command.userId !in userToSession {
        return SessionNotFound;
      }
      var id := userToSession[input.command.userId];
      if id !in sessions {
        return SessionNotFound;
      }
      var ctx := sessions[id];
      if ctx.ended {
        return SessionClosed;
      }
      if input.command.userId !in ctx.participantMap {
        return NotParticipant;
      }
      var verdict := ctx.simulation.EnqueueInput(input.command);
      if verdict.Rejected? {
        return InputInvalid(verdict.reason);
      }
      return Response.Accepted;
    }

    method Broadcast(ctx: SessionContext, message: Message)
      modifies this`sent
      ensures sent == old(sent) + ToEach(ctx.participants, message)
    {
      for i := 0 to |ctx.participants|
        invariant sent == old(sent) + ToEach(ctx.participants[..i], message)
      {
        assert ctx.participants[..i + 1][..i] == ctx.participants[..i];
        sent := sent + [(ctx.participants[i].userId, message)];
      }
      assert ctx.participants[..|ctx.participants|] == ctx.participants;
    }

    method StartSession(ctx: SessionContext)
      modifies this`sent
      ensures sent == old(sent) + ToEach(ctx.participants, SessionCreated(ctx.participants))
                      + ToEach(ctx.participants, SessionStarted(SnapshotRows(ctx.simulation.players)))
      ensures DifferentUsers(ctx.participants) ==> Reached(old(sent), sent, ctx.participants, StartNews(ctx.View()))
    {
      hide Reached, StartNews, DifferentUsers;
      StartReaches(sent, ctx.View());
      Broadcast(ctx, SessionCreated(ctx.participants));
      var _, rows := ctx.simulation.Snapshot();
      Broadcast(ctx, SessionStarted(rows));
    }

    // What the end of a session leaves behind: the record is saved and, if it was new, applied to the ratings; the
    // session and its users are gone from the tables.
    twostate predicate Concluded(ctx: SessionContext)
      requires |ctx.participants| >= 2
      reads this, ctx, ctx.simulation, resultService.repository, resultService.ratings
    {
      && sessions == old(sessions) - {ctx.id}
      && userToSession == old(userToSession) - UserIds(ctx.participants)
      && resultService.repository.records == Saved(old(resultService.repository.records), RecordOf(ctx.View()))
      && resultService.ratings.entries
         == if ctx.id in old(resultService.repository.records) then old(resultService.ratings.entries)
            else Finalized(old(resultService.ratings.entries), RecordOf(ctx.View()), ctx.participants)
    }

    twostate predicate NothingConcluded()
      reads this, resultService.repository, resultService.ratings
    {
      && sessions == old(sessions) && userToSession == old(userToSession)
      && resultService.repository.records == old(resultService.repository.records)
      && resultService.ratings.entries == old(resultService.ratings.entries)
    }

    // Advances the simulation, tells the participants, and finishes the session after its last tick.
    method HandleTick(ctx: SessionContext)
      requires |ctx.participants| >= 2
      modifies this`sessions, this`userToSession, this`sent
      modifies ctx, ctx.simulation, resultService.repository, resultService.ratings
      ensures ctx.View() == AfterTick(old(ctx.View()), maxTicks)
      ensures if ctx.ended == old(ctx.ended) then NothingConcluded() else Concluded(ctx)
      ensures old(resultService.repository.Valid()) ==> resultService.repository.Valid()
      ensures sent == old(sent) + TickMessages(old(ctx.ended), ctx.View())
      ensures DifferentUsers(ctx.participants) ==>
                Reached(old(sent), sent, ctx.participants, TickNews(old(ctx.ended), ctx.View()))
    {
      hide Reached, TickNews, DifferentUsers;
      TickReaches(sent, ctx.ended, AfterTick(ctx.View(), maxTicks));
      hide SnapshotRows, Finalized, UserIds, Saved, RecordOf, WinnerOf, Tick, StateMessages, EndMessages;
      if ctx.ended {
        return;
      }
      Advance(ctx);
      if ctx.tickSent >= maxTicks {
        StateIgnoresTheEnd(ctx.View());
        ghost var state := StateMessages(ctx.View());
        FinishSession(ctx);
        Associate(old(sent), state, EndMessages(ctx.View()));
      }
    }

    method Advance(ctx: SessionContext)
      modifies this`sent, ctx, ctx.simulation
      ensures ctx.View() == old(ctx.View()).(simulation := Tick(old(ctx.View()).simulation),
                                            tickSent := old(ctx.tickSent) + 1)
      ensures sent == old(sent) + StateMessages(ctx.View())
    {
      hide SnapshotRows, Tick, ToEach;
      ctx.simulation.TickOnce();
      ctx.tickSent := ctx.tickSent + 1;
      var tick, rows := ctx.simulation.Snapshot();
      Broadcast(ctx, SessionState(tick, rows));
    }

    method FinishSession(ctx: SessionContext)
      requires |ctx.participants| >= 2
      modifies this`sessions, this`userToSession, this`sent
      modifies ctx, resultService.repository, resultService.ratings
      ensures ctx.View() == old(ctx.View()).(ended := true)
      ensures if old(ctx.ended) then NothingConcluded() else Concluded(ctx)
      ensures old(resultService.repository.Valid()) ==> resultService.repository.Valid()
      ensures sent == if old(ctx.ended) then old(sent) else old(sent) + EndMessages(ctx.View())
      ensures DifferentUsers(ctx.participants) ==>
                Reached(old(sent), sent, ctx.participants, if old(ctx.ended) then [] else EndNews(ctx.View()))
    {
      hide Reached, EndNews, EndMessages, DifferentUsers, WinnerOf;
      NothingReached(sent, ctx.participants);
      hide SnapshotRows, ToEach, Finalized, UserIds, RecordOf, Saved;
      if ctx.ended {
        return;
      }
      ctx.ended := true;
      var record := AnnounceEnd(ctx);
      StoreAndErase(ctx, record);
    }

    // Saves and applies the record first, and frees the users afterwards.
    method StoreAndErase(ctx: SessionContext, record: Record)
      requires |ctx.participants| >= 2 && record == RecordOf(ctx.View())
      modifies this`sessions, this`userToSession, resultService.repository, resultService.ratings
      ensures Concluded(ctx)
      ensures old(resultService.repository.Valid()) ==> resultService.repository.Valid()
    {
      hide WinnerOf, SnapshotRows, Finalized, UserIds;
      var _ := resultService.FinalizeResult(record, ctx.participants);
      EraseUsers(ctx);
      sessions := sessions - {ctx.id};
    }

    // Tells the participants who won, and returns the record of the session.
    method AnnounceEnd(ctx: SessionContext) returns (record: Record)
      requires |ctx.participants| >= 2
      modifies this`sent
      ensures record == RecordOf(ctx.View())
      ensures sent == old(sent) + EndMessages(ctx.View())
      ensures DifferentUsers(ctx.participants) ==> Reached(old(sent), sent, ctx.participants, EndNews(ctx.View()))
    {
      hide Leader, SnapshotRows, ToEach, Reached, EndNews, DifferentUsers;
      EndReaches(sent, ctx.View());
      var tick, rows := ctx.simulation.Snapshot();
      var winner := PickWinner(rows);
      Broadcast(ctx, SessionEnded(winner, tick));
      record := Record(ctx.id, ctx.participants[0].userId, ctx.participants[1].userId, winner, tick, rows);
    }

    method PickWinner(rows: seq<Row>) returns (winner: int)
      ensures winner == Leader(rows).1
    {
      winner := 0;
      var best := INT_MIN;
      for i := 0 to |rows|
        invariant Leader(rows[..i]) == (best, winner)
      {
        assert rows[..i + 1][..i] == rows[..i];
        if rows[i].position > best {
          best, winner := rows[i].position, rows[i].userId;
        }
      }
      assert rows[..|rows|] == rows;
    }

    method EraseUsers(ctx: SessionContext)
      modifies this`userToSession
      ensures userToSession == old(userToSession) - UserIds(ctx.participants)
    {
      for i := 0 to |ctx.participants|
        invariant userToSession == old(userToSession) - UserIds(ctx.participants[..i])
      {
        var p := ctx.participants[i];
        assert ctx.participants[..i + 1] == ctx.participants[..i] + [p];
        assert UserIds(ctx.participants[..i + 1]) == UserIds(ctx.participants[..i]) + {p.userId};
        userToSession := userToSession - {p.userId};
      }
      assert ctx.participants[..|ctx.participants|] == ctx.participants;
    }
  }

  ghost function StateMessages(ctx: Context): seq<(int, Message)> {
    ToEach(ctx.participants, SessionState(ctx.simulation.tick, SnapshotRows(ctx.simulation.players)))
  }

  lemma StateIgnoresTheEnd(ctx: Context)
    ensures StateMessages(ctx.(ended := true)) == StateMessages(ctx)
  {
  }

  ghost function EndMessages(ctx: Context): seq<(int, Message)> {
    ToEach(ctx.participants, SessionEnded(WinnerOf(ctx), ctx.simulation.tick))
  }

  // What one timer tick sends, given the context it leaves.
  ghost function TickMessages(wasEnded: bool, after: Context): seq<(int, Message)> {
    if wasEnded then [] else if after.ended then StateMessages(after) + EndMessages(after) else StateMessages(after)
  }

  lemma StartReaches(sent: seq<(int, Message)>, ctx: Context)
    ensures DifferentUsers(ctx.participants) ==>
              Reached(sent, sent + ToEach(ctx.participants, SessionCreated(ctx.participants))
                            + ToEach(ctx.participants, SessionStarted(SnapshotRows(ctx.simulation.players))),
                      ctx.participants, StartNews(ctx))
  {
    hide Reached, ToEach, SnapshotRows, DifferentUsers;
    if DifferentUsers(ctx.participants) {
      var created, started := SessionCreated(ctx.participants), SessionStarted(SnapshotRows(ctx.simulation.players));
      var middle := sent + ToEach(ctx.participants, created);
      BroadcastReaches(sent, ctx.participants, created);
      BroadcastReaches(middle, ctx.participants, started);
      ReachedTwice(sent, middle, middle + ToEach(ctx.participants, started), ctx.participants, [created], [started]);
      assert [created] + [started] == StartNews(ctx);
    }
  }

  lemma EndReaches(sent: seq<(int, Message)>, ctx: Context)
    ensures DifferentUsers(ctx.participants) ==>
              Reached(sent, sent + EndMessages(ctx), ctx.participants, EndNews(ctx))
  {
    hide Reached, ToEach, WinnerOf, DifferentUsers;
    if DifferentUsers(ctx.participants) {
      BroadcastReaches(sent, ctx.participants, SessionEnded(WinnerOf(ctx), ctx.simulation.tick));
    }
  }

  lemma TickReaches(sent: seq<(int, Message)>, wasEnded: bool, after: Context)
    ensures DifferentUsers(after.participants) ==>
              Reached(sent, sent + TickMessages(wasEnded, after), after.participants, TickNews(wasEnded, after))
  {
    hide Reached, ToEach, SnapshotRows, WinnerOf, DifferentUsers;
    if wasEnded {
      NothingReached(sent, after.participants);
      assert sent + [] == sent;
    } else if DifferentUsers(after.participants) {
      var state := SessionState(after.simulation.tick, SnapshotRows(after.simulation.players));
      var middle := sent + StateMessages(after);
      BroadcastReaches(sent, after.participants, state);
      if after.ended {
        EndReaches(middle, after);
        ReachedTwice(sent, middle, middle + EndMessages(after), after.participants, [state], EndNews(after));
        Associate(sent, StateMessages(after), EndMessages(after));
      } else {
        assert [state] + [] == [state];
      }
    }
  }
}
