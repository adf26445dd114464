/** What the invariant means for users: serial standings, one session per user, and the life of every session. */
module Serializability {
  import opened Basics
  import opened Ratings
  import opened Results
  import opened Sessions
  import opened MatchQueue
  import opened Serial
  import opened Protocol
  import opened Safety
  import Sim = Simulations
  import SR = SessionRuns
  import SL = SimulationLog

  // No finalization is half done: every saved record has been applied.
  ghost predicate Settled(g: System) {
    forall id :: id in g.sessions ==> !g.sessions[id].phase.Naming? && !g.sessions[id].phase.Rating?
  }

  lemma AllButLast(sessions: Table, saved: seq<Record>)
    requires saved != [] && Applied(sessions, saved[..|saved| - 1]) == saved[..|saved| - 1]
    requires saved[|saved| - 1].sessionId in sessions && IsApplied(sessions[saved[|saved| - 1].sessionId].phase)
    ensures Applied(sessions, saved) == saved
  {
    hide Applied;
    AppliedLast(sessions, saved);
    FrontAndLast(saved);
  }

  lemma {:induction false} AllApplied(sessions: Table, saved: seq<Record>)
    requires forall i :: 0 <= i < |saved| ==>
               saved[i].sessionId in sessions && IsApplied(sessions[saved[i].sessionId].phase)
    ensures Applied(sessions, saved) == saved
  {
    if saved == [] {
    } else {
      var rest := saved[..|saved| - 1];
      forall i | 0 <= i < |rest|
        ensures rest[i].sessionId in sessions && IsApplied(sessions[rest[i].sessionId].phase)
      {
        assert rest[i] == saved[i];
      }
      AllApplied(sessions, rest);
      hide Applied, IsApplied;
      AllButLast(sessions, saved);
    }
  }

  lemma SettledApplied(maxTicks: nat, g: System)
    requires Inv(maxTicks, g) && Settled(g)
    ensures Applied(g.sessions, g.saved) == g.saved
  {
    hide Inv, Applied;
    forall i | 0 <= i < |g.saved|
      ensures g.saved[i].sessionId in g.sessions && IsApplied(g.sessions[g.saved[i].sessionId].phase)
    {
      SavedInInv(maxTicks, g, i);
    }
    AllApplied(g.sessions, g.saved);
  }

  // Finalization is serializable: in every interleaving, whenever no finalization is half done, ratings, wins and
  // losses are those of applying the saved records one after the other in the order they were saved.
  lemma FinalizationIsSerializable(maxTicks: nat, steps: seq<Step>)
    requires SR.FitsInt(maxTicks) && Settled(Run(maxTicks, steps))
    ensures SameStandings(Run(maxTicks, steps).entries, Fold(Run(maxTicks, steps).saved))
  {
    hide Inv, Applied, Fold, Run, Settled, SameStandings;
    var g := Run(maxTicks, steps);
    EveryRunIsSafe(maxTicks, steps);
    SettledApplied(maxTicks, g);
    StandingsInInv(maxTicks, g);
  }

  // Even in the middle of finalizations the standings are a serial fold, of the records applied so far.
  lemma StandingsAreAlwaysSerial(maxTicks: nat, steps: seq<Step>)
    requires SR.FitsInt(maxTicks)
    ensures var g := Run(maxTicks, steps); SameStandings(g.entries, Fold(Applied(g.sessions, g.saved)))
  {
    hide Inv, Applied, Fold, Run, SameStandings;
    EveryRunIsSafe(maxTicks, steps);
    StandingsInInv(maxTicks, Run(maxTicks, steps));
  }

  // In every reachable state the ratings sum to the initial rating times the number of entries.
  lemma RatingIsConserved(maxTicks: nat, steps: seq<Step>)
    requires SR.FitsInt(maxTicks)
    ensures Conserved(Run(maxTicks, steps).entries)
  {
    hide Inv, Applied, Fold, Run, SameStandings, Conserved, Tallied;
    EveryRunIsSafe(maxTicks, steps);
    StandingsInInv(maxTicks, Run(maxTicks, steps));
  }

  lemma SavedAreProper(maxTicks: nat, g: System)
    requires Inv(maxTicks, g)
    ensures AllProper(g.saved)
  {
    hide Valid, Apart, SessionsOk, TablesOk, RecordsOk, OrderOk, StandingsOk, PendingOk;
  }

  // Results and standings agree: whenever no finalization is half done, a user's wins are the saved records the user
  // won, wins and losses together are the records the user played in, and both totals are the number of records.
  lemma StandingsCountRecords(maxTicks: nat, steps: seq<Step>, u: int)
    requires SR.FitsInt(maxTicks) && Settled(Run(maxTicks, steps))
    ensures var g := Run(maxTicks, steps);
            && StandingOf(g.entries, u).wins == WonBy(g.saved, u)
            && StandingOf(g.entries, u).wins + StandingOf(g.entries, u).losses == PlayedBy(g.saved, u)
            && Tallied(g.entries, |g.saved|)
  {
    hide Inv, Applied, Fold, Run, Settled, Conserved, Tallied, WonBy, PlayedBy, AllProper, StandingOf;
    var g := Run(maxTicks, steps);
    EveryRunIsSafe(maxTicks, steps);
    SettledApplied(maxTicks, g);
    StandingsInInv(maxTicks, g);
    SavedAreProper(maxTicks, g);
    FoldCountsRecords(g.saved, u);
    assert StandingOf(g.entries, u) == StandingOf(Fold(g.saved), u);
  }

  // ---- One session at a time ----

  // Two live sessions never share a user.
  lemma LiveSessionsShareNobody(maxTicks: nat, steps: seq<Step>, a: SessionId, b: SessionId)
    requires SR.FitsInt(maxTicks)
    requires a != b && a in Run(maxTicks, steps).registered && b in Run(maxTicks, steps).registered
    ensures var g := Run(maxTicks, steps);
            a in g.sessions && b in g.sessions && SR.UsersOf(g.sessions[a]) !! SR.UsersOf(g.sessions[b])
  {
    hide Inv, Run, UserIds;
    var g := Run(maxTicks, steps);
    EveryRunIsSafe(maxTicks, steps);
    TablesInInv(maxTicks, g);
    LiveSessionsAreDisjoint(g, a, b);
  }

  lemma FreeUserHasNoLiveSession(g: System, u: int, id: SessionId)
    requires TablesOk(g.sessions, g.registered, g.userToSession) && u !in g.userToSession
    requires id in g.sessions && u in SR.UsersOf(g.sessions[id])
    ensures g.sessions[id].phase.Closed?
  {
  }

  // Nobody enters a session before the previous rating update is applied: when a pair is about to get its session, all
  // earlier sessions of its users are closed.
  lemma RatedBeforeTheNextSession(maxTicks: nat, steps: seq<Step>, k: nat, id: SessionId)
    requires SR.FitsInt(maxTicks) && k < |Run(maxTicks, steps).queue.nodes|
    requires id in Run(maxTicks, steps).sessions
    requires Run(maxTicks, steps).queue.nodes[k].user.userId in SR.UsersOf(Run(maxTicks, steps).sessions[id])
    ensures Run(maxTicks, steps).sessions[id].phase.Closed?
  {
    hide Inv, Run, UserIds;
    var g := Run(maxTicks, steps);
    EveryRunIsSafe(maxTicks, steps);
    TablesInInv(maxTicks, g);
    QueuedAreFree(maxTicks, g, k);
    FreeUserHasNoLiveSession(g, g.queue.nodes[k].user.userId, id);
  }

  lemma QueuedAreFree(maxTicks: nat, g: System, k: nat)
    requires Inv(maxTicks, g) && k < |g.queue.nodes|
    ensures g.queue.nodes[k].user.userId in g.queue.index
    ensures g.queue.nodes[k].user.userId !in g.userToSession
  {
    hide Inv;
    QueueInInv(maxTicks, g);
  }

  // In every reachable state the queue and its index match, the user table is the inverse of the live sessions'
  // participants, each of them has two different users, and nobody is both queued and in a session.
  lemma TablesAgreeInEveryRun(maxTicks: nat, steps: seq<Step>)
    requires SR.FitsInt(maxTicks)
    ensures var g := Run(maxTicks, steps);
            && Valid(g.queue)
            && TablesOk(g.sessions, g.registered, g.userToSession)
            && (forall u :: u in g.queue.index ==> u !in g.userToSession)
            && (forall id :: id in g.sessions ==>
                  |g.sessions[id].ctx.participants| == 2 && |SR.UsersOf(g.sessions[id])| == 2)
  {
    hide Inv, Run, Valid, TablesOk, SR.SessionOk, UserIds;
    var g := Run(maxTicks, steps);
    EveryRunIsSafe(maxTicks, steps);
    TablesInInv(maxTicks, g);
    QueueInInv(maxTicks, g);
    forall id | id in g.sessions
      ensures |g.sessions[id].ctx.participants| == 2 && |SR.UsersOf(g.sessions[id])| == 2
    {
      SessionInInv(maxTicks, g, id);
      TwoDifferentUsers(maxTicks, id, g.sessions[id]);
    }
  }

  lemma TwoDifferentUsers(maxTicks: nat, id: SessionId, s: Session)
    requires SR.SessionOk(maxTicks, id, s)
    ensures |s.ctx.participants| == 2 && |SR.UsersOf(s)| == 2
  {
    hide SR.ExpectedMessages, SL.Refines, UserIds;
    SR.UsersAreTheTwo(s.ctx.participants);
  }

  // ---- Submissions ----

  lemma PendingInInv(maxTicks: nat, g: System, call: (SessionId, SessionInput))
    requires Inv(maxTicks, g) && call in g.pending
    ensures call.0 in g.sessions && call.1.command.userId in SR.UsersOf(g.sessions[call.0])
  {
    hide Valid, Apart, SessionsOk, TablesOk, RecordsOk, SavedOk, OrderOk, StandingsOk;
  }

  // The table entry a submission finds always leads to a session, and the strand never answers that the user does not
  // take part: it refuses the input as too late or leaves the verdict to the simulation.
  lemma SubmissionsReachTheirSession(maxTicks: nat, steps: seq<Step>, call: (SessionId, SessionInput))
    requires SR.FitsInt(maxTicks) && call in Run(maxTicks, steps).pending
    ensures var g := Run(maxTicks, steps);
            && call.0 in g.sessions
            && Respond(g.sessions[call.0].ctx, call.1.command)
               == if g.sessions[call.0].ctx.ended then SessionClosed
                  else match Sim.Validate(g.sessions[call.0].ctx.simulation, call.1.command)
                    case Accepted => Response.Accepted
                    case Rejected(reason) => InputInvalid(reason)
  {
    hide Inv, Run, SR.SessionOk, Sim.Validate;
    var g := Run(maxTicks, steps);
    EveryRunIsSafe(maxTicks, steps);
    PendingInInv(maxTicks, g, call);
    SessionInInv(maxTicks, g, call.0);
    ParticipantMapCovers(maxTicks, call.0, g.sessions[call.0]);
  }

  lemma ParticipantMapCovers(maxTicks: nat, id: SessionId, s: Session)
    requires SR.SessionOk(maxTicks, id, s)
    ensures s.ctx.participantMap.Keys == SR.UsersOf(s)
  {
    hide SR.ExpectedMessages, SL.Refines, UserIds;
  }

  lemma UserTableLeadsToSessions(maxTicks: nat, steps: seq<Step>, u: int)
    requires SR.FitsInt(maxTicks) && u in Run(maxTicks, steps).userToSession
    ensures Run(maxTicks, steps).userToSession[u] in Run(maxTicks, steps).registered
  {
    hide Inv, Run;
    EveryRunIsSafe(maxTicks, steps);
    TablesInInv(maxTicks, Run(maxTicks, steps));
  }

  // ---- The life of a session ----

  // What a session has sent is always a prefix of: created, started, states 1, 2, ..., ended; and the rows of each
  // state are the replay of the inputs accepted for the ticks up to it.
  lemma TranscriptOfEverySession(maxTicks: nat, steps: seq<Step>, id: SessionId)
    requires SR.FitsInt(maxTicks) && id in Run(maxTicks, steps).sessions
    ensures var s := Run(maxTicks, steps).sessions[id];
            && s.messages == SR.ExpectedMessages(s)
            && s.ctx.tickSent == s.ctx.simulation.tick <= SR.LastTick(maxTicks)
            && (s.ctx.ended <==> s.ctx.tickSent == SR.LastTick(maxTicks))
            && s.ctx.simulation.players.Keys == SR.UsersOf(s)
  {
    hide Inv, Run, SR.SessionOk, SR.ExpectedMessages, UserIds;
    var g := Run(maxTicks, steps);
    EveryRunIsSafe(maxTicks, steps);
    SessionInInv(maxTicks, g, id);
    SR.PlayersAreParticipants(maxTicks, id, g.sessions[id]);
    TranscriptFacts(maxTicks, id, g.sessions[id]);
  }

  lemma TranscriptFacts(maxTicks: nat, id: SessionId, s: Session)
    requires SR.SessionOk(maxTicks, id, s)
    ensures s.messages == SR.ExpectedMessages(s)
    ensures s.ctx.tickSent == s.ctx.simulation.tick <= SR.LastTick(maxTicks)
    ensures s.ctx.ended <==> s.ctx.tickSent == SR.LastTick(maxTicks)
  {
    hide SR.ExpectedMessages, SL.Refines, UserIds;
  }

  // Every timer tick of a live session brings its end one tick closer, and the last one ends it.
  lemma TicksRunOut(maxTicks: nat, steps: seq<Step>, id: SessionId)
    requires SR.FitsInt(maxTicks) && At(Run(maxTicks, steps), id, Ticking)
    ensures var s, t := Run(maxTicks, steps).sessions[id], Ticked(Run(maxTicks, steps).sessions[id], maxTicks);
            && SR.LastTick(maxTicks) - t.ctx.tickSent == SR.LastTick(maxTicks) - s.ctx.tickSent - 1 >= 0
            && (t.phase.Saving? <==> t.ctx.tickSent == SR.LastTick(maxTicks))
            && (maxTicks > 0 ==> (t.phase.Saving? <==> t.ctx.tickSent == maxTicks))
  {
    hide Inv, Run, SR.SessionOk, Sim.SnapshotRows, WinnerOf, Sim.Tick;
    var g := Run(maxTicks, steps);
    EveryRunIsSafe(maxTicks, steps);
    SessionInInv(maxTicks, g, id);
    TickingFacts(maxTicks, id, g.sessions[id]);
  }

  lemma TickingFacts(maxTicks: nat, id: SessionId, s: Session)
    requires SR.SessionOk(maxTicks, id, s) && s.phase.Ticking?
    ensures s.ctx.tickSent < SR.LastTick(maxTicks) && !s.ctx.ended
  {
    hide SR.ExpectedMessages, SL.Refines, UserIds;
  }

  // Each session that got past the saving step left exactly one record, and no other session left any.
  lemma OneRecordPerFinishedSession(maxTicks: nat, steps: seq<Step>, id: SessionId)
    requires SR.FitsInt(maxTicks)
    ensures var g := Run(maxTicks, steps);
            && (id in g.records <==> id in g.sessions && IsSaved(g.sessions[id].phase))
            && (id in g.records ==> exists k :: 0 <= k < |g.saved| && g.saved[k].sessionId == id)
            && (forall i, j :: 0 <= i < j < |g.saved| ==> g.saved[i].sessionId != g.saved[j].sessionId)
  {
    hide Inv, Run;
    var g := Run(maxTicks, steps);
    EveryRunIsSafe(maxTicks, steps);
    RecordFacts(maxTicks, g, id);
    if id in g.records {
      var _ := SavedPosition(maxTicks, g, id);
    }
  }

  lemma RecordFacts(maxTicks: nat, g: System, id: SessionId)
    requires Inv(maxTicks, g)
    ensures id in g.records <==> id in g.sessions && IsSaved(g.sessions[id].phase)
    ensures forall i, j :: 0 <= i < j < |g.saved| ==> g.saved[i].sessionId != g.saved[j].sessionId
  {
    hide Valid, Apart, SessionsOk, TablesOk, OrderOk, StandingsOk, PendingOk, RecordOf, AllProper;
  }

  // Every record names as winner the participant with the best final position, the smaller id on a tie, and the other
  // participant as loser; its snapshot is the replay of all accepted inputs due by its last tick.
  lemma RecordsAreRight(maxTicks: nat, steps: seq<Step>, id: SessionId)
    requires SR.FitsInt(maxTicks) && id in Run(maxTicks, steps).records
    ensures id in Run(maxTicks, steps).sessions && |Run(maxTicks, steps).sessions[id].ctx.participants| == 2
    ensures var r, s := Run(maxTicks, steps).records[id], Run(maxTicks, steps).sessions[id];
            && r.sessionId == id && r.winner != LoserOf(r) && SR.UsersOf(s) == {r.winner, LoserOf(r)}
            && s.ctx.simulation.players.Keys == SR.UsersOf(s)
            && Beats(s.ctx.simulation.players, r.winner, LoserOf(r))
            && r.user1 == s.ctx.participants[0].userId && r.user2 == s.ctx.participants[1].userId
            && r.ticks == SR.LastTick(maxTicks) && r.snapshot == SR.RowsAt(SR.UsersOf(s), s.accepted, r.ticks)
  {
    hide Inv, Run, SR.SessionOk, RecordOf, SR.RowsAt, UserIds, Beats;
    var g := Run(maxTicks, steps);
    EveryRunIsSafe(maxTicks, steps);
    RecordInInv(maxTicks, g, id);
    RecordFacts(maxTicks, g, id);
    SessionInInv(maxTicks, g, id);
    SR.RecordNamesTheBetterPlayer(maxTicks, id, g.sessions[id]);
    PhaseFacts(maxTicks, id, g.sessions[id]);
    TranscriptFacts(maxTicks, id, g.sessions[id]);
  }

  // ---- The separate calls are the finalization ----

  // Run without interruption, the four naming calls and the match are what FinalizeResult does in one go.
  lemma StepsAreFinalizeResult(entries: Entries, ctx: Context)
    requires |ctx.participants| == 2
    ensures var named := NameCall(NameCall(NameCall(NameCall(entries, ctx, 0), ctx, 1), ctx, 2), ctx, 3);
            var r := RecordOf(ctx);
            WithMatch(named, r.winner, LoserOf(r)) == Finalized(entries, r, ctx.participants)
  {
    hide WithMatch, WithUser, WinnerOf, Sim.SnapshotRows;
    var ps := ctx.participants;
    assert ps[..1] == [ps[0]] && ps[..2] == ps;
    assert ps[..1][..0] == [] && ps[..2][..1] == ps[..1];
    assert Named(entries, ps[..1]) == WithUser(Named(entries, []), ps[0].userId, ps[0].username);
  }
}
