/** The invariant that holds in every reachable state of the match pipeline. */
module Safety {
  import opened Basics
  import opened Ratings
  import opened Results
  import opened Sessions
  import opened MatchQueue
  import opened Serial
  import opened Protocol
  import Sim = Simulations
  import SR = SessionRuns
  import SM = SessionManagers
  import SL = SimulationLog

  type Table = map<SessionId, Session>

  predicate TakesPart(sessions: Table, u: int, id: SessionId) {
    id in sessions && u in SR.UsersOf(sessions[id])
  }

  // The record is in the repository from the saving step on.
  predicate IsSaved(phase: Phase) {
    phase.Naming? || phase.Rating? || phase.Erasing? || phase.Closed?
  }

  // The match has been applied to the ratings.
  predicate IsApplied(phase: Phase) {
    phase.Erasing? || phase.Closed?
  }

  // ---- The parts of the invariant ----

  ghost predicate SessionsOk(maxTicks: nat, sessions: Table) {
    forall id :: id in sessions ==> SR.SessionOk(maxTicks, id, sessions[id])
  }

  ghost predicate IdsUsed(sessions: Table, nextId: nat) {
    forall id :: id in sessions ==> id.number < nextId
  }

  // The session table lists the sessions not yet erased, and the user table is exactly the inverse of their
  // participants.
  ghost predicate TablesOk(sessions: Table, registered: set<SessionId>, users: map<int, SessionId>) {
    && (forall id :: id in registered <==> id in sessions && !sessions[id].phase.Closed?)
    && (forall u :: u in users ==> users[u] in registered && u in SR.UsersOf(sessions[users[u]]))
    && (forall id, u :: id in registered && u in SR.UsersOf(sessions[id]) ==> u in users && users[u] == id)
  }

  // Nobody is both waiting (or about to wait) and in a session.
  ghost predicate Apart(index: map<int, nat>, lock: Lock, users: map<int, SessionId>) {
    && (forall u :: u in index ==> u !in users)
    && (lock.Joining? ==> lock.user.userId !in index && lock.user.userId !in users)
  }

  ghost predicate RecordsOk(sessions: Table, records: Records) {
    && (forall id :: id in records <==> id in sessions && IsSaved(sessions[id].phase))
    && (forall id :: id in records ==>
          |sessions[id].ctx.participants| == 2 && records[id] == RecordOf(sessions[id].ctx))
  }

  // The saving order lists every record once.
  ghost predicate SavedOk(records: Records, saved: seq<Record>) {
    && (forall i :: 0 <= i < |saved| ==> saved[i].sessionId in records && records[saved[i].sessionId] == saved[i])
    && (forall id :: id in records ==> records[id] in saved)
    && (forall i, j :: 0 <= i < j < |saved| ==> saved[i].sessionId != saved[j].sessionId)
    && AllProper(saved)
  }

  // A record saved later than that of a session still alive shares no player with it.
  ghost predicate OrderOk(sessions: Table, saved: seq<Record>) {
    && (forall i :: 0 <= i < |saved| ==> saved[i].sessionId in sessions)
    && (forall i, j :: 0 <= i < j < |saved| && !sessions[saved[i].sessionId].phase.Closed? ==>
          PlayersOf(saved[i]) !! PlayersOf(saved[j]))
  }

  // The saved records whose match was applied, in the order of saving.
  function Applied(sessions: Table, saved: seq<Record>): seq<Record> {
    if saved == [] then []
    else
      var last := saved[|saved| - 1];
      Applied(sessions, saved[..|saved| - 1]) + AppliedPart(sessions, last)
  }

  // The standings are the sequential fold over the applied records in the order of saving.
  ghost predicate StandingsOk(sessions: Table, saved: seq<Record>, entries: Entries) {
    && SameStandings(entries, Fold(Applied(sessions, saved)))
    && Conserved(entries)
    && Tallied(entries, |Applied(sessions, saved)|)
  }

  ghost predicate PendingOk(sessions: Table, pending: multiset<(SessionId, SessionInput)>) {
    forall call :: call in pending ==> call.0 in sessions && call.1.command.userId in SR.UsersOf(sessions[call.0])
  }

  ghost predicate Inv(maxTicks: nat, g: System) {
    && Valid(g.queue)
    && Apart(g.queue.index, g.lock, g.userToSession)
    && SessionsOk(maxTicks, g.sessions)
    && IdsUsed(g.sessions, g.nextId)
    && TablesOk(g.sessions, g.registered, g.userToSession)
    && RecordsOk(g.sessions, g.records)
    && SavedOk(g.records, g.saved)
    && OrderOk(g.sessions, g.saved)
    && StandingsOk(g.sessions, g.saved, g.entries)
    && PendingOk(g.sessions, g.pending)
  }

  // ---- Replacing one session ----

  // The same session further along, on the same side of saving, applying and erasing.
  ghost predicate Moves(s: Session, t: Session) {
    && t.ctx.participants == s.ctx.participants
    && IsSaved(t.phase) == IsSaved(s.phase)
    && IsApplied(t.phase) == IsApplied(s.phase)
    && t.phase.Closed? == s.phase.Closed?
    && (IsSaved(s.phase) ==> t.ctx == s.ctx)
  }

  lemma {:induction false} AppliedUnchanged(sessions: Table, other: Table, saved: seq<Record>)
    requires forall i :: 0 <= i < |saved| ==>
               var id := saved[i].sessionId;
               id in sessions && id in other && IsApplied(other[id].phase) == IsApplied(sessions[id].phase)
    ensures Applied(other, saved) == Applied(sessions, saved)
  {
    if saved == [] {
    } else {
      var rest := saved[..|saved| - 1];
      forall i | 0 <= i < |rest| ensures var id := rest[i].sessionId;
               id in sessions && id in other && IsApplied(other[id].phase) == IsApplied(sessions[id].phase)
      {
        assert rest[i] == saved[i];
      }
      AppliedUnchanged(sessions, other, rest);
    }
  }

  lemma TablesAfterMove(sessions: Table, registered: set<SessionId>, users: map<int, SessionId>, id: SessionId, t: Session)
    requires id in sessions && Moves(sessions[id], t) && TablesOk(sessions, registered, users)
    ensures TablesOk(sessions[id := t], registered, users)
  {
  }

  lemma RecordsAfterMove(sessions: Table, records: Records, id: SessionId, t: Session)
    requires id in sessions && Moves(sessions[id], t) && RecordsOk(sessions, records)
    ensures RecordsOk(sessions[id := t], records)
  {
    hide RecordOf;
  }

  lemma OrderAfterMove(sessions: Table, saved: seq<Record>, id: SessionId, t: Session)
    requires id in sessions && (sessions[id].phase.Closed? ==> t.phase.Closed?) && OrderOk(sessions, saved)
    ensures OrderOk(sessions[id := t], saved)
  {
  }

  lemma PendingAfterMove(sessions: Table, pending: multiset<(SessionId, SessionInput)>, id: SessionId, t: Session)
    requires id in sessions && t.ctx.participants == sessions[id].ctx.participants && PendingOk(sessions, pending)
    ensures PendingOk(sessions[id := t], pending)
  {
  }

  lemma SessionsAfterMove(maxTicks: nat, sessions: Table, id: SessionId, t: Session)
    requires SessionsOk(maxTicks, sessions) && SR.SessionOk(maxTicks, id, t)
    ensures SessionsOk(maxTicks, sessions[id := t])
  {
    hide SR.SessionOk;
  }

  lemma MoveKeepsInv(maxTicks: nat, g: System, id: SessionId, t: Session)
    requires Inv(maxTicks, g) && id in g.sessions && Moves(g.sessions[id], t) && SR.SessionOk(maxTicks, id, t)
    ensures Inv(maxTicks, WithSession(g, id, t))
  {
    hide Valid, Apart, SessionsOk, TablesOk, RecordsOk, SavedOk, PendingOk, SR.SessionOk;
    SessionsAfterMove(maxTicks, g.sessions, id, t);
    TablesAfterMove(g.sessions, g.registered, g.userToSession, id, t);
    RecordsAfterMove(g.sessions, g.records, id, t);
    OrderAfterMove(g.sessions, g.saved, id, t);
    AppliedUnchanged(g.sessions, g.sessions[id := t], g.saved);
    PendingAfterMove(g.sessions, g.pending, id, t);
  }

  lemma SessionInInv(maxTicks: nat, g: System, id: SessionId)
    requires Inv(maxTicks, g) && id in g.sessions
    ensures SR.SessionOk(maxTicks, id, g.sessions[id])
  {
    hide Valid, Apart, TablesOk, RecordsOk, SavedOk, OrderOk, StandingsOk, PendingOk, SR.SessionOk;
  }

  lemma PhaseFacts(maxTicks: nat, id: SessionId, s: Session)
    requires SR.SessionOk(maxTicks, id, s)
    ensures s.ctx.id == id && |s.ctx.participants| == 2
    ensures s.ctx.ended <==> !s.phase.Dispatched? && !s.phase.Ticking?
    ensures s.phase.Naming? ==> s.phase.done < 4
  {
    hide SR.ExpectedMessages, SL.Refines;
  }

  // ---- Strand handlers that leave repository and ratings alone ----

  lemma StartKeepsInv(maxTicks: nat, g: System, id: SessionId)
    requires Inv(maxTicks, g) && At(g, id, Dispatched)
    ensures Inv(maxTicks, WithSession(g, id, Started(g.sessions[id])))
  {
    hide Inv, SR.SessionOk, Sim.SnapshotRows;
    SessionInInv(maxTicks, g, id);
    SR.StartedOk(maxTicks, id, g.sessions[id]);
    MoveKeepsInv(maxTicks, g, id, Started(g.sessions[id]));
  }

  lemma TimerKeepsInv(maxTicks: nat, g: System, id: SessionId)
    requires Inv(maxTicks, g) && At(g, id, Ticking)
    ensures Inv(maxTicks, WithSession(g, id, Ticked(g.sessions[id], maxTicks)))
  {
    hide Inv, SR.SessionOk, Sim.SnapshotRows, WinnerOf, Sim.Tick;
    SessionInInv(maxTicks, g, id);
    SR.TickedOk(maxTicks, id, g.sessions[id]);
    MoveKeepsInv(maxTicks, g, id, Ticked(g.sessions[id], maxTicks));
  }

  lemma DeliverKeepsInv(maxTicks: nat, g: System, id: SessionId, input: Sim.Input)
    requires Inv(maxTicks, g) && id in g.sessions
    ensures Inv(maxTicks, WithSession(g, id, Delivered(g.sessions[id], input)))
  {
    hide Inv, SR.SessionOk, Respond, Sim.Enqueue;
    var s := g.sessions[id];
    SessionInInv(maxTicks, g, id);
    PhaseFacts(maxTicks, id, s);
    SR.DeliveredOk(maxTicks, id, s, input);
    MoveKeepsInv(maxTicks, g, id, Delivered(s, input));
  }

  // ---- The steps of a finishing session ----

  lemma NamingStandings(sessions: Table, saved: seq<Record>, entries: Entries, u: int, name: string)
    requires StandingsOk(sessions, saved, entries)
    ensures StandingsOk(sessions, saved, WithUser(entries, u, name))
  {
    hide Fold, Applied, Conserved, Tallied, WithUser, SameStandings;
    NamingKeepsStandings(entries, u, name);
    SameStandingsTransitive(WithUser(entries, u, name), entries, Fold(Applied(sessions, saved)));
    NamingConserves(entries, u, name);
    NamingKeepsTally(entries, u, name, |Applied(sessions, saved)|);
  }

  lemma RegisterKeepsInv(maxTicks: nat, g: System, u: int, name: string)
    requires Inv(maxTicks, g)
    ensures Inv(maxTicks, g.(entries := WithUser(g.entries, u, name)))
  {
    NamingStandings(g.sessions, g.saved, g.entries, u, name);
    hide Valid, Apart, SessionsOk, TablesOk, RecordsOk, SavedOk, OrderOk, PendingOk, StandingsOk;
  }

  lemma LaterPhaseKeepsInv(maxTicks: nat, g: System, id: SessionId, phase: Phase)
    requires Inv(maxTicks, g) && id in g.sessions && g.sessions[id].phase.Naming?
    requires phase.Rating? || (phase.Naming? && phase.done < 4)
    ensures Inv(maxTicks, WithSession(g, id, g.sessions[id].(phase := phase)))
    ensures |g.sessions[id].ctx.participants| == 2
  {
    hide Inv, SR.SessionOk;
    SessionInInv(maxTicks, g, id);
    PhaseFacts(maxTicks, id, g.sessions[id]);
    SR.LaterPhaseOk(maxTicks, id, g.sessions[id], phase);
    MoveKeepsInv(maxTicks, g, id, g.sessions[id].(phase := phase));
  }

  lemma NameNextKeepsInv(maxTicks: nat, g: System, id: SessionId)
    requires Inv(maxTicks, g) && id in g.sessions && g.sessions[id].phase.Naming?
    ensures Inv(maxTicks, Next(maxTicks, g, NameNext(id)))
  {
    hide Inv, WithUser;
    var s := g.sessions[id];
    var k := s.phase.done;
    var phase := if k < 3 then Naming(k + 1) else Rating;
    LaterPhaseKeepsInv(maxTicks, g, id, phase);
    var p := s.ctx.participants[if k == 0 || k == 2 then 0 else 1];
    RegisterKeepsInv(maxTicks, WithSession(g, id, s.(phase := phase)), p.userId, if k < 2 then p.username else "");
  }

  // A user is in at most one live session.
  lemma LiveSessionsAreDisjoint(g: System, a: SessionId, b: SessionId)
    requires TablesOk(g.sessions, g.registered, g.userToSession)
    requires a != b && a in g.sessions && b in g.sessions
    requires !g.sessions[a].phase.Closed? && !g.sessions[b].phase.Closed?
    ensures SR.UsersOf(g.sessions[a]) !! SR.UsersOf(g.sessions[b])
  {
    assert a in g.registered && b in g.registered;
    assert forall u :: u in SR.UsersOf(g.sessions[a]) ==> u in g.userToSession && g.userToSession[u] == a;
    assert forall u :: u in SR.UsersOf(g.sessions[b]) ==> u in g.userToSession && g.userToSession[u] == b;
  }

  ghost predicate FitsInv(maxTicks: nat, g: System) {
    SR.FitsInt(maxTicks) && Inv(maxTicks, g)
  }

  lemma SavedInInv(maxTicks: nat, g: System, i: nat)
    requires Inv(maxTicks, g) && i < |g.saved|
    ensures var id := g.saved[i].sessionId;
            && id in g.records && g.records[id] == g.saved[i]
            && id in g.sessions && IsSaved(g.sessions[id].phase)
            && |g.sessions[id].ctx.participants| == 2 && g.saved[i] == RecordOf(g.sessions[id].ctx)
  {
    hide Valid, Apart, SessionsOk, TablesOk, StandingsOk, PendingOk, RecordOf;
  }

  lemma SavedRecordUsers(maxTicks: nat, g: System, i: nat)
    requires FitsInv(maxTicks, g) && i < |g.saved|
    ensures g.saved[i].sessionId in g.sessions && IsSaved(g.sessions[g.saved[i].sessionId].phase)
    ensures PlayersOf(g.saved[i]) == SR.UsersOf(g.sessions[g.saved[i].sessionId])
    ensures Proper(g.saved[i])
  {
    hide Inv, SR.SessionOk, RecordOf;
    SavedInInv(maxTicks, g, i);
    var id := g.saved[i].sessionId;
    SessionInInv(maxTicks, g, id);
    SR.RecordNamesTheBetterPlayer(maxTicks, id, g.sessions[id]);
  }

  lemma TablesInInv(maxTicks: nat, g: System)
    requires Inv(maxTicks, g)
    ensures TablesOk(g.sessions, g.registered, g.userToSession)
    ensures OrderOk(g.sessions, g.saved)
  {
    hide Valid, Apart, SessionsOk, TablesOk, RecordsOk, SavedOk, StandingsOk, PendingOk, OrderOk;
  }

  function AppliedPart(sessions: Table, r: Record): seq<Record> {
    if r.sessionId in sessions && IsApplied(sessions[r.sessionId].phase) then [r] else []
  }

  lemma AppliedAppend(sessions: Table, saved: seq<Record>, r: Record)
    ensures Applied(sessions, saved + [r]) == Applied(sessions, saved) + AppliedPart(sessions, r)
  {
    assert (saved + [r])[..|saved|] == saved;
  }

  lemma AppliedLast(sessions: Table, saved: seq<Record>)
    requires saved != []
    ensures Applied(sessions, saved)
            == Applied(sessions, saved[..|saved| - 1]) + AppliedPart(sessions, saved[|saved| - 1])
  {
  }

  lemma RecordsAfterSave(sessions: Table, records: Records, id: SessionId, r: Record)
    requires RecordsOk(sessions, records) && id in sessions && sessions[id].phase.Saving?
    requires |sessions[id].ctx.participants| == 2 && r == RecordOf(sessions[id].ctx)
    ensures id !in records
    ensures RecordsOk(sessions[id := sessions[id].(phase := Naming(0))], records[id := r])
  {
    hide RecordOf;
  }

  lemma SavedAfterSave(records: Records, saved: seq<Record>, r: Record)
    requires SavedOk(records, saved) && r.sessionId !in records && Proper(r)
    ensures SavedOk(records[r.sessionId := r], saved + [r])
  {
    var next, order := records[r.sessionId := r], saved + [r];
    forall id | id in next ensures next[id] in order {
      if id == r.sessionId {
        assert order[|saved|] == r;
      } else {
        assert records[id] in saved;
      }
    }
  }

  // Records saved before, if their sessions still live, belong to other users.
  lemma OrderAfterSave(maxTicks: nat, g: System, id: SessionId, r: Record)
    requires FitsInv(maxTicks, g) && id in g.sessions && g.sessions[id].phase.Saving?
    requires r.sessionId == id && PlayersOf(r) == SR.UsersOf(g.sessions[id])
    ensures OrderOk(g.sessions[id := g.sessions[id].(phase := Naming(0))], g.saved + [r])
  {
    hide Inv, TablesOk;
    TablesInInv(maxTicks, g);
    var next, order := g.sessions[id := g.sessions[id].(phase := Naming(0))], g.saved + [r];
    forall i | 0 <= i < |g.saved| ensures g.saved[i].sessionId in g.sessions && g.saved[i].sessionId != id {
      SavedInInv(maxTicks, g, i);
    }
    forall i | 0 <= i < |g.saved| && !g.sessions[g.saved[i].sessionId].phase.Closed?
      ensures PlayersOf(g.saved[i]) !! PlayersOf(r)
    {
      SavedRecordUsers(maxTicks, g, i);
      LiveSessionsAreDisjoint(g, g.saved[i].sessionId, id);
    }
  }

  lemma AppliedAfterSave(maxTicks: nat, g: System, id: SessionId, r: Record)
    requires Inv(maxTicks, g) && id in g.sessions && g.sessions[id].phase.Saving? && r.sessionId == id
    ensures Applied(g.sessions[id := g.sessions[id].(phase := Naming(0))], g.saved + [r]) == Applied(g.sessions, g.saved)
  {
    hide Inv;
    var next := g.sessions[id := g.sessions[id].(phase := Naming(0))];
    forall i | 0 <= i < |g.saved| ensures g.saved[i].sessionId in g.sessions && g.saved[i].sessionId != id {
      SavedInInv(maxTicks, g, i);
    }
    AppliedUnchanged(g.sessions, next, g.saved);
    AppliedAppend(next, g.saved, r);
  }

  lemma TablesAfterPhase(sessions: Table, registered: set<SessionId>, users: map<int, SessionId>, id: SessionId, phase: Phase)
    requires TablesOk(sessions, registered, users) && id in sessions
    requires sessions[id].phase.Closed? == phase.Closed?
    ensures TablesOk(sessions[id := sessions[id].(phase := phase)], registered, users)
  {
  }

  lemma SavedSystemKeepsInv(maxTicks: nat, g: System, id: SessionId, r: Record)
    requires FitsInv(maxTicks, g) && At(g, id, Saving)
    requires |g.sessions[id].ctx.participants| == 2 && r == RecordOf(g.sessions[id].ctx) && r.sessionId == id
    requires Proper(r) && PlayersOf(r) == SR.UsersOf(g.sessions[id]) && g.sessions[id].ctx.ended
    ensures Inv(maxTicks, g.(sessions := g.sessions[id := g.sessions[id].(phase := Naming(0))],
                            records := g.records[id := r], saved := g.saved + [r]))
    ensures id !in g.records
  {
    hide Valid, Apart, SessionsOk, TablesOk, RecordsOk, SavedOk, OrderOk, PendingOk, Applied, Fold, Conserved, Tallied,
         SameStandings, RecordOf, SR.SessionOk;
    var t := g.sessions[id].(phase := Naming(0));
    SessionInInv(maxTicks, g, id);
    RecordsAfterSave(g.sessions, g.records, id, r);
    SavedAfterSave(g.records, g.saved, r);
    OrderAfterSave(maxTicks, g, id, r);
    AppliedAfterSave(maxTicks, g, id, r);
    TablesAfterPhase(g.sessions, g.registered, g.userToSession, id, Naming(0));
    SR.LaterPhaseOk(maxTicks, id, g.sessions[id], Naming(0));
    SessionsAfterMove(maxTicks, g.sessions, id, t);
    PendingAfterMove(g.sessions, g.pending, id, t);
  }

  // Saving appends the record to the saving order; it is never there already.
  lemma SaveKeepsInv(maxTicks: nat, g: System, id: SessionId)
    requires FitsInv(maxTicks, g) && At(g, id, Saving)
    ensures Inv(maxTicks, Next(maxTicks, g, Save(id)))
    ensures id !in g.records
  {
    hide Inv, RecordOf, SR.SessionOk, SR.UsersOf, UserIds, Beats, SR.RowsAt;
    var s := g.sessions[id];
    SessionInInv(maxTicks, g, id);
    PhaseFacts(maxTicks, id, s);
    SR.RecordNamesTheBetterPlayer(maxTicks, id, s);
    SavedSystemKeepsInv(maxTicks, g, id, RecordOf(s.ctx));
  }

  // ---- Applying the match ----

  // Splitting the applied records at one position.
  lemma {:induction false} AppliedConcat(sessions: Table, a: seq<Record>, b: seq<Record>)
    ensures Applied(sessions, a + b) == Applied(sessions, a) + Applied(sessions, b)
  {
    if b == [] {
      assert a + b == a;
    } else {
      hide Applied, IsApplied;
      var rest, last := b[..|b| - 1], b[|b| - 1];
      AppliedConcat(sessions, a, rest);
      ConcatLast(a, b);
      AppliedAppend(sessions, a + rest, last);
      AppliedLast(sessions, b);
      Associate(Applied(sessions, a), Applied(sessions, rest), AppliedPart(sessions, last));
    }
  }

  lemma {:induction false} AppliedMembers(sessions: Table, saved: seq<Record>)
    ensures forall r :: r in Applied(sessions, saved) ==> r in saved
  {
    if saved == [] {
    } else {
      AppliedMembers(sessions, saved[..|saved| - 1]);
    }
  }

  // The late record can be moved back to its place in the saving order: those after it were disjoint.
  lemma RateStandings(sessions: Table, next: Table, saved: seq<Record>, k: nat, entries: Entries)
    requires k < |saved| && StandingsOk(sessions, saved, entries)
    requires AllProper(saved)
    requires Applied(next, saved[..k]) == Applied(sessions, saved[..k])
    requires Applied(next, saved[k + 1..]) == Applied(sessions, saved[k + 1..])
    requires Applied(sessions, [saved[k]]) == [] && Applied(next, [saved[k]]) == [saved[k]]
    requires forall j :: k < j < |saved| ==> PlayersOf(saved[j]) !! PlayersOf(saved[k])
    ensures StandingsOk(next, saved, Play(entries, saved[k]))
  {
    hide WithMatch, SameStandings, Conserved, Tallied, Fold, Applied;
    var r := saved[k];
    var front, back := Applied(sessions, saved[..k]), Applied(sessions, saved[k + 1..]);
    assert saved == saved[..k] + [r] + saved[k + 1..];
    AppliedConcat(sessions, saved[..k] + [r], saved[k + 1..]);
    AppliedConcat(sessions, saved[..k], [r]);
    AppliedConcat(next, saved[..k] + [r], saved[k + 1..]);
    AppliedConcat(next, saved[..k], [r]);
    assert Applied(sessions, saved) == front + back;
    assert Applied(next, saved) == front + [r] + back;
    AppliedMembers(sessions, saved[k + 1..]);
    forall i | 0 <= i < |back| ensures Proper(back[i]) && PlayersOf(back[i]) !! PlayersOf(r) {
      assert back[i] in saved[k + 1..];
    }
    LateIsAsGoodAsInTime(front, r, back);
    PlayAgrees(entries, Fold(front + back), r);
    SameStandingsTransitive(Play(entries, r), Play(Fold(front + back), r), Fold(front + [r] + back));
    MatchConserves(entries, r.winner, LoserOf(r));
    MatchTallies(entries, r.winner, LoserOf(r), |front + back|);
  }

  // The place of a saved session in the saving order, and what comes before and after it.
  lemma SavedPosition(maxTicks: nat, g: System, id: SessionId) returns (k: nat)
    requires Inv(maxTicks, g) && id in g.sessions && IsSaved(g.sessions[id].phase)
    ensures k < |g.saved| && g.saved[k].sessionId == id
    ensures forall i :: 0 <= i < |g.saved| && i != k ==> g.saved[i].sessionId != id
    ensures !g.sessions[id].phase.Closed? ==>
              forall j :: k < j < |g.saved| ==> PlayersOf(g.saved[j]) !! PlayersOf(g.saved[k])
    ensures AllProper(g.saved)
  {
    hide Valid, Apart, SessionsOk, TablesOk, StandingsOk, PendingOk, RecordOf;
    assert id in g.records && g.records[id] in g.saved;
    k :| 0 <= k < |g.saved| && g.saved[k] == g.records[id];
    RecordHasItsId(maxTicks, g, id);
    forall i | 0 <= i < |g.saved| && i != k ensures g.saved[i].sessionId != id {
      if i < k {
        assert g.saved[i].sessionId != g.saved[k].sessionId;
      } else {
        assert g.saved[k].sessionId != g.saved[i].sessionId;
      }
    }
  }

  lemma RecordHasItsId(maxTicks: nat, g: System, id: SessionId)
    requires Inv(maxTicks, g) && id in g.records
    ensures id in g.sessions && g.records[id].sessionId == id
  {
    hide Inv, SR.SessionOk, WinnerOf, Sim.SnapshotRows;
    RecordInInv(maxTicks, g, id);
    SessionInInv(maxTicks, g, id);
    PhaseFacts(maxTicks, id, g.sessions[id]);
  }

  lemma RecordInInv(maxTicks: nat, g: System, id: SessionId)
    requires Inv(maxTicks, g) && id in g.records
    ensures id in g.sessions && |g.sessions[id].ctx.participants| == 2
    ensures g.records[id] == RecordOf(g.sessions[id].ctx) && g.records[id] in g.saved
  {
    hide Valid, Apart, SessionsOk, TablesOk, OrderOk, StandingsOk, PendingOk, RecordOf;
  }

  // ---- Applying, erasing ----

  lemma {:induction false} AppliedSame(sessions: Table, id: SessionId, t: Session, saved: seq<Record>)
    requires forall i :: 0 <= i < |saved| ==> saved[i].sessionId in sessions && saved[i].sessionId != id
    ensures Applied(sessions[id := t], saved) == Applied(sessions, saved)
  {
    AppliedUnchanged(sessions, sessions[id := t], saved);
  }

  lemma AppliedOne(sessions: Table, r: Record)
    requires r.sessionId in sessions
    ensures Applied(sessions, [r]) == if IsApplied(sessions[r.sessionId].phase) then [r] else []
  {
    assert [r][..0] == [];
    assert Applied(sessions, [r][..0]) == [];
  }

  lemma RateStandingsAt(maxTicks: nat, g: System, id: SessionId)
    requires FitsInv(maxTicks, g) && At(g, id, Rating) && |g.sessions[id].ctx.participants| == 2
    ensures var r := RecordOf(g.sessions[id].ctx);
            StandingsOk(g.sessions[id := g.sessions[id].(phase := Erasing)], g.saved, Play(g.entries, r))
  {
    hide Inv, RecordOf, WithMatch, StandingsOk, Applied;
    var next := g.sessions[id := g.sessions[id].(phase := Erasing)];
    var k := SavedPosition(maxTicks, g, id);
    SavedInInv(maxTicks, g, k);
    assert forall i :: 0 <= i < |g.saved| ==> g.saved[i].sessionId in g.sessions by {
      forall i | 0 <= i < |g.saved| ensures g.saved[i].sessionId in g.sessions {
        SavedInInv(maxTicks, g, i);
      }
    }
    StandingsInInv(maxTicks, g);
    AppliedSame(g.sessions, id, g.sessions[id].(phase := Erasing), g.saved[..k]);
    AppliedSame(g.sessions, id, g.sessions[id].(phase := Erasing), g.saved[k + 1..]);
    AppliedOne(g.sessions, g.saved[k]);
    AppliedOne(next, g.saved[k]);
    RateStandings(g.sessions, next, g.saved, k, g.entries);
  }

  lemma StandingsInInv(maxTicks: nat, g: System)
    requires Inv(maxTicks, g)
    ensures StandingsOk(g.sessions, g.saved, g.entries)
  {
    hide Valid, Apart, SessionsOk, TablesOk, RecordsOk, SavedOk, OrderOk, PendingOk, StandingsOk;
  }

  // Applying the match of a session whose record was saved keeps the standings serial.
  lemma RateKeepsInv(maxTicks: nat, g: System, id: SessionId)
    requires FitsInv(maxTicks, g) && At(g, id, Rating)
    ensures Inv(maxTicks, Next(maxTicks, g, Rate(id)))
  {
    hide Valid, Apart, SessionsOk, TablesOk, RecordsOk, SavedOk, OrderOk, StandingsOk, PendingOk, RecordOf,
         WithMatch, SR.SessionOk;
    var s := g.sessions[id];
    SessionInInv(maxTicks, g, id);
    PhaseFacts(maxTicks, id, s);
    RateStandingsAt(maxTicks, g, id);
    var t := s.(phase := Erasing);
    SR.LaterPhaseOk(maxTicks, id, s, Erasing);
    SessionsAfterMove(maxTicks, g.sessions, id, t);
    TablesAfterPhase(g.sessions, g.registered, g.userToSession, id, Erasing);
    RecordsAfterPhase(g.sessions, g.records, id, Erasing);
    OrderAfterMove(g.sessions, g.saved, id, t);
    PendingAfterMove(g.sessions, g.pending, id, t);
  }

  lemma RecordsAfterPhase(sessions: Table, records: Records, id: SessionId, phase: Phase)
    requires RecordsOk(sessions, records) && id in sessions && IsSaved(phase) == IsSaved(sessions[id].phase)
    ensures RecordsOk(sessions[id := sessions[id].(phase := phase)], records)
  {
    hide RecordOf;
  }

  lemma TablesAfterErase(sessions: Table, registered: set<SessionId>, users: map<int, SessionId>, id: SessionId)
    requires TablesOk(sessions, registered, users) && id in sessions && sessions[id].phase.Erasing?
    ensures TablesOk(sessions[id := sessions[id].(phase := Closed)], registered - {id},
                     users - SR.UsersOf(sessions[id]))
  {
    hide UserIds;
    assert id in registered;
    var mine, rest := SR.UsersOf(sessions[id]), users - SR.UsersOf(sessions[id]);
    assert forall u :: u in rest ==> users[u] != id;
    assert forall u :: u in mine ==> u in users && users[u] == id;
    forall other, u | other in registered - {id} && u in SR.UsersOf(sessions[other])
      ensures u in rest && rest[u] == other
    {
      assert users[u] == other;
    }
  }

  lemma ApartAfterErase(index: map<int, nat>, lock: Lock, users: map<int, SessionId>, gone: set<int>)
    requires Apart(index, lock, users)
    ensures Apart(index, lock, users - gone)
  {
  }

  lemma AppliedAfterErase(maxTicks: nat, g: System, id: SessionId)
    requires Inv(maxTicks, g) && At(g, id, Erasing)
    ensures Applied(g.sessions[id := g.sessions[id].(phase := Closed)], g.saved) == Applied(g.sessions, g.saved)
  {
    hide Inv, Applied;
    forall i | 0 <= i < |g.saved| ensures g.saved[i].sessionId in g.sessions {
      SavedInInv(maxTicks, g, i);
    }
    AppliedUnchanged(g.sessions, g.sessions[id := g.sessions[id].(phase := Closed)], g.saved);
  }

  // Erasing a session frees its users, and only after their ratings were updated.
  lemma EraseKeepsInv(maxTicks: nat, g: System, id: SessionId)
    requires Inv(maxTicks, g) && At(g, id, Erasing)
    ensures Inv(maxTicks, Next(maxTicks, g, Erase(id)))
  {
    hide Valid, Apart, SessionsOk, TablesOk, RecordsOk, SavedOk, OrderOk, PendingOk, Applied, Fold, Conserved, Tallied,
         SameStandings, SR.SessionOk, UserIds;
    var s, t := g.sessions[id], g.sessions[id].(phase := Closed);
    SessionInInv(maxTicks, g, id);
    PhaseFacts(maxTicks, id, s);
    AppliedAfterErase(maxTicks, g, id);
    SR.LaterPhaseOk(maxTicks, id, s, Closed);
    SessionsAfterMove(maxTicks, g.sessions, id, t);
    TablesAfterErase(g.sessions, g.registered, g.userToSession, id);
    ApartAfterErase(g.queue.index, g.lock, g.userToSession, SR.UsersOf(s));
    RecordsAfterPhase(g.sessions, g.records, id, Closed);
    OrderAfterMove(g.sessions, g.saved, id, t);
    PendingAfterMove(g.sessions, g.pending, id, t);
  }

  // ---- Queue operations and pairing ----

  lemma QueueInInv(maxTicks: nat, g: System)
    requires Inv(maxTicks, g)
    ensures Valid(g.queue) && Apart(g.queue.index, g.lock, g.userToSession)
  {
    hide Valid, Apart, SessionsOk, TablesOk, RecordsOk, SavedOk, OrderOk, PendingOk, StandingsOk;
  }

  // Only the queue, its lock and the pending submissions change.
  lemma QueueStepKeepsInv(maxTicks: nat, g: System, queue: Queue, lock: Lock)
    requires Inv(maxTicks, g) && Valid(queue) && Apart(queue.index, lock, g.userToSession)
    ensures Inv(maxTicks, g.(queue := queue, lock := lock))
  {
    hide Valid, Apart, SessionsOk, TablesOk, RecordsOk, SavedOk, OrderOk, PendingOk, StandingsOk;
  }

  lemma PushApart(maxTicks: nat, g: System, expiresAt: int, now: int)
    requires Inv(maxTicks, g) && g.lock.Joining?
    ensures Inv(maxTicks, g.(queue := Push(g.queue, g.lock.user, expiresAt, now), lock := Free))
  {
    hide Inv, Valid;
    QueueInInv(maxTicks, g);
    PushKeepsValid(g.queue, g.lock.user, expiresAt, now);
    QueueStepKeepsInv(maxTicks, g, Push(g.queue, g.lock.user, expiresAt, now), Free);
  }

  lemma LeaveKeepsInv(maxTicks: nat, g: System, userId: int)
    requires Inv(maxTicks, g) && g.lock.Free?
    ensures Inv(maxTicks, g.(queue := Cancel(g.queue, userId)))
  {
    hide Inv, Valid, Cancel;
    QueueInInv(maxTicks, g);
    CancelKeepsValid(g.queue, userId);
    QueueStepKeepsInv(maxTicks, g, Cancel(g.queue, userId), g.lock);
  }

  lemma ExpireKeepsInv(maxTicks: nat, g: System, now: int)
    requires Inv(maxTicks, g) && g.lock.Free?
    ensures Inv(maxTicks, g.(queue := DropExpired(g.queue, now), lock := Pairing))
  {
    hide Inv, Valid, Unexpired, Expired;
    QueueInInv(maxTicks, g);
    DropExpiredKeepsValid(g.queue, now);
    QueueStepKeepsInv(maxTicks, g, DropExpired(g.queue, now), Pairing);
  }

  lemma NewSessionTables(sessions: Table, registered: set<SessionId>, users: map<int, SessionId>, id: SessionId, s: Session)
    requires TablesOk(sessions, registered, users) && id !in sessions && !s.phase.Closed?
    requires forall u :: u in SR.UsersOf(s) ==> u !in users
    ensures TablesOk(sessions[id := s], registered + {id}, SM.Assigned(users, s.ctx.participants, id))
  {
    hide SM.Assigned, UserIds;
    SM.AssignedTable(users, s.ctx.participants, id);
    var next, table := sessions[id := s], SM.Assigned(users, s.ctx.participants, id);
    assert forall other :: other in registered ==> other != id && next[other] == sessions[other];
    forall other, u | other in registered && u in SR.UsersOf(sessions[other]) ensures u in table && table[u] == other {
      assert u in users && users[u] == other;
    }
  }

  lemma NewSessionRecords(sessions: Table, records: Records, id: SessionId, s: Session)
    requires RecordsOk(sessions, records) && id !in sessions && !IsSaved(s.phase)
    ensures RecordsOk(sessions[id := s], records)
  {
    hide RecordOf;
  }

  lemma NewSessionOrder(sessions: Table, saved: seq<Record>, id: SessionId, s: Session)
    requires OrderOk(sessions, saved) && id !in sessions
    ensures OrderOk(sessions[id := s], saved)
    ensures Applied(sessions[id := s], saved) == Applied(sessions, saved)
  {
    AppliedSame(sessions, id, s, saved);
  }

  lemma NewSessionPending(sessions: Table, pending: multiset<(SessionId, SessionInput)>, id: SessionId, s: Session)
    requires PendingOk(sessions, pending) && id !in sessions
    ensures PendingOk(sessions[id := s], pending)
  {
  }

  // The two users leave the queue and enter the tables in one step.
  lemma PairApart(q: Queue, users: map<int, SessionId>, id: SessionId)
    requires Valid(q) && |q.nodes| >= 2 && Apart(q.index, Pairing, users)
    ensures var pair := [q.nodes[0].user, q.nodes[1].user];
            && UserIds(pair) == {pair[0].userId, pair[1].userId}
            && (forall u :: u in UserIds(pair) ==> u !in users)
            && Apart(PopPair(q).index, Pairing, SM.Assigned(users, pair, id))
  {
    hide Valid, SM.Assigned;
    var pair := [q.nodes[0].user, q.nodes[1].user];
    PopPairKeepsValid(q);
    SR.UsersAreTheTwo(pair);
    SM.AssignedTable(users, pair, id);
  }

  lemma PairedSystemKeepsInv(maxTicks: nat, g: System, id: SessionId, s: Session, queue: Queue)
    requires Inv(maxTicks, g) && id == SessionId(g.nextId) && SR.SessionOk(maxTicks, id, s) && s.phase.Dispatched?
    requires forall u :: u in SR.UsersOf(s) ==> u !in g.userToSession
    requires Valid(queue) && Apart(queue.index, g.lock, SM.Assigned(g.userToSession, s.ctx.participants, id))
    ensures Inv(maxTicks, g.(queue := queue, sessions := g.sessions[id := s], registered := g.registered + {id},
                            userToSession := SM.Assigned(g.userToSession, s.ctx.participants, id),
                            nextId := g.nextId + 1))
  {
    hide Valid, Apart, SessionsOk, TablesOk, RecordsOk, SavedOk, OrderOk, PendingOk, Applied, Fold, Conserved, Tallied,
         SameStandings, SR.SessionOk, SM.Assigned, UserIds;
    assert id !in g.sessions;
    SessionsAfterMove(maxTicks, g.sessions, id, s);
    NewSessionTables(g.sessions, g.registered, g.userToSession, id, s);
    NewSessionRecords(g.sessions, g.records, id, s);
    NewSessionOrder(g.sessions, g.saved, id, s);
    NewSessionPending(g.sessions, g.pending, id, s);
  }

  lemma PairTwoKeepsInv(maxTicks: nat, g: System)
    requires Inv(maxTicks, g) && g.lock.Pairing? && |g.queue.nodes| >= 2
    ensures Inv(maxTicks, Next(maxTicks, g, PairTwo))
  {
    hide Inv, Valid, Apart, SR.SessionOk, SM.Assigned, UserIds, NewContext;
    var id, pair := SessionId(g.nextId), [g.queue.nodes[0].user, g.queue.nodes[1].user];
    QueueInInv(maxTicks, g);
    PopPairKeepsValid(g.queue);
    PairApart(g.queue, g.userToSession, id);
    SR.NewSessionOk(maxTicks, id, pair);
    NewSessionUsers(id, pair);
    PairedSystemKeepsInv(maxTicks, g, id, NewSession(id, pair), PopPair(g.queue));
  }

  lemma NewSessionUsers(id: SessionId, pair: seq<Participant>)
    ensures NewSession(id, pair).ctx.participants == pair && NewSession(id, pair).phase == Dispatched
  {
  }

  // ---- Submissions ----

  lemma RouteKeepsInv(maxTicks: nat, g: System, input: SessionInput)
    requires Inv(maxTicks, g) && input.command.userId in g.userToSession
    ensures Inv(maxTicks, g.(pending := g.pending + multiset{(g.userToSession[input.command.userId], input)}))
  {
    hide Valid, Apart, SessionsOk, RecordsOk, SavedOk, OrderOk, StandingsOk;
  }

  lemma AnsweredKeepsInv(maxTicks: nat, g: System, call: (SessionId, SessionInput))
    requires Inv(maxTicks, g)
    ensures Inv(maxTicks, g.(pending := g.pending - multiset{call}))
  {
    hide Valid, Apart, SessionsOk, TablesOk, RecordsOk, SavedOk, OrderOk, StandingsOk;
  }

  // ---- All runs ----

  lemma StartHoldsInv(maxTicks: nat)
    ensures Inv(maxTicks, START)
  {
  }

  lemma QueueStepsKeepInv(maxTicks: nat, g: System, step: Step)
    requires Inv(maxTicks, g)
    requires step.JoinCheck? || step.JoinPush? || step.Leave? || step.Expire? || step.PairTwo? || step.Unlock?
    ensures Inv(maxTicks, Next(maxTicks, g, step))
  {
    hide Inv, Valid, Push, Cancel, DropExpired, PopPair;
    QueueInInv(maxTicks, g);
    match step
    case JoinCheck(user) =>
      if g.lock.Free? && user.userId !in g.queue.index && user.userId !in g.userToSession {
        QueueStepKeepsInv(maxTicks, g, g.queue, Joining(user));
      }
    case JoinPush(expiresAt, now) => if g.lock.Joining? { PushApart(maxTicks, g, expiresAt, now); }
    case Leave(userId) => if g.lock.Free? { LeaveKeepsInv(maxTicks, g, userId); }
    case Expire(now) => if g.lock.Free? { ExpireKeepsInv(maxTicks, g, now); }
    case PairTwo => if g.lock.Pairing? && |g.queue.nodes| >= 2 { PairTwoKeepsInv(maxTicks, g); }
    case Unlock =>
      if g.lock.Pairing? && |g.queue.nodes| < 2 { QueueStepKeepsInv(maxTicks, g, g.queue, Free); }
  }

  lemma SessionStepsKeepInv(maxTicks: nat, g: System, step: Step)
    requires FitsInv(maxTicks, g)
    requires !(step.JoinCheck? || step.JoinPush? || step.Leave? || step.Expire? || step.PairTwo? || step.Unlock?)
    ensures Inv(maxTicks, Next(maxTicks, g, step))
  {
    hide Inv, WithUser, WithMatch, RecordOf, Started, Ticked, Delivered, UserIds, NameCall;
    match step
    case Register(userId, username) => RegisterKeepsInv(maxTicks, g, userId, username);
    case Start(id) => if At(g, id, Dispatched) { StartKeepsInv(maxTicks, g, id); }
    case Route(input) => if input.command.userId in g.userToSession { RouteKeepsInv(maxTicks, g, input); }
    case Deliver(id, input) =>
      if id in g.sessions {
        DeliverKeepsInv(maxTicks, g, id, input.command);
        AnsweredKeepsInv(maxTicks, WithSession(g, id, Delivered(g.sessions[id], input.command)), (id, input));
      }
    case Timer(id) => if At(g, id, Ticking) { TimerKeepsInv(maxTicks, g, id); }
    case Save(id) => if At(g, id, Saving) { SaveKeepsInv(maxTicks, g, id); }
    case NameNext(id) => if id in g.sessions && g.sessions[id].phase.Naming? { NameNextKeepsInv(maxTicks, g, id); }
    case Rate(id) => if At(g, id, Rating) { RateKeepsInv(maxTicks, g, id); }
    case Erase(id) => if At(g, id, Erasing) { EraseKeepsInv(maxTicks, g, id); }
  }

  // The invariant holds in every state that any interleaving of any steps can reach.
  lemma {:induction false} EveryRunIsSafe(maxTicks: nat, steps: seq<Step>)
    requires SR.FitsInt(maxTicks)
    ensures Inv(maxTicks, Run(maxTicks, steps))
  {
    hide Inv, Next;
    if steps == [] {
      StartHoldsInv(maxTicks);
    } else {
      var front, last := steps[..|steps| - 1], steps[|steps| - 1];
      EveryRunIsSafe(maxTicks, front);
      FitsHere(maxTicks, Run(maxTicks, front));
      if last.JoinCheck? || last.JoinPush? || last.Leave? || last.Expire? || last.PairTwo? || last.Unlock? {
        QueueStepsKeepInv(maxTicks, Run(maxTicks, front), last);
      } else {
        SessionStepsKeepInv(maxTicks, Run(maxTicks, front), last);
      }
    }
  }

  lemma FitsHere(maxTicks: nat, g: System)
    requires SR.FitsInt(maxTicks) && Inv(maxTicks, g)
    ensures FitsInv(maxTicks, g)
  {
    hide Inv;
  }
}
