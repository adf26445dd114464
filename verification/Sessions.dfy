/** Sessions as values: what a session context holds, what each of its strand handlers does, and the record it leaves. */
module Sessions {
  import opened Basics
  import opened Sorting
  import opened Simulations

  // The session called "session-<number>".
  datatype SessionId = SessionId(number: nat)

  datatype Participant = Participant(userId: int, username: string)

  datatype Record = Record(sessionId: SessionId, user1: int, user2: int, winner: int, ticks: nat, snapshot: seq<Row>)

  // A submitted input, with the session its sender names.
  datatype SessionInput = SessionInput(sessionId: SessionId, command: Input)

  // What the server answers to a submitted input.
  datatype Response = Accepted | SessionNotFound | SessionClosed | NotParticipant | InputInvalid(reason: Reason)

  // What the participants are sent, without timestamps.
  datatype Message =
    | SessionCreated(participants: seq<Participant>)
    | SessionStarted(rows: seq<Row>)
    | SessionState(tick: nat, rows: seq<Row>)
    | SessionEnded(winner: int, ticks: nat)

  datatype Context = Context(
    id: SessionId,
    participants: seq<Participant>,
    participantMap: map<int, Participant>,
    simulation: State,
    tickSent: nat,
    ended: bool)

  // The smallest value of a 32-bit int: the position no player can have.
  const INT_MIN := -0x8000_0000

  function UserIds(participants: seq<Participant>): set<int> {
    set p | p in participants :: p.userId
  }

  function MapOf(participants: seq<Participant>): map<int, Participant> {
    if participants == [] then map[]
    else
      var last := participants[|participants| - 1];
      MapOf(participants[..|participants| - 1])[last.userId := last]
  }

  function WithPlayers(s: State, participants: seq<Participant>): State {
    if participants == [] then s
    else WithPlayer(WithPlayers(s, participants[..|participants| - 1]), participants[|participants| - 1].userId)
  }

  function NewContext(id: SessionId, participants: seq<Participant>): Context {
    Context(id, participants, MapOf(participants), WithPlayers(EMPTY, participants), 0, false)
  }

  // The strand part of submitting an input.
  function Respond(ctx: Context, input: Input): Response {
    if ctx.ended then SessionClosed
    else if input.userId !in ctx.participantMap then NotParticipant
    else match Validate(ctx.simulation, input)
      case Accepted => Response.Accepted
      case Rejected(reason) => InputInvalid(reason)
  }

  function AfterInput(ctx: Context, input: Input): Context {
    if ctx.ended || input.userId !in ctx.participantMap then ctx
    else ctx.(simulation := Enqueue(ctx.simulation, input))
  }

  // One timer tick, and the end of the session when it was the last.
  function AfterTick(ctx: Context, maxTicks: nat): Context {
    if ctx.ended then ctx
    else
      var next := ctx.(simulation := Tick(ctx.simulation), tickSent := ctx.tickSent + 1);
      if next.tickSent >= maxTicks then next.(ended := true) else next
  }

  // The running maximum over the snapshot: best position so far and who holds it.
  function Leader(rows: seq<Row>): (r: (int, int)) {
    if rows == [] then (INT_MIN, 0)
    else
      var front, last := Leader(rows[..|rows| - 1]), rows[|rows| - 1];
      if last.position > front.0 then (last.position, last.userId) else front
  }

  ghost function WinnerOf(ctx: Context): int {
    Leader(SnapshotRows(ctx.simulation.players)).1
  }

  ghost function RecordOf(ctx: Context): Record
    requires |ctx.participants| >= 2
  {
    Record(ctx.id, ctx.participants[0].userId, ctx.participants[1].userId, WinnerOf(ctx), ctx.simulation.tick,
           SnapshotRows(ctx.simulation.players))
  }

  // ---- The winner ----

  ghost predicate FirstMaximum(rows: seq<Row>, i: nat)
    requires i < |rows|
  {
    && (forall j :: 0 <= j < i ==> rows[j].position < rows[i].position)
    && (forall j :: i < j < |rows| ==> rows[j].position <= rows[i].position)
  }

  lemma FirstMaximumExtends(rows: seq<Row>, i: nat)
    requires i + 1 < |rows| && FirstMaximum(rows[..|rows| - 1], i)
    ensures var n := |rows| - 1;
            if rows[n].position > rows[i].position then FirstMaximum(rows, n) else FirstMaximum(rows, i)
  {
    var n := |rows| - 1;
    forall j | 0 <= j < n ensures rows[j].position <= rows[i].position && (j < i ==> rows[j].position < rows[i].position) {
      assert rows[..n][j] == rows[j];
    }
  }

  lemma {:induction false} LeaderIsFirstMaximum(rows: seq<Row>) returns (i: nat)
    requires forall i :: 0 <= i < |rows| ==> rows[i].position > INT_MIN
    requires rows != []
    ensures i < |rows| && FirstMaximum(rows, i) && Leader(rows) == (rows[i].position, rows[i].userId)
  {
    var n := |rows| - 1;
    if n == 0 {
      assert Leader(rows[..0]) == (INT_MIN, 0);
      i := 0;
    } else {
      i := LeaderIsFirstMaximum(rows[..n]);
      FirstMaximumExtends(rows, i);
      if rows[n].position > rows[i].position {
        i := n;
      }
    }
  }

  // With no player at the sentinel, the winner is a player of maximal position, and the smallest id among those.
  lemma WinnerIsTheBest(ctx: Context)
    requires ctx.simulation.players.Keys != {}
    requires forall u :: u in ctx.simulation.players ==> ctx.simulation.players[u].position > INT_MIN
    ensures WinnerOf(ctx) in ctx.simulation.players
    ensures forall u :: u in ctx.simulation.players ==> Beats(ctx.simulation.players, WinnerOf(ctx), u)
  {
    var players, ids := ctx.simulation.players, Ascending(ctx.simulation.players.Keys);
    AscendingIsStrict(players.Keys);
    var i := LeaderIsFirstMaximum(SnapshotRows(players));
    FirstMaximumBeats(players, ids, i);
  }

  ghost predicate Beats(players: Players, w: int, u: int)
    requires w in players && u in players
  {
    players[u].position < players[w].position || (players[u].position == players[w].position && w <= u)
  }

  lemma FirstMaximumBeats(players: Players, ids: seq<int>, i: nat)
    requires forall id :: id in players <==> id in ids
    requires StrictlySorted(Below, ids) && i < |ids| && FirstMaximum(RowsFor(players, ids), i)
    ensures ids[i] in players
    ensures forall u :: u in players ==> Beats(players, ids[i], u)
  {
    var rows := RowsFor(players, ids);
    assert rows[i] == RowOf(players, ids[i]);
    forall u | u in players ensures Beats(players, ids[i], u) {
      assert u in ids;
      var j :| 0 <= j < |ids| && ids[j] == u;
      assert rows[j] == RowOf(players, ids[j]);
      assert i < j ==> Below(ids[i], u);
    }
  }

  // ---- New sessions ----

  lemma {:induction false} NewPlayers(participants: seq<Participant>)
    ensures WithPlayers(EMPTY, participants)
            == EMPTY.(players := map u | u in UserIds(participants) :: Player(0, 0))
    ensures MapOf(participants).Keys == UserIds(participants)
  {
    if participants == [] {
    } else {
      hide UserIds;
      NewPlayers(participants[..|participants| - 1]);
      LastUserId(participants);
    }
  }

  lemma LastUserId(participants: seq<Participant>)
    requires participants != []
    ensures UserIds(participants)
            == UserIds(participants[..|participants| - 1]) + {participants[|participants| - 1].userId}
  {
    assert participants == participants[..|participants| - 1] + [participants[|participants| - 1]];
  }
}
