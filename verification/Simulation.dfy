/** The tick simulation of one session: its state, its transitions, and the object that carries them out in place. */
module Simulations {
  import opened Basics
  import opened Sorting

  const MAX_INPUTS_PER_TICK_PER_USER := 4
  const MAX_DELTA := 3

  datatype Input = Input(userId: int, targetTick: int, delta: int, sequence: nat)

  datatype Reason = StaleTick | DeltaOutOfRange | SequenceRequired | SequenceNotMonotonic | TickInputLimit

  datatype Verdict = Accepted | Rejected(reason: Reason)

  datatype Tracker = Tracker(lastSequence: nat, perTickCount: map<int, nat>)

  datatype Player = Player(position: int, lastSequence: nat)

  type Players = map<int, Player>

  datatype State = State(tick: nat, buckets: map<int, seq<Input>>, trackers: map<int, Tracker>, players: Players)

  // One line of a snapshot.
  datatype Row = Row(userId: int, position: int, lastSequence: nat)

  const EMPTY := State(0, map[], map[], map[])

  // ---- Transitions ----

  function CountAt(t: Tracker, tick: int): nat {
    if tick in t.perTickCount then t.perTickCount[tick] else 0
  }

  function Validate(s: State, input: Input): Verdict {
    if input.targetTick <= s.tick then Rejected(StaleTick)
    else if input.delta > MAX_DELTA || input.delta < -MAX_DELTA then Rejected(DeltaOutOfRange)
    else if input.sequence == 0 then Rejected(SequenceRequired)
    else if input.userId !in s.trackers then Accepted
    else if input.sequence <= s.trackers[input.userId].lastSequence then Rejected(SequenceNotMonotonic)
    else if CountAt(s.trackers[input.userId], input.targetTick) >= MAX_INPUTS_PER_TICK_PER_USER
    then Rejected(TickInputLimit)
    else Accepted
  }

  function BucketAt(buckets: map<int, seq<Input>>, tick: int): seq<Input> {
    if tick in buckets then buckets[tick] else []
  }

  function TrackerOf(trackers: map<int, Tracker>, userId: int): Tracker {
    if userId in trackers then trackers[userId] else Tracker(0, map[])
  }

  function Counted(t: Tracker, input: Input): Tracker {
    Tracker(input.sequence, t.perTickCount[input.targetTick := CountAt(t, input.targetTick) + 1])
  }

  function Enqueue(s: State, input: Input): State {
    if Validate(s, input).Rejected? then s
    else
      s.(trackers := s.trackers[input.userId := Counted(TrackerOf(s.trackers, input.userId), input)],
         buckets := s.buckets[input.targetTick := BucketAt(s.buckets, input.targetTick) + [input]])
  }

  function WithPlayer(s: State, userId: int): State {
    if userId in s.players then s else s.(players := s.players[userId := Player(0, 0)])
  }

  function Apply(players: Players, input: Input): Players {
    var before := if input.userId in players then players[input.userId] else Player(0, 0);
    players[input.userId := Player(before.position + input.delta, input.sequence)]
  }

  function ApplyAll(players: Players, events: seq<Input>): Players {
    if events == [] then players else Apply(ApplyAll(players, events[..|events| - 1]), events[|events| - 1])
  }

  // The order in which the inputs of one tick take effect.
  predicate KeyBefore(a: Input, b: Input) {
    if a.sequence == b.sequence then a.userId < b.userId else a.sequence < b.sequence
  }

  function Tick(s: State): State {
    var now := s.tick + 1;
    State(now, s.buckets - {now}, s.trackers, ApplyAll(s.players, Sort(KeyBefore, BucketAt(s.buckets, now))))
  }

  function RowOf(players: Players, id: int): Row
    requires id in players
  {
    Row(id, players[id].position, players[id].lastSequence)
  }

  function RowsFor(players: Players, ids: seq<int>): (rows: seq<Row>)
    requires forall id :: id in ids ==> id in players
    ensures |rows| == |ids|
    ensures forall i :: 0 <= i < |ids| ==> ids[i] in players && rows[i] == RowOf(players, ids[i])
  {
    if ids == [] then []
    else
      assert ids[|ids| - 1] in ids;
      RowsFor(players, ids[..|ids| - 1]) + [RowOf(players, ids[|ids| - 1])]
  }

  lemma RowsForStep(players: Players, ids: seq<int>, i: nat)
    requires i < |ids| && forall id :: id in ids ==> id in players
    ensures RowsFor(players, ids[..i + 1]) == RowsFor(players, ids[..i]) + [RowOf(players, ids[i])]
  {
    assert ids[..i + 1][..i] == ids[..i];
  }

  // All players by ascending user id.
  ghost function SnapshotRows(players: Players): seq<Row> {
    AscendingIsStrict(players.Keys);
    RowsFor(players, Ascending(players.Keys))
  }

  // A snapshot shows every player once, by ascending user id, with the player's position and last sequence.
  lemma SnapshotShowsPlayers(players: Players)
    ensures var rows := SnapshotRows(players);
            && |rows| == |players|
            && (forall i :: 0 <= i < |rows| ==>
                  && rows[i].userId in players && rows[i].position == players[rows[i].userId].position
                  && rows[i].lastSequence == players[rows[i].userId].lastSequence)
            && (forall i, j :: 0 <= i < j < |rows| ==> rows[i].userId < rows[j].userId)
            && (forall u :: u in players ==> exists i :: 0 <= i < |rows| && rows[i].userId == u)
  {
    hide Ascending;
    AscendingIsStrict(players.Keys);
    var ids, rows := Ascending(players.Keys), SnapshotRows(players);
    assert |players| == |players.Keys|;
    forall i, j | 0 <= i < j < |rows| ensures rows[i].userId < rows[j].userId {
      assert Below(ids[i], ids[j]);
    }
    forall u | u in players ensures exists i :: 0 <= i < |rows| && rows[i].userId == u {
      assert u in ids;
      var i :| 0 <= i < |ids| && ids[i] == u;
      assert rows[i].userId == u;
    }
  }

  lemma {:induction false} ApplyAllAppend(players: Players, a: seq<Input>, b: seq<Input>)
    ensures ApplyAll(players, a + b) == ApplyAll(ApplyAll(players, a), b)
  {
    if b == [] {
      assert a + b == a;
    } else {
      var n := |b| - 1;
      assert (a + b)[..|a| + n] == a + b[..n];
      assert (a + b)[|a| + n] == b[n];
      ApplyAllAppend(players, a, b[..n]);
    }
  }

  // A tick without a bucket only advances the clock.
  lemma TickMeaning(s: State)
    ensures s.tick + 1 !in s.buckets ==> Tick(s) == s.(tick := s.tick + 1)
    ensures s.tick + 1 in s.buckets ==>
              Tick(s) == State(s.tick + 1, s.buckets - {s.tick + 1}, s.trackers,
                               ApplyAll(s.players, Sort(KeyBefore, s.buckets[s.tick + 1])))
  {
    if s.tick + 1 !in s.buckets {
      assert s.buckets - {s.tick + 1} == s.buckets;
    }
  }

  class Simulation {
    var currentTick: nat
    var inputsByTick: map<int, seq<Input>>
    var trackers: map<int, Tracker>
    var players: Players

    ghost function View(): State
      reads this
    {
      State(currentTick, inputsByTick, trackers, players)
    }

    constructor ()
      ensures View() == EMPTY
    {
      currentTick, inputsByTick, trackers, players := 0, map[], map[], map[];
    }

    method ValidateInput(input: Input) returns (verdict: Verdict)
      ensures verdict == Validate(View(), input)
    {
      if input.targetTick <= currentTick {
        return Rejected(StaleTick);
      }
      if input.delta > MAX_DELTA || input.delta < -MAX_DELTA {
        return Rejected(DeltaOutOfRange);
      }
      if input.sequence == 0 {
        return Rejected(SequenceRequired);
      }
      if input.userId in trackers {
        var tracker := trackers[input.userId];
        if input.sequence <= tracker.lastSequence {
          return Rejected(SequenceNotMonotonic);
        }
        if input.targetTick in tracker.perTickCount
           && tracker.perTickCount[input.targetTick] >= MAX_INPUTS_PER_TICK_PER_USER {
          return Rejected(TickInputLimit);
        }
      }
      return Accepted;
    }

    method EnqueueInput(input: Input) returns (verdict: Verdict)
      modifies this
      ensures verdict == Validate(old(View()), input)
      ensures View() == Enqueue(old(View()), input)
    {
      verdict := ValidateInput(input);
      if verdict.Rejected? {
        return;
      }
      var tracker := if input.userId in trackers then trackers[input.userId] else Tracker(0, map[]);
      var count := CountAt(tracker, input.targetTick);
      trackers := trackers[input.userId :=
        Tracker(input.sequence, tracker.perTickCount[input.targetTick := count + 1])];
      var bucket := if input.targetTick in inputsByTick then inputsByTick[input.targetTick] else [];
      inputsByTick := inputsByTick[input.targetTick := bucket + [input]];
    }

    method AddPlayer(userId: int)
      modifies this
      ensures View() == WithPlayer(old(View()), userId)
    {
      if userId !in players {
        players := players[userId := Player(0, 0)];
      }
    }

    method ApplyEvent(input: Input)
      modifies this`players
      ensures players == Apply(old(players), input)
    {
      var state := if input.userId in players then players[input.userId] else Player(0, 0);
      state := state.(position := state.position + input.delta);
      state := state.(lastSequence := input.sequence);
      players := players[input.userId := state];
    }

    method TickOnce()
      modifies this
      ensures View() == Tick(old(View()))
    {
      TickMeaning(View());
      hide Tick, Sort;
      currentTick := currentTick + 1;
      if currentTick !in inputsByTick {
        return;
      }
      var events := Sort(KeyBefore, inputsByTick[currentTick]);
      var i := 0;
      while i < |events|
        invariant 0 <= i <= |events|
        invariant players == ApplyAll(old(players), events[..i])
        invariant currentTick == old(currentTick) + 1
        invariant inputsByTick == old(inputsByTick) && trackers == old(trackers)
      {
        assert events[..i + 1][..i] == events[..i];
        ApplyEvent(events[i]);
        i := i + 1;
      }
      assert events[..i] == events;
      inputsByTick := inputsByTick - {currentTick};
    }

    method Snapshot() returns (tick: nat, rows: seq<Row>)
      ensures tick == currentTick && rows == SnapshotRows(players)
    {
      hide RowsFor, Ascending;
      var userIds := SortedUserIds();
      AscendingIsStrict(players.Keys);
      rows := RowsFor(players, []);
      for i := 0 to |userIds|
        invariant rows == RowsFor(players, userIds[..i])
      {
        RowsForStep(players, userIds, i);
        rows := rows + [RowOf(players, userIds[i])];
      }
      assert userIds[..|userIds|] == userIds;
      tick := currentTick;
    }

    // The keys of the player table are copied in hash order and then sorted.
    method SortedUserIds() returns (userIds: seq<int>)
      ensures userIds == Ascending(players.Keys)
    {
      userIds := [];
      var rest := players.Keys;
      while rest != {}
        invariant rest <= players.Keys
        invariant multiset(userIds) + multiset(rest) == multiset(players.Keys)
        decreases rest
      {
        ghost var some := Pick(rest);
        assert some in rest;
        var id :| id in rest;
        userIds, rest := userIds + [id], rest - {id};
      }
      SortedCopyIsAscending(players.Keys, userIds);
      userIds := Sort(Below, userIds);
    }
  }
}
