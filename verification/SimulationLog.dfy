/** The bucketed simulation refines a log: verdicts, positions and last sequences are determined by the accepted inputs
    alone. */
module SimulationLog {
  import opened Sorting
  import opened Simulations

  type Log = seq<Input>

  // The inputs of one user, in log order.
  function Of(log: Log, userId: int): Log {
    if log == [] then []
    else
      var last := log[|log| - 1];
      Of(log[..|log| - 1], userId) + if last.userId == userId then [last] else []
  }

  // The inputs for one tick, in log order.
  function At(log: Log, tick: int): Log {
    if log == [] then []
    else
      var last := log[|log| - 1];
      At(log[..|log| - 1], tick) + if last.targetTick == tick then [last] else []
  }

  // The inputs for ticks up to and including n, in log order.
  function Due(log: Log, n: int): Log {
    if log == [] then []
    else
      var last := log[|log| - 1];
      Due(log[..|log| - 1], n) + if last.targetTick <= n then [last] else []
  }

  // What the simulation answers, read off the inputs it accepted from that user before.
  function Judge(own: Log, now: nat, input: Input): Verdict {
    if input.targetTick <= now then Rejected(StaleTick)
    else if input.delta > MAX_DELTA || input.delta < -MAX_DELTA then Rejected(DeltaOutOfRange)
    else if input.sequence == 0 then Rejected(SequenceRequired)
    else if own != [] && input.sequence <= own[|own| - 1].sequence then Rejected(SequenceNotMonotonic)
    else if |At(own, input.targetTick)| >= MAX_INPUTS_PER_TICK_PER_USER then Rejected(TickInputLimit)
    else Accepted
  }

  // Tick by tick, each tick's inputs by sequence and user: the order in which a log takes effect.
  function Schedule(log: Log, n: nat): Log {
    if n == 0 then [] else Schedule(log, n - 1) + Sort(KeyBefore, At(log, n))
  }

  function Fresh(users: set<int>): Players {
    map u | u in users :: Player(0, 0)
  }

  // The state right after the players were added.
  function Initial(users: set<int>): State {
    EMPTY.(players := Fresh(users))
  }

  ghost predicate Admissible(log: Log) {
    forall i :: 0 <= i < |log| ==>
      log[i].targetTick >= 1 && -MAX_DELTA <= log[i].delta <= MAX_DELTA && log[i].sequence >= 1
  }

  ghost predicate SequencesRise(log: Log) {
    forall i, j :: 0 <= i < j < |log| && log[i].userId == log[j].userId ==> log[i].sequence < log[j].sequence
  }

  ghost predicate WithinQuota(log: Log) {
    forall u: int, t: int :: |At(Of(log, u), t)| <= MAX_INPUTS_PER_TICK_PER_USER
  }

  // Every log the simulation builds up consists of inputs that were admissible when they arrived.
  ghost predicate WellFormed(log: Log) {
    Admissible(log) && SequencesRise(log) && WithinQuota(log)
  }

  ghost predicate BucketsMatch(tick: nat, buckets: map<int, Log>, log: Log) {
    && (forall t: int :: BucketAt(buckets, t) == if t > tick then At(log, t) else [])
    && (forall t :: t in buckets ==> t > tick && buckets[t] != [])
  }

  ghost predicate Tracks(t: Tracker, own: Log) {
    && (own != [] ==> t.lastSequence == own[|own| - 1].sequence)
    && (forall tick: int :: CountAt(t, tick) == |At(own, tick)|)
  }

  ghost predicate TrackersMatch(trackers: map<int, Tracker>, log: Log) {
    forall u: int :: (u in trackers <==> Of(log, u) != []) && Tracks(TrackerOf(trackers, u), Of(log, u))
  }

  // The refinement relation between the simulation's tables and the log of accepted inputs.
  ghost predicate Refines(s: State, log: Log, users: set<int>) {
    && WellFormed(log)
    && BucketsMatch(s.tick, s.buckets, log)
    && TrackersMatch(s.trackers, log)
    && s.players == ApplyAll(Fresh(users), Schedule(log, s.tick))
  }

  // ---- Selections from logs ----

  lemma OfAppend(log: Log, x: Input, u: int)
    ensures Of(log + [x], u) == Of(log, u) + if x.userId == u then [x] else []
  {
    assert (log + [x])[..|log|] == log;
  }

  lemma AtAppend(log: Log, x: Input, t: int)
    ensures At(log + [x], t) == At(log, t) + if x.targetTick == t then [x] else []
  {
    assert (log + [x])[..|log|] == log;
  }

  lemma {:induction false} OfElements(log: Log, u: int)
    ensures forall x :: x in Of(log, u) <==> x in log && x.userId == u
  {
    if log == [] {
    } else {
      OfElements(log[..|log| - 1], u);
      assert log == log[..|log| - 1] + [log[|log| - 1]];
    }
  }

  lemma {:induction false} AtElements(log: Log, t: int)
    ensures forall x :: x in At(log, t) <==> x in log && x.targetTick == t
  {
    if log == [] {
    } else {
      AtElements(log[..|log| - 1], t);
      assert log == log[..|log| - 1] + [log[|log| - 1]];
    }
  }

  lemma {:induction false} OfAt(log: Log, u: int, t: int)
    ensures Of(At(log, t), u) == At(Of(log, u), t)
  {
    if log == [] {
    } else {
      var rest, last := log[..|log| - 1], log[|log| - 1];
      OfAt(rest, u, t);
      assert log == rest + [last];
      OfAppend(At(rest, t), last, u);
      AtAppend(Of(rest, u), last, t);
      assert At(log, t) == if last.targetTick == t then At(rest, t) + [last] else At(rest, t);
      assert Of(log, u) == if last.userId == u then Of(rest, u) + [last] else Of(rest, u);
    }
  }

  lemma LastOfIsLatest(log: Log, u: int)
    requires SequencesRise(log) && Of(log, u) != []
    ensures forall x :: x in log && x.userId == u ==> x.sequence <= Of(log, u)[|Of(log, u)| - 1].sequence
  {
    assert log[..|log|] == log;
    LastOfIsLatestIn(log, |log|, u);
  }

  lemma {:induction false} LastOfIsLatestIn(log: Log, n: nat, u: int)
    requires SequencesRise(log) && n <= |log| && Of(log[..n], u) != []
    ensures var own := Of(log[..n], u);
            forall i :: 0 <= i < n && log[i].userId == u ==> log[i].sequence <= own[|own| - 1].sequence
  {
    assert log[..n][..n - 1] == log[..n - 1];
    if log[n - 1].userId != u {
      LastOfIsLatestIn(log, n - 1, u);
    }
  }

  // ---- Steps keep the refinement ----

  lemma InitialRefines(users: set<int>)
    ensures Refines(Initial(users), [], users)
  {
  }

  // The simulation's verdict is the log's verdict.
  lemma VerdictFromLog(s: State, log: Log, input: Input)
    requires TrackersMatch(s.trackers, log)
    ensures Validate(s, input) == Judge(Of(log, input.userId), s.tick, input)
  {
    var u := input.userId;
    assert (u in s.trackers <==> Of(log, u) != []) && Tracks(TrackerOf(s.trackers, u), Of(log, u));
  }

  lemma AcceptedIsLater(log: Log, now: nat, x: Input, y: Input)
    requires SequencesRise(log) && Judge(Of(log, x.userId), now, x).Accepted?
    requires y in log && y.userId == x.userId
    ensures y.sequence < x.sequence
  {
    OfElements(log, x.userId);
    LastOfIsLatest(log, x.userId);
  }

  lemma AcceptedRises(log: Log, now: nat, x: Input)
    requires SequencesRise(log) && Judge(Of(log, x.userId), now, x).Accepted?
    ensures SequencesRise(log + [x])
  {
    var next := log + [x];
    forall i, j | 0 <= i < j < |next| && next[i].userId == next[j].userId
      ensures next[i].sequence < next[j].sequence
    {
      if j == |log| {
        assert next[i] in log;
        AcceptedIsLater(log, now, x, next[i]);
      }
    }
  }

  lemma AcceptedWithinQuota(log: Log, now: nat, x: Input)
    requires WithinQuota(log) && Judge(Of(log, x.userId), now, x).Accepted?
    ensures WithinQuota(log + [x])
  {
    forall u: int, t: int ensures |At(Of(log + [x], u), t)| <= MAX_INPUTS_PER_TICK_PER_USER {
      OfAppend(log, x, u);
      assert |At(Of(log, u), t)| <= MAX_INPUTS_PER_TICK_PER_USER;
      if u == x.userId {
        AtAppend(Of(log, u), x, t);
      } else {
        assert Of(log + [x], u) == Of(log, u);
      }
    }
  }

  lemma AcceptedExtends(log: Log, now: nat, x: Input)
    requires WellFormed(log) && Judge(Of(log, x.userId), now, x).Accepted?
    ensures WellFormed(log + [x])
  {
    AcceptedRises(log, now, x);
    AcceptedWithinQuota(log, now, x);
  }

  lemma AtIgnoresLater(log: Log, x: Input, n: int)
    requires x.targetTick != n
    ensures At(log + [x], n) == At(log, n)
  {
    AtAppend(log, x, n);
  }

  lemma {:induction false} ScheduleIgnoresLater(log: Log, x: Input, n: nat)
    requires x.targetTick > n
    ensures Schedule(log + [x], n) == Schedule(log, n)
  {
    hide Sort, At;
    if n == 0 {
    } else {
      ScheduleIgnoresLater(log, x, n - 1);
      AtIgnoresLater(log, x, n);
    }
  }

  lemma TracksAppend(t: Tracker, own: Log, x: Input)
    requires Tracks(t, own)
    ensures Tracks(Counted(t, x), own + [x])
  {
    forall tick: int ensures CountAt(Counted(t, x), tick) == |At(own + [x], tick)| {
      AtAppend(own, x, tick);
      assert CountAt(t, tick) == |At(own, tick)|;
    }
  }

  lemma TrackersAppend(trackers: map<int, Tracker>, log: Log, x: Input)
    requires TrackersMatch(trackers, log)
    ensures TrackersMatch(trackers[x.userId := Counted(TrackerOf(trackers, x.userId), x)], log + [x])
  {
    var next := trackers[x.userId := Counted(TrackerOf(trackers, x.userId), x)];
    forall u: int
      ensures (u in next <==> Of(log + [x], u) != []) && Tracks(TrackerOf(next, u), Of(log + [x], u))
    {
      OfAppend(log, x, u);
      assert (u in trackers <==> Of(log, u) != []) && Tracks(TrackerOf(trackers, u), Of(log, u));
      if u == x.userId {
        TracksAppend(TrackerOf(trackers, u), Of(log, u), x);
      } else {
        assert Of(log + [x], u) == Of(log, u);
        assert TrackerOf(next, u) == TrackerOf(trackers, u);
      }
    }
  }

  lemma BucketsAppend(tick: nat, buckets: map<int, Log>, log: Log, x: Input)
    requires BucketsMatch(tick, buckets, log) && x.targetTick > tick
    ensures BucketsMatch(tick, buckets[x.targetTick := BucketAt(buckets, x.targetTick) + [x]], log + [x])
  {
    var next := buckets[x.targetTick := BucketAt(buckets, x.targetTick) + [x]];
    forall t: int ensures BucketAt(next, t) == if t > tick then At(log + [x], t) else [] {
      AtAppend(log, x, t);
      assert BucketAt(buckets, t) == if t > tick then At(log, t) else [];
    }
  }

  lemma JudgedInTime(own: Log, now: nat, x: Input)
    ensures Judge(own, now, x).Accepted? ==> x.targetTick > now
  {
  }

  // An accepted input is appended to the log; a rejected one changes nothing.
  lemma EnqueueRefines(s: State, log: Log, users: set<int>, x: Input)
    requires Refines(s, log, users)
    ensures Refines(Enqueue(s, x), if Validate(s, x).Accepted? then log + [x] else log, users)
  {
    hide WellFormed, BucketsMatch, TrackersMatch, ApplyAll, Schedule, Validate, Judge, Of;
    JudgedInTime(Of(log, x.userId), s.tick, x);
    if Validate(s, x).Accepted? {
      VerdictFromLog(s, log, x);
      AcceptedExtends(log, s.tick, x);
      BucketsAppend(s.tick, s.buckets, log, x);
      TrackersAppend(s.trackers, log, x);
      ScheduleIgnoresLater(log, x, s.tick);
    }
  }

  lemma BucketsTick(tick: nat, buckets: map<int, Log>, log: Log)
    requires BucketsMatch(tick, buckets, log)
    ensures BucketsMatch(tick + 1, buckets - {tick + 1}, log)
    ensures BucketAt(buckets, tick + 1) == At(log, tick + 1)
  {
    var next := buckets - {tick + 1};
    forall t: int ensures BucketAt(next, t) == if t > tick + 1 then At(log, t) else [] {
      assert BucketAt(buckets, t) == if t > tick then At(log, t) else [];
    }
  }

  lemma ScheduleTick(players: Players, log: Log, n: nat)
    ensures ApplyAll(players, Schedule(log, n + 1))
            == ApplyAll(ApplyAll(players, Schedule(log, n)), Sort(KeyBefore, At(log, n + 1)))
  {
    ApplyAllAppend(players, Schedule(log, n), Sort(KeyBefore, At(log, n + 1)));
  }

  // A tick applies exactly the inputs logged for it.
  lemma TickRefines(s: State, log: Log, users: set<int>)
    requires Refines(s, log, users)
    ensures Refines(Tick(s), log, users) && Tick(s).tick == s.tick + 1
  {
    hide WellFormed, BucketsMatch, TrackersMatch, ApplyAll, Schedule, Sort, At;
    BucketsTick(s.tick, s.buckets, log);
    ScheduleTick(Fresh(users), log, s.tick);
  }

  // ---- Runs ----

  datatype Event = Submit(input: Input) | Step

  function Run(users: set<int>, events: seq<Event>): State {
    if events == [] then Initial(users)
    else
      var before := Run(users, events[..|events| - 1]);
      match events[|events| - 1]
      case Submit(input) => Enqueue(before, input)
      case Step => Tick(before)
  }

  // The accepted inputs of a run, in the order of their arrival.
  function AcceptedLog(users: set<int>, events: seq<Event>): Log {
    if events == [] then []
    else
      var before := AcceptedLog(users, events[..|events| - 1]);
      var last := events[|events| - 1];
      if last.Submit? && Validate(Run(users, events[..|events| - 1]), last.input).Accepted?
      then before + [last.input] else before
  }

  // After any run the simulation is what the log of accepted inputs says.
  lemma {:induction false} RunRefinesLog(users: set<int>, events: seq<Event>)
    ensures Refines(Run(users, events), AcceptedLog(users, events), users)
  {
    if events == [] {
      InitialRefines(users);
    } else {
      var rest := events[..|events| - 1];
      RunRefinesLog(users, rest);
      match events[|events| - 1]
      case Submit(input) => EnqueueRefines(Run(users, rest), AcceptedLog(users, rest), users, input);
      case Step => TickRefines(Run(users, rest), AcceptedLog(users, rest), users);
    }
  }

  // ---- The schedule is the sorted log ----

  // By target tick, then sequence, then user id.
  predicate LogBefore(a: Input, b: Input) {
    a.targetTick < b.targetTick || (a.targetTick == b.targetTick && KeyBefore(a, b))
  }

  lemma KeysOrder()
    ensures StrictWeakOrder(KeyBefore) && StrictWeakOrder(LogBefore)
  {
  }

  lemma {:induction false} AtRises(log: Log, t: int)
    requires SequencesRise(log)
    ensures SequencesRise(At(log, t))
  {
    if log == [] {
    } else {
      var rest, last := log[..|log| - 1], log[|log| - 1];
      AtRises(rest, t);
      AtElements(rest, t);
      var front := At(rest, t);
      forall i | 0 <= i < |front| && front[i].userId == last.userId ensures front[i].sequence < last.sequence {
        assert front[i] in rest;
      }
    }
  }

  // Within one tick no two accepted inputs share a user and a sequence.
  lemma BucketKeysDiffer(log: Log, t: int)
    requires SequencesRise(log)
    ensures AllComparable(KeyBefore, At(log, t))
  {
    AtRises(log, t);
  }

  lemma DueOnlyEarlier(log: Log, n: int)
    requires Admissible(log) && n <= 0
    ensures Due(log, n) == []
  {
  }

  lemma {:induction false} DueStep(log: Log, n: int)
    ensures multiset(Due(log, n)) == multiset(Due(log, n - 1)) + multiset(At(log, n))
  {
    if log == [] {
    } else {
      DueStep(log[..|log| - 1], n);
    }
  }

  lemma {:induction false} ScheduleIsDue(log: Log, n: nat)
    requires Admissible(log)
    ensures multiset(Schedule(log, n)) == multiset(Due(log, n))
  {
    hide Admissible, At, Due, Sort;
    if n == 0 {
      DueOnlyEarlier(log, 0);
    } else {
      ScheduleIsDue(log, n - 1);
      DueStep(log, n);
    }
  }

  lemma ScheduleTicks(log: Log, n: nat)
    requires Admissible(log)
    ensures forall x :: x in Schedule(log, n) ==> x in log && x.targetTick <= n
  {
    ScheduleIsDue(log, n);
    DueElements(log, n);
    forall x | x in Schedule(log, n) ensures x in log && x.targetTick <= n {
      assert x in multiset(Schedule(log, n));
      assert x in Due(log, n);
    }
  }

  lemma {:induction false} DueElements(log: Log, n: int)
    ensures forall x :: x in Due(log, n) <==> x in log && x.targetTick <= n
  {
    if log == [] {
    } else {
      DueElements(log[..|log| - 1], n);
      assert log == log[..|log| - 1] + [log[|log| - 1]];
    }
  }

  lemma SortedBucket(log: Log, t: int)
    requires SequencesRise(log)
    ensures StrictlySorted(KeyBefore, Sort(KeyBefore, At(log, t)))
    ensures forall x :: x in Sort(KeyBefore, At(log, t)) ==> x.targetTick == t
  {
    var bucket := Sort(KeyBefore, At(log, t));
    KeysOrder();
    BucketKeysDiffer(log, t);
    SortStrictly(KeyBefore, At(log, t));
    AtElements(log, t);
    forall x | x in bucket ensures x.targetTick == t {
      assert x in multiset(bucket);
    }
  }

  lemma SortedBucketInLogOrder(log: Log, t: int)
    requires SequencesRise(log)
    ensures StrictlySorted(LogBefore, Sort(KeyBefore, At(log, t)))
  {
    SortedBucket(log, t);
    var bucket := Sort(KeyBefore, At(log, t));
    forall i, j | 0 <= i < j < |bucket| ensures LogBefore(bucket[i], bucket[j]) {
      assert bucket[i] in bucket && bucket[j] in bucket;
    }
  }

  lemma LaterTickFollows(front: Log, bucket: Log, n: int)
    requires StrictlySorted(LogBefore, front) && StrictlySorted(LogBefore, bucket)
    requires forall x :: x in front ==> x.targetTick < n
    requires forall x :: x in bucket ==> x.targetTick == n
    ensures StrictlySorted(LogBefore, front + bucket)
  {
    SortedConcat(LogBefore, front, bucket);
  }

  lemma {:induction false} ScheduleIsSorted(log: Log, n: nat)
    requires Admissible(log) && SequencesRise(log)
    ensures StrictlySorted(LogBefore, Schedule(log, n))
  {
    hide LogBefore, KeyBefore, Sort, At, StrictlySorted, Admissible, SequencesRise;
    if n == 0 {
      NothingToSort<Input>(LogBefore);
    } else {
      ScheduleIsSorted(log, n - 1);
      ScheduleTicks(log, n - 1);
      SortedBucket(log, n);
      SortedBucketInLogOrder(log, n);
      LaterTickFollows(Schedule(log, n - 1), Sort(KeyBefore, At(log, n)), n);
    }
  }

  // The simulation's schedule is the list of due accepted inputs sorted by (tick, sequence, user): each of them
  // once, at its target tick.
  lemma ScheduleIsTheSortedLog(log: Log, n: nat)
    requires WellFormed(log)
    ensures Schedule(log, n) == Sort(LogBefore, Due(log, n))
  {
    var schedule, due := Schedule(log, n), Due(log, n);
    KeysOrder();
    ScheduleIsDue(log, n);
    ScheduleIsSorted(log, n);
    DueRises(log, n);
    SortStrictly(LogBefore, due);
    StrictlySortedIsUnique(LogBefore, schedule, Sort(LogBefore, due));
  }

  lemma {:induction false} DueRises(log: Log, n: int)
    requires SequencesRise(log)
    ensures SequencesRise(Due(log, n)) && AllComparable(LogBefore, Due(log, n))
  {
    if log == [] {
    } else {
      var rest, last := log[..|log| - 1], log[|log| - 1];
      DueRises(rest, n);
      DueElements(rest, n);
      var front := Due(rest, n);
      forall i | 0 <= i < |front| && front[i].userId == last.userId ensures front[i].sequence < last.sequence {
        assert front[i] in rest;
      }
    }
  }

  // After any run, positions and last sequences are a fold over the accepted inputs that are due, sorted by
  // (tick, sequence, user), and every remaining bucket lies strictly in the future.
  lemma RunIsSortedReplay(users: set<int>, events: seq<Event>)
    ensures var s, log := Run(users, events), AcceptedLog(users, events);
            && s.players == ApplyAll(Fresh(users), Sort(LogBefore, Due(log, s.tick)))
            && (forall t :: t in s.buckets ==> t > s.tick && s.buckets[t] == At(log, t) != [])
  {
    var s, log := Run(users, events), AcceptedLog(users, events);
    RunRefinesLog(users, events);
    ScheduleIsTheSortedLog(log, s.tick);
    forall t | t in s.buckets ensures s.buckets[t] == At(log, t) {
      assert BucketAt(s.buckets, t) == At(log, t);
    }
  }

  // ---- Positions ----

  function SumOfDeltas(log: Log): int {
    if log == [] then 0 else SumOfDeltas(log[..|log| - 1]) + log[|log| - 1].delta
  }

  lemma SumAppend(log: Log, x: Input)
    ensures SumOfDeltas(log + [x]) == SumOfDeltas(log) + x.delta
  {
    assert (log + [x])[..|log|] == log;
  }

  // Whoever has no entry yet stands at the origin.
  function PositionOf(players: Players, u: int): int {
    if u in players then players[u].position else 0
  }

  lemma {:induction false} PositionIsSum(players: Players, events: Log, u: int)
    ensures PositionOf(ApplyAll(players, events), u) == PositionOf(players, u) + SumOfDeltas(Of(events, u))
  {
    if events == [] {
    } else {
      var rest, last := events[..|events| - 1], events[|events| - 1];
      PositionIsSum(players, rest, u);
      assert events == rest + [last];
      if last.userId == u {
        SumAppend(Of(rest, u), last);
      } else {
        assert Of(events, u) == Of(rest, u);
      }
    }
  }

  lemma {:induction false} SumIsBounded(log: Log)
    requires forall x :: x in log ==> -MAX_DELTA <= x.delta <= MAX_DELTA
    ensures -MAX_DELTA * |log| <= SumOfDeltas(log) <= MAX_DELTA * |log|
  {
    if log == [] {
    } else {
      assert log[|log| - 1] in log;
      SumIsBounded(log[..|log| - 1]);
    }
  }

  lemma CountAppend(log: Log, last: Input, x: Input)
    ensures multiset(log + [last])[x] == multiset(log)[x] + if x == last then 1 else 0
  {
  }

  lemma CountLast(log: Log, x: Input)
    requires log != []
    ensures multiset(log)[x] == multiset(log[..|log| - 1])[x] + if x == log[|log| - 1] then 1 else 0
  {
    assert log == log[..|log| - 1] + [log[|log| - 1]];
    CountAppend(log[..|log| - 1], log[|log| - 1], x);
  }

  lemma {:induction false} OfMultiplicity(log: Log, u: int, x: Input)
    ensures multiset(Of(log, u))[x] == if x.userId == u then multiset(log)[x] else 0
  {
    if log == [] {
    } else {
      OfMultiplicity(log[..|log| - 1], u, x);
      assert log == log[..|log| - 1] + [log[|log| - 1]];
    }
  }

  lemma OfPermuted(a: Log, b: Log, u: int)
    requires multiset(a) == multiset(b)
    ensures multiset(Of(a, u)) == multiset(Of(b, u))
    ensures |Of(a, u)| == |Of(b, u)|
  {
    forall x: Input ensures multiset(Of(a, u))[x] == multiset(Of(b, u))[x] {
      OfMultiplicity(a, u, x);
      OfMultiplicity(b, u, x);
    }
    assert multiset(Of(a, u)) == multiset(Of(b, u));
    assert |multiset(Of(a, u))| == |Of(a, u)| && |multiset(Of(b, u))| == |Of(b, u)|;
  }

  lemma {:induction false} OfConcat(a: Log, b: Log, u: int)
    ensures Of(a + b, u) == Of(a, u) + Of(b, u)
  {
    if b == [] {
      assert a + b == a;
    } else {
      OfConcat(a, b[..|b| - 1], u);
      assert (a + b)[..|a| + |b| - 1] == a + b[..|b| - 1];
    }
  }

  lemma {:induction false} ScheduleQuota(log: Log, u: int, n: nat)
    requires WithinQuota(log)
    ensures |Of(Schedule(log, n), u)| <= MAX_INPUTS_PER_TICK_PER_USER * n
  {
    if n == 0 {
    } else {
      ScheduleQuota(log, u, n - 1);
      OfConcat(Schedule(log, n - 1), Sort(KeyBefore, At(log, n)), u);
      OfPermuted(Sort(KeyBefore, At(log, n)), At(log, n), u);
      OfAt(log, u, n);
      assert |At(Of(log, u), n)| <= MAX_INPUTS_PER_TICK_PER_USER;
    }
  }

  // Per user at most 4 inputs of at most 3 each take effect per tick, so nobody is ever further than 12 per tick
  // from the origin.
  lemma PositionBound(s: State, log: Log, users: set<int>, u: int)
    requires Refines(s, log, users) && u in s.players
    ensures -12 * s.tick <= s.players[u].position <= 12 * s.tick
  {
    var schedule := Schedule(log, s.tick);
    PositionIsSum(Fresh(users), schedule, u);
    ScheduleQuota(log, u, s.tick);
    ScheduleTicks(log, s.tick);
    OfElements(schedule, u);
    forall x | x in Of(schedule, u) ensures -MAX_DELTA <= x.delta <= MAX_DELTA {
      assert x in log;
    }
    SumIsBounded(Of(schedule, u));
  }

  // The quota counter of a user and tick is the number of that user's pending inputs in that bucket, at most 4.
  lemma QuotaCountsPending(s: State, log: Log, users: set<int>, u: int, t: int)
    requires Refines(s, log, users) && t > s.tick
    ensures CountAt(TrackerOf(s.trackers, u), t) == |Of(BucketAt(s.buckets, t), u)| <= MAX_INPUTS_PER_TICK_PER_USER
  {
    assert Tracks(TrackerOf(s.trackers, u), Of(log, u));
    assert BucketAt(s.buckets, t) == At(log, t);
    OfAt(log, u, t);
    assert |At(Of(log, u), t)| <= MAX_INPUTS_PER_TICK_PER_USER;
  }

  // ---- Last sequences ----

  lemma {:induction false} LastApplied(players: Players, events: Log, u: int)
    ensures var own, after := Of(events, u), ApplyAll(players, events);
            if own == [] then (u in after <==> u in players) && (u in after ==> after[u] == players[u])
            else u in after && after[u].lastSequence == own[|own| - 1].sequence
  {
    if events == [] {
    } else {
      LastApplied(players, events[..|events| - 1], u);
    }
  }

  lemma {:induction false} OfKeepsOrder(log: Log, u: int)
    requires StrictlySorted(LogBefore, log)
    ensures StrictlySorted(LogBefore, Of(log, u))
  {
    if log == [] {
    } else {
      var rest, last := log[..|log| - 1], log[|log| - 1];
      OfKeepsOrder(rest, u);
      OfElements(rest, u);
      forall x | x in Of(rest, u) ensures LogBefore(x, last) {
        BeforeLast(log, x);
      }
      OneMoreInOrder(Of(rest, u), last);
    }
  }

  lemma BeforeLast(log: Log, x: Input)
    requires StrictlySorted(LogBefore, log) && log != [] && x in log[..|log| - 1]
    ensures LogBefore(x, log[|log| - 1])
  {
    var i :| 0 <= i < |log| - 1 && log[i] == x;
  }

  lemma OneMoreInOrder(log: Log, x: Input)
    requires StrictlySorted(LogBefore, log) && forall y :: y in log ==> LogBefore(y, x)
    ensures StrictlySorted(LogBefore, log + [x])
  {
  }

  lemma ScheduleElements(log: Log, n: nat)
    requires Admissible(log)
    ensures forall x :: x in Schedule(log, n) <==> x in log && x.targetTick <= n
  {
    ScheduleIsDue(log, n);
    DueElements(log, n);
    forall x ensures x in Schedule(log, n) <==> x in Due(log, n) {
      assert x in multiset(Schedule(log, n)) <==> x in multiset(Due(log, n));
    }
  }

  // x takes effect last among the user's inputs due by tick n: its tick is the latest, and in that tick its sequence.
  ghost predicate TakesEffectLast(log: Log, u: int, n: int, x: Input) {
    && x in log && x.userId == u && x.targetTick <= n
    && forall y :: y in log && y.userId == u && y.targetTick <= n && y != x ==>
         y.targetTick < x.targetTick || (y.targetTick == x.targetTick && y.sequence < x.sequence)
  }

  lemma LastOfSchedule(log: Log, u: int, n: nat)
    requires WellFormed(log)
    ensures var own := Of(Schedule(log, n), u);
            if own == [] then forall x :: x in log && x.userId == u ==> x.targetTick > n
            else TakesEffectLast(log, u, n, own[|own| - 1])
  {
    hide Sort, At, Due, WithinQuota;
    var own := Of(Schedule(log, n), u);
    ScheduleElements(log, n);
    OfElements(Schedule(log, n), u);
    forall x ensures x in own <==> x in log && x.userId == u && x.targetTick <= n {
    }
    if own != [] {
      ScheduleIsSorted(log, n);
      OfKeepsOrder(Schedule(log, n), u);
      assert own[|own| - 1] in own;
      forall y | y in own && y != own[|own| - 1]
        ensures y.targetTick < own[|own| - 1].targetTick
                || (y.targetTick == own[|own| - 1].targetTick && y.sequence < own[|own| - 1].sequence)
      {
        NotLastIsBefore(own, y);
      }
    }
  }

  lemma NotLastIsBefore(own: Log, y: Input)
    requires StrictlySorted(LogBefore, own) && y in own && y != own[|own| - 1]
    ensures LogBefore(y, own[|own| - 1])
  {
    var i :| 0 <= i < |own| && own[i] == y;
  }

  // A player's last sequence after any run: that of the accepted input that took effect last, or 0 without one.
  lemma LastSequenceAfterRun(users: set<int>, events: seq<Event>, u: int)
    ensures var s, log := Run(users, events), AcceptedLog(users, events);
            if exists x :: x in log && x.userId == u && x.targetTick <= s.tick
            then u in s.players
                 && exists x :: TakesEffectLast(log, u, s.tick, x) && s.players[u].lastSequence == x.sequence
            else (u in s.players <==> u in users)
                 && (u in s.players ==> s.players[u].lastSequence == 0 && s.players[u].position == 0)
  {
    hide Run, AcceptedLog, Schedule, BucketsMatch, TrackersMatch;
    var s, log := Run(users, events), AcceptedLog(users, events);
    RunRefinesLog(users, events);
    LastOfSchedule(log, u, s.tick);
    LastApplied(Fresh(users), Schedule(log, s.tick), u);
    var own := Of(Schedule(log, s.tick), u);
    if own != [] {
      assert TakesEffectLast(log, u, s.tick, own[|own| - 1]);
    }
  }

  // ---- Verdicts ----

  function StepsIn(events: seq<Event>): nat {
    if events == [] then 0 else StepsIn(events[..|events| - 1]) + if events[|events| - 1].Step? then 1 else 0
  }

  lemma {:induction false} TickCountsSteps(users: set<int>, events: seq<Event>)
    ensures Run(users, events).tick == StepsIn(events)
  {
    hide Validate, Sort;
    if events == [] {
    } else {
      TickCountsSteps(users, events[..|events| - 1]);
    }
  }

  // The inputs a user has had accepted for one tick.
  function AcceptedFor(log: Log, u: int, t: int): Log {
    At(Of(log, u), t)
  }

  // The verdict on an input after any run, reason by reason: the first of the five refusals that applies, or else
  // acceptance.
  lemma VerdictAfterRun(users: set<int>, events: seq<Event>, x: Input)
    ensures var s, log, v := Run(users, events), AcceptedLog(users, events), Validate(Run(users, events), x);
            var stale := x.targetTick <= StepsIn(events);
            var wild := !(-3 <= x.delta <= 3);
            var repeated := exists y :: y in log && y.userId == x.userId && x.sequence <= y.sequence;
            var full := |AcceptedFor(log, x.userId, x.targetTick)| >= 4;
            && (v == Rejected(StaleTick) <==> stale)
            && (v == Rejected(DeltaOutOfRange) <==> !stale && wild)
            && (v == Rejected(SequenceRequired) <==> !stale && !wild && x.sequence == 0)
            && (v == Rejected(SequenceNotMonotonic) <==> !stale && !wild && x.sequence > 0 && repeated)
            && (v == Rejected(TickInputLimit) <==> !stale && !wild && x.sequence > 0 && !repeated && full)
            && (v == Accepted <==> !stale && !wild && x.sequence > 0 && !repeated && !full)
  {
    hide Run, AcceptedLog, Validate, StepsIn, Of, At, WellFormed, BucketsMatch, TrackersMatch, Schedule;
    var s, log := Run(users, events), AcceptedLog(users, events);
    RunRefinesLog(users, events);
    TickCountsSteps(users, events);
    VerdictFromLog(s, log, x);
    LogRises(log);
    LatestOfUser(log, x.userId, x.sequence);
  }

  lemma LogRises(log: Log)
    requires WellFormed(log)
    ensures SequencesRise(log)
  {
  }

  lemma LatestOfUser(log: Log, u: int, sequence: nat)
    requires SequencesRise(log)
    ensures (exists y :: y in log && y.userId == u && sequence <= y.sequence)
            <==> Of(log, u) != [] && sequence <= Of(log, u)[|Of(log, u)| - 1].sequence
  {
    OfElements(log, u);
    if Of(log, u) != [] {
      LastOfIsLatest(log, u);
      assert Of(log, u)[|Of(log, u)| - 1] in Of(log, u);
    }
  }

  // ---- Full speed ----

  // The inputs of one tick of a user who uses the whole quota.
  function Burst(u: int, delta: int, tick: nat): Log
    requires tick > 0
  {
    var before := 4 * (tick - 1);
    [Input(u, tick, delta, before + 1), Input(u, tick, delta, before + 2),
     Input(u, tick, delta, before + 3), Input(u, tick, delta, before + 4)]
  }

  function FullSpeed(u: int, delta: int, n: nat): seq<Event> {
    if n == 0 then []
    else
      var b := Burst(u, delta, n);
      FullSpeed(u, delta, n - 1) + [Submit(b[0]), Submit(b[1]), Submit(b[2]), Submit(b[3])] + [Step]
  }

  ghost predicate OnlyBursts(log: Log, u: int, delta: int, n: nat, last: nat) {
    && |log| == last
    && (forall i :: 0 <= i < |log| ==>
          log[i].userId == u && log[i].delta == delta && 1 <= log[i].targetTick <= n && 1 <= log[i].sequence <= last)
  }

  lemma {:induction false} NothingAt(log: Log, t: int)
    requires forall i :: 0 <= i < |log| ==> log[i].targetTick != t
    ensures At(log, t) == []
  {
    if log == [] {
    } else {
      NothingAt(log[..|log| - 1], t);
    }
  }

  lemma {:induction false} AllOf(log: Log, u: int)
    requires forall i :: 0 <= i < |log| ==> log[i].userId == u
    ensures Of(log, u) == log
  {
    if log == [] {
    } else {
      AllOf(log[..|log| - 1], u);
    }
  }

  // One more input for the coming tick, as long as the quota lasts.
  lemma OneMoreInput(users: set<int>, events: seq<Event>, u: int, delta: int, n: nat, k: nat)
    requires -3 <= delta <= 3 && n > 0 && k < 4 && StepsIn(events) == n - 1
    requires var log := AcceptedLog(users, events);
             OnlyBursts(log, u, delta, n, 4 * (n - 1) + k) && |At(log, n)| == k
    ensures var x := Input(u, n, delta, 4 * (n - 1) + k + 1);
            var log, next := AcceptedLog(users, events), AcceptedLog(users, events + [Submit(x)]);
            && Validate(Run(users, events), x) == Accepted
            && next == log + [x] && OnlyBursts(next, u, delta, n, 4 * (n - 1) + k + 1) && |At(next, n)| == k + 1
            && StepsIn(events + [Submit(x)]) == n - 1
  {
    hide Run, Validate, AcceptedLog, StepsIn, At, Of;
    var x, log := Input(u, n, delta, 4 * (n - 1) + k + 1), AcceptedLog(users, events);
    VerdictAfterRun(users, events, x);
    AllOf(log, u);
    AtAppend(log, x, n);
    OneSubmit(users, events, x);
  }

  lemma OneSubmit(users: set<int>, events: seq<Event>, x: Input)
    ensures AcceptedLog(users, events + [Submit(x)])
            == AcceptedLog(users, events) + if Validate(Run(users, events), x).Accepted? then [x] else []
    ensures StepsIn(events + [Submit(x)]) == StepsIn(events)
  {
    hide Run, Validate;
    assert (events + [Submit(x)])[..|events|] == events;
  }

  lemma OneStep(users: set<int>, events: seq<Event>)
    ensures AcceptedLog(users, events + [Step]) == AcceptedLog(users, events)
    ensures StepsIn(events + [Step]) == StepsIn(events) + 1
  {
    hide Run;
    assert (events + [Step])[..|events|] == events;
  }

  lemma {:induction false} BurstsAreAccepted(users: set<int>, u: int, delta: int, n: nat)
    requires -3 <= delta <= 3
    ensures OnlyBursts(AcceptedLog(users, FullSpeed(u, delta, n)), u, delta, n, 4 * n)
    ensures StepsIn(FullSpeed(u, delta, n)) == n
  {
    hide AcceptedLog, Run, Validate, At, StepsIn, OnlyBursts;
    if n == 0 {
      NothingAccepted(users, u, delta);
    } else {
      var b, events := Burst(u, delta, n), FullSpeed(u, delta, n - 1);
      BurstsAreAccepted(users, u, delta, n - 1);
      NoneForNext(AcceptedLog(users, events), u, delta, n);
      OneMoreInput(users, events, u, delta, n, 0);
      OneMoreInput(users, events + [Submit(b[0])], u, delta, n, 1);
      OneMoreInput(users, events + [Submit(b[0])] + [Submit(b[1])], u, delta, n, 2);
      OneMoreInput(users, events + [Submit(b[0])] + [Submit(b[1])] + [Submit(b[2])], u, delta, n, 3);
      OneStep(users, events + [Submit(b[0])] + [Submit(b[1])] + [Submit(b[2])] + [Submit(b[3])]);
      OneByOne(events, Submit(b[0]), Submit(b[1]), Submit(b[2]), Submit(b[3]));
    }
  }

  lemma OneByOne<T>(s: seq<T>, a: T, b: T, c: T, d: T)
    ensures s + [a] + [b] + [c] + [d] == s + [a, b, c, d]
  {
  }

  lemma NoneForNext(log: Log, u: int, delta: int, n: nat)
    requires n > 0 && OnlyBursts(log, u, delta, n - 1, 4 * (n - 1))
    ensures OnlyBursts(log, u, delta, n, 4 * (n - 1)) && At(log, n) == []
  {
    NothingAt(log, n);
  }

  lemma NothingAccepted(users: set<int>, u: int, delta: int)
    ensures OnlyBursts(AcceptedLog(users, []), u, delta, 0, 0) && StepsIn([]) == 0
  {
  }

  lemma {:induction false} SumOfEqual(log: Log, delta: int)
    requires forall i :: 0 <= i < |log| ==> log[i].delta == delta
    ensures SumOfDeltas(log) == delta * |log|
  {
    if log == [] {
    } else {
      SumOfEqual(log[..|log| - 1], delta);
      assert delta * |log| == delta * (|log| - 1) + delta;
    }
  }

  // The bound of 12 per tick is reached in either direction: four inputs of three each are accepted for every tick.
  lemma TwelvePerTickIsReached(users: set<int>, u: int, delta: int, n: nat)
    requires -3 <= delta <= 3 && u in users
    ensures var s := Run(users, FullSpeed(u, delta, n));
            s.tick == n && u in s.players && s.players[u].position == 4 * delta * n
  {
    hide Run, AcceptedLog, Schedule, FullSpeed, StepsIn, BucketsMatch, TrackersMatch;
    var events := FullSpeed(u, delta, n);
    var s, log := Run(users, events), AcceptedLog(users, events);
    BurstsAreAccepted(users, u, delta, n);
    TickCountsSteps(users, events);
    RunRefinesLog(users, events);
    var schedule := Schedule(log, n);
    PositionIsSum(Fresh(users), schedule, u);
    LastApplied(Fresh(users), schedule, u);
    hide OnlyBursts, WellFormed;
    EverythingScheduled(log, u, delta, n);
  }

  lemma EverythingScheduled(log: Log, u: int, delta: int, n: nat)
    requires WellFormed(log) && OnlyBursts(log, u, delta, n, 4 * n)
    ensures var schedule := Schedule(log, n);
            Of(schedule, u) == schedule && SumOfDeltas(schedule) == 4 * delta * n
  {
    hide Schedule, WithinQuota, Of, SumOfDeltas, Due;
    var schedule := Schedule(log, n);
    ScheduleElements(log, n);
    forall i | 0 <= i < |schedule| ensures schedule[i].delta == delta && schedule[i].userId == u {
      assert schedule[i] in log;
    }
    AllOf(schedule, u);
    SumOfEqual(schedule, delta);
    AllScheduled(log, n);
    assert delta * (4 * n) == 4 * delta * n;
  }

  lemma AllScheduled(log: Log, n: nat)
    requires Admissible(log) && forall i :: 0 <= i < |log| ==> log[i].targetTick <= n
    ensures |Schedule(log, n)| == |log|
  {
    hide Schedule, Due;
    ScheduleIsDue(log, n);
    AllDue(log, n);
    assert |multiset(Schedule(log, n))| == |Schedule(log, n)| && |multiset(log)| == |log|;
  }

  lemma {:induction false} AllDue(log: Log, n: int)
    requires forall i :: 0 <= i < |log| ==> log[i].targetTick <= n
    ensures Due(log, n) == log
  {
    if log == [] {
    } else {
      AllDue(log[..|log| - 1], n);
    }
  }
}
