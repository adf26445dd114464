/** Interleaving does not matter: between two ticks, only the order of each user's own inputs counts. */
module Confluence {
  import opened Sorting
  import opened Simulations
  import opened SimulationLog

  datatype Judged = Judged(input: Input, verdict: Verdict)

  // The state after submitting some inputs one after the other.
  function SubmitAll(s: State, inputs: Log): State {
    if inputs == [] then s else Enqueue(SubmitAll(s, inputs[..|inputs| - 1]), inputs[|inputs| - 1])
  }

  // The verdicts on the way.
  function Verdicts(s: State, inputs: Log): seq<Judged> {
    if inputs == [] then []
    else
      var rest, last := inputs[..|inputs| - 1], inputs[|inputs| - 1];
      Verdicts(s, rest) + [Judged(last, Validate(SubmitAll(s, rest), last))]
  }

  function JudgedOf(history: seq<Judged>, u: int): seq<Judged> {
    if history == [] then []
    else
      var last := history[|history| - 1];
      JudgedOf(history[..|history| - 1], u) + if last.input.userId == u then [last] else []
  }

  function Kept(history: seq<Judged>): Log {
    if history == [] then []
    else
      var last := history[|history| - 1];
      Kept(history[..|history| - 1]) + if last.verdict.Accepted? then [last.input] else []
  }

  // The verdicts one user would receive if nobody else submitted anything.
  function JudgeAlone(own: Log, now: nat, inputs: Log): seq<Judged> {
    if inputs == [] then []
    else
      var before, last := JudgeAlone(own, now, inputs[..|inputs| - 1]), inputs[|inputs| - 1];
      before + [Judged(last, Judge(own + Kept(before), now, last))]
  }

  // Two interleavings of the same per-user streams.
  ghost predicate SameStreams(a: Log, b: Log) {
    forall u: int :: Of(a, u) == Of(b, u)
  }

  // A session played in rounds: some inputs, then a tick.
  function AfterRounds(users: set<int>, rounds: seq<Log>): State {
    if rounds == [] then Initial(users)
    else Tick(SubmitAll(AfterRounds(users, rounds[..|rounds| - 1]), rounds[|rounds| - 1]))
  }

  function RoundVerdicts(users: set<int>, rounds: seq<Log>): seq<Judged>
    requires rounds != []
  {
    Verdicts(AfterRounds(users, rounds[..|rounds| - 1]), rounds[|rounds| - 1])
  }

  function LogOfRounds(users: set<int>, rounds: seq<Log>): Log {
    if rounds == [] then []
    else LogOfRounds(users, rounds[..|rounds| - 1]) + Kept(RoundVerdicts(users, rounds))
  }

  // ---- One round ----

  lemma KeptAppend(history: seq<Judged>, x: Judged)
    ensures Kept(history + [x]) == Kept(history) + if x.verdict.Accepted? then [x.input] else []
  {
    assert (history + [x])[..|history|] == history;
  }

  lemma JudgedOfAppend(history: seq<Judged>, x: Judged, u: int)
    ensures JudgedOf(history + [x], u) == JudgedOf(history, u) + if x.input.userId == u then [x] else []
  {
    assert (history + [x])[..|history|] == history;
  }

  lemma KeptGrowsTheLog(log: Log, history: seq<Judged>, x: Judged)
    ensures log + Kept(history + [x])
            == if x.verdict.Accepted? then log + Kept(history) + [x.input] else log + Kept(history)
  {
    KeptAppend(history, x);
  }

  lemma SubmitOneRefines(s: State, log: Log, history: seq<Judged>, users: set<int>, x: Input)
    requires Refines(s, log + Kept(history), users)
    ensures Refines(Enqueue(s, x), log + Kept(history + [Judged(x, Validate(s, x))]), users)
    ensures Enqueue(s, x).tick == s.tick
  {
    KeptGrowsTheLog(log, history, Judged(x, Validate(s, x)));
    EnqueueRefines(s, log + Kept(history), users, x);
  }

  lemma {:induction false} SubmitAllRefines(s: State, log: Log, users: set<int>, inputs: Log)
    requires Refines(s, log, users)
    ensures Refines(SubmitAll(s, inputs), log + Kept(Verdicts(s, inputs)), users)
    ensures SubmitAll(s, inputs).tick == s.tick
  {
    if inputs == [] {
      assert log + Kept(Verdicts(s, inputs)) == log;
    } else {
      var rest, last := inputs[..|inputs| - 1], inputs[|inputs| - 1];
      var history := Verdicts(s, rest);
      SubmitAllRefines(s, log, users, rest);
      SubmitOneRefines(SubmitAll(s, rest), log, history, users, last);
    }
  }

  lemma {:induction false} KeptOfUser(history: seq<Judged>, u: int)
    ensures Of(Kept(history), u) == Kept(JudgedOf(history, u))
  {
    if history == [] {
    } else {
      var rest, last := history[..|history| - 1], history[|history| - 1];
      KeptOfUser(rest, u);
      assert history == rest + [last];
      KeptAppend(rest, last);
      JudgedOfAppend(rest, last, u);
      KeptAppend(JudgedOf(rest, u), last);
      OfAppend(Kept(rest), last.input, u);
      assert Kept(history) == if last.verdict.Accepted? then Kept(rest) + [last.input] else Kept(rest);
      assert JudgedOf(history, u) == if last.input.userId == u then JudgedOf(rest, u) + [last] else JudgedOf(rest, u);
    }
  }

  // Each user receives the verdicts that the user's own inputs deserve, whoever else submits in between.
  lemma {:induction false} VerdictsPerUser(s: State, log: Log, users: set<int>, inputs: Log, u: int)
    requires Refines(s, log, users)
    ensures JudgedOf(Verdicts(s, inputs), u) == JudgeAlone(Of(log, u), s.tick, Of(inputs, u))
  {
    if inputs == [] {
    } else {
      hide Refines, Validate, Judge, SubmitAll, Kept;
      var rest, last := inputs[..|inputs| - 1], inputs[|inputs| - 1];
      var history, before := Verdicts(s, rest), SubmitAll(s, rest);
      VerdictsPerUser(s, log, users, rest, u);
      assert inputs == rest + [last];
      OfAppend(rest, last, u);
      JudgedOfAppend(history, Judged(last, Validate(before, last)), u);
      if last.userId == u {
        SubmitAllRefines(s, log, users, rest);
        VerdictInRefined(before, log + Kept(history), users, last);
        OfConcat(log, Kept(history), u);
        KeptOfUser(history, u);
        JudgeAloneAppend(Of(log, u), s.tick, Of(rest, u), last);
      } else {
        assert Of(inputs, u) == Of(rest, u);
      }
    }
  }

  lemma VerdictInRefined(s: State, log: Log, users: set<int>, x: Input)
    requires Refines(s, log, users)
    ensures Validate(s, x) == Judge(Of(log, x.userId), s.tick, x)
  {
    hide Of, Validate, Judge, TrackersMatch, WellFormed, BucketsMatch;
    VerdictFromLog(s, log, x);
  }

  lemma JudgeAloneAppend(own: Log, now: nat, inputs: Log, x: Input)
    ensures var before := JudgeAlone(own, now, inputs);
            JudgeAlone(own, now, inputs + [x]) == before + [Judged(x, Judge(own + Kept(before), now, x))]
  {
    assert (inputs + [x])[..|inputs|] == inputs;
  }

  // ---- Equal streams, equal players ----

  lemma {:induction false} DueMultiplicity(log: Log, n: int, x: Input)
    ensures multiset(Due(log, n))[x] == if x.targetTick <= n then multiset(log)[x] else 0
  {
    if log == [] {
    } else {
      var rest, last := log[..|log| - 1], log[|log| - 1];
      DueMultiplicity(rest, n, x);
      CountLast(log, x);
      if last.targetTick <= n {
        assert Due(log, n) == Due(rest, n) + [last];
        CountAppend(Due(rest, n), last, x);
      }
    }
  }

  lemma SameStreamsSameDue(a: Log, b: Log, n: int)
    requires SameStreams(a, b)
    ensures multiset(Due(a, n)) == multiset(Due(b, n))
  {
    forall x: Input ensures multiset(Due(a, n))[x] == multiset(Due(b, n))[x] {
      DueMultiplicity(a, n, x);
      DueMultiplicity(b, n, x);
      assert Of(a, x.userId) == Of(b, x.userId);
      OfMultiplicity(a, x.userId, x);
      OfMultiplicity(b, x.userId, x);
    }
  }

  lemma SameStreamsSameSchedule(a: Log, b: Log, n: nat)
    requires WellFormed(a) && WellFormed(b) && SameStreams(a, b)
    ensures Schedule(a, n) == Schedule(b, n)
  {
    SameStreamsSameDue(a, b, n);
    ScheduleIsDue(a, n);
    ScheduleIsDue(b, n);
    ScheduleIsSorted(a, n);
    ScheduleIsSorted(b, n);
    KeysOrder();
    StrictlySortedIsUnique(LogBefore, Schedule(a, n), Schedule(b, n));
  }

  lemma SameStreamsConcat(a: Log, b: Log, c: Log, d: Log)
    requires SameStreams(a, b) && SameStreams(c, d)
    ensures SameStreams(a + c, b + d)
  {
    forall u: int ensures Of(a + c, u) == Of(b + d, u) {
      OfConcat(a, c, u);
      OfConcat(b, d, u);
      assert Of(a, u) == Of(b, u) && Of(c, u) == Of(d, u);
    }
  }

  // ---- Whole sessions ----

  lemma {:induction false} RoundsRefine(users: set<int>, rounds: seq<Log>)
    ensures Refines(AfterRounds(users, rounds), LogOfRounds(users, rounds), users)
    ensures AfterRounds(users, rounds).tick == |rounds|
  {
    if rounds == [] {
      InitialRefines(users);
    } else {
      var front := rounds[..|rounds| - 1];
      RoundsRefine(users, front);
      SubmitAllRefines(AfterRounds(users, front), LogOfRounds(users, front), users, rounds[|rounds| - 1]);
      TickRefines(SubmitAll(AfterRounds(users, front), rounds[|rounds| - 1]), LogOfRounds(users, rounds), users);
    }
  }

  lemma SameVerdictsAndStreams(s: State, t: State, a: Log, b: Log, users: set<int>, i: Log, j: Log)
    requires Refines(s, a, users) && Refines(t, b, users) && s.tick == t.tick
    requires SameStreams(a, b) && SameStreams(i, j)
    ensures forall u: int :: JudgedOf(Verdicts(s, i), u) == JudgedOf(Verdicts(t, j), u)
    ensures SameStreams(a + Kept(Verdicts(s, i)), b + Kept(Verdicts(t, j)))
  {
    forall u: int ensures JudgedOf(Verdicts(s, i), u) == JudgedOf(Verdicts(t, j), u) {
      VerdictsPerUser(s, a, users, i, u);
      VerdictsPerUser(t, b, users, j, u);
      assert Of(a, u) == Of(b, u) && Of(i, u) == Of(j, u);
    }
    forall u: int ensures Of(Kept(Verdicts(s, i)), u) == Of(Kept(Verdicts(t, j)), u) {
      KeptOfUser(Verdicts(s, i), u);
      KeptOfUser(Verdicts(t, j), u);
      assert JudgedOf(Verdicts(s, i), u) == JudgedOf(Verdicts(t, j), u);
    }
    SameStreamsConcat(a, b, Kept(Verdicts(s, i)), Kept(Verdicts(t, j)));
  }

  ghost predicate SameRounds(a: seq<Log>, b: seq<Log>) {
    |a| == |b| && forall i :: 0 <= i < |a| ==> SameStreams(a[i], b[i])
  }

  lemma {:induction false} SameRoundsSameLog(users: set<int>, a: seq<Log>, b: seq<Log>)
    requires SameRounds(a, b)
    ensures SameStreams(LogOfRounds(users, a), LogOfRounds(users, b))
    ensures a != [] ==> forall u: int :: JudgedOf(RoundVerdicts(users, a), u) == JudgedOf(RoundVerdicts(users, b), u)
  {
    if a == [] {
    } else {
      var n := |a| - 1;
      assert SameRounds(a[..n], b[..n]) by {
        forall i | 0 <= i < n ensures SameStreams(a[..n][i], b[..n][i]) {
          assert SameStreams(a[i], b[i]);
        }
      }
      SameRoundsSameLog(users, a[..n], b[..n]);
      RoundsRefine(users, a[..n]);
      RoundsRefine(users, b[..n]);
      SameVerdictsAndStreams(AfterRounds(users, a[..n]), AfterRounds(users, b[..n]),
                             LogOfRounds(users, a[..n]), LogOfRounds(users, b[..n]), users, a[n], b[n]);
    }
  }

  // Two sessions whose rounds interleave the same per-user streams show the same snapshot after every tick and give
  // every input the same verdict.
  lemma InterleavingIsUnobservable(users: set<int>, a: seq<Log>, b: seq<Log>, n: nat)
    requires SameRounds(a, b) && n <= |a|
    ensures AfterRounds(users, a[..n]).tick == AfterRounds(users, b[..n]).tick
    ensures SnapshotRows(AfterRounds(users, a[..n]).players) == SnapshotRows(AfterRounds(users, b[..n]).players)
    ensures n > 0 ==> forall u: int ::
                        JudgedOf(RoundVerdicts(users, a[..n]), u) == JudgedOf(RoundVerdicts(users, b[..n]), u)
  {
    assert SameRounds(a[..n], b[..n]) by {
      forall i | 0 <= i < n ensures SameStreams(a[..n][i], b[..n][i]) {
        assert SameStreams(a[i], b[i]);
      }
    }
    SameRoundsSameLog(users, a[..n], b[..n]);
    RoundsRefine(users, a[..n]);
    RoundsRefine(users, b[..n]);
    SameStreamsSameSchedule(LogOfRounds(users, a[..n]), LogOfRounds(users, b[..n]), n);
  }
}
