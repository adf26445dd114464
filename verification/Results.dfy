/** Saving a session result once, and applying it to the ratings. */
module Results {
  import opened Basics
  import opened Ratings
  import opened RatingServices
  import opened Sessions

  type Records = map<SessionId, Record>

  // The first record of a session wins.
  function Saved(records: Records, record: Record): Records {
    if record.sessionId in records then records else records[record.sessionId := record]
  }

  // The repository after some attempts to save, one after the other.
  function SavedAll(attempts: seq<Record>): Records {
    if attempts == [] then map[] else Saved(SavedAll(attempts[..|attempts| - 1]), attempts[|attempts| - 1])
  }

  function SessionsIn(attempts: seq<Record>): set<SessionId> {
    set r | r in attempts :: r.sessionId
  }

  // The i-th attempt was the first for its session.
  predicate FirstFor(attempts: seq<Record>, i: nat, id: SessionId) {
    i < |attempts| && attempts[i].sessionId == id && forall j :: 0 <= j < i ==> attempts[j].sessionId != id
  }

  lemma {:induction false} TriedIsSaved(attempts: seq<Record>)
    ensures SavedAll(attempts).Keys == SessionsIn(attempts)
  {
    if attempts == [] {
    } else {
      var rest, last := attempts[..|attempts| - 1], attempts[|attempts| - 1];
      TriedIsSaved(rest);
      assert attempts == rest + [last];
      assert SessionsIn(attempts) == SessionsIn(rest) + {last.sessionId};
    }
  }

  lemma {:induction false} FirstIsKept(attempts: seq<Record>, i: nat, id: SessionId)
    requires FirstFor(attempts, i, id)
    ensures id in SavedAll(attempts) && SavedAll(attempts)[id] == attempts[i]
  {
    var rest := attempts[..|attempts| - 1];
    if i == |rest| {
      TriedIsSaved(rest);
    } else {
      FirstIsKept(rest, i, id);
    }
  }

  // After any attempts a record exists exactly for the sessions that were tried, the one found is the first one tried,
  // and there are as many as there are sessions.
  lemma FirstSaveWins(attempts: seq<Record>)
    ensures SavedAll(attempts).Keys == SessionsIn(attempts)
    ensures |SavedAll(attempts)| == |SessionsIn(attempts)|
    ensures forall i: nat, id :: FirstFor(attempts, i, id) ==>
              id in SavedAll(attempts) && SavedAll(attempts)[id] == attempts[i]
  {
    TriedIsSaved(attempts);
    assert |SavedAll(attempts)| == |SavedAll(attempts).Keys|;
    forall i: nat, id | FirstFor(attempts, i, id)
      ensures id in SavedAll(attempts) && SavedAll(attempts)[id] == attempts[i]
    {
      FirstIsKept(attempts, i, id);
    }
  }

  // The second user if the first one won, and the first user otherwise.
  function LoserOf(record: Record): int {
    if record.winner == record.user1 then record.user2 else record.user1
  }

  function Named(entries: Entries, participants: seq<Participant>): Entries {
    if participants == [] then entries
    else
      var last := participants[|participants| - 1];
      WithUser(Named(entries, participants[..|participants| - 1]), last.userId, last.username)
  }

  // The entries a finalization leaves: users are named and ensured, then the match is applied.
  function Finalized(entries: Entries, record: Record, participants: seq<Participant>): Entries {
    var named := WithUser(WithUser(Named(entries, participants), record.user1, ""), record.user2, "");
    WithMatch(named, record.winner, LoserOf(record))
  }

  lemma {:induction false} NamedKeepsStandings(entries: Entries, participants: seq<Participant>)
    ensures SameStandings(Named(entries, participants), entries)
    ensures Conserved(entries) ==> Conserved(Named(entries, participants))
  {
    if participants == [] {
    } else {
      var rest, last := participants[..|participants| - 1], participants[|participants| - 1];
      NamedKeepsStandings(entries, rest);
      NamingKeepsStandings(Named(entries, rest), last.userId, last.username);
      if Conserved(entries) {
        NamingConserves(Named(entries, rest), last.userId, last.username);
      }
    }
  }

  // A finalization changes the standings exactly as its one match does, and keeps the sum of ratings.
  lemma FinalizedIsOneMatch(entries: Entries, record: Record, participants: seq<Participant>)
    requires record.winner != LoserOf(record)
    ensures SameStandings(Finalized(entries, record, participants), WithMatch(entries, record.winner, LoserOf(record)))
    ensures Conserved(entries) ==> Conserved(Finalized(entries, record, participants))
  {
    var a := Named(entries, participants);
    var b := WithUser(a, record.user1, "");
    var c := WithUser(b, record.user2, "");
    NamedKeepsStandings(entries, participants);
    NamingKeepsStandings(a, record.user1, "");
    NamingKeepsStandings(b, record.user2, "");
    assert SameStandings(c, entries);
    MatchRespectsStandings(c, entries, record.winner, LoserOf(record));
    if Conserved(entries) {
      NamingConserves(a, record.user1, "");
      NamingConserves(b, record.user2, "");
      MatchConserves(c, record.winner, LoserOf(record));
    }
  }

  // A finalization is a sequence of calls: one naming per participant, two that only ensure an entry, and one match.
  lemma FinalizedIsCalls(entries: Entries, record: Record, one: Participant, two: Participant)
    ensures Finalized(entries, record, [one, two])
            == AfterCalls(entries, [Name(one.userId, one.username), Name(two.userId, two.username),
                                    Name(record.user1, ""), Name(record.user2, ""),
                                    Match(record.winner, LoserOf(record))])
  {
    hide WithUser, WithMatch, AfterCalls, Named;
    var a, b := Name(one.userId, one.username), Name(two.userId, two.username);
    var c, d, m := Name(record.user1, ""), Name(record.user2, ""), Match(record.winner, LoserOf(record));
    NamedBoth(entries, one, two);
    CallAppended(entries, [], a);
    CallAppended(entries, [a], b);
    CallAppended(entries, [a, b], c);
    CallAppended(entries, [a, b, c], d);
    CallAppended(entries, [a, b, c, d], m);
    assert [] + [a] == [a] && [a] + [b] == [a, b] && [a, b] + [c] == [a, b, c];
    assert [a, b, c] + [d] == [a, b, c, d] && [a, b, c, d] + [m] == [a, b, c, d, m];
    NothingCalled(entries);
  }

  lemma NamedBoth(entries: Entries, one: Participant, two: Participant)
    ensures Named(entries, [one, two])
            == WithUser(WithUser(entries, one.userId, one.username), two.userId, two.username)
  {
    hide WithUser;
    assert [one, two][..1] == [one] && [one][..0] == [];
    assert Named(entries, []) == entries;
    assert Named(entries, [one]) == WithUser(entries, one.userId, one.username);
  }

  lemma CallAppended(entries: Entries, calls: seq<Ratings.Call>, c: Ratings.Call)
    ensures AfterCalls(entries, calls + [c]) == AfterCall(AfterCalls(entries, calls), c)
  {
    hide AfterCall;
    assert (calls + [c])[..|calls|] == calls;
  }

  lemma NothingCalled(entries: Entries)
    ensures AfterCalls(entries, []) == entries
  {
  }

  class ResultRepository {
    var records: Records
    // Every record anybody tried to save, in order.
    ghost var attempts: seq<Record>

    ghost predicate Valid()
      reads this
    {
      records == SavedAll(attempts)
    }

    constructor ()
      ensures records == map[] && attempts == [] && Valid()
    {
      records, attempts := map[], [];
    }

    method SaveIfAbsent(record: Record) returns (saved: bool)
      modifies this
      ensures saved <==> record.sessionId !in old(records)
      ensures records == Saved(old(records), record)
      ensures saved ==> |records| == old(|records|) + 1
      ensures attempts == old(attempts) + [record] && (old(Valid()) ==> Valid())
    {
      assert (attempts + [record])[..|attempts|] == attempts;
      attempts := attempts + [record];
      if record.sessionId in records {
        return false;
      }
      assert records[record.sessionId := record].Keys == records.Keys + {record.sessionId};
      records := records[record.sessionId := record];
      return true;
    }

    method Exists(id: SessionId) returns (found: bool)
      requires Valid()
      ensures found <==> id in SessionsIn(attempts)
    {
      FirstSaveWins(attempts);
      found := id in records;
    }

    method Count() returns (n: nat)
      requires Valid()
      ensures n == |SessionsIn(attempts)|
    {
      FirstSaveWins(attempts);
      n := |records|;
    }

    method Find(id: SessionId) returns (record: Option<Record>)
      requires Valid()
      ensures record == if id in records then Some(records[id]) else None
      ensures record.None? <==> id !in SessionsIn(attempts)
      ensures forall i: nat :: FirstFor(attempts, i, id) ==> record == Some(attempts[i])
    {
      FirstSaveWins(attempts);
      if id !in records {
        return None;
      }
      return Some(records[id]);
    }
  }

  class ResultService {
    const repository: ResultRepository
    const ratings: RatingService

    constructor (repository: ResultRepository, ratings: RatingService)
      ensures this.repository == repository && this.ratings == ratings
    {
      this.repository, this.ratings := repository, ratings;
    }

    // Saves the record and applies it, or does nothing at all when the session was finalized before.
    method FinalizeResult(record: Record, participants: seq<Participant>) returns (done: bool)
      modifies repository, ratings
      ensures done <==> record.sessionId !in old(repository.records)
      ensures repository.records == Saved(old(repository.records), record)
      ensures old(repository.Valid()) ==> repository.Valid()
      ensures ratings.entries
              == if done then Finalized(old(ratings.entries), record, participants) else old(ratings.entries)
    {
      var saved := repository.SaveIfAbsent(record);
      if !saved {
        return false;
      }
      for i := 0 to |participants|
        invariant ratings.entries == Named(old(ratings.entries), participants[..i])
        invariant repository.records == Saved(old(repository.records), record)
        invariant old(repository.Valid()) ==> repository.Valid()
      {
        assert participants[..i + 1][..i] == participants[..i];
        ratings.EnsureUser(participants[i].userId, participants[i].username);
      }
      assert participants[..|participants|] == participants;
      ratings.EnsureUser(record.user1, "");
      ratings.EnsureUser(record.user2, "");
      var loser := if record.winner == record.user1 then record.user2 else record.user1;
      var _ := ratings.ApplyMatchResult(record.winner, loser);
      return true;
    }

    // Finalizing the same session again, with whatever record, leaves results and ratings as they were.
    method FinalizeTwice(first: Record, again: Record, participants: seq<Participant>)
      requires first.sessionId == again.sessionId
      modifies repository, ratings
      ensures old(repository.Valid()) ==> repository.Valid()
      ensures repository.records == Saved(old(repository.records), first)
      ensures ratings.entries == if first.sessionId in old(repository.records) then old(ratings.entries)
                                 else Finalized(old(ratings.entries), first, participants)
    {
      var _ := FinalizeResult(first, participants);
      var _ := FinalizeResult(again, participants);
    }
  }
}
