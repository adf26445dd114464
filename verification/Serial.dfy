/** Applying saved records one after the other, and when their order does not matter. */
module Serial {
  import opened Ratings
  import opened Results
  import opened Sessions

  // A record of a match between two different users, one of whom won.
  predicate Proper(r: Record) {
    r.user1 != r.user2 && (r.winner == r.user1 || r.winner == r.user2)
  }

  ghost predicate AllProper(records: seq<Record>) {
    forall i :: 0 <= i < |records| ==> Proper(records[i])
  }

  function PlayersOf(r: Record): set<int> {
    {r.user1, r.user2}
  }

  function Play(entries: Entries, r: Record): Entries {
    WithMatch(entries, r.winner, LoserOf(r))
  }

  // The sequential fold of matches over some records, starting from an empty rating service.
  function Fold(records: seq<Record>): Entries {
    if records == [] then map[] else Play(Fold(records[..|records| - 1]), records[|records| - 1])
  }

  lemma FoldAppend(records: seq<Record>, r: Record)
    ensures Fold(records + [r]) == Play(Fold(records), r)
  {
    assert (records + [r])[..|records|] == records;
  }

  lemma PlayAgrees(a: Entries, b: Entries, r: Record)
    requires Proper(r) && SameStandings(a, b)
    ensures SameStandings(Play(a, r), Play(b, r))
  {
    MatchRespectsStandings(a, b, r.winner, LoserOf(r));
  }

  lemma PlaysCommute(entries: Entries, r: Record, s: Record)
    requires Proper(r) && Proper(s) && PlayersOf(r) !! PlayersOf(s)
    ensures SameStandings(Play(Play(entries, r), s), Play(Play(entries, s), r))
  {
    DisjointMatchesCommute(entries, r.winner, LoserOf(r), s.winner, LoserOf(s));
  }

  lemma SameStandingsTransitive(a: Entries, b: Entries, c: Entries)
    requires SameStandings(a, b) && SameStandings(b, c)
    ensures SameStandings(a, c)
  {
    forall id: int ensures StandingOf(a, id) == StandingOf(c, id) {
      assert StandingOf(a, id) == StandingOf(b, id);
      assert StandingOf(b, id) == StandingOf(c, id);
    }
  }

  lemma SameStandingsReflexive(a: Entries)
    ensures SameStandings(a, a)
  {
  }

  // A record may be applied late, after records that share no player with it.
  lemma {:induction false} LateIsAsGoodAsInTime(front: seq<Record>, r: Record, back: seq<Record>)
    requires Proper(r) && AllProper(back)
    requires forall i :: 0 <= i < |back| ==> PlayersOf(back[i]) !! PlayersOf(r)
    ensures SameStandings(Play(Fold(front + back), r), Fold(front + [r] + back))
  {
    hide Fold, Play, SameStandings;
    if back == [] {
      SameStandingsReflexive(Play(Fold(front), r));
      assert front + back == front && front + [r] + back == front + [r];
      FoldAppend(front, r);
    } else {
      var n := |back| - 1;
      var rest, last := back[..n], back[n];
      LateIsAsGoodAsInTime(front, r, rest);
      assert front + back == (front + rest) + [last];
      assert front + [r] + back == (front + [r] + rest) + [last];
      FoldAppend(front + rest, last);
      FoldAppend(front + [r] + rest, last);
      SwapLast(Fold(front + rest), Fold(front + [r] + rest), r, last);
    }
  }

  lemma SwapLast(before: Entries, with: Entries, r: Record, last: Record)
    requires Proper(r) && Proper(last) && PlayersOf(last) !! PlayersOf(r)
    requires SameStandings(Play(before, r), with)
    ensures SameStandings(Play(Play(before, last), r), Play(with, last))
  {
    PlaysCommute(before, last, r);
    PlayAgrees(Play(before, r), with, last);
    SameStandingsTransitive(Play(Play(before, last), r), Play(Play(before, r), last), Play(with, last));
  }

  // ---- What the fold says about each user ----

  function WonBy(records: seq<Record>, u: int): nat {
    if records == [] then 0
    else WonBy(records[..|records| - 1], u) + if records[|records| - 1].winner == u then 1 else 0
  }

  function PlayedBy(records: seq<Record>, u: int): nat {
    if records == [] then 0
    else PlayedBy(records[..|records| - 1], u) + if u in PlayersOf(records[|records| - 1]) then 1 else 0
  }

  // A user's wins are the records the user won, and wins plus losses are the records the user played in.
  lemma {:induction false} FoldCountsRecords(records: seq<Record>, u: int)
    requires AllProper(records)
    ensures StandingOf(Fold(records), u).wins == WonBy(records, u)
    ensures StandingOf(Fold(records), u).wins + StandingOf(Fold(records), u).losses == PlayedBy(records, u)
  {
    if records == [] {
    } else {
      var rest, last := records[..|records| - 1], records[|records| - 1];
      FoldCountsRecords(rest, u);
      MatchMovesTheGain(Fold(rest), last.winner, LoserOf(last));
      PlayCounts(Fold(rest), Fold(records), last, u);
    }
  }

  lemma PlayCounts(before: Entries, after: Entries, r: Record, u: int)
    requires Proper(r) && MatchMoves(before, after, r.winner, LoserOf(r))
    ensures var s, t := StandingOf(before, u), StandingOf(after, u);
            && t.wins == s.wins + (if r.winner == u then 1 else 0)
            && t.wins + t.losses == s.wins + s.losses + if u in PlayersOf(r) then 1 else 0
  {
  }
}
