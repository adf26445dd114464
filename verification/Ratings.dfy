/** The rating service: entries per user, the update after a match, and what that update keeps. */
module Ratings {
  import opened Basics
  import opened Elo

  const INITIAL_RATING := 1000

  datatype Entry = Entry(username: string, rating: int, wins: nat, losses: nat)

  type Entries = map<int, Entry>

  datatype Summary = Summary(userId: int, username: string, rating: int, wins: nat, losses: nat)

  function SummaryOf(entries: Entries, id: int): Summary
    requires id in entries
  {
    var e := entries[id];
    Summary(id, e.username, e.rating, e.wins, e.losses)
  }

  // Registration and login: a new user starts at the initial rating, a known one may get a fresh name.
  function WithUser(entries: Entries, id: int, username: string): Entries {
    if id !in entries then entries[id := Entry(username, INITIAL_RATING, 0, 0)]
    else if username != "" then entries[id := entries[id].(username := username)]
    else entries
  }

  function Rerated(entries: Entries, id: int, step: int): Entries
    requires id in entries
  {
    entries[id := entries[id].(rating := entries[id].rating + step)]
  }

  function WithWin(entries: Entries, id: int): Entries
    requires id in entries
  {
    entries[id := entries[id].(wins := entries[id].wins + 1)]
  }

  function WithLoss(entries: Entries, id: int): Entries
    requires id in entries
  {
    entries[id := entries[id].(losses := entries[id].losses + 1)]
  }

  // The two rating writes; winner and loser may alias, so the second write reads the first.
  function Transferred(entries: Entries, winner: int, loser: int, gain: int): Entries
    requires winner in entries && loser in entries
  {
    Rerated(Rerated(entries, winner, gain), loser, -gain)
  }

  function Counted(entries: Entries, winner: int, loser: int): Entries
    requires winner in entries && loser in entries
  {
    WithLoss(WithWin(entries, winner), loser)
  }

  // A finished match: both users get an entry, the rating moves, and one win and one loss are counted.
  function WithMatch(entries: Entries, winner: int, loser: int): Entries {
    var a := WithUser(WithUser(entries, winner, ""), loser, "");
    Counted(Transferred(a, winner, loser, Gain(a[winner].rating - a[loser].rating)), winner, loser)
  }

  // ---- Standings: what a user sees, whether or not an entry exists yet ----

  datatype Standing = Standing(rating: int, wins: nat, losses: nat)

  function StandingOf(entries: Entries, id: int): Standing {
    if id in entries then Standing(entries[id].rating, entries[id].wins, entries[id].losses)
    else Standing(INITIAL_RATING, 0, 0)
  }

  ghost predicate SameStandings(a: Entries, b: Entries) {
    forall id: int :: StandingOf(a, id) == StandingOf(b, id)
  }

  lemma NamingKeepsStandings(entries: Entries, id: int, username: string)
    ensures SameStandings(WithUser(entries, id, username), entries)
  {
  }

  // The standings after a match between two different users: the gain moves from the loser to the winner, one win
  // and one loss are counted, and nobody else is touched.
  ghost predicate MatchMoves(before: Entries, after: Entries, winner: int, loser: int) {
    var w, l := StandingOf(before, winner), StandingOf(before, loser);
    var gain := Gain(w.rating - l.rating);
    && StandingOf(after, winner) == Standing(w.rating + gain, w.wins + 1, w.losses)
    && StandingOf(after, loser) == Standing(l.rating - gain, l.wins, l.losses + 1)
    && (forall id: int :: id != winner && id != loser ==> StandingOf(after, id) == StandingOf(before, id))
  }

  lemma CountedMoves(entries: Entries, winner: int, loser: int, gain: int)
    requires winner != loser && winner in entries && loser in entries
    ensures var after := Counted(Transferred(entries, winner, loser, gain), winner, loser);
            var w, l := StandingOf(entries, winner), StandingOf(entries, loser);
            && after.Keys == entries.Keys
            && StandingOf(after, winner) == Standing(w.rating + gain, w.wins + 1, w.losses)
            && StandingOf(after, loser) == Standing(l.rating - gain, l.wins, l.losses + 1)
            && (forall id: int :: id != winner && id != loser ==> StandingOf(after, id) == StandingOf(entries, id))
  {
  }

  lemma MatchMovesTheGain(entries: Entries, winner: int, loser: int)
    requires winner != loser
    ensures MatchMoves(entries, WithMatch(entries, winner, loser), winner, loser)
    ensures WithMatch(entries, winner, loser).Keys == entries.Keys + {winner, loser}
  {
    hide Gain;
    var named := WithUser(WithUser(entries, winner, ""), loser, "");
    assert SameStandings(named, entries) && named.Keys == entries.Keys + {winner, loser};
    CountedMoves(named, winner, loser, Gain(named[winner].rating - named[loser].rating));
  }

  lemma MovesAgree(a: Entries, a': Entries, b: Entries, b': Entries, winner: int, loser: int)
    requires SameStandings(a, b) && MatchMoves(a, a', winner, loser) && MatchMoves(b, b', winner, loser)
    ensures SameStandings(a', b')
  {
    forall id: int ensures StandingOf(a', id) == StandingOf(b', id) {
      assert StandingOf(a, id) == StandingOf(b, id);
      assert StandingOf(a, winner) == StandingOf(b, winner) && StandingOf(a, loser) == StandingOf(b, loser);
    }
  }

  // The update depends on the standings only.
  lemma MatchRespectsStandings(a: Entries, b: Entries, winner: int, loser: int)
    requires winner != loser && SameStandings(a, b)
    ensures SameStandings(WithMatch(a, winner, loser), WithMatch(b, winner, loser))
  {
    MatchMovesTheGain(a, winner, loser);
    MatchMovesTheGain(b, winner, loser);
    MovesAgree(a, WithMatch(a, winner, loser), b, WithMatch(b, winner, loser), winner, loser);
  }

  lemma MovesCommute(e: Entries, one: Entries, two: Entries, x: Entries, y: Entries, w1: int, l1: int, w2: int, l2: int)
    requires {w1, l1} !! {w2, l2}
    requires MatchMoves(e, one, w1, l1) && MatchMoves(one, x, w2, l2)
    requires MatchMoves(e, two, w2, l2) && MatchMoves(two, y, w1, l1)
    ensures SameStandings(x, y)
  {
    hide Gain, StandingOf;
    assert StandingOf(one, w2) == StandingOf(e, w2) && StandingOf(one, l2) == StandingOf(e, l2);
    assert StandingOf(two, w1) == StandingOf(e, w1) && StandingOf(two, l1) == StandingOf(e, l1);
  }

  // Matches without a common player may be applied in either order.
  lemma DisjointMatchesCommute(entries: Entries, w1: int, l1: int, w2: int, l2: int)
    requires w1 != l1 && w2 != l2 && {w1, l1} !! {w2, l2}
    ensures SameStandings(WithMatch(WithMatch(entries, w1, l1), w2, l2), WithMatch(WithMatch(entries, w2, l2), w1, l1))
  {
    var one, two := WithMatch(entries, w1, l1), WithMatch(entries, w2, l2);
    MatchMovesTheGain(entries, w1, l1);
    MatchMovesTheGain(entries, w2, l2);
    MatchMovesTheGain(one, w2, l2);
    MatchMovesTheGain(two, w1, l1);
    MovesCommute(entries, one, two, WithMatch(one, w2, l2), WithMatch(two, w1, l1), w1, l1, w2, l2);
  }

  // After any match the winner leads that loser by at most 721 points, unless the lead was larger before.
  lemma LeadAfterMatch(entries: Entries, winner: int, loser: int)
    requires winner != loser
    ensures var before := StandingOf(entries, winner).rating - StandingOf(entries, loser).rating;
            var after := WithMatch(entries, winner, loser);
            before <= StandingOf(after, winner).rating - StandingOf(after, loser).rating
            <= if before > 721 then before else 721
  {
    MatchMovesTheGain(entries, winner, loser);
    LeadBound(StandingOf(entries, winner).rating - StandingOf(entries, loser).rating);
  }

  // ---- Conservation ----

  function RatingIn(e: Entry): int { e.rating }

  function WinsIn(e: Entry): int { e.wins }

  function LossesIn(e: Entry): int { e.losses }

  // The sum of one figure over all entries.
  ghost function Total(entries: Entries, figure: Entry -> int): int
    decreases |entries|
  {
    if entries.Keys == {} then 0
    else
      var id := Pick(entries.Keys);
      figure(entries[id]) + Total(entries - {id}, figure)
  }

  // Nobody's points come from nowhere: on average everybody holds the initial rating.
  ghost predicate Conserved(entries: Entries) {
    Total(entries, RatingIn) == INITIAL_RATING * |entries|
  }

  // n matches were counted, each as one win and one loss.
  ghost predicate Tallied(entries: Entries, n: nat) {
    Total(entries, WinsIn) == n && Total(entries, LossesIn) == n
  }

  lemma TotalPicks(entries: Entries, figure: Entry -> int)
    requires entries.Keys != {}
    ensures var id := Pick(entries.Keys); Total(entries, figure) == figure(entries[id]) + Total(entries - {id}, figure)
  {
  }

  lemma {:induction false} TotalAt(entries: Entries, figure: Entry -> int, id: int)
    requires id in entries
    ensures Total(entries, figure) == figure(entries[id]) + Total(entries - {id}, figure)
    decreases |entries|
  {
    hide Total;
    var other := Pick(entries.Keys);
    TotalPicks(entries, figure);
    if other != id {
      TotalAt(entries - {other}, figure, id);
      TotalAt(entries - {id}, figure, other);
      assert entries - {other} - {id} == entries - {id} - {other};
    }
  }

  lemma TotalUpdate(entries: Entries, figure: Entry -> int, id: int, e: Entry)
    requires id in entries
    ensures Total(entries[id := e], figure) == Total(entries, figure) + figure(e) - figure(entries[id])
    ensures |entries[id := e]| == |entries|
  {
    var after := entries[id := e];
    assert after.Keys == entries.Keys;
    assert after - {id} == entries - {id};
    TotalAt(after, figure, id);
    TotalAt(entries, figure, id);
  }

  lemma TotalInsert(entries: Entries, figure: Entry -> int, id: int, e: Entry)
    requires id !in entries
    ensures Total(entries[id := e], figure) == Total(entries, figure) + figure(e)
    ensures |entries[id := e]| == |entries| + 1
  {
    hide Total;
    var after := entries[id := e];
    assert after.Keys == entries.Keys + {id};
    assert after - {id} == entries;
    TotalAt(after, figure, id);
  }

  lemma NamingAdds(entries: Entries, figure: Entry -> int, id: int, username: string)
    requires forall e: Entry, name: string :: figure(e.(username := name)) == figure(e)
    ensures Total(WithUser(entries, id, username), figure)
            == Total(entries, figure) + if id in entries then 0 else figure(Entry(username, INITIAL_RATING, 0, 0))
    ensures |WithUser(entries, id, username)| == |entries| + if id in entries then 0 else 1
  {
    var after := WithUser(entries, id, username);
    if id in entries {
      TotalUpdate(entries, figure, id, after[id]);
      assert after == entries[id := after[id]];
    } else {
      TotalInsert(entries, figure, id, after[id]);
    }
  }

  lemma NamingConserves(entries: Entries, id: int, username: string)
    requires Conserved(entries)
    ensures Conserved(WithUser(entries, id, username))
  {
    NamingAdds(entries, RatingIn, id, username);
  }

  lemma NamingKeepsTally(entries: Entries, id: int, username: string, n: nat)
    requires Tallied(entries, n)
    ensures Tallied(WithUser(entries, id, username), n)
  {
    NamingAdds(entries, WinsIn, id, username);
    NamingAdds(entries, LossesIn, id, username);
  }

  // How the totals of two tables of the same size differ.
  ghost predicate Adds(before: Entries, after: Entries, rating: int, wins: int, losses: int) {
    && Total(after, RatingIn) == Total(before, RatingIn) + rating
    && Total(after, WinsIn) == Total(before, WinsIn) + wins
    && Total(after, LossesIn) == Total(before, LossesIn) + losses
    && |after| == |before|
  }

  lemma UpdateAdds(entries: Entries, id: int, e: Entry)
    requires id in entries
    ensures var old' := entries[id];
            Adds(entries, entries[id := e], e.rating - old'.rating, e.wins - old'.wins, e.losses - old'.losses)
  {
    TotalUpdate(entries, RatingIn, id, e);
    TotalUpdate(entries, WinsIn, id, e);
    TotalUpdate(entries, LossesIn, id, e);
  }

  lemma AddsCompose(a: Entries, b: Entries, c: Entries, r1: int, w1: int, l1: int, r2: int, w2: int, l2: int)
    requires Adds(a, b, r1, w1, l1) && Adds(b, c, r2, w2, l2)
    ensures Adds(a, c, r1 + r2, w1 + w2, l1 + l2)
  {
  }

  lemma TransferAdds(entries: Entries, winner: int, loser: int, gain: int)
    requires winner in entries && loser in entries
    ensures Adds(entries, Transferred(entries, winner, loser, gain), 0, 0, 0)
  {
    var b := Rerated(entries, winner, gain);
    UpdateAdds(entries, winner, b[winner]);
    UpdateAdds(b, loser, Rerated(b, loser, -gain)[loser]);
    AddsCompose(entries, b, Rerated(b, loser, -gain), gain, 0, 0, -gain, 0, 0);
  }

  lemma CountingAdds(entries: Entries, winner: int, loser: int)
    requires winner in entries && loser in entries
    ensures Adds(entries, Counted(entries, winner, loser), 0, 1, 1)
  {
    var b := WithWin(entries, winner);
    UpdateAdds(entries, winner, b[winner]);
    UpdateAdds(b, loser, WithLoss(b, loser)[loser]);
    AddsCompose(entries, b, WithLoss(b, loser), 0, 1, 0, 0, 0, 1);
  }

  // The four writes of a match, by their effect on the totals.
  lemma MatchAdds(entries: Entries, winner: int, loser: int, gain: int)
    requires winner in entries && loser in entries
    ensures Adds(entries, Counted(Transferred(entries, winner, loser, gain), winner, loser), 0, 1, 1)
  {
    var c := Transferred(entries, winner, loser, gain);
    TransferAdds(entries, winner, loser, gain);
    CountingAdds(c, winner, loser);
    AddsCompose(entries, c, Counted(c, winner, loser), 0, 0, 0, 0, 1, 1);
  }

  // Holds even when winner and loser are the same user.
  lemma MatchConserves(entries: Entries, winner: int, loser: int)
    requires Conserved(entries)
    ensures Conserved(WithMatch(entries, winner, loser))
  {
    NamingConserves(entries, winner, "");
    NamingConserves(WithUser(entries, winner, ""), loser, "");
    var a := WithUser(WithUser(entries, winner, ""), loser, "");
    var gain := Gain(a[winner].rating - a[loser].rating);
    MatchAdds(a, winner, loser, gain);
  }

  lemma MatchTallies(entries: Entries, winner: int, loser: int, n: nat)
    requires Tallied(entries, n)
    ensures Tallied(WithMatch(entries, winner, loser), n + 1)
  {
    NamingKeepsTally(entries, winner, "", n);
    NamingKeepsTally(WithUser(entries, winner, ""), loser, "", n);
    var a := WithUser(WithUser(entries, winner, ""), loser, "");
    var gain := Gain(a[winner].rating - a[loser].rating);
    MatchAdds(a, winner, loser, gain);
  }

  // ---- Names and starting figures ----

  // The calls that change entries.
  datatype Call = Name(id: int, username: string) | Match(winner: int, loser: int)

  function AfterCalls(entries: Entries, calls: seq<Call>): Entries {
    if calls == [] then entries else AfterCall(AfterCalls(entries, calls[..|calls| - 1]), calls[|calls| - 1])
  }

  function AfterCall(entries: Entries, c: Call): Entries {
    match c
    case Name(id, username) => WithUser(entries, id, username)
    case Match(winner, loser) => WithMatch(entries, winner, loser)
  }

  predicate Mentions(c: Call, id: int) {
    match c
    case Name(other, _) => other == id
    case Match(winner, loser) => winner == id || loser == id
  }

  // The last non-empty name given to a user, or a default.
  function LastName(calls: seq<Call>, id: int, unnamed: string): string {
    if calls == [] then unnamed
    else
      var last := calls[|calls| - 1];
      if last.Name? && last.id == id && last.username != "" then last.username
      else LastName(calls[..|calls| - 1], id, unnamed)
  }

  function UsernameOf(entries: Entries, id: int): string {
    if id in entries then entries[id].username else ""
  }

  lemma NamingNames(entries: Entries, id: int, username: string, u: int)
    ensures u in WithUser(entries, id, username) <==> u in entries || u == id
    ensures UsernameOf(WithUser(entries, id, username), u)
            == if u == id && username != "" then username else UsernameOf(entries, u)
  {
  }

  lemma MatchNamesNobody(entries: Entries, winner: int, loser: int, u: int)
    ensures u in WithMatch(entries, winner, loser) <==> u in entries || u == winner || u == loser
    ensures UsernameOf(WithMatch(entries, winner, loser), u) == UsernameOf(entries, u)
  {
    hide Gain;
    NamingNames(entries, winner, "", u);
    NamingNames(WithUser(entries, winner, ""), loser, "", u);
    var a := WithUser(WithUser(entries, winner, ""), loser, "");
    CountedNamesNobody(a, winner, loser, Gain(a[winner].rating - a[loser].rating), u);
  }

  lemma CountedNamesNobody(entries: Entries, winner: int, loser: int, gain: int, u: int)
    requires winner in entries && loser in entries
    ensures var after := Counted(Transferred(entries, winner, loser, gain), winner, loser);
            (u in after <==> u in entries) && UsernameOf(after, u) == UsernameOf(entries, u)
  {
  }

  // After any calls exactly the users mentioned have entries, under the last non-empty name they were given, whatever
  // matches were played in between.
  lemma {:induction false} NamesAfterCalls(entries: Entries, calls: seq<Call>, id: int)
    ensures id in AfterCalls(entries, calls)
            <==> id in entries || exists i :: 0 <= i < |calls| && Mentions(calls[i], id)
    ensures UsernameOf(AfterCalls(entries, calls), id) == LastName(calls, id, UsernameOf(entries, id))
  {
    if calls == [] {
    } else {
      hide WithUser, WithMatch;
      var front, last := calls[..|calls| - 1], calls[|calls| - 1];
      var before := AfterCalls(entries, front);
      NamesAfterCalls(entries, front, id);
      match last {
        case Name(other, username) => NamingNames(before, other, username, id);
        case Match(winner, loser) => MatchNamesNobody(before, winner, loser, id);
      }
      MentionedBefore(calls, id);
    }
  }

  lemma MentionedBefore(calls: seq<Call>, id: int)
    requires calls != []
    ensures var front, last := calls[..|calls| - 1], calls[|calls| - 1];
            (exists i :: 0 <= i < |calls| && Mentions(calls[i], id))
            <==> Mentions(last, id) || exists i :: 0 <= i < |front| && Mentions(front[i], id)
  {
    hide Mentions;
    var front := calls[..|calls| - 1];
    assert forall i :: 0 <= i < |front| ==> calls[i] == front[i];
  }

  // Who has not played yet holds a rating of 1000, no wins and no losses.
  lemma {:induction false} StartingFigures(calls: seq<Call>, id: int)
    requires forall i :: 0 <= i < |calls| ==> calls[i].Name? || !Mentions(calls[i], id)
    requires id in AfterCalls(map[], calls)
    ensures var e := AfterCalls(map[], calls)[id]; e.rating == 1000 && e.wins == 0 && e.losses == 0
  {
    StandingUnplayed(calls, id);
  }

  lemma {:induction false} StandingUnplayed(calls: seq<Call>, id: int)
    requires forall i :: 0 <= i < |calls| ==> calls[i].Name? || !Mentions(calls[i], id)
    ensures StandingOf(AfterCalls(map[], calls), id) == Standing(1000, 0, 0)
  {
    if calls == [] {
    } else {
      hide WithUser, WithMatch;
      var front, last := calls[..|calls| - 1], calls[|calls| - 1];
      var before := AfterCalls(map[], front);
      StandingUnplayed(front, id);
      match last
      case Name(other, username) => NamingKeepsStandings(before, other, username);
      case Match(winner, loser) => OthersKeepStanding(before, winner, loser, id);
    }
  }

  lemma OthersKeepStanding(entries: Entries, winner: int, loser: int, id: int)
    requires id != winner && id != loser
    ensures StandingOf(WithMatch(entries, winner, loser), id) == StandingOf(entries, id)
  {
    hide Gain;
    var a := WithUser(WithUser(entries, winner, ""), loser, "");
    assert StandingOf(a, id) == StandingOf(entries, id);
  }
}
