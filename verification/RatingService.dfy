/** The rating service as the object the server shares between threads; every method runs under its mutex. */
module RatingServices {
  import opened Basics
  import opened Elo
  import opened Ratings
  import opened Leaderboard
  import opened Sorting

  class RatingService {
    var entries: Entries

    constructor ()
      ensures entries == map[]
    {
      entries := map[];
    }

    method EnsureUser(id: int, username: string)
      modifies this
      ensures entries == WithUser(old(entries), id, username)
    {
      if id !in entries {
        entries := entries[id := Entry(username, INITIAL_RATING, 0, 0)];
        return;
      }
      if username != "" {
        entries := entries[id := entries[id].(username := username)];
      }
    }

    method ApplyMatchResult(winner: int, loser: int) returns (summary: Summary)
      modifies this
      ensures entries == WithMatch(old(entries), winner, loser)
      ensures winner in entries && summary == SummaryOf(entries, winner)
    {
      if winner !in entries {
        entries := entries[winner := Entry("", INITIAL_RATING, 0, 0)];
      }
      if loser !in entries {
        entries := entries[loser := Entry("", INITIAL_RATING, 0, 0)];
      }
      assert entries == WithUser(WithUser(old(entries), winner, ""), loser, "");
      // Both expected scores are taken before either rating is written.
      var gain := Gain(entries[winner].rating - entries[loser].rating);
      MoveRating(winner, loser, gain);
      CountMatch(winner, loser);
      summary := SummaryOf(entries, winner);
    }

    method MoveRating(winner: int, loser: int, gain: int)
      requires winner in entries && loser in entries
      modifies this
      ensures entries == Transferred(old(entries), winner, loser, gain)
    {
      entries := entries[winner := entries[winner].(rating := entries[winner].rating + gain)];
      entries := entries[loser := entries[loser].(rating := entries[loser].rating - gain)];
    }

    method CountMatch(winner: int, loser: int)
      requires winner in entries && loser in entries
      modifies this
      ensures entries == Counted(old(entries), winner, loser)
    {
      entries := entries[winner := entries[winner].(wins := entries[winner].wins + 1)];
      entries := entries[loser := entries[loser].(losses := entries[loser].losses + 1)];
    }

    // A user's own figures, which are those of the user's row in the leaderboard.
    method GetSummary(id: int) returns (summary: Option<Summary>)
      ensures summary == if id in entries then Some(SummaryOf(entries, id)) else None
      ensures var rows := Summaries(Ranking(entries));
              && (summary.None? <==> forall i :: 0 <= i < |rows| ==> rows[i].userId != id)
              && (forall i :: 0 <= i < |rows| && rows[i].userId == id ==> summary == Some(rows[i]))
    {
      hide Ranking, Summaries;
      SummariesAreRows(entries, id);
      if id !in entries {
        return None;
      }
      return Some(SummaryOf(entries, id));
    }

    // Sorts a copy of the entries and cuts out one page.
    method GetLeaderboard(page: nat, size: nat) returns (result: Page)
      requires 1 <= page < WORD && 1 <= size <= MAX_PAGE_SIZE
      requires |entries| + MAX_PAGE_SIZE < WORD
      ensures result.total == |entries|
      ensures result.rows == Summaries(WordPage(Ranking(entries), page, size))
    {
      hide Ranking, Summaries;
      var items := SortedItems();
      var total := |items|;
      var start := ((page - 1) * size) % WORD;
      var end := Clip((start + size) % WORD, total);
      WordBounds(items, page, size);
      var rows := [];
      if start < total {
        rows := CutRows(items, start, end);
      }
      result := Page(total, rows);
    }

    method SortedItems() returns (items: seq<Item>)
      ensures items == Ranking(entries) && |items| == |entries|
    {
      items := CopyItems();
      SortedCopyIsTheRanking(entries, items);
      RankingIsStrict(entries);
      items := Sort(Ahead, items);
    }

    // The entries in whatever order the hash map yields them.
    method CopyItems() returns (items: seq<Item>)
      ensures multiset(items) == multiset(entries.Items)
    {
      items := [];
      var rest := entries.Items;
      while rest != {}
        invariant rest <= entries.Items
        invariant multiset(items) + multiset(rest) == multiset(entries.Items)
        decreases rest
      {
        HasMember(rest);
        var item :| item in rest;
        items, rest := items + [item], rest - {item};
      }
    }

    method CutRows(items: seq<Item>, start: nat, end: nat) returns (rows: seq<Summary>)
      requires start <= end <= |items|
      ensures rows == Summaries(items[start..end])
    {
      rows := [];
      var i := start;
      assert Summaries(items[start..start]) == [];
      hide Summaries;
      while i < end
        invariant start <= i <= end
        invariant rows == Summaries(items[start..i])
      {
        assert items[start..i + 1] == items[start..i] + [items[i]];
        SummariesAppend(items[start..i], items[i]);
        rows := rows + [SummaryOfItem(items[i])];
        i := i + 1;
      }
    }
  }
}
