/** The leaderboard: one ranking of all entries, cut into pages with the server's machine-word arithmetic. */
module Leaderboard {
  import opened Basics
  import opened Ratings
  import opened Sorting

  // Number of values of the 64-bit size type.
  const WORD := 0x1_0000_0000_0000_0000

  // The largest page size the request handler lets through.
  const MAX_PAGE_SIZE := 50

  type Item = (int, Entry)

  datatype Page = Page(total: nat, rows: seq<Summary>)

  // Higher rating first, smaller id first among equals.
  predicate Ahead(a: Item, b: Item) {
    if a.1.rating == b.1.rating then a.0 < b.0 else a.1.rating > b.1.rating
  }

  ghost function Ranking(entries: Entries): seq<Item> {
    Sort(Ahead, Enumerate(entries.Items))
  }

  function SummaryOfItem(item: Item): Summary {
    Summary(item.0, item.1.username, item.1.rating, item.1.wins, item.1.losses)
  }

  function Summaries(items: seq<Item>): (rows: seq<Summary>)
    ensures |rows| == |items|
    ensures forall i :: 0 <= i < |items| ==> rows[i] == SummaryOfItem(items[i])
  {
    if items == [] then [] else Summaries(items[..|items| - 1]) + [SummaryOfItem(items[|items| - 1])]
  }

  lemma SummariesAppend(items: seq<Item>, item: Item)
    ensures Summaries(items + [item]) == Summaries(items) + [SummaryOfItem(item)]
  {
    assert (items + [item])[..|items|] == items;
  }

  // ---- The ranking ----

  lemma AheadIsAnOrder()
    ensures StrictWeakOrder(Ahead)
  {
  }

  lemma ItemsHaveDistinctIds(entries: Entries, s: seq<Item>)
    requires multiset(s) == multiset(entries.Items)
    ensures forall i, j :: 0 <= i < j < |s| ==> s[i].0 != s[j].0
    ensures AllComparable(Ahead, s)
  {
    forall i, j | 0 <= i < j < |s| ensures s[i].0 != s[j].0 {
      assert s[i] in multiset(s) && s[j] in multiset(s);
      assert s[i] in entries.Items && s[j] in entries.Items;
      OnceMeansDistinct(s, i, j);
    }
  }

  // The ranking is strict, lists every entry once, and is the only such list.
  lemma RankingIsStrict(entries: Entries)
    ensures StrictlySorted(Ahead, Ranking(entries))
    ensures multiset(Ranking(entries)) == multiset(entries.Items)
    ensures |Ranking(entries)| == |entries|
  {
    var s := Enumerate(entries.Items);
    AheadIsAnOrder();
    ItemsHaveDistinctIds(entries, s);
    SortStrictly(Ahead, s);
    assert |multiset(s)| == |s|;
  }

  // Whatever order the entries are copied in, sorting them yields the ranking.
  lemma SortedCopyIsTheRanking(entries: Entries, copy: seq<Item>)
    requires multiset(copy) == multiset(entries.Items)
    ensures Sort(Ahead, copy) == Ranking(entries)
  {
    AheadIsAnOrder();
    ItemsHaveDistinctIds(entries, copy);
    SortStrictly(Ahead, copy);
    RankingIsStrict(entries);
    StrictlySortedIsUnique(Ahead, Sort(Ahead, copy), Ranking(entries));
  }

  // The users strictly ahead of a user.
  ghost function UsersAhead(entries: Entries, id: int): set<int>
    requires id in entries
  {
    set other | other in entries && (entries[other].rating > entries[id].rating
                                     || (entries[other].rating == entries[id].rating && other < id))
  }

  lemma {:induction false} IdsOfPrefix(s: seq<Item>, n: nat, ids: set<int>)
    requires n <= |s|
    requires forall i, j :: 0 <= i < j < n ==> s[i].0 != s[j].0
    requires ids == set i | 0 <= i < n :: s[i].0
    ensures |ids| == n
  {
    if n == 0 {
    } else {
      var rest := set i | 0 <= i < n - 1 :: s[i].0;
      IdsOfPrefix(s, n - 1, rest);
      assert ids == rest + {s[n - 1].0};
      assert s[n - 1].0 !in rest;
    }
  }

  // In a strictly ranked list of all entries, the users ahead of the i-th are exactly those of the first i.
  lemma AheadAreBefore(entries: Entries, s: seq<Item>, i: nat)
    requires i < |s| && StrictlySorted(Ahead, s)
    requires forall j :: 0 <= j < |s| ==> s[j].0 in entries && entries[s[j].0] == s[j].1
    requires forall u :: u in entries ==> exists j :: 0 <= j < |s| && s[j] == (u, entries[u])
    ensures UsersAhead(entries, s[i].0) == set j | 0 <= j < i :: s[j].0
  {
    var ids := set j | 0 <= j < i :: s[j].0;
    forall other ensures other in UsersAhead(entries, s[i].0) <==> other in ids {
      if other in UsersAhead(entries, s[i].0) {
        var j :| 0 <= j < |s| && s[j] == (other, entries[other]);
        assert i < j ==> Ahead(s[i], s[j]);
      }
      if other in ids {
        var j :| 0 <= j < i && s[j].0 == other;
        assert Ahead(s[j], s[i]);
      }
    }
  }

  // The user at index i of the ranking has exactly i users strictly ahead.
  lemma RankCountsUsersAhead(entries: Entries, i: nat)
    requires i < |Ranking(entries)|
    ensures var item := Ranking(entries)[i];
            && item.0 in entries && entries[item.0] == item.1
            && |UsersAhead(entries, item.0)| == i
  {
    hide Ranking, Ahead, UsersAhead;
    var s := Ranking(entries);
    RankingIsStrict(entries);
    ItemsHaveDistinctIds(entries, s);
    forall j | 0 <= j < |s| ensures s[j].0 in entries && entries[s[j].0] == s[j].1 {
      assert s[j] in multiset(s);
      assert s[j] in entries.Items;
    }
    forall u | u in entries ensures exists j :: 0 <= j < |s| && s[j] == (u, entries[u]) {
      assert (u, entries[u]) in entries.Items;
      assert (u, entries[u]) in multiset(s);
    }
    AheadAreBefore(entries, s, i);
    var ids := set j | 0 <= j < i :: s[j].0;
    IdsOfPrefix(s, i, ids);
  }

  // The list falls in rating, and rises in user id among equals.
  lemma RowsFall(entries: Entries, i: nat, j: nat)
    requires i < j < |Summaries(Ranking(entries))|
    ensures var a, b := Summaries(Ranking(entries))[i], Summaries(Ranking(entries))[j];
            a.rating > b.rating || (a.rating == b.rating && a.userId < b.userId)
  {
    hide Ranking;
    RankingIsStrict(entries);
    assert Ahead(Ranking(entries)[i], Ranking(entries)[j]);
  }

  // A user with entry is listed exactly once, and the row shows the figures of the entry, as the user's own summary
  // does.
  lemma SummariesAreRows(entries: Entries, id: int)
    ensures var rows := Summaries(Ranking(entries));
            && (id in entries <==> exists i :: 0 <= i < |rows| && rows[i].userId == id)
            && (forall i :: 0 <= i < |rows| && rows[i].userId == id ==>
                  && id in entries && rows[i] == SummaryOf(entries, id)
                  && rows[i].username == entries[id].username && rows[i].rating == entries[id].rating
                  && rows[i].wins == entries[id].wins && rows[i].losses == entries[id].losses)
            && (forall i, j :: 0 <= i < j < |rows| ==> rows[i].userId != rows[j].userId)
  {
    hide Ranking, StrictlySorted;
    var s := Ranking(entries);
    RankingIsStrict(entries);
    ItemsHaveDistinctIds(entries, s);
    forall i | 0 <= i < |s| ensures s[i].0 in entries && s[i].1 == entries[s[i].0] {
      assert s[i] in multiset(s);
      assert s[i] in entries.Items;
    }
    if id in entries {
      assert (id, entries[id]) in entries.Items;
      assert (id, entries[id]) in multiset(s);
      var i :| 0 <= i < |s| && s[i] == (id, entries[id]);
      assert Summaries(s)[i].userId == id;
    }
  }

  // ---- Pages ----

  function Clip(i: nat, n: nat): nat {
    if i < n then i else n
  }

  // How many entries come before a page.
  function Offset(page: nat, size: nat): nat
    requires page >= 1
  {
    (page - 1) * size
  }

  // The page as the contract describes it, over unbounded numbers.
  function IdealPage<T>(s: seq<T>, page: nat, size: nat): seq<T>
    requires page >= 1
  {
    assert Offset(page, size) <= page * size;
    s[Clip(Offset(page, size), |s|)..Clip(page * size, |s|)]
  }

  // The page as the server computes it: both bounds are 64-bit words.
  function WordPage<T>(s: seq<T>, page: nat, size: nat): seq<T>
    requires page >= 1 && 1 <= size <= MAX_PAGE_SIZE && |s| + MAX_PAGE_SIZE < WORD
  {
    var start := Offset(page, size) % WORD;
    if start < |s| then s[start..Clip(start + size, |s|)] else []
  }

  lemma WordBounds<T>(s: seq<T>, page: nat, size: nat)
    requires page >= 1 && 1 <= size <= MAX_PAGE_SIZE && |s| + MAX_PAGE_SIZE < WORD
    ensures var start := Offset(page, size) % WORD;
            var end := Clip((start + size) % WORD, |s|);
            && (start < |s| ==> start <= end)
            && WordPage(s, page, size) == if start < |s| then s[start..end] else []
  {
    var start := Offset(page, size) % WORD;
    if start < |s| {
      NoWrap(start + size);
    }
  }

  lemma NoWrap(n: nat)
    requires n < WORD
    ensures n % WORD == n
  {
  }

  function Pages<T>(s: seq<T>, size: nat, n: nat): seq<T> {
    if n == 0 then [] else Pages(s, size, n - 1) + IdealPage(s, n, size)
  }

  lemma {:induction false} PagesArePrefix<T>(s: seq<T>, size: nat, n: nat)
    ensures Pages(s, size, n) == s[..Clip(n * size, |s|)]
  {
    if n == 0 {
    } else {
      PagesArePrefix(s, size, n - 1);
      assert Offset(n, size) == (n - 1) * size <= n * size;
      hide Offset;
      JoinSlices(s, Clip((n - 1) * size, |s|), Clip(n * size, |s|));
    }
  }

  lemma JoinSlices<T>(s: seq<T>, a: nat, b: nat)
    requires a <= b <= |s|
    ensures s[..a] + s[a..b] == s[..b]
  {
  }

  // The pages 1..ceil(total / size), one after the other, are the whole ranking: everybody once, in order.
  lemma PagesPartitionTheRanking(entries: Entries, size: nat)
    requires size >= 1
    ensures Pages(Ranking(entries), size, (|entries| + size - 1) / size) == Ranking(entries)
    ensures multiset(Ranking(entries)) == multiset(entries.Items)
  {
    hide Ranking, Pages, StrictlySorted;
    var s, n := Ranking(entries), (|entries| + size - 1) / size;
    RankingIsStrict(entries);
    PagesArePrefix(s, size, n);
    CeilCovers(|entries|, size);
    assert Clip(n * size, |s|) == |s| && s[..|s|] == s;
  }

  lemma CeilCovers(total: nat, size: nat)
    requires size >= 1
    ensures ((total + size - 1) / size) * size >= total
  {
    var a := total + size - 1;
    assert a == (a / size) * size + a % size;
  }

  // Row i of a page carries the rank (page - 1) * size + i + 1: one more than the number of users strictly ahead.
  lemma PageRanks(entries: Entries, page: nat, size: nat, i: nat)
    requires page >= 1 && i < |IdealPage(Ranking(entries), page, size)|
    ensures var item := IdealPage(Ranking(entries), page, size)[i];
            && item.0 in entries && entries[item.0] == item.1
            && Offset(page, size) + i + 1 == |UsersAhead(entries, item.0)| + 1
  {
    var s := Ranking(entries);
    assert IdealPage(s, page, size)[i] == s[Offset(page, size) + i];
    RankCountsUsersAhead(entries, Offset(page, size) + i);
  }

  // The 32-bit int a word is cast to.
  function ToInt32(n: nat): int {
    var low := n % 0x1_0000_0000;
    if low < 0x8000_0000 then low else low - 0x1_0000_0000
  }

  // The rank sent with row i of a page: computed in 64 bits, then cast.
  function SentRank(page: nat, size: nat, i: nat): int
    requires page >= 1
  {
    ToInt32((Offset(page, size) + i + 1) % WORD)
  }

  // On every page the server shows, wrapped or not, the rank is one more than the number of users strictly ahead,
  // exactly as long as that number fits a 32-bit int.
  lemma SentRanks(entries: Entries, page: nat, size: nat, i: nat)
    requires page >= 1 && 1 <= size <= MAX_PAGE_SIZE && |Ranking(entries)| + MAX_PAGE_SIZE < WORD
    requires i < |WordPage(Ranking(entries), page, size)|
    ensures var item := WordPage(Ranking(entries), page, size)[i];
            && item.0 in entries && entries[item.0] == item.1
            && (Offset(page, size) + i + 1) % WORD == |UsersAhead(entries, item.0)| + 1
            && (SentRank(page, size, i) == |UsersAhead(entries, item.0)| + 1
                <==> |UsersAhead(entries, item.0)| + 1 < 0x8000_0000)
  {
    hide Ranking, UsersAhead, ToInt32, Ahead, Offset, WordPage;
    var start := Offset(page, size) % WORD;
    ServedRow(Ranking(entries), page, size, i);
    RankCountsUsersAhead(entries, start + i);
    CastFits(start + i + 1);
  }

  // Row i of a served page stands behind the offset as the word it is, wrapped or not.
  lemma ServedRow<T>(s: seq<T>, page: nat, size: nat, i: nat)
    requires page >= 1 && 1 <= size <= MAX_PAGE_SIZE && |s| + MAX_PAGE_SIZE < WORD
    requires i < |WordPage(s, page, size)|
    ensures var start := Offset(page, size) % WORD;
            && start + i < |s| && WordPage(s, page, size)[i] == s[start + i]
            && (Offset(page, size) + i + 1) % WORD == start + i + 1
  {
    hide Offset;
    RowInPage(s, Offset(page, size) % WORD, size, i);
    WrappedSum(Offset(page, size), i + 1);
  }

  lemma RowInPage<T>(s: seq<T>, start: nat, size: nat, i: nat)
    requires start < |s| && i < |s[start..Clip(start + size, |s|)]|
    ensures start + i < |s| && s[start..Clip(start + size, |s|)][i] == s[start + i]
  {
  }

  lemma WrappedSum(offset: nat, n: nat)
    requires offset % WORD + n < WORD
    ensures (offset + n) % WORD == offset % WORD + n
  {
  }

  lemma CastFits(n: nat)
    requires n < WORD
    ensures ToInt32(n) == n <==> n < 0x8000_0000
  {
  }

  // The server returns the page of the contract exactly when its offset does not wrap into the list: either the
  // offset fits a word, or its wrapped value still lies behind the last entry.
  lemma WordPageIsIdealExactly<T>(s: seq<T>, page: nat, size: nat)
    requires page >= 1 && 1 <= size <= MAX_PAGE_SIZE && |s| + MAX_PAGE_SIZE < WORD
    ensures WordPage(s, page, size) == IdealPage(s, page, size)
            <==> Offset(page, size) < WORD || Offset(page, size) % WORD >= |s|
  {
    var offset := Offset(page, size);
    assert page * size == offset + size;
    if offset < WORD {
      assert offset % WORD == offset;
    } else {
      assert IdealPage(s, page, size) == [];
    }
  }

  // Page 2^63 + 1 of size 2 passes the request checks, and shows the first two users instead of nobody.
  lemma HugePageWrapsToTheFirst<T>(s: seq<T>)
    requires 2 <= |s| && |s| + MAX_PAGE_SIZE < WORD
    ensures WordPage(s, WORD / 2 + 1, 2) == s[..2]
    ensures IdealPage(s, WORD / 2 + 1, 2) == []
  {
  }
}
