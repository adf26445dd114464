/** Insertion into order by a comparator, and the facts that make a sorted result independent of how it was reached. */
module Sorting {
  import opened Basics

  // A strict weak order, as std::sort and std::stable_sort require of their comparator.
  ghost predicate StrictWeakOrder<T(!new)>(before: (T, T) -> bool) {
    && (forall x :: !before(x, x))
    && (forall x, y, z :: before(x, y) && before(y, z) ==> before(x, z))
    && (forall x, y, z :: before(x, z) ==> before(x, y) || before(y, z))
  }

  ghost predicate StrictlySorted<T>(before: (T, T) -> bool, s: seq<T>) {
    forall i, j :: 0 <= i < j < |s| ==> before(s[i], s[j])
  }

  // No two positions hold elements the comparator cannot tell apart.
  ghost predicate AllComparable<T>(before: (T, T) -> bool, s: seq<T>) {
    forall i, j :: 0 <= i < j < |s| ==> before(s[i], s[j]) || before(s[j], s[i])
  }

  // Insert x behind every element that x does not precede.
  function Insert<T>(before: (T, T) -> bool, s: seq<T>, x: T): (r: seq<T>)
    ensures |r| == |s| + 1
    ensures multiset(r) == multiset(s) + multiset{x}
  {
    if s == [] then [x]
    else
      var last := s[|s| - 1];
      assert s == s[..|s| - 1] + [last];
      if before(x, last) then Insert(before, s[..|s| - 1], x) + [last] else s + [x]
  }

  function Sort<T>(before: (T, T) -> bool, s: seq<T>): (r: seq<T>)
    ensures |r| == |s|
    ensures multiset(r) == multiset(s)
  {
    if s == [] then []
    else
      assert s == s[..|s| - 1] + [s[|s| - 1]];
      Insert(before, Sort(before, s[..|s| - 1]), s[|s| - 1])
  }

  lemma SmallestComesFirst<T(!new)>(before: (T, T) -> bool, a: seq<T>, b: seq<T>)
    requires StrictWeakOrder(before) && a != []
    requires StrictlySorted(before, a) && StrictlySorted(before, b)
    requires multiset(a) == multiset(b)
    ensures b != [] && a[0] == b[0]
  {
    assert a[0] in multiset(b);
    var k :| 0 <= k < |b| && b[k] == a[0];
    assert b[0] in multiset(a);
    var j :| 0 <= j < |a| && a[j] == b[0];
    var x, y := a[0], b[0];
    assert y == x || before(y, x);
    assert x == y || before(x, y);
    assert before(x, y) && before(y, x) ==> before(x, x);
  }

  // Two strictly sorted sequences with the same elements are the same sequence.
  lemma {:induction false} StrictlySortedIsUnique<T(!new)>(before: (T, T) -> bool, a: seq<T>, b: seq<T>)
    requires StrictWeakOrder(before)
    requires StrictlySorted(before, a) && StrictlySorted(before, b)
    requires multiset(a) == multiset(b)
    ensures a == b
  {
    hide StrictWeakOrder, StrictlySorted;
    if a == [] {
      assert |multiset(b)| == 0;
    } else {
      SmallestComesFirst(before, a, b);
      DropFirst(a);
      DropFirst(b);
      SortedTail(before, a);
      SortedTail(before, b);
      StrictlySortedIsUnique(before, a[1..], b[1..]);
      HeadAndTail(a);
      HeadAndTail(b);
    }
  }

  lemma SortedTail<T>(before: (T, T) -> bool, s: seq<T>)
    requires StrictlySorted(before, s) && s != []
    ensures StrictlySorted(before, s[1..])
  {
  }

  lemma HeadAndTail<T>(s: seq<T>)
    requires s != []
    ensures s == [s[0]] + s[1..]
  {
  }

  lemma DropFirst<T>(s: seq<T>)
    requires s != []
    ensures multiset(s[1..]) == multiset(s) - multiset{s[0]}
  {
    assert s == [s[0]] + s[1..];
  }

  lemma ComparableElements<T>(before: (T, T) -> bool, s: seq<T>, i: nat, j: nat)
    requires AllComparable(before, s) && i < j < |s|
    ensures before(s[i], s[j]) || before(s[j], s[i])
  {
  }

  lemma ComparablePrefix<T>(before: (T, T) -> bool, s: seq<T>)
    requires AllComparable(before, s) && s != []
    ensures AllComparable(before, s[..|s| - 1])
  {
    forall i, j | 0 <= i < j < |s| - 1 ensures before(s[i], s[j]) || before(s[j], s[i]) {
      ComparableElements(before, s, i, j);
    }
  }

  lemma ComparableWithLast<T>(before: (T, T) -> bool, s: seq<T>, y: T)
    requires AllComparable(before, s) && s != [] && y in multiset(s[..|s| - 1])
    ensures before(s[|s| - 1], y) || before(y, s[|s| - 1])
  {
    var i :| 0 <= i < |s| - 1 && s[i] == y;
    ComparableElements(before, s, i, |s| - 1);
  }

  lemma {:induction false} InsertStrictly<T(!new)>(before: (T, T) -> bool, s: seq<T>, x: T)
    requires StrictWeakOrder(before) && StrictlySorted(before, s)
    requires forall y :: y in s ==> before(x, y) || before(y, x)
    ensures StrictlySorted(before, Insert(before, s, x))
  {
    if s == [] {
    } else {
      var n := |s| - 1;
      var last := s[n];
      if before(x, last) {
        InsertStrictly(before, s[..n], x);
        var r := Insert(before, s[..n], x);
        forall i | 0 <= i < |r| ensures before(r[i], last) {
          assert r[i] in multiset(r);
          if r[i] != x {
            assert r[i] in s[..n];
          }
        }
      } else {
        assert before(last, x);
        forall i | 0 <= i < |s| ensures before(s[i], x) {
          if i < n { assert before(s[i], last); }
        }
      }
    }
  }

  // Sorting elements that are pairwise comparable leaves nothing to chance.
  lemma {:induction false} SortStrictly<T(!new)>(before: (T, T) -> bool, s: seq<T>)
    requires StrictWeakOrder(before) && AllComparable(before, s)
    ensures StrictlySorted(before, Sort(before, s))
  {
    hide StrictWeakOrder, AllComparable, StrictlySorted, Insert;
    if s == [] {
      NothingToSort<T>(before);
    } else {
      var n := |s| - 1;
      ComparablePrefix(before, s);
      SortStrictly(before, s[..n]);
      forall y | y in Sort(before, s[..n]) ensures before(s[n], y) || before(y, s[n]) {
        assert y in multiset(Sort(before, s[..n]));
        ComparableWithLast(before, s, y);
      }
      InsertStrictly(before, Sort(before, s[..n]), s[n]);
    }
  }

  lemma NothingToSort<T>(before: (T, T) -> bool)
    ensures StrictlySorted(before, [])
  {
  }

  lemma SortedConcat<T(!new)>(before: (T, T) -> bool, a: seq<T>, b: seq<T>)
    requires StrictlySorted(before, a) && StrictlySorted(before, b)
    requires forall x, y :: x in a && y in b ==> before(x, y)
    ensures StrictlySorted(before, a + b)
  {
    forall i, j | 0 <= i < j < |a + b| ensures before((a + b)[i], (a + b)[j]) {
      if i < |a| <= j {
        assert a[i] in a && b[j - |a|] in b;
      }
    }
  }

  // ---- Copies of sets ----

  // A set in some fixed but unknown order, as a hash container yields it.
  ghost function Enumerate<T>(items: set<T>): (s: seq<T>)
    ensures multiset(s) == multiset(items)
  {
    if items == {} then []
    else
      var x := Pick(items);
      assert multiset(items) == multiset(items - {x}) + multiset{x};
      Enumerate(items - {x}) + [x]
  }

  lemma OnceMeansDistinct<T>(s: seq<T>, i: nat, j: nat)
    requires i < j < |s| && multiset(s)[s[i]] == 1
    ensures s[i] != s[j]
  {
    assert s == s[..j] + [s[j]] + s[j + 1..];
    assert s[i] in multiset(s[..j]) by { assert s[..j][i] == s[i]; }
  }

  predicate Below(x: int, y: int) {
    x < y
  }

  // The members of a set of integers, smallest first.
  ghost function Ascending(ids: set<int>): seq<int> {
    Sort(Below, Enumerate(ids))
  }

  lemma CopyIsComparable(ids: set<int>, copy: seq<int>)
    requires multiset(copy) == multiset(ids)
    ensures AllComparable(Below, copy)
  {
    forall i, j | 0 <= i < j < |copy| ensures copy[i] != copy[j] {
      assert copy[i] in multiset(copy);
      OnceMeansDistinct(copy, i, j);
    }
  }

  lemma AscendingIsStrict(ids: set<int>)
    ensures StrictlySorted(Below, Ascending(ids))
    ensures multiset(Ascending(ids)) == multiset(ids)
    ensures forall id :: id in Ascending(ids) <==> id in ids
    ensures |Ascending(ids)| == |ids|
  {
    var copy := Enumerate(ids);
    CopyIsComparable(ids, copy);
    SortStrictly(Below, copy);
    assert |multiset(copy)| == |copy|;
    forall id ensures id in Ascending(ids) <==> id in ids {
      assert id in Ascending(ids) <==> id in multiset(Ascending(ids));
    }
  }

  // Whatever order the set is copied in, sorting the copy yields the same sequence.
  lemma SortedCopyIsAscending(ids: set<int>, copy: seq<int>)
    requires multiset(copy) == multiset(ids)
    ensures Sort(Below, copy) == Ascending(ids)
  {
    CopyIsComparable(ids, copy);
    SortStrictly(Below, copy);
    AscendingIsStrict(ids);
    StrictlySortedIsUnique(Below, Sort(Below, copy), Ascending(ids));
  }
}
