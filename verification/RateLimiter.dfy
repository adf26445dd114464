/** The fixed-window rate limiter, and what it promises about arbitrary time intervals. */
module RateLimiters {
  import opened Basics

  datatype Bucket = Bucket(count: nat, windowStart: int)

  datatype Policy = Policy(maxAttempts: nat, window: nat)

  // An attempt for some key at some clock reading.
  datatype Call = Call(key: string, now: int)

  type Buckets = map<string, Bucket>

  const EMPTY_BUCKET := Bucket(0, 0)

  // The bucket an attempt is judged with: a start of zero means that no window was opened, and a window that is over
  // is replaced by one starting now.
  function Rolled(p: Policy, b: Bucket, now: int): Bucket {
    var started := if b.windowStart == 0 then b.(windowStart := now) else b;
    if now - started.windowStart > p.window then Bucket(0, now) else started
  }

  predicate Allows(p: Policy, b: Bucket, now: int) {
    Rolled(p, b, now).count < p.maxAttempts
  }

  function AfterAttempt(p: Policy, b: Bucket, now: int): Bucket {
    var r := Rolled(p, b, now);
    if r.count < p.maxAttempts then r.(count := r.count + 1) else r
  }

  function BucketOf(buckets: Buckets, key: string): Bucket {
    if key in buckets then buckets[key] else EMPTY_BUCKET
  }

  function After(p: Policy, buckets: Buckets, c: Call): Buckets {
    buckets[c.key := AfterAttempt(p, BucketOf(buckets, c.key), c.now)]
  }

  // The limiter after a history of calls.
  function Run(p: Policy, calls: seq<Call>): Buckets {
    if calls == [] then map[] else After(p, Run(p, calls[..|calls| - 1]), calls[|calls| - 1])
  }

  // Whether the i-th call of a history was allowed.
  predicate Allowed(p: Policy, calls: seq<Call>, i: nat)
    requires i < |calls|
  {
    Allows(p, BucketOf(Run(p, calls[..i]), calls[i].key), calls[i].now)
  }

  // Clock readings in order of arrival; the clock does not run backwards and starts at or after the epoch.
  ghost predicate ClockRises(calls: seq<Call>) {
    && (forall i :: 0 <= i < |calls| ==> calls[i].now >= 0)
    && (forall i, j :: 0 <= i < j < |calls| ==> calls[i].now <= calls[j].now)
  }

  // ---- One key at a time ----

  function TimesOf(calls: seq<Call>, key: string): seq<int> {
    if calls == [] then []
    else
      var last := calls[|calls| - 1];
      TimesOf(calls[..|calls| - 1], key) + if last.key == key then [last.now] else []
  }

  function BucketAfter(p: Policy, times: seq<int>): Bucket {
    if times == [] then EMPTY_BUCKET else AfterAttempt(p, BucketAfter(p, times[..|times| - 1]), times[|times| - 1])
  }

  // Attempts on one key never affect another: the bucket of a key is what its own attempts make it.
  lemma {:induction false} KeysAreIndependent(p: Policy, calls: seq<Call>, key: string)
    ensures BucketOf(Run(p, calls), key) == BucketAfter(p, TimesOf(calls, key))
  {
    if calls == [] {
    } else {
      var rest, last := calls[..|calls| - 1], calls[|calls| - 1];
      KeysAreIndependent(p, rest, key);
      var times, before := TimesOf(rest, key), Run(p, rest);
      assert Run(p, calls) == After(p, before, last);
      if last.key == key {
        assert (times + [last.now])[..|times|] == times;
        assert BucketAfter(p, times + [last.now]) == AfterAttempt(p, BucketAfter(p, times), last.now);
      } else {
        assert TimesOf(calls, key) == times;
        assert BucketOf(After(p, before, last), key) == BucketOf(before, key);
      }
    }
  }

  // Two histories with the same attempts on a key give the next attempt on that key the same answer.
  lemma OtherKeysDoNotMatter(p: Policy, a: seq<Call>, b: seq<Call>, c: Call)
    requires TimesOf(a, c.key) == TimesOf(b, c.key)
    ensures Allowed(p, a + [c], |a|) == Allowed(p, b + [c], |b|)
  {
    assert (a + [c])[..|a|] == a && (b + [c])[..|b|] == b;
    KeysAreIndependent(p, a, c.key);
    KeysAreIndependent(p, b, c.key);
  }

  // ---- When an attempt is allowed ----

  // Where the window opened that the last of some attempts falls into: at the first attempt of all, and then at every
  // attempt more than a window after the opening before it, whether allowed or not.
  function Opening(p: Policy, times: seq<int>): int {
    if times == [] then 0
    else
      var before, now := Opening(p, times[..|times| - 1]), times[|times| - 1];
      if |times| == 1 || now - before > p.window then now else before
  }

  // How many attempts were made since that opening.
  function MadeInWindow(p: Policy, times: seq<int>): nat {
    if times == [] then 0
    else
      var front, now := times[..|times| - 1], times[|times| - 1];
      if front == [] || now - Opening(p, front) > p.window then 1 else MadeInWindow(p, front) + 1
  }

  function Least(a: nat, b: nat): nat {
    if a < b then a else b
  }

  lemma {:induction false} BucketIsTheWindow(p: Policy, times: seq<int>)
    requires times != [] && forall i :: 0 <= i < |times| ==> times[i] > 0
    ensures BucketAfter(p, times) == Bucket(Least(p.maxAttempts, MadeInWindow(p, times)), Opening(p, times))
    ensures Opening(p, times) > 0
  {
    var front := times[..|times| - 1];
    if |times| == 1 {
      assert BucketAfter(p, front) == EMPTY_BUCKET;
    } else {
      BucketIsTheWindow(p, front);
    }
  }

  lemma TimesElements(calls: seq<Call>, key: string)
    requires forall i :: 0 <= i < |calls| ==> calls[i].now > 0
    ensures forall i :: 0 <= i < |TimesOf(calls, key)| ==> TimesOf(calls, key)[i] > 0
  {
  }

  // An attempt is allowed exactly if, with it, no more than maxAttempts attempts on its key were made since its window
  // opened.
  lemma AllowedExactly(p: Policy, calls: seq<Call>, i: nat)
    requires i < |calls| && forall k :: 0 <= k < |calls| ==> calls[k].now > 0
    ensures Allowed(p, calls, i)
            <==> MadeInWindow(p, TimesOf(calls[..i + 1], calls[i].key)) <= p.maxAttempts
  {
    var key, now := calls[i].key, calls[i].now;
    var before := TimesOf(calls[..i], key);
    KeysAreIndependent(p, calls[..i], key);
    TimesElements(calls[..i], key);
    assert calls[..i + 1][..i] == calls[..i];
    assert TimesOf(calls[..i + 1], key) == before + [now];
    NextInWindow(p, before, now);
  }

  lemma NextInWindow(p: Policy, times: seq<int>, now: int)
    requires now > 0 && forall i :: 0 <= i < |times| ==> times[i] > 0
    ensures Allows(p, BucketAfter(p, times), now) <==> MadeInWindow(p, times + [now]) <= p.maxAttempts
  {
    var all := times + [now];
    assert all[..|times|] == times;
    if times != [] {
      BucketIsTheWindow(p, times);
    }
  }

  lemma {:induction false} OpenedAfterZero(p: Policy, calls: seq<Call>, key: string)
    requires forall i :: 0 <= i < |calls| ==> calls[i].now > 0
    ensures BucketOf(Run(p, calls), key) == EMPTY_BUCKET || BucketOf(Run(p, calls), key).windowStart > 0
  {
    if calls == [] {
    } else {
      OpenedAfterZero(p, calls[..|calls| - 1], key);
    }
  }

  // A refused attempt leaves the limiter as it was.
  lemma RefusedChangesNothing(p: Policy, calls: seq<Call>, c: Call)
    requires p.maxAttempts > 0 && forall i :: 0 <= i < |calls| ==> calls[i].now > 0
    requires !Allows(p, BucketOf(Run(p, calls), c.key), c.now)
    ensures Run(p, calls + [c]) == Run(p, calls)
  {
    assert (calls + [c])[..|calls|] == calls;
    OpenedAfterZero(p, calls, c.key);
  }

  lemma {:induction false} RunContinues(p: Policy, a: seq<Call>, b: seq<Call>, more: seq<Call>)
    requires Run(p, a) == Run(p, b)
    ensures Run(p, a + more) == Run(p, b + more)
  {
    if more == [] {
      assert a + more == a && b + more == b;
    } else {
      hide Run, After;
      var rest, last := more[..|more| - 1], more[|more| - 1];
      RunContinues(p, a, b, rest);
      ConcatLast(a, more);
      ConcatLast(b, more);
      RunAppend(p, a + rest, last);
      RunAppend(p, b + rest, last);
    }
  }

  lemma RunAppend(p: Policy, calls: seq<Call>, c: Call)
    ensures Run(p, calls + [c]) == After(p, Run(p, calls), c)
  {
    hide After;
    assert (calls + [c])[..|calls|] == calls;
  }

  // Deleting a refused attempt from a history leaves the answer of every later attempt as it was.
  lemma RefusedLeavesNoTrace(p: Policy, calls: seq<Call>, c: Call, more: seq<Call>, k: nat)
    requires k < |more| && forall i :: 0 <= i < |calls| ==> calls[i].now > 0
    requires !Allowed(p, calls + [c] + more, |calls|)
    ensures Allowed(p, calls + [c] + more, |calls| + 1 + k) <==> Allowed(p, calls + more, |calls| + k)
  {
    hide Run, BucketOf;
    var all, rest := calls + [c] + more, calls + more;
    assert all[..|calls|] == calls && all[|calls|] == c;
    assert all[..|calls| + 1 + k] == calls + [c] + more[..k] && rest[..|calls| + k] == calls + more[..k];
    assert all[|calls| + 1 + k] == more[k] == rest[|calls| + k];
    if p.maxAttempts > 0 {
      RefusedChangesNothing(p, calls, c);
      RunContinues(p, calls + [c], calls, more[..k]);
    }
  }

  // ---- Counting the allowed attempts of one key ----

  // The number of allowed attempts on a key among calls[i..j].
  function AllowedCount(p: Policy, calls: seq<Call>, key: string, i: nat, j: nat): nat
    requires i <= j <= |calls|
  {
    if i == j then 0
    else AllowedCount(p, calls, key, i, j - 1) + if calls[j - 1].key == key && Allowed(p, calls, j - 1) then 1 else 0
  }

  // A bucket reached by attempts up to time t: never over the limit, and no window from the future.
  ghost predicate Reached(p: Policy, b: Bucket, t: int) {
    b.count <= p.maxAttempts && 0 <= b.windowStart <= t
  }

  lemma {:induction false} RunReaches(p: Policy, calls: seq<Call>, key: string, t: int)
    requires ClockRises(calls) && 0 <= t && forall i :: 0 <= i < |calls| ==> calls[i].now <= t
    ensures Reached(p, BucketOf(Run(p, calls), key), t)
  {
    if calls == [] {
    } else {
      var rest, last := calls[..|calls| - 1], calls[|calls| - 1];
      RunReaches(p, rest, key, last.now);
    }
  }

  // The least distance between the starts of two windows, in units of the clock.
  function Spacing(p: Policy): nat {
    p.window + 1
  }

  // Invariant of counting forward from a window opened at origin of which so much was used: each further batch of
  // maxAttempts needs a new window.
  ghost predicate Budget(p: Policy, origin: int, used: nat, allowed: nat, b: Bucket, windows: nat) {
    && used + allowed <= p.maxAttempts * windows + b.count
    && b.count <= p.maxAttempts
    && origin + windows * Spacing(p) <= b.windowStart
  }

  lemma WindowMoves(p: Policy, origin: int, b: Bucket, now: int, windows: nat)
    requires origin + windows * Spacing(p) <= b.windowStart && now - b.windowStart > p.window
    ensures origin + (windows + 1) * Spacing(p) <= now
  {
    assert (windows + 1) * Spacing(p) == windows * Spacing(p) + Spacing(p);
  }

  lemma AttemptWithinBudget(p: Policy, origin: int, used: nat, allowed: nat, b: Bucket, windows: nat, now: int)
    returns (windows': nat)
    requires Budget(p, origin, used, allowed, b, windows) && 0 <= b.windowStart <= now
    ensures Budget(p, origin, used, allowed + (if Allows(p, b, now) then 1 else 0), AfterAttempt(p, b, now), windows')
    ensures 0 <= AfterAttempt(p, b, now).windowStart <= now
  {
    windows' := windows;
    if b.windowStart != 0 && now - b.windowStart > p.window {
      WindowMoves(p, origin, b, now, windows);
      assert p.maxAttempts * (windows + 1) == p.maxAttempts * windows + p.maxAttempts;
      windows' := windows + 1;
    }
  }

  lemma RunStep(p: Policy, calls: seq<Call>, key: string, j: nat)
    requires j < |calls|
    ensures BucketOf(Run(p, calls[..j + 1]), key)
            == if calls[j].key == key then AfterAttempt(p, BucketOf(Run(p, calls[..j]), key), calls[j].now)
               else BucketOf(Run(p, calls[..j]), key)
  {
    assert calls[..j + 1][..j] == calls[..j];
  }

  lemma RollingTwice(p: Policy, b: Bucket, now: int)
    ensures Rolled(p, Rolled(p, b, now), now) == Rolled(p, b, now)
  {
  }

  lemma BudgetStarts(p: Policy, calls: seq<Call>, f: nat, r: Bucket) returns (windows: nat)
    requires f < |calls| && 0 <= calls[f].now
    requires r == Rolled(p, BucketOf(Run(p, calls[..f]), calls[f].key), calls[f].now)
    requires r.count <= p.maxAttempts && 0 <= r.windowStart <= calls[f].now
    ensures var b := BucketOf(Run(p, calls[..f + 1]), calls[f].key);
            && Budget(p, r.windowStart, r.count, if Allowed(p, calls, f) then 1 else 0, b, windows)
            && 0 <= b.windowStart <= calls[f].now
  {
    var b := BucketOf(Run(p, calls[..f]), calls[f].key);
    RollingTwice(p, b, calls[f].now);
    RunStep(p, calls, calls[f].key, f);
    windows := AttemptWithinBudget(p, r.windowStart, r.count, 0, r, 0, calls[f].now);
  }

  ghost predicate WithinBudget(p: Policy, calls: seq<Call>, f: nat, j: nat, r: Bucket, windows: nat)
    requires f < j <= |calls|
  {
    var b := BucketOf(Run(p, calls[..j]), calls[f].key);
    && Budget(p, r.windowStart, r.count, AllowedCount(p, calls, calls[f].key, f, j), b, windows)
    && 0 <= b.windowStart <= calls[j - 1].now
  }

  lemma FirstCallWithinBudget(p: Policy, calls: seq<Call>, f: nat, r: Bucket) returns (windows: nat)
    requires f < |calls| && 0 <= calls[f].now
    requires r == Rolled(p, BucketOf(Run(p, calls[..f]), calls[f].key), calls[f].now)
    requires r.count <= p.maxAttempts && 0 <= r.windowStart <= calls[f].now
    ensures WithinBudget(p, calls, f, f + 1, r, windows)
  {
    hide Run, Rolled;
    OneCallCount(p, calls, f);
    windows := BudgetStarts(p, calls, f, r);
  }

  // The attempts from the f-th call on stay within the budget of the window that call finds or opens.
  lemma {:induction false} BudgetHolds(p: Policy, calls: seq<Call>, f: nat, j: nat, r: Bucket) returns (windows: nat)
    requires f < j <= |calls| && ClockRises(calls)
    requires r == Rolled(p, BucketOf(Run(p, calls[..f]), calls[f].key), calls[f].now)
    requires r.count <= p.maxAttempts && 0 <= r.windowStart <= calls[f].now
    ensures WithinBudget(p, calls, f, j, r, windows)
    decreases j
  {
    hide Run, Rolled, BucketOf, WithinBudget;
    if j == f + 1 {
      windows := FirstCallWithinBudget(p, calls, f, r);
    } else {
      windows := BudgetHolds(p, calls, f, j - 1, r);
      windows := BudgetExtends(p, calls, f, j - 1, r, windows);
    }
  }

  lemma BudgetExtends(p: Policy, calls: seq<Call>, f: nat, j: nat, r: Bucket, before: nat) returns (windows: nat)
    requires f < j < |calls| && calls[j - 1].now <= calls[j].now && WithinBudget(p, calls, f, j, r, before)
    ensures WithinBudget(p, calls, f, j + 1, r, windows)
  {
    windows := BudgetStep(p, calls, calls[f].key, f, j, r.windowStart, r.count, before);
  }

  lemma OneCallCount(p: Policy, calls: seq<Call>, f: nat)
    requires f < |calls|
    ensures AllowedCount(p, calls, calls[f].key, f, f + 1) == if Allowed(p, calls, f) then 1 else 0
  {
    assert AllowedCount(p, calls, calls[f].key, f, f) == 0;
  }

  lemma BudgetStep(p: Policy, calls: seq<Call>, key: string, f: nat, j: nat, origin: int, used: nat, before: nat)
    returns (windows: nat)
    requires f <= j < |calls|
    requires var b := BucketOf(Run(p, calls[..j]), key);
             Budget(p, origin, used, AllowedCount(p, calls, key, f, j), b, before) && 0 <= b.windowStart <= calls[j].now
    ensures var b := BucketOf(Run(p, calls[..j + 1]), key);
            && Budget(p, origin, used, AllowedCount(p, calls, key, f, j + 1), b, windows)
            && 0 <= b.windowStart <= calls[j].now
  {
    windows := before;
    RunStep(p, calls, key, j);
    if calls[j].key == key {
      windows := AttemptWithinBudget(p, origin, used, AllowedCount(p, calls, key, f, j),
                                     BucketOf(Run(p, calls[..j]), key), before, calls[j].now);
    }
  }

  function CeilDiv(n: nat, d: nat): nat
    requires d > 0
  {
    (n + d - 1) / d
  }

  lemma BigFactor(e: nat, d: nat)
    requires e >= 1
    ensures e * d >= d
  {
    assert e * d == (e - 1) * d + d;
  }

  lemma CeilDivBounds(n: nat, d: nat, k: nat)
    requires d > 0 && k > 0 && (k - 1) * d < n
    ensures k <= CeilDiv(n, d)
  {
    var m := n + d - 1;
    var q := m / d;
    assert k * d == (k - 1) * d + d;
    assert m == q * d + m % d;
    assert (k - q) * d == k * d - q * d;
    if k > q {
      BigFactor(k - q, d);
      assert false;
    }
  }

  lemma {:induction false} NoAttemptsNoCount(p: Policy, calls: seq<Call>, key: string, i: nat, f: nat, j: nat)
    requires i <= f <= j <= |calls|
    requires forall k :: i <= k < f ==> calls[k].key != key
    ensures AllowedCount(p, calls, key, i, j) == AllowedCount(p, calls, key, f, j)
    decreases j
  {
    if j > f {
      NoAttemptsNoCount(p, calls, key, i, f, j - 1);
    } else if j > i {
      NoAttemptsNoCount(p, calls, key, i, f - 1, j - 1);
    }
  }

  lemma {:induction false} FirstAttempt(calls: seq<Call>, key: string, i: nat, j: nat) returns (f: nat)
    requires i <= j <= |calls|
    ensures i <= f <= j && (forall k :: i <= k < f ==> calls[k].key != key)
    ensures f < j ==> calls[f].key == key
    decreases j - i
  {
    if i == j || calls[i].key == key {
      f := i;
    } else {
      f := FirstAttempt(calls, key, i + 1, j);
    }
  }

  // ---- The most that can pass in an interval ----

  ghost predicate InInterval(calls: seq<Call>, i: nat, j: nat, from: int, length: nat) {
    i <= j <= |calls| && forall k :: i <= k < j ==> from <= calls[k].now <= from + length
  }

  // The largest number of attempts on one key that can pass within an interval. Unless the length is a multiple of
  // the spacing of windows, the first window may have opened just before the interval, for one attempt outside of it.
  function MostIn(p: Policy, length: nat): nat {
    var n, whole := p.maxAttempts, length / Spacing(p);
    if n == 0 then 0 else if length % Spacing(p) == 0 then n * (whole + 1) else n * (whole + 2) - 1
  }

  lemma {:induction false} OpenedWindowIsUsed(p: Policy, calls: seq<Call>, key: string)
    requires p.maxAttempts > 0
    ensures BucketOf(Run(p, calls), key) == EMPTY_BUCKET || BucketOf(Run(p, calls), key).count > 0
  {
    if calls == [] {
    } else {
      OpenedWindowIsUsed(p, calls[..|calls| - 1], key);
    }
  }

  // The window an attempt is counted in: when it opened before the interval, an attempt outside was counted too.
  lemma FirstWindow(p: Policy, calls: seq<Call>, f: nat, from: int) returns (r: Bucket)
    requires f < |calls| && ClockRises(calls) && from <= calls[f].now
    ensures r == Rolled(p, BucketOf(Run(p, calls[..f]), calls[f].key), calls[f].now)
    ensures r.count <= p.maxAttempts && 0 <= r.windowStart <= calls[f].now
    ensures from - p.window <= r.windowStart
    ensures r.windowStart < from && p.maxAttempts > 0 ==> r.count > 0
  {
    r := Rolled(p, BucketOf(Run(p, calls[..f]), calls[f].key), calls[f].now);
    RunReaches(p, calls[..f], calls[f].key, calls[f].now);
    if p.maxAttempts > 0 {
      OpenedWindowIsUsed(p, calls[..f], calls[f].key);
    }
  }

  lemma QuotientBound(k: nat, d: nat, n: nat)
    requires d > 0 && k * d <= n
    ensures k <= n / d
  {
    var q := n / d;
    assert n == q * d + n % d;
    if k > q {
      assert k * d == (k - q) * d + q * d;
      BigFactor(k - q, d);
      assert false;
    }
  }

  lemma MulMonotone(a: nat, b: nat, c: nat)
    requires b <= c
    ensures a * b <= a * c
  {
  }

  lemma OneMoreFactor(a: nat, b: nat)
    ensures a * (b + 1) == a * b + a
  {
  }

  // With the first window opened inside the interval, the windows after it fit into the interval.
  lemma InsideArithmetic(p: Policy, origin: int, used: nat, allowed: nat, b: Bucket, windows: nat, from: int,
                         length: nat)
    requires Budget(p, origin, used, allowed, b, windows)
    requires from <= origin && b.windowStart <= from + length
    ensures allowed <= MostIn(p, length)
  {
    var n, whole := p.maxAttempts, length / Spacing(p);
    QuotientBound(windows, Spacing(p), length);
    MulMonotone(n, windows, whole);
    OneMoreFactor(n, whole);
    OneMoreFactor(n, whole + 1);
  }

  lemma RoundedUp(length: nat, d: nat)
    requires d > 0
    ensures (length + d - 1) / d == length / d + if length % d == 0 then 0 else 1
  {
    var q, s := length / d, length % d;
    var e := if s == 0 then d - 1 else s - 1;
    var up := if s == 0 then q else q + 1;
    OneMoreFactor(d, q);
    assert length == d * q + s;
    assert length + d - 1 == d * up + e;
    QuotientIs(length + d - 1, d, up, e);
  }

  lemma QuotientIs(n: nat, d: nat, q: nat, s: nat)
    requires d > 0 && n == d * q + s && s < d
    ensures n / d == q && n % d == s
  {
    var r := n / d;
    assert n == d * r + n % d;
    if r < q {
      assert d * q == d * r + d * (q - r);
      BigFactor(q - r, d);
      assert false;
    }
    if r > q {
      assert d * r == d * q + d * (r - q);
      BigFactor(r - q, d);
      assert false;
    }
  }

  // With the first window opened before it, one more window may fit, but one attempt was outside.
  lemma OutsideArithmetic(p: Policy, origin: int, used: nat, allowed: nat, b: Bucket, windows: nat, from: int,
                          length: nat)
    requires Budget(p, origin, used, allowed, b, windows)
    requires from - p.window <= origin && b.windowStart <= from + length
    requires p.maxAttempts > 0 ==> used > 0
    ensures allowed <= MostIn(p, length)
  {
    var n, whole := p.maxAttempts, length / Spacing(p);
    var up := (length + Spacing(p) - 1) / Spacing(p);
    QuotientBound(windows, Spacing(p), length + Spacing(p) - 1);
    RoundedUp(length, Spacing(p));
    MulMonotone(n, windows, up);
    OneMoreFactor(n, whole);
    OneMoreFactor(n, whole + 1);
  }

  // No history lets more attempts on a key pass within an interval.
  lemma IntervalMost(p: Policy, calls: seq<Call>, key: string, i: nat, j: nat, from: int, length: nat)
    requires ClockRises(calls) && InInterval(calls, i, j, from, length)
    ensures AllowedCount(p, calls, key, i, j) <= MostIn(p, length)
  {
    var f := FirstAttempt(calls, key, i, j);
    NoAttemptsNoCount(p, calls, key, i, f, j);
    if f == j {
      NothingCounted(p, calls, key, f);
    } else {
      hide Run, Rolled, BucketOf, AllowedCount, MostIn, Budget;
      var r := FirstWindow(p, calls, f, from);
      var windows := BudgetHolds(p, calls, f, j, r);
      CountedInInterval(p, calls, f, j, r, windows, from, length);
    }
  }

  lemma NothingCounted(p: Policy, calls: seq<Call>, key: string, i: nat)
    requires i <= |calls|
    ensures AllowedCount(p, calls, key, i, i) == 0
  {
  }

  lemma CountedInInterval(p: Policy, calls: seq<Call>, f: nat, j: nat, r: Bucket, windows: nat, from: int, length: nat)
    requires f < j <= |calls| && calls[j - 1].now <= from + length
    requires from - p.window <= r.windowStart
    requires r.windowStart < from && p.maxAttempts > 0 ==> r.count > 0
    requires WithinBudget(p, calls, f, j, r, windows)
    ensures AllowedCount(p, calls, calls[f].key, f, j) <= MostIn(p, length)
  {
    hide Run, BucketOf, AllowedCount, MostIn, Budget;
    var b, allowed := BucketOf(Run(p, calls[..j]), calls[f].key), AllowedCount(p, calls, calls[f].key, f, j);
    if r.windowStart < from {
      OutsideArithmetic(p, r.windowStart, r.count, allowed, b, windows, from, length);
    } else {
      InsideArithmetic(p, r.windowStart, r.count, allowed, b, windows, from, length);
    }
  }

  // ---- Bursts that use all of it ----

  // The k-th call of a burst: window after window is used up at its start. With a lead, the rest of the first window
  // is only used at its very end.
  function Moment(p: Policy, lead: bool, k: nat): nat
    requires p.maxAttempts > 0
  {
    if lead && 0 < k < p.maxAttempts then Spacing(p) else 1 + k / p.maxAttempts * Spacing(p)
  }

  function Burst(p: Policy, key: string, lead: bool, windows: nat): (calls: seq<Call>)
    requires p.maxAttempts > 0
    ensures |calls| == p.maxAttempts * windows
    ensures forall k :: 0 <= k < |calls| ==> calls[k] == Call(key, Moment(p, lead, k))
  {
    seq(p.maxAttempts * windows, k requires 0 <= k => Call(key, Moment(p, lead, k)))
  }

  lemma DivMonotone(a: nat, b: nat, n: nat)
    requires a <= b && n > 0
    ensures a / n <= b / n
  {
    assert n * (a / n) <= a;
    QuotientBound(a / n, n, b);
  }

  lemma MomentsRise(p: Policy, lead: bool, j: nat, k: nat)
    requires p.maxAttempts > 0 && j <= k
    ensures 0 <= Moment(p, lead, j) <= Moment(p, lead, k)
  {
    var n := p.maxAttempts;
    DivMonotone(j, k, n);
    MulMonotone(Spacing(p), j / n, k / n);
    if j < n <= k {
      DivMonotone(n, k, n);
      MulMonotone(Spacing(p), 1, k / n);
    }
  }

  // The bucket after k calls of a burst that were all allowed.
  function FullBucket(p: Policy, k: nat): Bucket
    requires p.maxAttempts > 0 && k > 0
  {
    Bucket((k - 1) % p.maxAttempts + 1, 1 + (k - 1) / p.maxAttempts * Spacing(p))
  }

  // Counting on: the next call falls into the same window, or opens the next one.
  lemma NextQuotient(k: nat, n: nat)
    requires k > 0 && n > 0
    ensures if k % n == 0 then k / n == (k - 1) / n + 1 && (k - 1) % n + 1 == n
            else k / n == (k - 1) / n && k % n == (k - 1) % n + 1
  {
    var q, s := (k - 1) / n, (k - 1) % n;
    assert k - 1 == n * q + s;
    OneMoreFactor(n, q);
    if s + 1 < n { QuotientIs(k, n, q, s + 1); } else { QuotientIs(k, n, q + 1, 0); }
  }

  lemma SmallQuotient(k: nat, n: nat)
    requires k < n
    ensures k / n == 0 && k % n == k
  {
  }

  lemma BurstStep(p: Policy, lead: bool, k: nat)
    requires p.maxAttempts > 0
    ensures var b := if k == 0 then EMPTY_BUCKET else FullBucket(p, k);
            Allows(p, b, Moment(p, lead, k)) && AfterAttempt(p, b, Moment(p, lead, k)) == FullBucket(p, k + 1)
  {
    var n := p.maxAttempts;
    if k == 0 {
      SmallQuotient(0, n);
    } else {
      NextQuotient(k, n);
      NextMoment(p, lead, k);
    }
  }

  lemma NextMoment(p: Policy, lead: bool, k: nat)
    requires p.maxAttempts > 0 && k > 0
    ensures var elapsed := Moment(p, lead, k) - FullBucket(p, k).windowStart;
            if k % p.maxAttempts == 0
            then elapsed == Spacing(p) && Moment(p, lead, k) == FullBucket(p, k + 1).windowStart
            else 0 <= elapsed <= p.window
  {
    var n := p.maxAttempts;
    NextQuotient(k, n);
    OneMoreFactor(Spacing(p), (k - 1) / n);
    if k < n {
      SmallQuotient(k, n);
      SmallQuotient(k - 1, n);
    }
  }

  lemma {:induction false} BurstPasses(p: Policy, key: string, lead: bool, windows: nat, k: nat)
    requires p.maxAttempts > 0 && k <= |Burst(p, key, lead, windows)|
    ensures var calls := Burst(p, key, lead, windows);
            && BucketOf(Run(p, calls[..k]), key) == (if k == 0 then EMPTY_BUCKET else FullBucket(p, k))
            && (k < |calls| ==> Allowed(p, calls, k))
  {
    hide Moment, FullBucket, AfterAttempt, Allows, Burst;
    var calls := Burst(p, key, lead, windows);
    if k == 0 {
      assert calls[..0] == [];
    } else {
      BurstPasses(p, key, lead, windows, k - 1);
      RunStep(p, calls, key, k - 1);
      BurstStep(p, lead, k - 1);
    }
    BurstStep(p, lead, k);
  }

  lemma {:induction false} AllCounted(p: Policy, calls: seq<Call>, key: string, i: nat, j: nat)
    requires i <= j <= |calls|
    requires forall k :: i <= k < j ==> calls[k].key == key && Allowed(p, calls, k)
    ensures AllowedCount(p, calls, key, i, j) == j - i
    decreases j
  {
    hide Allowed;
    if i == j {
    } else {
      AllCounted(p, calls, key, i, j - 1);
    }
  }

  lemma BurstIsAHistory(p: Policy, key: string, lead: bool, windows: nat, i: nat)
    requires p.maxAttempts > 0 && i <= |Burst(p, key, lead, windows)|
    ensures var calls := Burst(p, key, lead, windows);
            ClockRises(calls) && AllowedCount(p, calls, key, i, |calls|) == |calls| - i
  {
    hide Moment, Run, Allowed, AllowedCount;
    var calls := Burst(p, key, lead, windows);
    forall j, k | 0 <= j <= k < |calls| ensures 0 <= calls[j].now <= calls[k].now {
      MomentsRise(p, lead, j, k);
    }
    forall k | 0 <= k < |calls| ensures Allowed(p, calls, k) {
      BurstPasses(p, key, lead, windows, k);
    }
    AllCounted(p, calls, key, i, |calls|);
  }

  // For every policy and every length some history lets that many attempts pass.
  lemma MostIsReached(p: Policy, key: string, length: nat)
    returns (calls: seq<Call>, i: nat, j: nat, from: int)
    ensures ClockRises(calls) && InInterval(calls, i, j, from, length)
    ensures AllowedCount(p, calls, key, i, j) == MostIn(p, length)
  {
    var n, whole := p.maxAttempts, length / Spacing(p);
    if n == 0 {
      calls, i, j, from := [], 0, 0, 0;
    } else {
      var lead := length % Spacing(p) != 0;
      var windows := if lead then whole + 2 else whole + 1;
      calls, i, from := Burst(p, key, lead, windows), if lead then 1 else 0, if lead then Spacing(p) else 1;
      j := |calls|;
      BigFactor(windows, n);
      BurstIsAHistory(p, key, lead, windows, i);
      BurstInInterval(p, key, length, i, from);
    }
  }

  lemma BurstInInterval(p: Policy, key: string, length: nat, i: nat, from: int)
    requires p.maxAttempts > 0
    requires i == (if length % Spacing(p) != 0 then 1 else 0)
    requires from == if length % Spacing(p) != 0 then Spacing(p) else 1
    ensures var lead := length % Spacing(p) != 0;
            var calls := Burst(p, key, lead, length / Spacing(p) + if lead then 2 else 1);
            forall k :: i <= k < |calls| ==> from <= calls[k].now <= from + length
  {
    var n, d, whole := p.maxAttempts, Spacing(p), length / Spacing(p);
    var lead := length % d != 0;
    var windows := whole + if lead then 2 else 1;
    var calls := Burst(p, key, lead, windows);
    hide Moment, Burst;
    LastMoment(p, lead, windows);
    FirstMoment(p, lead);
    LastFits(d, length);
    hide Spacing;
    forall k | i <= k < |calls| ensures from <= calls[k].now <= from + length {
      MomentsRise(p, lead, i, k);
      MomentsRise(p, lead, k, n * windows - 1);
    }
  }

  lemma LastFits(d: nat, length: nat)
    requires d > 0
    ensures length % d == 0 ==> length / d * d == length
    ensures length % d != 0 ==> (length / d + 1) * d < d + length
  {
    var q, s := length / d, length % d;
    assert length == q * d + s;
    assert (q + 1) * d == q * d + d;
  }

  lemma FirstMoment(p: Policy, lead: bool)
    requires p.maxAttempts > 0
    ensures Moment(p, lead, if lead then 1 else 0) >= if lead then Spacing(p) else 1
  {
    SmallQuotient(0, p.maxAttempts);
    if p.maxAttempts == 1 {
      QuotientIs(1, 1, 1, 0);
    }
  }

  lemma LastMoment(p: Policy, lead: bool, windows: nat)
    requires p.maxAttempts > 0 && windows > 0 && (lead ==> windows > 1)
    ensures p.maxAttempts * windows > 0
    ensures Moment(p, lead, p.maxAttempts * windows - 1) == 1 + (windows - 1) * Spacing(p)
  {
    var n := p.maxAttempts;
    OneMoreFactor(n, windows - 1);
    QuotientIs(n * windows - 1, n, windows - 1, n - 1);
    if lead {
      MulMonotone(n, 1, windows - 1);
    }
  }

  // ---- The limit per window and the limit per interval ----

  // What the name of the limit suggests: no interval of one window length lets more than maxAttempts through.
  ghost predicate PlainLimitHolds(p: Policy) {
    forall calls: seq<Call>, key: string, i: nat, j: nat, from: int :: LimitKept(p, calls, key, i, j, from)
  }

  ghost predicate LimitKept(p: Policy, calls: seq<Call>, key: string, i: nat, j: nat, from: int) {
    ClockRises(calls) && InInterval(calls, i, j, from, p.window) ==> AllowedCount(p, calls, key, i, j) <= p.maxAttempts
  }

  // The plain limit holds exactly for an empty window or a limit of at most one attempt.
  lemma PlainLimitHoldsExactly(p: Policy)
    ensures PlainLimitHolds(p) <==> p.window == 0 || p.maxAttempts <= 1
  {
    hide ClockRises, MostIn;
    MostInOneWindow(p);
    if p.window == 0 || p.maxAttempts <= 1 {
      forall calls: seq<Call>, key: string, i: nat, j: nat, from: int ensures LimitKept(p, calls, key, i, j, from) {
        if ClockRises(calls) && InInterval(calls, i, j, from, p.window) {
          IntervalMost(p, calls, key, i, j, from, p.window);
        }
      }
    } else {
      var key := "ip";
      var calls, i, j, from := MostIsReached(p, key, p.window);
      assert !LimitKept(p, calls, key, i, j, from);
    }
  }

  // Within one window length it is twice the limit less one.
  lemma MostInOneWindow(p: Policy)
    ensures MostIn(p, p.window)
            == if p.window == 0 || p.maxAttempts == 0 then p.maxAttempts else 2 * p.maxAttempts - 1
  {
    SmallQuotient(p.window, Spacing(p));
  }

  // However fine the clock is: at most maxAttempts * (ceil(length / window) + 1) attempts.
  lemma IntervalBound(p: Policy, calls: seq<Call>, key: string, i: nat, j: nat, from: int, length: nat)
    requires p.window > 0 && ClockRises(calls) && InInterval(calls, i, j, from, length)
    ensures AllowedCount(p, calls, key, i, j) <= p.maxAttempts * (CeilDiv(length, p.window) + 1)
  {
    hide AllowedCount, MostIn, ClockRises, CeilDiv;
    IntervalMost(p, calls, key, i, j, from, length);
    MostIsBelowCeil(p, length);
  }

  lemma MostIsBelowCeil(p: Policy, length: nat)
    requires p.window > 0
    ensures MostIn(p, length) <= p.maxAttempts * (CeilDiv(length, p.window) + 1)
  {
    hide CeilDiv;
    var n, whole := p.maxAttempts, length / Spacing(p);
    var needed := if length % Spacing(p) == 0 then whole else whole + 1;
    NeededFits(length, p.window, needed);
    if needed > 0 {
      CeilDivBounds(length, p.window, needed);
    }
    MulMonotone(n, needed + 1, CeilDiv(length, p.window) + 1);
  }

  lemma NeededFits(length: nat, window: nat, needed: nat)
    requires needed == length / (window + 1) + if length % (window + 1) == 0 then 0 else 1
    requires window > 0
    ensures needed > 0 ==> (needed - 1) * window < length
  {
    var d := window + 1;
    var q, s := length / d, length % d;
    assert length == q * d + s;
    assert q * d == q * window + q;
    if s == 0 && needed > 0 {
      assert (q - 1) * window == q * window - window;
    }
  }

  class RateLimiter {
    const policy: Policy
    var buckets: Buckets

    constructor (policy: Policy)
      ensures this.policy == policy && buckets == map[]
    {
      this.policy, buckets := policy, map[];
    }

    method Allow(key: string, now: int) returns (allowed: bool)
      modifies this
      ensures allowed <==> Allows(policy, BucketOf(old(buckets), key), now)
      ensures buckets == After(policy, old(buckets), Call(key, now))
    {
      var bucket := if key in buckets then buckets[key] else EMPTY_BUCKET;
      if bucket.windowStart == 0 {
        bucket := bucket.(windowStart := now);
      }
      if now - bucket.windowStart > policy.window {
        bucket := bucket.(windowStart := now);
        bucket := bucket.(count := 0);
      }
      allowed := bucket.count < policy.maxAttempts;
      if allowed {
        bucket := bucket.(count := bucket.count + 1);
      }
      buckets := buckets[key := bucket];
    }
  }
}
