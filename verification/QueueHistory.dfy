/** What becomes of every successful join over a whole run of the match queue. */
module QueueHistory {
  import opened Sessions
  import opened MatchQueue

  // busy says whether the session manager reported the user as being in a session.
  datatype Event =
    | JoinQueue(user: Participant, expiresAt: int, now: int, busy: bool)
    | LeaveQueue(userId: int)
    | Timer(now: int)

  datatype Fate = Cancelled | TimedOut | Paired(partner: nat)

  // Tickets number the successful joins. paired lists the tickets of all pairs in the order of pairing; the tickets
  // at positions 2i and 2i + 1 form a pair.
  datatype History = History(queue: Queue, fates: map<nat, Fate>, paired: seq<nat>)

  const START := History(MatchQueue.EMPTY, map[], [])

  function Tickets(nodes: seq<Node>): set<nat> {
    set n | n in nodes :: n.ticket
  }

  // The two longest waiting users leave as a pair.
  function PairOnce(h: History): History
    requires |h.queue.nodes| >= 2
  {
    var a, b := h.queue.nodes[0].ticket, h.queue.nodes[1].ticket;
    History(PopPair(h.queue), h.fates[a := Paired(b)][b := Paired(a)], h.paired + [a, b])
  }

  function PairAll(h: History): History
    decreases |h.queue.nodes|
  {
    if |h.queue.nodes| < 2 then h else PairAll(PairOnce(h))
  }

  function ExpireAll(h: History, now: int): History {
    h.(queue := DropExpired(h.queue, now),
       fates := h.fates + map t | t in Tickets(Expired(h.queue.nodes, now)) :: TimedOut)
  }

  function After(h: History, e: Event): History {
    match e
    case JoinQueue(user, expiresAt, now, busy) =>
      if user.userId in h.queue.index || busy then h else h.(queue := Push(h.queue, user, expiresAt, now))
    case LeaveQueue(userId) =>
      if userId !in h.queue.index then h
      else h.(queue := MatchQueue.Cancel(h.queue, userId), fates := h.fates[h.queue.index[userId] := Cancelled])
    case Timer(now) => PairAll(ExpireAll(h, now))
  }

  function Run(events: seq<Event>): History {
    if events == [] then START else After(Run(events[..|events| - 1]), events[|events| - 1])
  }

  // The users of all successful joins: the t-th of them holds ticket t.
  function Joiners(events: seq<Event>): seq<Participant> {
    if events == [] then []
    else
      var before, last := Joiners(events[..|events| - 1]), events[|events| - 1];
      if last.JoinQueue? && last.user.userId !in Run(events[..|events| - 1]).queue.index && !last.busy
      then before + [last.user] else before
  }

  // When they wait no longer: the expiry given with the t-th successful join.
  function Expiries(events: seq<Event>): seq<int> {
    if events == [] then []
    else
      var before, last := Expiries(events[..|events| - 1]), events[|events| - 1];
      if last.JoinQueue? && last.user.userId !in Run(events[..|events| - 1]).queue.index && !last.busy
      then before + [last.expiresAt] else before
  }

  ghost predicate Rising(s: seq<nat>) {
    forall i, j :: 0 <= i < j < |s| ==> s[i] < s[j]
  }

  // Every ticket handed out so far either waits or has met its one fate.
  ghost predicate Accounted(h: History) {
    forall t: nat :: (t in h.fates || t in Tickets(h.queue.nodes)) <==> t < h.queue.nextTicket
  }

  ghost predicate FatedOnce(h: History) {
    h.fates.Keys !! Tickets(h.queue.nodes)
  }

  // Pairing went strictly by ticket, and everybody still waiting came later than everybody paired.
  ghost predicate InOrder(h: History) {
    && Rising(h.paired)
    && |h.paired| % 2 == 0
    && (forall t, n :: t in h.paired && n in h.queue.nodes ==> t < n.ticket)
  }

  ghost predicate PartnersMatch(h: History) {
    && (forall t :: t in h.paired <==> t in h.fates && h.fates[t].Paired?)
    && (forall i :: 0 <= 2 * i + 1 < |h.paired| ==>
          && h.paired[2 * i] in h.fates && h.fates[h.paired[2 * i]] == Paired(h.paired[2 * i + 1])
          && h.paired[2 * i + 1] in h.fates && h.fates[h.paired[2 * i + 1]] == Paired(h.paired[2 * i]))
  }

  ghost predicate Consistent(h: History) {
    Valid(h.queue) && Accounted(h) && FatedOnce(h) && InOrder(h) && PartnersMatch(h)
  }

  // ---- Steps ----

  lemma JoinKeeps(h: History, user: Participant, expiresAt: int, now: int)
    requires Consistent(h) && user.userId !in h.queue.index
    ensures Consistent(h.(queue := Push(h.queue, user, expiresAt, now)))
  {
    var next := h.(queue := Push(h.queue, user, expiresAt, now));
    PushKeepsValid(h.queue, user, expiresAt, now);
    var node := Node(h.queue.nextTicket, user, expiresAt, now);
    assert Tickets(next.queue.nodes) == Tickets(h.queue.nodes) + {node.ticket} by {
      assert node in next.queue.nodes;
    }
    forall t: nat ensures (t in next.fates || t in Tickets(next.queue.nodes)) <==> t < next.queue.nextTicket {
      assert (t in h.fates || t in Tickets(h.queue.nodes)) <==> t < h.queue.nextTicket;
    }
    forall t | t in h.paired ensures t < node.ticket {
      assert t in h.fates;
    }
  }

  // Taking some nodes out of the queue with a fate that is not a pairing.
  lemma DepartureKeeps(h: History, next: History)
    requires Consistent(h) && Valid(next.queue)
    requires next.paired == h.paired && next.queue.nextTicket == h.queue.nextTicket
    requires forall n :: n in next.queue.nodes ==> n in h.queue.nodes
    requires next.fates.Keys == h.fates.Keys + (Tickets(h.queue.nodes) - Tickets(next.queue.nodes))
    requires forall t :: t in h.fates ==> next.fates[t] == h.fates[t]
    requires forall t :: t in next.fates && t !in h.fates ==> !next.fates[t].Paired?
    ensures Consistent(next)
  {
    assert Tickets(next.queue.nodes) <= Tickets(h.queue.nodes);
    forall t: nat ensures (t in next.fates || t in Tickets(next.queue.nodes)) <==> t < next.queue.nextTicket {
      assert (t in h.fates || t in Tickets(h.queue.nodes)) <==> t < h.queue.nextTicket;
    }
  }

  lemma LeaveKeeps(h: History, userId: int)
    requires Consistent(h) && userId in h.queue.index
    ensures Consistent(After(h, LeaveQueue(userId)))
  {
    var next := After(h, LeaveQueue(userId));
    CancelKeepsValid(h.queue, userId);
    IndexedHasNode(h.queue, userId);
    var gone :| gone in h.queue.nodes && gone.user.userId == userId;
    NodeOfUser(h.queue, gone);
    hide Valid, MatchQueue.Cancel;
    assert Tickets(h.queue.nodes) - Tickets(next.queue.nodes) == {gone.ticket};
    assert gone.ticket !in h.fates;
    DepartureKeeps(h, next);
  }

  lemma ExpiredTickets(q: Queue, now: int)
    requires Valid(q)
    ensures Tickets(q.nodes) - Tickets(Unexpired(q.nodes, now)) == Tickets(Expired(q.nodes, now))
  {
    UnexpiredIsSubsequence(q.nodes, now);
    forall t | t in Tickets(Expired(q.nodes, now)) ensures t in Tickets(q.nodes) - Tickets(Unexpired(q.nodes, now)) {
      var n :| n in Expired(q.nodes, now) && n.ticket == t;
      NodeOfUser(q, n);
    }
  }

  lemma ExpireKeeps(h: History, now: int)
    requires Consistent(h)
    ensures Consistent(ExpireAll(h, now))
  {
    DropExpiredKeepsValid(h.queue, now);
    UnexpiredIsSubsequence(h.queue.nodes, now);
    ExpiredTickets(h.queue, now);
    DepartureKeeps(h, ExpireAll(h, now));
  }

  lemma FrontTickets(nodes: seq<Node>, back: seq<Node>)
    requires TicketsRise(nodes) && |nodes| >= 2 && back == nodes[2..]
    ensures nodes[0].ticket < nodes[1].ticket
    ensures Tickets(nodes) == {nodes[0].ticket, nodes[1].ticket} + Tickets(back)
    ensures Tickets(back) !! {nodes[0].ticket, nodes[1].ticket}
    ensures forall n :: n in back ==> n in nodes && nodes[1].ticket < n.ticket
  {
    assert nodes == [nodes[0], nodes[1]] + back;
    forall n | n in back ensures nodes[1].ticket < n.ticket {
      var i :| 0 <= i < |back| && back[i] == n;
      assert n == nodes[i + 2];
    }
  }

  lemma PairAccounts(h: History, next: History, a: nat, b: nat)
    requires Consistent(h) && |h.queue.nodes| >= 2
    requires a == h.queue.nodes[0].ticket && b == h.queue.nodes[1].ticket
    requires next == History(PopPair(h.queue), h.fates[a := Paired(b)][b := Paired(a)], h.paired + [a, b])
    ensures Accounted(next) && FatedOnce(next)
    ensures a !in h.fates && b !in h.fates && a < b
    ensures forall n :: n in next.queue.nodes ==> n in h.queue.nodes && b < n.ticket
  {
    hide Tickets, InOrder, PartnersMatch;
    var nodes := h.queue.nodes;
    FrontTickets(nodes, next.queue.nodes);
    forall t: nat ensures (t in next.fates || t in Tickets(next.queue.nodes)) <==> t < next.queue.nextTicket {
      assert (t in h.fates || t in Tickets(nodes)) <==> t < h.queue.nextTicket;
    }
  }

  lemma PartnersExtend(h: History, next: History, a: nat, b: nat)
    requires PartnersMatch(h) && |h.paired| % 2 == 0 && a !in h.fates && b !in h.fates && a < b
    requires next.fates == h.fates[a := Paired(b)][b := Paired(a)] && next.paired == h.paired + [a, b]
    ensures PartnersMatch(next)
  {
    forall t ensures t in next.paired <==> t in next.fates && next.fates[t].Paired? {
      assert t in h.paired <==> t in h.fates && h.fates[t].Paired?;
      assert t in next.paired <==> t in h.paired || t == a || t == b;
    }
    forall i | 0 <= 2 * i + 1 < |next.paired|
      ensures && next.paired[2 * i] in next.fates && next.fates[next.paired[2 * i]] == Paired(next.paired[2 * i + 1])
              && next.paired[2 * i + 1] in next.fates
              && next.fates[next.paired[2 * i + 1]] == Paired(next.paired[2 * i])
    {
      if 2 * i + 1 < |h.paired| {
        assert h.paired[2 * i] in h.fates && h.paired[2 * i + 1] in h.fates;
      } else {
        assert 2 * i == |h.paired|;
      }
    }
  }

  lemma PairOnceKeeps(h: History)
    requires Consistent(h) && |h.queue.nodes| >= 2
    ensures Consistent(PairOnce(h)) && |PairOnce(h).queue.nodes| == |h.queue.nodes| - 2
    ensures forall t :: t in h.fates ==> t in PairOnce(h).fates && PairOnce(h).fates[t] == h.fates[t]
  {
    hide Valid, Accounted, FatedOnce, InOrder, PartnersMatch;
    var a, b := h.queue.nodes[0].ticket, h.queue.nodes[1].ticket;
    var next := PairOnce(h);
    PopPairKeepsValid(h.queue);
    PairAccounts(h, next, a, b);
    OrderOfPaired(h);
    PartnersExtend(h, next, a, b);
    OrderExtends(h, next, a, b);
  }

  lemma OrderOfPaired(h: History)
    requires InOrder(h)
    ensures |h.paired| % 2 == 0
  {
  }

  lemma {:induction false} PairAllKeeps(h: History)
    requires Consistent(h)
    ensures Consistent(PairAll(h)) && |PairAll(h).queue.nodes| <= 1
    decreases |h.queue.nodes|
  {
    if |h.queue.nodes| < 2 {
    } else {
      PairOnceKeeps(h);
      PairAllKeeps(PairOnce(h));
    }
  }

  lemma OrderExtends(h: History, next: History, a: nat, b: nat)
    requires InOrder(h) && |h.queue.nodes| >= 2 && a < b
    requires a == h.queue.nodes[0].ticket && b == h.queue.nodes[1].ticket
    requires next.paired == h.paired + [a, b]
    requires forall n :: n in next.queue.nodes ==> n in h.queue.nodes && b < n.ticket
    ensures InOrder(next)
  {
    assert h.queue.nodes[0] in h.queue.nodes && h.queue.nodes[1] in h.queue.nodes;
    forall i, j | 0 <= i < j < |next.paired| ensures next.paired[i] < next.paired[j] {
      if i < |h.paired| {
        assert h.paired[i] in h.paired;
      }
    }
  }

  // In every run of the queue every successful join has exactly one fate or still waits, pairs are formed strictly in
  // join order, and partners name each other.
  lemma {:induction false} RunIsConsistent(events: seq<Event>)
    ensures Consistent(Run(events))
  {
    if events == [] {
    } else {
      var h := Run(events[..|events| - 1]);
      RunIsConsistent(events[..|events| - 1]);
      match events[|events| - 1]
      case JoinQueue(user, expiresAt, now, busy) =>
        if user.userId !in h.queue.index && !busy {
          JoinKeeps(h, user, expiresAt, now);
        }
      case LeaveQueue(userId) =>
        if userId in h.queue.index {
          LeaveKeeps(h, userId);
        }
      case Timer(now) =>
        ExpireKeeps(h, now);
        PairAllKeeps(ExpireAll(h, now));
    }
  }

  lemma {:induction false} PairAllKeepsFates(h: History)
    requires Consistent(h)
    ensures forall t :: t in h.fates ==> t in PairAll(h).fates && PairAll(h).fates[t] == h.fates[t]
    decreases |h.queue.nodes|
  {
    if |h.queue.nodes| < 2 {
    } else {
      hide Consistent, PairOnce;
      PairOnceKeeps(h);
      PairAllKeepsFates(PairOnce(h));
    }
  }

  lemma RunAppend(events: seq<Event>, e: Event)
    ensures Run(events + [e]) == After(Run(events), e)
  {
    hide After;
    assert (events + [e])[..|events|] == events;
  }

  lemma LeavingKeepsFate(h: History, userId: int, t: nat)
    requires Consistent(h) && userId in h.queue.index && t in h.fates
    ensures h.queue.index[userId] != t
  {
    IndexedHasNode(h.queue, userId);
    var gone :| gone in h.queue.nodes && gone.user.userId == userId;
    NodeOfUser(h.queue, gone);
    assert gone.ticket in Tickets(h.queue.nodes);
  }

  lemma ExpiringKeepsFate(h: History, now: int, t: nat)
    requires Consistent(h) && t in h.fates
    ensures t in ExpireAll(h, now).fates && ExpireAll(h, now).fates[t] == h.fates[t]
  {
    ExpiredElements(h.queue.nodes, now);
    assert forall n :: n in Expired(h.queue.nodes, now) ==> n.ticket in Tickets(h.queue.nodes);
  }

  // A fate is final: no later event changes it.
  lemma FatesAreFinal(events: seq<Event>, e: Event, t: nat)
    requires t in Run(events).fates
    ensures t in Run(events + [e]).fates && Run(events + [e]).fates[t] == Run(events).fates[t]
  {
    hide Run, Consistent, ExpireAll, PairAll;
    var h := Run(events);
    RunIsConsistent(events);
    RunAppend(events, e);
    match e
    case JoinQueue(user, expiresAt, now, busy) =>
    case LeaveQueue(userId) =>
      if userId in h.queue.index {
        LeavingKeepsFate(h, userId, t);
      }
    case Timer(now) =>
      ExpiringKeepsFate(h, now, t);
      ExpireKeeps(h, now);
      PairAllKeepsFates(ExpireAll(h, now));
  }

  // Every waiting node holds the expiry of its join.
  ghost predicate NodesExpire(q: Queue, expiries: seq<int>) {
    && |expiries| == q.nextTicket
    && forall n :: n in q.nodes ==> n.ticket < |expiries| && n.expiresAt == expiries[n.ticket]
  }

  lemma PushedExpires(q: Queue, expiries: seq<int>, user: Participant, expiresAt: int, now: int)
    requires NodesExpire(q, expiries)
    ensures NodesExpire(Push(q, user, expiresAt, now), expiries + [expiresAt])
  {
  }

  lemma PartExpires(q: Queue, next: Queue, expiries: seq<int>)
    requires NodesExpire(q, expiries) && next.nextTicket == q.nextTicket
    requires forall n :: n in next.nodes ==> n in q.nodes
    ensures NodesExpire(next, expiries)
  {
  }

  lemma {:induction false} PairAllIsPart(h: History)
    ensures PairAll(h).queue.nextTicket == h.queue.nextTicket
    ensures forall n :: n in PairAll(h).queue.nodes ==> n in h.queue.nodes
    ensures forall t :: t in PairAll(h).fates ==>
              PairAll(h).fates[t].Paired? || (t in h.fates && PairAll(h).fates[t] == h.fates[t])
    decreases |h.queue.nodes|
  {
    if |h.queue.nodes| < 2 {
    } else {
      PairAllIsPart(PairOnce(h));
    }
  }

  lemma {:induction false} RunExpires(events: seq<Event>)
    ensures NodesExpire(Run(events).queue, Expiries(events))
  {
    if events == [] {
    } else {
      hide Consistent, NodesExpire, Run, Expiries, After;
      var front, last := events[..|events| - 1], events[|events| - 1];
      assert events == front + [last];
      RunExpires(front);
      RunIsConsistent(front);
      ConsistentIsValid(Run(front));
      RunAppend(front, last);
      ExpiriesAppend(front, last);
      EventExpires(Run(front), Expiries(front), last);
    }
  }

  lemma ExpiriesAppend(events: seq<Event>, e: Event)
    ensures Expiries(events + [e])
            == if e.JoinQueue? && e.user.userId !in Run(events).queue.index && !e.busy
               then Expiries(events) + [e.expiresAt] else Expiries(events)
  {
    assert (events + [e])[..|events|] == events;
  }

  lemma EventExpires(h: History, expiries: seq<int>, e: Event)
    requires Valid(h.queue) && NodesExpire(h.queue, expiries)
    ensures NodesExpire(After(h, e).queue,
                        if e.JoinQueue? && e.user.userId !in h.queue.index && !e.busy
                        then expiries + [e.expiresAt] else expiries)
  {
    hide NodesExpire, Push, MatchQueue.Cancel, PairAll, Valid;
    match e
    case JoinQueue(user, expiresAt, now, busy) => PushedExpires(h.queue, expiries, user, expiresAt, now);
    case LeaveQueue(userId) =>
      CancelKeepsValid(h.queue, userId);
      CancelKeepsTickets(h.queue, userId);
      PartExpires(h.queue, MatchQueue.Cancel(h.queue, userId), expiries);
    case Timer(now) =>
      UnexpiredElements(h.queue.nodes, now);
      PairAllIsPart(ExpireAll(h, now));
      PartExpires(h.queue, PairAll(ExpireAll(h, now)).queue, expiries);
  }

  lemma ConsistentIsValid(h: History)
    requires Consistent(h)
    ensures Valid(h.queue) && h.fates.Keys !! Tickets(h.queue.nodes)
  {
  }

  lemma CancelKeepsTickets(q: Queue, userId: int)
    ensures MatchQueue.Cancel(q, userId).nextTicket == q.nextTicket
  {
  }

  // A timer tick times a waiting join out exactly if the expiry given with that join is not later than its reading.
  lemma TimesOutExactly(events: seq<Event>, t: nat, now: int)
    requires t in Tickets(Run(events).queue.nodes)
    ensures var next := Run(events + [Timer(now)]);
            && t < |Expiries(events)|
            && (t in next.fates && next.fates[t] == TimedOut <==> Expiries(events)[t] <= now)
  {
    hide Run, Consistent, Expiries, PairAll, ExpireAll;
    var h := Run(events);
    RunAppend(events, Timer(now));
    RunIsConsistent(events);
    RunExpires(events);
    ConsistentIsValid(h);
    ExpireFates(h, t, now, Expiries(events));
    ExpireKeeps(h, now);
    PairAllKeepsFates(ExpireAll(h, now));
    PairAllIsPart(ExpireAll(h, now));
  }

  lemma ExpireFates(h: History, t: nat, now: int, expiries: seq<int>)
    requires Consistent(h) && NodesExpire(h.queue, expiries) && t in Tickets(h.queue.nodes)
    ensures t < |expiries| && t !in h.fates
    ensures if expiries[t] <= now then t in ExpireAll(h, now).fates && ExpireAll(h, now).fates[t] == TimedOut
            else t !in ExpireAll(h, now).fates
  {
    var n :| n in h.queue.nodes && n.ticket == t;
    NodeOfUser(h.queue, n);
    ExpiredElements(h.queue.nodes, now);
    if expiries[t] <= now {
      assert n in Expired(h.queue.nodes, now);
    } else {
      forall m | m in Expired(h.queue.nodes, now) ensures m.ticket != t {
        assert m in h.queue.nodes;
      }
    }
  }

  // Pairing waits for the timer: after a timer tick at most one user waits, but after a successful join that is so
  // exactly if nobody waited before, and no other event pairs anybody.
  lemma PairingWaitsForTheTimer(events: seq<Event>, e: Event)
    ensures var h, next := Run(events), Run(events + [e]);
            && (e.Timer? ==> |next.queue.nodes| <= 1)
            && (e.JoinQueue? && next.queue != h.queue ==> (|next.queue.nodes| <= 1 <==> h.queue.nodes == []))
            && (!e.Timer? ==> next.paired == h.paired)
  {
    var h := Run(events);
    assert (events + [e])[..|events|] == events;
    if e.Timer? {
      RunIsConsistent(events);
      ExpireKeeps(h, e.now);
      PairAllKeeps(ExpireAll(h, e.now));
    }
  }

  // Two users may wait side by side.
  lemma TwoUsersWait(one: Participant, two: Participant)
    requires one.userId != two.userId
    ensures |Run([JoinQueue(one, 60, 0, false), JoinQueue(two, 60, 0, false)]).queue.nodes| == 2
  {
    var events := [JoinQueue(one, 60, 0, false), JoinQueue(two, 60, 0, false)];
    assert events[..1] == [JoinQueue(one, 60, 0, false)];
    assert events[..1][..0] == [];
    assert Run([]) == START;
  }

  // Nobody overtakes: when two users were paired, everybody who joined before the second of them, except the first,
  // has left the queue, and whoever joined between the two left it unpaired.
  lemma NobodyIsOvertaken(events: seq<Event>, i: nat, t: nat)
    requires 2 * i + 1 < |Run(events).paired|
    ensures var h := Run(events);
            var a, b := h.paired[2 * i], h.paired[2 * i + 1];
            && a < b
            && (t < b ==> t in h.fates)
            && (a < t < b ==> h.fates[t] == Cancelled || h.fates[t] == TimedOut)
  {
    hide Run, Consistent;
    var h := Run(events);
    RunIsConsistent(events);
    var a, b := h.paired[2 * i], h.paired[2 * i + 1];
    PartnersRise(h, i);
    if t < b {
      EarlierHasFate(h, b, t);
    }
    if a < t < b {
      NotBetweenPartners(h, i, t);
      UnpairedFate(h, t);
    }
  }

  lemma EarlierHasFate(h: History, b: nat, t: nat)
    requires Consistent(h) && b in h.paired && t <= b
    ensures t in h.fates
  {
    assert b in h.fates;
    assert t in h.fates || t in Tickets(h.queue.nodes);
    assert forall n :: n in h.queue.nodes ==> b < n.ticket;
  }

  lemma NotBetweenPartners(h: History, i: nat, t: nat)
    requires Consistent(h) && 2 * i + 1 < |h.paired| && h.paired[2 * i] < t < h.paired[2 * i + 1]
    ensures t !in h.paired
  {
    forall k | 0 <= k < |h.paired| ensures h.paired[k] != t {
      assert k <= 2 * i || k >= 2 * i + 1;
    }
  }

  lemma PartnersRise(h: History, i: nat)
    requires Consistent(h) && 2 * i + 1 < |h.paired|
    ensures h.paired[2 * i] < h.paired[2 * i + 1]
  {
  }

  lemma UnpairedFate(h: History, t: nat)
    requires Consistent(h) && t in h.fates && t !in h.paired
    ensures h.fates[t] == Cancelled || h.fates[t] == TimedOut
  {
  }
}
