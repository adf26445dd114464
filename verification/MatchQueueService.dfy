/** The match queue service: the object behind the join, cancel and timer entry points, each run under its mutex. */
module MatchQueueServices {
  import opened Basics
  import opened Sessions
  import opened SessionManagers
  import opened MatchQueue

  // The user table after one session per pair was created, numbered from first.
  function AssignPairs(table: map<int, SessionId>, nodes: seq<Node>, pairs: nat, first: nat): map<int, SessionId>
    requires 2 * pairs <= |nodes|
  {
    if pairs == 0 then table
    else Assigned(AssignPairs(table, nodes, pairs - 1, first), PairAt(nodes, pairs - 1), SessionId(first + pairs - 1))
  }

  // The participants of the i-th pair: neighbours in join order.
  function PairAt(nodes: seq<Node>, i: nat): seq<Participant>
    requires 2 * i + 1 < |nodes|
  {
    [nodes[2 * i].user, nodes[2 * i + 1].user]
  }

  function IdsOf(nodes: seq<Node>): (ids: seq<int>)
    ensures |ids| == |nodes|
    ensures forall i :: 0 <= i < |nodes| ==> ids[i] == nodes[i].user.userId
  {
    if nodes == [] then [] else IdsOf(nodes[..|nodes| - 1]) + [nodes[|nodes| - 1].user.userId]
  }

  class MatchQueueService {
    const sessionManager: SessionManager
    const defaultTimeout: int
    var queue: seq<Node>
    var userIndex: map<int, nat>
    var nextTicket: nat
    // Users who were sent the timeout error, in order.
    ghost var timedOut: seq<int>

    ghost function View(): Queue
      reads this
    {
      Queue(queue, userIndex, nextTicket)
    }

    constructor (sessionManager: SessionManager, defaultTimeout: int)
      ensures View() == MatchQueue.EMPTY && timedOut == []
      ensures this.sessionManager == sessionManager && this.defaultTimeout == defaultTimeout
    {
      this.sessionManager, this.defaultTimeout := sessionManager, defaultTimeout;
      queue, userIndex, nextTicket, timedOut := [], map[], 0, [];
    }

    method Join(user: Participant, timeout: int, now: int) returns (joined: bool)
      modifies this
      ensures joined <==> user.userId !in old(userIndex) && user.userId !in sessionManager.userToSession
      ensures View() == if joined
                        then Push(old(View()), user, now + (if timeout <= 0 then defaultTimeout else timeout), now)
                        else old(View())
      ensures timedOut == old(timedOut)
    {
      if user.userId in userIndex {
        return false;
      }
      var busy := sessionManager.IsUserInSession(user.userId);
      if busy {
        return false;
      }
      var effective := if timeout <= 0 then defaultTimeout else timeout;
      queue := queue + [Node(nextTicket, user, now + effective, now)];
      userIndex := userIndex[user.userId := nextTicket];
      nextTicket := nextTicket + 1;
      return true;
    }

    method Cancel(userId: int) returns (cancelled: bool)
      modifies this
      ensures cancelled <==> userId in old(userIndex)
      ensures View() == MatchQueue.Cancel(old(View()), userId)
      ensures timedOut == old(timedOut)
    {
      if userId !in userIndex {
        return false;
      }
      queue := WithoutTicket(queue, userIndex[userId]);
      userIndex := userIndex - {userId};
      return true;
    }

    // One timer tick: expired users leave first, then the remaining ones are paired in join order.
    method OnTick(now: int)
      requires MatchQueue.Valid(View())
      modifies this, sessionManager
      ensures MatchQueue.Valid(View()) && nextTicket == old(nextTicket)
      ensures var waiting := Unexpired(old(queue), now);
              && queue == waiting[|waiting| / 2 * 2..]
              && |queue| <= 1 && (forall n :: n in queue ==> n.expiresAt > now)
              && SessionsForPairs(waiting, old(sessionManager.nextSessionId))
              && sessionManager.userToSession
                 == AssignPairs(old(sessionManager.userToSession), waiting, |waiting| / 2, old(sessionManager.nextSessionId))
      ensures timedOut == old(timedOut) + IdsOf(Expired(old(queue), now)) && KeepsEarlier()
      ensures TicketsRise(Expired(old(queue), now))
      ensures forall n :: n in Expired(old(queue), now) <==> n in old(queue) && n.expiresAt <= now
    {
      ExpiredIsSubsequence(queue, now);
      DropExpiredKeepsValid(View(), now);
      UnexpiredIsSubsequence(queue, now);
      HandleTimeouts(now);
      ghost var waiting := queue;
      PairIfPossible();
      assert forall n :: n in queue ==> n in waiting;
    }

    // One session per pair exists, numbered consecutively, with the pair's users as participants.
    ghost predicate SessionsForPairs(nodes: seq<Node>, first: nat)
      reads sessionManager, sessionManager.sessions.Values
      reads set ctx | ctx in sessionManager.sessions.Values :: ctx.simulation
    {
      && sessionManager.nextSessionId == first + |nodes| / 2
      && PairsHaveSessions(nodes, first, |nodes| / 2)
    }

    method HandleTimeouts(now: int)
      modifies this
      ensures View() == DropExpired(old(View()), now)
      ensures timedOut == old(timedOut) + IdsOf(Expired(old(queue), now))
    {
      ghost var nodes, index, sent := queue, userIndex, timedOut;
      ghost var k := 0;
      var i := 0;
      SweepStarts(nodes, now, index, sent);
      hide Swept, Dismissed, TicketsRise, Unexpired, Expired, IdsOf, UsersOf;
      while i < |queue|
        invariant k <= |nodes| && Swept(nodes, k, now, i, queue)
        invariant Dismissed(nodes, k, now, index, userIndex, sent, timedOut)
        invariant nextTicket == old(nextTicket)
        decreases |nodes| - k
      {
        SweepStep(nodes, k, now, i, queue);
        DismissStep(nodes, k, now, index, userIndex, sent, timedOut);
        var node := queue[i];
        if node.expiresAt > now {
          i := i + 1;
        } else {
          userIndex := userIndex - {node.user.userId};
          queue := queue[..i] + queue[i + 1..];
          timedOut := timedOut + [node.user.userId];
        }
        k := k + 1;
      }
      SweepEnds(nodes, k, now, i, queue, index, userIndex, sent, timedOut);
    }

    method PairIfPossible()
      requires MatchQueue.Valid(View())
      modifies this, sessionManager
      ensures MatchQueue.Valid(View())
      ensures nextTicket == old(nextTicket) && timedOut == old(timedOut)
      ensures queue == old(queue)[|old(queue)| / 2 * 2..] && KeepsEarlier()
      ensures SessionsForPairs(old(queue), old(sessionManager.nextSessionId))
      ensures sessionManager.userToSession
              == AssignPairs(old(sessionManager.userToSession), old(queue), |old(queue)| / 2,
                             old(sessionManager.nextSessionId))
    {
      hide MatchQueue.Valid, HasSession, PairAt, Assigned;
      ghost var nodes, first, table := queue, sessionManager.nextSessionId, sessionManager.userToSession;
      ghost var made := 0;
      while |queue| >= 2
        invariant 0 <= 2 * made <= |nodes| && queue == nodes[2 * made..]
        invariant MatchQueue.Valid(View()) && nextTicket == old(nextTicket) && timedOut == old(timedOut)
        invariant sessionManager.nextSessionId == first + made
        invariant PairsHaveSessions(nodes, first, made) && KeepsEarlier()
        invariant sessionManager.userToSession == AssignPairs(table, nodes, made, first)
        decreases |queue|
      {
        PairFirstTwo(nodes, first, made);
        DropTwo(nodes, made);
        AssignOneMore(table, nodes, made, first);
        made := made + 1;
      }
      assert made == |nodes| / 2;
    }

    ghost predicate PairsHaveSessions(nodes: seq<Node>, first: nat, made: nat)
      requires 2 * made <= |nodes|
      reads sessionManager, sessionManager.sessions.Values
      reads set ctx | ctx in sessionManager.sessions.Values :: ctx.simulation
    {
      forall i :: 0 <= i < made ==> HasSession(SessionId(first + i), PairAt(nodes, i))
    }

    // The session is in the table, with a fresh context for these participants.
    ghost predicate HasSession(id: SessionId, pair: seq<Participant>)
      reads sessionManager, sessionManager.sessions.Values
      reads set ctx | ctx in sessionManager.sessions.Values :: ctx.simulation
    {
      id in sessionManager.sessions && sessionManager.sessions[id].View() == NewContext(id, pair)
    }

    // The sessions that had been numbered before are in the table exactly if they were there before.
    twostate predicate KeepsEarlier()
      reads sessionManager
    {
      forall id: SessionId :: id.number < old(sessionManager.nextSessionId) ==>
        && (id in sessionManager.sessions <==> id in old(sessionManager.sessions))
        && (id in sessionManager.sessions ==> sessionManager.sessions[id] == old(sessionManager.sessions)[id])
    }

    method PopFirstTwo() returns (one: Node, two: Node)
      requires |queue| >= 2
      modifies this`queue, this`userIndex
      ensures one == old(queue)[0] && two == old(queue)[1]
      ensures View() == PopPair(old(View()))
    {
      one := queue[0];
      queue := queue[1..];
      two := queue[0];
      queue := queue[1..];
      userIndex := userIndex - {one.user.userId};
      userIndex := userIndex - {two.user.userId};
    }

    // The body of the pairing loop: the two earliest users leave the queue and share a new session.
    method PairFirstTwo(ghost nodes: seq<Node>, ghost first: nat, ghost made: nat)
      requires MatchQueue.Valid(View()) && |queue| >= 2
      requires 2 * made <= |nodes| && queue == nodes[2 * made..]
      requires sessionManager.nextSessionId == first + made && PairsHaveSessions(nodes, first, made)
      modifies this, sessionManager
      ensures MatchQueue.Valid(View()) && nextTicket == old(nextTicket) && timedOut == old(timedOut)
      ensures queue == old(queue)[2..] && KeepsEarlier()
      ensures sessionManager.nextSessionId == first + made + 1 && PairsHaveSessions(nodes, first, made + 1)
      ensures sessionManager.userToSession
              == Assigned(old(sessionManager.userToSession), PairAt(nodes, made), SessionId(first + made))
    {
      hide MatchQueue.Valid, NewContext, Assigned;
      PopPairKeepsValid(View());
      var one, two := PopFirstTwo();
      var id := sessionManager.CreateSession([one.user, two.user]);
      assert PairAt(nodes, made) == [one.user, two.user];
      assert HasSession(id, PairAt(nodes, made));
      forall i | 0 <= i < made ensures HasSession(SessionId(first + i), PairAt(nodes, i)) {
        assert old(HasSession(SessionId(first + i), PairAt(nodes, i)));
      }
    }
  }

  // The loop over the list has looked at k nodes, kept the unexpired ones among them, and stands behind those.
  ghost predicate Swept(nodes: seq<Node>, k: nat, now: int, i: nat, queue: seq<Node>)
    requires k <= |nodes|
  {
    i == |Unexpired(nodes[..k], now)| && queue == Unexpired(nodes[..k], now) + nodes[k..]
  }

  lemma SweepStep(nodes: seq<Node>, k: nat, now: int, i: nat, queue: seq<Node>)
    requires k <= |nodes| && i < |queue| && Swept(nodes, k, now, i, queue)
    ensures k < |nodes| && queue[i] == nodes[k]
    ensures nodes[k].expiresAt > now ==> Swept(nodes, k + 1, now, i + 1, queue)
    ensures nodes[k].expiresAt <= now ==> Swept(nodes, k + 1, now, i, queue[..i] + queue[i + 1..])
  {
    hide Unexpired, Expired;
    TimeoutStep(nodes, k, now);
    RestFrom(nodes, k);
    EraseBetween(Unexpired(nodes[..k], now), nodes[k], nodes[k + 1..]);
  }

  // The expired ones among the first k nodes have left the index and were told, in order.
  ghost predicate Dismissed(nodes: seq<Node>, k: nat, now: int, index: map<int, nat>, userIndex: map<int, nat>,
                            sent: seq<int>, timedOut: seq<int>)
    requires k <= |nodes|
  {
    && userIndex == index - UsersOf(Expired(nodes[..k], now))
    && timedOut == sent + IdsOf(Expired(nodes[..k], now))
  }

  lemma DismissStep(nodes: seq<Node>, k: nat, now: int, index: map<int, nat>, userIndex: map<int, nat>,
                    sent: seq<int>, timedOut: seq<int>)
    requires k < |nodes| && Dismissed(nodes, k, now, index, userIndex, sent, timedOut)
    ensures nodes[k].expiresAt > now ==> Dismissed(nodes, k + 1, now, index, userIndex, sent, timedOut)
    ensures nodes[k].expiresAt <= now ==>
              Dismissed(nodes, k + 1, now, index, userIndex - {nodes[k].user.userId},
                        sent, timedOut + [nodes[k].user.userId])
  {
    hide Expired, Unexpired, IdsOf, UsersOf;
    TimeoutStep(nodes, k, now);
    var gone, user := Expired(nodes[..k], now), nodes[k].user.userId;
    IdsAppend(gone, nodes[k]);
    UsersAppend(gone, nodes[k]);
    assert sent + IdsOf(gone) + [user] == sent + (IdsOf(gone) + [user]);
    assert index - UsersOf(gone) - {user} == index - (UsersOf(gone) + {user});
  }

  lemma SweepStarts(nodes: seq<Node>, now: int, index: map<int, nat>, sent: seq<int>)
    ensures Swept(nodes, 0, now, 0, nodes) && Dismissed(nodes, 0, now, index, index, sent, sent)
  {
    assert index - {} == index;
  }

  lemma SweepEnds(nodes: seq<Node>, k: nat, now: int, i: nat, queue: seq<Node>, index: map<int, nat>,
                  userIndex: map<int, nat>, sent: seq<int>, timedOut: seq<int>)
    requires k <= |nodes| && i >= |queue| && Swept(nodes, k, now, i, queue)
    requires Dismissed(nodes, k, now, index, userIndex, sent, timedOut)
    ensures queue == Unexpired(nodes, now) && userIndex == index - UsersOf(Expired(nodes, now))
    ensures timedOut == sent + IdsOf(Expired(nodes, now))
  {
    hide Unexpired, Expired, IdsOf, UsersOf;
    assert nodes[..k] == nodes;
  }

  lemma AssignOneMore(table: map<int, SessionId>, nodes: seq<Node>, made: nat, first: nat)
    requires 2 * made + 2 <= |nodes|
    ensures AssignPairs(table, nodes, made + 1, first)
            == Assigned(AssignPairs(table, nodes, made, first), PairAt(nodes, made), SessionId(first + made))
  {
  }

  lemma DropTwo<T>(s: seq<T>, made: nat)
    requires 2 * made + 2 <= |s|
    ensures s[2 * made..][2..] == s[2 * (made + 1)..]
  {
  }

  lemma EraseBetween<T>(front: seq<T>, x: T, back: seq<T>)
    ensures var s := front + ([x] + back); s[..|front|] + s[|front| + 1..] == front + back
  {
  }

  // One node further, it belongs to the unexpired or to the expired ones.
  lemma TimeoutStep(nodes: seq<Node>, k: nat, now: int)
    requires k < |nodes|
    ensures nodes[k].expiresAt > now ==>
              && Unexpired(nodes[..k + 1], now) == Unexpired(nodes[..k], now) + [nodes[k]]
              && Expired(nodes[..k + 1], now) == Expired(nodes[..k], now)
    ensures nodes[k].expiresAt <= now ==>
              && Unexpired(nodes[..k + 1], now) == Unexpired(nodes[..k], now)
              && Expired(nodes[..k + 1], now) == Expired(nodes[..k], now) + [nodes[k]]
  {
    assert nodes[..k + 1] == nodes[..k] + [nodes[k]];
    UnexpiredAppend(nodes[..k], nodes[k], now);
    ExpiredAppend(nodes[..k], nodes[k], now);
  }

  lemma UnexpiredAppend(nodes: seq<Node>, node: Node, now: int)
    ensures Unexpired(nodes + [node], now) == Unexpired(nodes, now) + if node.expiresAt > now then [node] else []
  {
    assert (nodes + [node])[..|nodes|] == nodes;
  }

  lemma ExpiredAppend(nodes: seq<Node>, node: Node, now: int)
    ensures Expired(nodes + [node], now) == Expired(nodes, now) + if node.expiresAt > now then [] else [node]
  {
    assert (nodes + [node])[..|nodes|] == nodes;
  }

  lemma IdsAppend(nodes: seq<Node>, node: Node)
    ensures IdsOf(nodes + [node]) == IdsOf(nodes) + [node.user.userId]
  {
    assert (nodes + [node])[..|nodes|] == nodes;
  }

  lemma UsersAppend(nodes: seq<Node>, node: Node)
    ensures UsersOf(nodes + [node]) == UsersOf(nodes) + {node.user.userId}
  {
    forall u ensures u in UsersOf(nodes + [node]) <==> u in UsersOf(nodes) || u == node.user.userId {
      if u in UsersOf(nodes) {
        var n :| n in nodes && n.user.userId == u;
        assert n in nodes + [node];
      }
      if u == node.user.userId {
        assert node in nodes + [node];
      }
    }
  }

  lemma RestFrom<T>(s: seq<T>, k: nat)
    requires k < |s|
    ensures s[k..] == [s[k]] + s[k + 1..]
  {
  }
}
