/** The match queue as a value: waiting users in join order, with an index from user to list node. */
module MatchQueue {
  import opened Basics
  import opened Sessions

  // A list node. Its ticket stands for the node's identity, which the index stores as an iterator.
  datatype Node = Node(ticket: nat, user: Participant, expiresAt: int, joinedAt: int)

  datatype Queue = Queue(nodes: seq<Node>, index: map<int, nat>, nextTicket: nat)

  const EMPTY := Queue([], map[], 0)

  ghost predicate TicketsRise(nodes: seq<Node>) {
    forall i, j :: 0 <= i < j < |nodes| ==> nodes[i].ticket < nodes[j].ticket
  }

  ghost predicate UsersDiffer(nodes: seq<Node>) {
    forall i, j :: 0 <= i < j < |nodes| ==> nodes[i].user.userId != nodes[j].user.userId
  }

  ghost predicate IndexMatches(nodes: seq<Node>, index: map<int, nat>) {
    && (forall i :: 0 <= i < |nodes| ==>
          nodes[i].user.userId in index && index[nodes[i].user.userId] == nodes[i].ticket)
    && (forall u :: u in index ==> exists i :: 0 <= i < |nodes| && nodes[i].user.userId == u)
  }

  // The index is exactly the index of a duplicate-free queue in join order.
  ghost predicate Valid(q: Queue) {
    && TicketsRise(q.nodes)
    && (forall i :: 0 <= i < |q.nodes| ==> q.nodes[i].ticket < q.nextTicket)
    && UsersDiffer(q.nodes)
    && IndexMatches(q.nodes, q.index)
  }

  // ---- Transitions ----

  function Push(q: Queue, user: Participant, expiresAt: int, now: int): Queue {
    Queue(q.nodes + [Node(q.nextTicket, user, expiresAt, now)], q.index[user.userId := q.nextTicket],
          q.nextTicket + 1)
  }

  function WithoutTicket(nodes: seq<Node>, ticket: nat): seq<Node> {
    if nodes == [] then []
    else
      var last := nodes[|nodes| - 1];
      WithoutTicket(nodes[..|nodes| - 1], ticket) + if last.ticket == ticket then [] else [last]
  }

  // Cancelling erases the node the index points to.
  function Cancel(q: Queue, userId: int): Queue {
    if userId !in q.index then q
    else q.(nodes := WithoutTicket(q.nodes, q.index[userId]), index := q.index - {userId})
  }

  function Unexpired(nodes: seq<Node>, now: int): seq<Node> {
    if nodes == [] then []
    else
      var last := nodes[|nodes| - 1];
      Unexpired(nodes[..|nodes| - 1], now) + if last.expiresAt > now then [last] else []
  }

  function Expired(nodes: seq<Node>, now: int): seq<Node> {
    if nodes == [] then []
    else
      var last := nodes[|nodes| - 1];
      Expired(nodes[..|nodes| - 1], now) + if last.expiresAt > now then [] else [last]
  }

  function UsersOf(nodes: seq<Node>): set<int> {
    set n | n in nodes :: n.user.userId
  }

  function DropExpired(q: Queue, now: int): Queue {
    q.(nodes := Unexpired(q.nodes, now), index := q.index - UsersOf(Expired(q.nodes, now)))
  }

  function PopPair(q: Queue): Queue
    requires |q.nodes| >= 2
  {
    q.(nodes := q.nodes[2..], index := q.index - {q.nodes[0].user.userId, q.nodes[1].user.userId})
  }

  // ---- Every transition keeps the queue valid ----

  lemma PushKeepsValid(q: Queue, user: Participant, expiresAt: int, now: int)
    requires Valid(q) && user.userId !in q.index
    ensures Valid(Push(q, user, expiresAt, now))
  {
    hide TicketsRise, UsersDiffer, IndexMatches;
    var node := Node(q.nextTicket, user, expiresAt, now);
    NewTicketRises(q.nodes, node);
    NewUserDiffers(q.nodes, q.index, node);
    NewUserIsIndexed(q.nodes, q.index, node);
  }

  lemma NewTicketRises(nodes: seq<Node>, node: Node)
    requires TicketsRise(nodes) && forall i :: 0 <= i < |nodes| ==> nodes[i].ticket < node.ticket
    ensures TicketsRise(nodes + [node])
  {
  }

  lemma NewUserDiffers(nodes: seq<Node>, index: map<int, nat>, node: Node)
    requires UsersDiffer(nodes) && IndexMatches(nodes, index) && node.user.userId !in index
    ensures UsersDiffer(nodes + [node])
  {
  }

  lemma NewUserIsIndexed(nodes: seq<Node>, index: map<int, nat>, node: Node)
    requires IndexMatches(nodes, index) && node.user.userId !in index
    ensures IndexMatches(nodes + [node], index[node.user.userId := node.ticket])
  {
    var next, after := nodes + [node], index[node.user.userId := node.ticket];
    forall u | u in after ensures exists i :: 0 <= i < |next| && next[i].user.userId == u {
      if u == node.user.userId {
        assert next[|nodes|].user.userId == u;
      } else {
        var i :| 0 <= i < |nodes| && nodes[i].user.userId == u;
        assert next[i].user.userId == u;
      }
    }
  }

  lemma {:induction false} WithoutTicketIsSubsequence(nodes: seq<Node>, ticket: nat)
    requires TicketsRise(nodes)
    ensures TicketsRise(WithoutTicket(nodes, ticket))
    ensures forall n :: n in WithoutTicket(nodes, ticket) <==> n in nodes && n.ticket != ticket
  {
    if nodes == [] {
    } else {
      var rest, last := nodes[..|nodes| - 1], nodes[|nodes| - 1];
      WithoutTicketIsSubsequence(rest, ticket);
      assert nodes == rest + [last];
      var front := WithoutTicket(rest, ticket);
      forall i | 0 <= i < |front| ensures front[i].ticket < last.ticket {
        assert front[i] in rest;
      }
    }
  }

  // The expired ones keep their order too.
  lemma {:induction false} ExpiredIsSubsequence(nodes: seq<Node>, now: int)
    requires TicketsRise(nodes)
    ensures TicketsRise(Expired(nodes, now))
  {
    ExpiredElements(nodes, now);
    if nodes == [] {
    } else {
      var rest, last := nodes[..|nodes| - 1], nodes[|nodes| - 1];
      ExpiredIsSubsequence(rest, now);
      ExpiredElements(rest, now);
      var front := Expired(rest, now);
      forall i | 0 <= i < |front| ensures front[i].ticket < last.ticket {
        assert front[i] in rest;
      }
    }
  }

  lemma {:induction false} ExpiredElements(nodes: seq<Node>, now: int)
    ensures forall n :: n in Expired(nodes, now) <==> n in nodes && n.expiresAt <= now
  {
    if nodes == [] {
    } else {
      ExpiredElements(nodes[..|nodes| - 1], now);
      assert nodes == nodes[..|nodes| - 1] + [nodes[|nodes| - 1]];
    }
  }

  lemma {:induction false} UnexpiredElements(nodes: seq<Node>, now: int)
    ensures forall n :: n in Unexpired(nodes, now) <==> n in nodes && n.expiresAt > now
  {
    if nodes == [] {
    } else {
      UnexpiredElements(nodes[..|nodes| - 1], now);
      assert nodes == nodes[..|nodes| - 1] + [nodes[|nodes| - 1]];
    }
  }

  lemma {:induction false} UnexpiredIsSubsequence(nodes: seq<Node>, now: int)
    requires TicketsRise(nodes)
    ensures TicketsRise(Unexpired(nodes, now))
    ensures forall n :: n in Unexpired(nodes, now) <==> n in nodes && n.expiresAt > now
    ensures forall n :: n in Expired(nodes, now) <==> n in nodes && n.expiresAt <= now
  {
    ExpiredElements(nodes, now);
    UnexpiredElements(nodes, now);
    hide Expired;
    if nodes == [] {
    } else {
      var rest, last := nodes[..|nodes| - 1], nodes[|nodes| - 1];
      UnexpiredIsSubsequence(rest, now);
      var front := Unexpired(rest, now);
      forall i | 0 <= i < |front| ensures front[i].ticket < last.ticket {
        assert front[i] in rest;
      }
    }
  }

  // In a valid queue, user and ticket determine each other.
  lemma NodeOfUser(q: Queue, n: Node)
    requires Valid(q) && n in q.nodes
    ensures n.user.userId in q.index && q.index[n.user.userId] == n.ticket < q.nextTicket
    ensures forall m :: m in q.nodes && (m.user.userId == n.user.userId || m.ticket == n.ticket) ==> m == n
  {
  }

  // Keeping a part of the nodes and exactly their users in the index keeps the queue valid.
  lemma PartStaysValid(q: Queue, nodes: seq<Node>, index: map<int, nat>)
    requires Valid(q) && TicketsRise(nodes)
    requires forall n :: n in nodes ==> n in q.nodes
    requires forall u :: u in index <==> u in q.index && exists n :: n in nodes && n.user.userId == u
    requires forall u :: u in index ==> index[u] == q.index[u]
    ensures Valid(q.(nodes := nodes, index := index))
  {
    forall i | 0 <= i < |nodes|
      ensures nodes[i].user.userId in index && index[nodes[i].user.userId] == nodes[i].ticket < q.nextTicket
    {
      assert nodes[i] in nodes;
      NodeOfUser(q, nodes[i]);
    }
    forall i, j | 0 <= i < j < |nodes| ensures nodes[i].user.userId != nodes[j].user.userId {
      assert nodes[i] in nodes && nodes[j] in nodes;
      NodeOfUser(q, nodes[i]);
    }
    forall u | u in index ensures exists i :: 0 <= i < |nodes| && nodes[i].user.userId == u {
      var n :| n in nodes && n.user.userId == u;
    }
  }

  // Cancelling removes the user's node, whichever place it has, and nobody else's.
  lemma CancelKeepsValid(q: Queue, userId: int)
    requires Valid(q)
    ensures Valid(Cancel(q, userId))
    ensures forall n :: n in Cancel(q, userId).nodes <==> n in q.nodes && n.user.userId != userId
    ensures Cancel(q, userId).index.Keys == q.index.Keys - {userId}
  {
    if userId in q.index {
      CancelledIsGone(q, userId);
      var next := Cancel(q, userId);
      forall u ensures u in next.index <==> u in q.index && exists n :: n in next.nodes && n.user.userId == u {
        IndexedHasNode(q, u);
      }
      hide Valid;
      PartStaysValid(q, next.nodes, next.index);
    } else {
      forall n | n in q.nodes ensures n.user.userId != userId {
        NodeOfUser(q, n);
      }
    }
  }

  lemma CancelledIsGone(q: Queue, userId: int)
    requires Valid(q) && userId in q.index
    ensures TicketsRise(Cancel(q, userId).nodes)
    ensures forall n :: n in Cancel(q, userId).nodes <==> n in q.nodes && n.user.userId != userId
  {
    var i :| 0 <= i < |q.nodes| && q.nodes[i].user.userId == userId;
    NodeOfUser(q, q.nodes[i]);
    WithoutTicketIsSubsequence(q.nodes, q.nodes[i].ticket);
  }

  lemma IndexedHasNode(q: Queue, u: int)
    requires Valid(q)
    ensures u in q.index <==> exists n :: n in q.nodes && n.user.userId == u
  {
    if u in q.index {
      var i :| 0 <= i < |q.nodes| && q.nodes[i].user.userId == u;
      assert q.nodes[i] in q.nodes;
    }
  }

  lemma DropExpiredKeepsValid(q: Queue, now: int)
    requires Valid(q)
    ensures Valid(DropExpired(q, now))
  {
    var next := DropExpired(q, now);
    UnexpiredIsSubsequence(q.nodes, now);
    forall u ensures u in next.index <==> u in q.index && exists n :: n in next.nodes && n.user.userId == u {
      IndexedHasNode(q, u);
      if u in q.index {
        var n :| n in q.nodes && n.user.userId == u;
        NodeOfUser(q, n);
      }
    }
    PartStaysValid(q, next.nodes, next.index);
  }

  lemma PopPairKeepsValid(q: Queue)
    requires Valid(q) && |q.nodes| >= 2
    ensures Valid(PopPair(q))
    ensures q.nodes[0].user.userId != q.nodes[1].user.userId
    ensures {q.nodes[0].user.userId, q.nodes[1].user.userId} <= q.index.Keys
  {
    hide Valid;
    var next := PopPair(q);
    FirstTwo(q);
    forall u ensures u in next.index <==> u in q.index && exists n :: n in next.nodes && n.user.userId == u {
      LaterNodeOf(q, u);
    }
    PartStaysValid(q, next.nodes, next.index);
  }

  lemma FirstTwo(q: Queue)
    requires Valid(q) && |q.nodes| >= 2
    ensures q.nodes[0].user.userId != q.nodes[1].user.userId
    ensures q.nodes[0].user.userId in q.index && q.nodes[1].user.userId in q.index
    ensures TicketsRise(q.nodes[2..]) && forall n :: n in q.nodes[2..] ==> n in q.nodes
  {
    NodeOfUser(q, q.nodes[0]);
    NodeOfUser(q, q.nodes[1]);
    assert q.nodes == [q.nodes[0], q.nodes[1]] + q.nodes[2..];
  }

  lemma LaterNodeOf(q: Queue, u: int)
    requires Valid(q) && |q.nodes| >= 2
    ensures (exists n :: n in q.nodes[2..] && n.user.userId == u)
            <==> u in q.index && u != q.nodes[0].user.userId && u != q.nodes[1].user.userId
  {
    hide Valid;
    if n :| n in q.nodes[2..] && n.user.userId == u {
      LaterUserDiffers(q, n);
    }
    if u in q.index && u != q.nodes[0].user.userId && u != q.nodes[1].user.userId {
      IndexedHasNode(q, u);
      var n :| n in q.nodes && n.user.userId == u;
      assert q.nodes == [q.nodes[0], q.nodes[1]] + q.nodes[2..];
      assert n in q.nodes[2..];
    }
  }

  lemma LaterUserDiffers(q: Queue, n: Node)
    requires Valid(q) && |q.nodes| >= 2 && n in q.nodes[2..]
    ensures n.user.userId in q.index
    ensures n.user.userId != q.nodes[0].user.userId && n.user.userId != q.nodes[1].user.userId
  {
    var i :| 0 <= i < |q.nodes| - 2 && q.nodes[2..][i] == n;
    assert q.nodes[i + 2] == n;
  }
}
