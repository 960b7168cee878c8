/**
 The resolver's own state, updated in place: the linked list CONNECTIONS and the two counters. Each
 operation is proved to be a step of the lookup queue.
 */
module Firedns {
  import opened Options
  import opened DnsQueue
  import opened LinkedList

  class Resolver {
    const limit: nat
    const conns: List<Query>
    var inuse: int
    var error: int
    var nextUid: nat
    /** The lookup queue these fields stand for, and its history. */
    ghost var q: Queue
    /** The list and its nodes. */
    ghost var own: set<object>

    ghost predicate Valid()
      reads this, own
    {
      && conns in own && conns.cells <= own && this !in own
      && conns.Valid()
      && q.conns == conns.Contents()
      && q.inuse == inuse && q.error == error && q.nextUid == nextUid
    }

    /** What is owned now was owned before, or is new. */
    twostate predicate Grew()
      reads this
    {
      forall o | o in own :: o in old(own) || fresh(o)
    }

    constructor (limit: nat)
      ensures Valid() && fresh(own) && this.limit == limit
      ensures q == EMPTY
    {
      this.limit := limit;
      conns := new List();
      inuse, error, nextUid, q := 0, ERR_NONE, 0, EMPTY;
      new;
      own := {conns};
    }

    /** What the kernel answers: never a descriptor that is open. */
    method Kernel(sent: Sent) returns (r: Sent)
      requires Valid()
      ensures r == Socket(q.conns, sent)
    {
      if sent.NotSent? {
        return if sent.error != ERR_FORMAT then NotSent(ERR_NETWORK) else sent;
      }
      if sent.fd <= 0 {
        return NotSent(ERR_NETWORK);
      }
      var node, j := FindNode(sent.fd);
      return if node == null then sent else NotSent(ERR_NETWORK);
    }

    /** The walk over CONNECTIONS for a descriptor. */
    method FindNode(fd: int) returns (node: Node?<Query>, ghost j: nat)
      requires Valid()
      ensures j == Find(q.conns, fd) && j <= |conns.nodes|
      ensures node == At(conns.nodes, Find(q.conns, fd))
    {
      node := conns.head;
      j := 0;
      while node != null && node.data.fd != fd
        invariant j <= |conns.nodes| && node == At(conns.nodes, j)
        invariant forall k | 0 <= k < j :: q.conns[k].fd != fd
        decreases |conns.nodes| - j
      {
        node := node.next;
        j := j + 1;
      }
      FoundAt(q.conns, fd, j);
    }

    /** firedns_getip */
    method GetIp(info: Option<Info>, sent: Sent, now: int) returns (fd: int)
      requires Valid()
      modifies this, own
      ensures Valid() && Grew()
      ensures (q, fd) == DnsQueue.GetIp(old(q), limit, info, sent, now)
    {
      var c := Query(nextUid, -1, 0, info);
      if inuse >= limit {
        if info.Some? {
          Append(c);
        }
        nextUid, error, fd := nextUid + 1, ERR_FDLIMIT, -1;
      } else {
        var answer := Kernel(sent);
        match answer {
          case NotSent(e) =>
            error, fd := e, -1;
          case SentOn(d) =>
            Append(c.(fd := d, start := now));
            inuse, error, fd := inuse + 1, ERR_NONE, d;
        }
        nextUid := nextUid + 1;
      }
      q := DnsQueue.GetIp(old(q), limit, info, sent, now).0;
    }

    method Append(c: Query)
      requires Valid()
      modifies this`q, this`own, own
      ensures Valid() && Grew()
      ensures q == old(q).(conns := old(q).conns + [c])
    {
      var node := new Node(c);
      var r := conns.Add(node);
      own := own + {node};
      q := q.(conns := q.conns + [c]);
    }

    /** The end of a query: its node is taken out and freed, its descriptor closed, its result handed on. */
    method Take(node: Node<Query>, ghost i: nat, e: int)
      requires Valid() && i < |conns.nodes| && conns.nodes[i] == node
      modifies this, own
      ensures Valid() && own == old(own)
      ensures conns.nodes == old(conns.nodes[..i] + conns.nodes[i + 1..])
      ensures q == Settle(old(q), i, e)
    {
      conns.Remove(node, i);
      inuse, error := inuse - 1, e;
      q := Settle(q, i, e);
    }

    /** firedns_doquery for a query that waited. */
    method Send(node: Node<Query>, ghost i: nat, sent: Sent, now: int)
      requires Valid() && i < |conns.nodes| && conns.nodes[i] == node
      modifies this, node`data
      ensures Valid() && conns.nodes == old(conns.nodes) && own == old(own)
      ensures q == Reopen(old(q), i, sent, now)
    {
      var answer := Kernel(sent);
      match answer {
        case NotSent(e) =>
          error := e;
        case SentOn(fd) =>
          conns.Update(node, i, node.data.(fd := fd, start := now));
          inuse, error := inuse + 1, ERR_NONE;
      }
      q := Reopen(q, i, sent, now);
    }

    /** The start of firedns_getresult. */
    method Unclear()
      requires Valid()
      modifies this`error, this`q
      ensures Valid() && q == old(q).(error := ERR_OTHER)
    {
      error := ERR_OTHER;
      q := q.(error := ERR_OTHER);
    }
  }
}
