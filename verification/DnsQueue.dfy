/**
 The asynchronous lookup queue: the list of open and waiting queries and the count of descriptors
 in use. What the sockets and the poll answer is input; an answer no socket layer can give (a
 descriptor that is not positive or is open already) is read as a failure to send.
 */
module DnsQueue {

  import opened Options

  const FDNS_TIMEOUT: int := 5
  const ERR_NONE: int := 0
  const ERR_FORMAT: int := 1
  const ERR_NXDOMAIN: int := 3
  const ERR_TIMEOUT: int := 6
  const ERR_NETWORK: int := 7
  const ERR_FDLIMIT: int := 8
  const ERR_OTHER: int := 9

  /** What a lookup is for: one blacklist test of one scan. */
  datatype Info = Info(scan: nat, blacklist: nat)

  /** An entry of CONNECTIONS; uid tells queries apart in the history. */
  datatype Query = Query(uid: nat, fd: int, start: int, info: Option<Info>)

  /** What sending a request comes to. */
  datatype Sent = SentOn(fd: int) | NotSent(error: int)

  /** What reading a reply comes to: one for another lookup, or an error code and, if none, the code of a listing. */
  datatype Reply = Mismatch | Answer(error: int, code: bv8)

  /** The queue, and its history: which queries with an info were accepted, and which were delivered how often. */
  datatype Queue = Queue(conns: seq<Query>, inuse: int, error: int, nextUid: nat,
                         accepted: set<nat>, delivered: multiset<nat>)

  const EMPTY := Queue([], 0, ERR_NONE, 0, {}, multiset{})

  function Without(c: seq<Query>, i: nat): seq<Query>
    requires i < |c|
  {
    c[..i] + c[i + 1..]
  }

  /** The socket layer hands out positive descriptors that are not open. */
  function Socket(c: seq<Query>, sent: Sent): Sent {
    if sent.SentOn? && (sent.fd <= 0 || exists q | q in c :: q.fd == sent.fd) then NotSent(ERR_NETWORK)
    else if sent.NotSent? && sent.error != ERR_FORMAT then NotSent(ERR_NETWORK)
    else sent
  }

  /** firedns_getip: send the query now, or queue it if the descriptors are used up and somebody waits for it. */
  function GetIp(q: Queue, limit: nat, info: Option<Info>, sent: Sent, now: int): (Queue, int) {
    var c := Query(q.nextUid, -1, 0, info);
    var q1 := q.(nextUid := q.nextUid + 1);
    if q.inuse >= limit then
      var q2 := q1.(error := ERR_FDLIMIT);
      if info.None? then (q2, -1)
      else (q2.(conns := q.conns + [c], accepted := q.accepted + {c.uid}), -1)
    else
      match Socket(q.conns, sent)
      case NotSent(e) => (q1.(error := e), -1)
      case SentOn(fd) =>
        (q1.(conns := q.conns + [c.(fd := fd, start := now)], inuse := q.inuse + 1, error := ERR_NONE,
             accepted := if info.None? then q.accepted else q.accepted + {c.uid}), fd)
  }

  /** firedns_doquery for a query that waited. */
  function Reopen(q: Queue, i: nat, sent: Sent, now: int): Queue
    requires i < |q.conns|
  {
    match Socket(q.conns, sent)
    case NotSent(e) => q.(error := e)
    case SentOn(fd) =>
      q.(conns := q.conns[i := q.conns[i].(fd := fd, start := now)], inuse := q.inuse + 1, error := ERR_NONE)
  }

  /** Take query i off the list and close its descriptor. */
  function Close(q: Queue, i: nat, error: int): Queue
    requires i < |q.conns|
  {
    q.(conns := Without(q.conns, i), inuse := q.inuse - 1, error := error)
  }

  /** Hand a result to whoever waits for it. */
  function Deliver(q: Queue, uid: nat): Queue {
    q.(delivered := q.delivered + multiset{uid})
  }

  /** The first entry with this descriptor. */
  function Find(c: seq<Query>, fd: int): (i: nat)
    ensures i <= |c|
    ensures i < |c| ==> c[i].fd == fd
    ensures forall j | 0 <= j < i :: c[j].fd != fd
  {
    if c == [] || c[0].fd == fd then 0 else 1 + Find(c[1..], fd)
  }

  lemma FoundAt(c: seq<Query>, fd: int, j: nat)
    requires j <= |c| && (forall k | 0 <= k < j :: c[k].fd != fd) && (j < |c| ==> c[j].fd == fd)
    ensures Find(c, fd) == j
  {
  }

  // ---- Counting ----

  ghost function Open(c: seq<Query>): nat {
    if c == [] then 0 else (if c[0].fd > 0 then 1 else 0) + Open(c[1..])
  }

  /** How many entries are lookups for this scan. */
  ghost function Lookups(c: seq<Query>, scan: nat): nat {
    if c == [] then 0
    else (if c[0].info.Some? && c[0].info.value.scan == scan then 1 else 0) + Lookups(c[1..], scan)
  }

  lemma {:induction false} OpenConcat(a: seq<Query>, b: seq<Query>)
    ensures Open(a + b) == Open(a) + Open(b)
  {
    if a == [] {
      assert a + b == b;
    } else {
      assert (a + b)[1..] == a[1..] + b;
      OpenConcat(a[1..], b);
    }
  }

  lemma {:induction false} LookupsConcat(a: seq<Query>, b: seq<Query>, scan: nat)
    ensures Lookups(a + b, scan) == Lookups(a, scan) + Lookups(b, scan)
  {
    if a == [] {
      assert a + b == b;
    } else {
      assert (a + b)[1..] == a[1..] + b;
      LookupsConcat(a[1..], b, scan);
    }
  }

  ghost function One(b: bool): nat { if b then 1 else 0 }

  lemma OpenWithout(c: seq<Query>, i: nat)
    requires i < |c|
    ensures Open(c) == Open(Without(c, i)) + One(c[i].fd > 0)
  {
    var a, b := c[..i], c[i + 1..];
    CutAt(c, i);
    OpenConcat(a, [c[i]] + b);
    OpenConcat(a, b);
    OpenFirst(c[i], b);
  }

  lemma CutAt<T>(s: seq<T>, i: nat)
    requires i < |s|
    ensures s == s[..i] + ([s[i]] + s[i + 1..])
  {
  }

  lemma OpenFirst(q: Query, b: seq<Query>)
    ensures Open([q] + b) == One(q.fd > 0) + Open(b)
  {
    assert ([q] + b)[1..] == b;
  }

  lemma OpenUpdate(c: seq<Query>, i: nat, q: Query)
    requires i < |c|
    ensures Open(c[i := q]) + One(c[i].fd > 0) == Open(c) + One(q.fd > 0)
  {
    OpenWithout(c, i);
    OpenWithout(c[i := q], i);
    assert Without(c[i := q], i) == Without(c, i);
  }

  lemma LookupsWithout(c: seq<Query>, i: nat, scan: nat)
    requires i < |c|
    ensures Lookups(c, scan) ==
            Lookups(Without(c, i), scan) + One(c[i].info.Some? && c[i].info.value.scan == scan)
  {
    assert c == c[..i] + ([c[i]] + c[i + 1..]);
    LookupsConcat(c[..i], [c[i]] + c[i + 1..], scan);
    LookupsConcat(c[..i], c[i + 1..], scan);
    assert ([c[i]] + c[i + 1..])[1..] == c[i + 1..];
  }

  /** With the most descriptors open that there are, the entries after them are all waiting. */
  lemma {:induction false} NoneOpenBeyond(c: seq<Query>, i: nat, j: nat)
    requires i <= j < |c| && Open(c[..i]) >= Open(c)
    ensures c[j].fd <= 0
  {
    assert c == c[..i] + c[i..];
    OpenConcat(c[..i], c[i..]);
    NoOpen(c[i..], j - i);
  }

  lemma {:induction false} NoOpen(c: seq<Query>, j: nat)
    requires j < |c| && Open(c) == 0
    ensures c[j].fd <= 0
  {
    if j > 0 { NoOpen(c[1..], j - 1); }
  }

  // ---- What the queue keeps ----

  ghost predicate FdsApart(c: seq<Query>) {
    forall i, j | 0 <= i < j < |c| && c[i].fd > 0 :: c[i].fd != c[j].fd
  }

  ghost predicate UidsApart(c: seq<Query>) {
    forall i, j | 0 <= i < j < |c| :: c[i].uid != c[j].uid
  }

  /** The entries: descriptors -1 or positive and distinct, uids distinct and issued, lookups not yet delivered. */
  ghost predicate WellListed(q: Queue) {
    && FdsApart(q.conns)
    && UidsApart(q.conns)
    && (forall i | 0 <= i < |q.conns| :: q.conns[i].fd == -1 || q.conns[i].fd > 0)
    && (forall i | 0 <= i < |q.conns| :: q.conns[i].uid < q.nextUid)
    && (forall i | 0 <= i < |q.conns| :: q.conns[i].info.Some? <==> q.conns[i].uid in q.accepted)
    && (forall u | u in q.accepted :: u < q.nextUid)
  }

  ghost predicate Waiting(c: seq<Query>, uid: nat) {
    exists i :: 0 <= i < |c| && c[i].uid == uid
  }

  /** Every accepted lookup is still listed and undelivered, or delivered once and gone; nothing else is delivered. */
  ghost predicate Conserved(q: Queue) {
    forall uid: nat :: q.delivered[uid] == One(uid in q.accepted && !Waiting(q.conns, uid))
  }

  /** The descriptor count is exact and within the limit. */
  ghost predicate Counted(q: Queue, limit: nat) {
    q.inuse == Open(q.conns) && q.inuse <= limit
  }

  ghost predicate Valid(q: Queue, limit: nat) {
    WellListed(q) && Conserved(q) && Counted(q, limit)
  }

  /** A new entry keeps the conservation of lookups. */
  lemma AppendConserves(q: Queue, c: Query, q': Queue)
    requires WellListed(q) && Conserved(q)
    requires c.uid == q.nextUid && q'.conns == q.conns + [c] && q'.delivered == q.delivered
    requires q'.accepted == if c.info.Some? then q.accepted + {c.uid} else q.accepted
    ensures Conserved(q')
  {
    forall uid: nat ensures q'.delivered[uid] == One(uid in q'.accepted && !Waiting(q'.conns, uid)) {
      if uid == c.uid {
        assert q'.conns[|q.conns|].uid == uid;
      } else if Waiting(q.conns, uid) {
        var i :| 0 <= i < |q.conns| && q.conns[i].uid == uid;
        assert q'.conns[i].uid == uid;
      }
    }
  }

  lemma AppendEntries(q: Queue, c: Query, q': Queue)
    requires WellListed(q)
    requires c.uid == q.nextUid && q'.conns == q.conns + [c] && q'.nextUid == q.nextUid + 1
    requires c.fd == -1 || (c.fd > 0 && forall i | 0 <= i < |q.conns| :: q.conns[i].fd != c.fd)
    requires q'.accepted == if c.info.Some? then q.accepted + {c.uid} else q.accepted
    ensures WellListed(q')
  {
  }

  lemma OpenAppend(c: seq<Query>, q: Query)
    ensures Open(c + [q]) == Open(c) + One(q.fd > 0)
  {
    OpenConcat(c, [q]);
    assert [q][1..] == [];
  }

  /** A query is accepted exactly when the caller is told so: by its descriptor, or by the limit code. */
  lemma {:induction false} GetIpKeeps(q: Queue, limit: nat, info: Option<Info>, sent: Sent, now: int)
    requires Valid(q, limit)
    ensures var (q', r) := GetIp(q, limit, info, sent, now);
            && Valid(q', limit)
            && q'.delivered == q.delivered
            && (if r != -1 || (q'.error == ERR_FDLIMIT && info.Some?)
                then && |q'.conns| > 0 && q'.conns == q.conns + [q'.conns[|q'.conns| - 1]]
                     && q'.conns[|q'.conns| - 1].info == info
                else q'.conns == q.conns)
  {
    var (q', r) := GetIp(q, limit, info, sent, now);
    if r != -1 || (q.inuse >= limit && info.Some?) {
      var c := q'.conns[|q.conns|];
      AppendEntries(q, c, q');
      AppendConserves(q, c, q');
      OpenAppend(q.conns, c);
    }
  }

  lemma {:induction false} ReopenKeeps(q: Queue, limit: nat, i: nat, sent: Sent, now: int)
    requires Valid(q, limit) && i < |q.conns| && q.conns[i].fd < 0 && q.inuse < limit
    ensures Valid(Reopen(q, i, sent, now), limit)
    ensures |Reopen(q, i, sent, now).conns| == |q.conns|
    ensures forall j | 0 <= j < |q.conns| :: Reopen(q, i, sent, now).conns[j].info == q.conns[j].info
  {
    var q' := Reopen(q, i, sent, now);
    if q'.conns != q.conns {
      OpenUpdate(q.conns, i, q'.conns[i]);
      SameUids(q.conns, q'.conns);
    }
  }

  lemma SameUids(c: seq<Query>, c': seq<Query>)
    requires |c| == |c'| && forall i | 0 <= i < |c| :: c[i].uid == c'[i].uid
    ensures forall uid: nat :: Waiting(c, uid) <==> Waiting(c', uid)
  {
    forall uid: nat ensures Waiting(c, uid) <==> Waiting(c', uid) {
      if Waiting(c, uid) {
        var i :| 0 <= i < |c| && c[i].uid == uid;
        assert c'[i].uid == uid;
      }
      if Waiting(c', uid) {
        var i :| 0 <= i < |c| && c'[i].uid == uid;
        assert c[i].uid == uid;
      }
    }
  }

  /** What a query's removal leaves: a lookup is delivered, a plain query is just gone. */
  function Settle(q: Queue, i: nat, error: int): Queue
    requires i < |q.conns|
  {
    var closed := Close(q, i, error);
    if q.conns[i].info.Some? then Deliver(closed, q.conns[i].uid) else closed
  }

  lemma {:induction false} SettleKeeps(q: Queue, limit: nat, i: nat, error: int)
    requires Valid(q, limit) && i < |q.conns| && q.conns[i].fd > 0
    ensures Valid(Settle(q, i, error), limit)
  {
    var q' := Settle(q, i, error);
    OpenWithout(q.conns, i);
    WithoutListed(q, i, q');
    SettleConserves(q, i, error);
  }

  lemma SettleConserves(q: Queue, i: nat, error: int)
    requires WellListed(q) && Conserved(q) && i < |q.conns|
    ensures Conserved(Settle(q, i, error))
  {
    var q' := Settle(q, i, error);
    forall uid: nat ensures q'.delivered[uid] == One(uid in q'.accepted && !Waiting(q'.conns, uid)) {
      WaitingWithout(q.conns, i, uid);
      if uid == q.conns[i].uid { assert Waiting(q.conns, uid); }
    }
  }

  lemma WithoutListed(q: Queue, i: nat, q': Queue)
    requires WellListed(q) && i < |q.conns|
    requires q'.conns == Without(q.conns, i) && q'.nextUid == q.nextUid && q'.accepted == q.accepted
    ensures WellListed(q')
  {
    forall j | 0 <= j < |q'.conns| ensures q'.conns[j] == q.conns[if j < i then j else j + 1] {
    }
  }

  lemma WaitingWithout(c: seq<Query>, i: nat, uid: nat)
    requires i < |c| && UidsApart(c)
    ensures Waiting(Without(c, i), uid) <==> Waiting(c, uid) && uid != c[i].uid
  {
    var c' := Without(c, i);
    if Waiting(c', uid) {
      var j :| 0 <= j < |c'| && c'[j].uid == uid;
      assert c[if j < i then j else j + 1].uid == uid;
    }
    if Waiting(c, uid) && uid != c[i].uid {
      var j :| 0 <= j < |c| && c[j].uid == uid;
      assert c'[if j < i then j else j - 1].uid == uid;
    }
  }
}
