/**
 The daemon as the objects it is made of: the resolver with its linked list, the scans with their
 linked trie, the clock and the rebuild counter. Every event is proved to take the step of the state
 machine on what these objects stand for, so the results about runs hold of the object that was driven
 through one.
 */
module Handlers {
  import opened Options
  import opened Basics
  import opened Bits
  import opened DnsQueue
  import opened Lifecycle
  import opened Daemon
  import opened LinkedList
  import DnsReply
  import Glob
  import opened Firedns
  import opened Scanning

  class Bopm {
    const cfg: Config
    const resolver: Resolver
    const scans: Scans
    var now: int

    /** The objects are well linked. */
    ghost predicate Sound()
      reads resolver, resolver.own, scans, scans.own
    {
      && this !in resolver.own && scans !in resolver.own
      && this !in scans.own && resolver !in scans.own
      && resolver.own !! scans.own
      && resolver.Valid() && scans.Valid() && scans.cfg == cfg && resolver.limit == cfg.fdLimit
    }

    /** The state the objects stand for. */
    ghost function S(): State
      reads this, resolver, scans
    {
      State(resolver.q, scans.t, now, scans.counter)
    }

    /** The objects are well linked, and what they stand for keeps the invariant of every run. */
    ghost predicate Valid()
      reads this, resolver, resolver.own, scans, scans.own
    {
      Sound() && ValidConfig(cfg) && Inv(cfg, S())
    }

    constructor (cfg: Config, now: int, maxb: nat)
      requires 0x1_0000_0000 <= Pow2(maxb)
      ensures Sound() && this.cfg == cfg && fresh(resolver) && fresh(scans) && fresh(resolver.own) && fresh(scans.own)
      ensures S() == Initial(now)
    {
      this.cfg, this.now := cfg, now;
      resolver := new Resolver(cfg.fdLimit);
      scans := new Scans(cfg, maxb);
    }

    /** dnsbl_add: one lookup per blacklist, counted if it was sent or queued. */
    method StartAllLookups(id: nat, sent: seq<Sent>)
      requires Sound() && id in scans.live
      modifies resolver, resolver.own, scans
      ensures Sound() && scans.own == old(scans.own) && resolver.Grew()
      ensures id in scans.live && S() == StartLookups(cfg, old(S()), id, 0, sent)
    {
      var i := 0;
      while i < |cfg.blacklists|
        invariant Sound() && scans.own == old(scans.own) && resolver.Grew()
        invariant id in scans.live && i <= |cfg.blacklists|
        invariant StartLookups(cfg, S(), id, i, sent) == StartLookups(cfg, old(S()), id, 0, sent)
      {
        StartOne(id, i, Pick(sent, i));
        i := i + 1;
      }
    }

    method StartOne(id: nat, i: nat, sent: Sent)
      requires Sound() && id in scans.live
      modifies resolver, resolver.own, scans
      ensures Sound() && scans.own == old(scans.own) && resolver.Grew()
      ensures id in scans.live && S() == StartLookup(cfg, old(S()), id, i, sent)
    {
      var fd := resolver.GetIp(Some(Info(id, i)), sent, now);
      if !(fd == -1 && resolver.error != ERR_FDLIMIT) {
        scans.CountTest(id);
      }
    }

    /** The common part of scan_connect and scan_manual. */
    method BeginScan(ip: Option<Address>, manual: bool, numeric: bool, sent: seq<Sent>, matched: seq<bool>)
      requires Sound()
      modifies resolver, resolver.own, scans
      ensures Sound() && scans.own == old(scans.own) && resolver.Grew()
      ensures S() == Begin(cfg, old(S()), ip, manual, numeric, sent, matched)
    {
      var id := scans.Create(ip, manual);
      StartTests(id, numeric, sent, matched);
    }

    method StartTests(id: nat, numeric: bool, sent: seq<Sent>, matched: seq<bool>)
      requires Sound() && id in scans.live
      modifies resolver, resolver.own, scans
      ensures Sound() && scans.own == old(scans.own) && resolver.Grew()
      ensures S() == Daemon.StartTests(cfg, old(S()), id, numeric, sent, matched)
    {
      if numeric {
        StartAllLookups(id, sent);
      }
      scans.StartAll(id, matched);
    }

    /** scan_connect: let a client go that is cached or exempt, scan any other with the scanners it matches. */
    method OnConnect(ip: Option<Address>, numeric: bool, mask: Glob.Text, ipmask: Glob.Text, sent: seq<Sent>,
                     accepted: seq<bool>)
      requires Sound()
      modifies resolver, resolver.own, scans
      ensures Sound() && scans.own == old(scans.own) && resolver.Grew()
      ensures S() == ConnectStep(cfg, old(S()), Connect(ip, numeric, mask, ipmask, sent, accepted))
    {
      if cfg.negcache > 0 {
        if ip.None? {
          return;
        }
        var skip := scans.Skips(ip.value, now);
        if skip {
          return;
        }
      }
      var exempt := CheckExempt(mask, ipmask);
      if exempt {
        return;
      }
      var matched := MatchScanners(mask, accepted);
      BeginScan(ip, false, numeric, sent, matched);
    }

    /** scan_checkexempt */
    method CheckExempt(mask: Glob.Text, ipmask: Glob.Text) returns (exempt: bool)
      ensures exempt == IsExempt(cfg, mask, ipmask)
    {
      exempt := Glob.CheckExempt(cfg.exempts, mask, ipmask);
    }

    /** The loops over the scanners and their masks. */
    method MatchScanners(mask: Glob.Text, accepted: seq<bool>) returns (matched: seq<bool>)
      ensures matched == Matched(cfg, mask, accepted)
    {
      matched := [];
      for i := 0 to |cfg.scanners|
        invariant |matched| == i
        invariant forall k | 0 <= k < i :: matched[k] == Matched(cfg, mask, accepted)[k]
      {
        var hit := MatchMasks(cfg.scanners[i], mask);
        matched := matched + [hit && i < |accepted| && accepted[i]];
      }
    }

    static method MatchMasks(masks: seq<Glob.Text>, mask: Glob.Text) returns (found: bool)
      ensures found == MaskMatches(masks, mask)
    {
      for k := 0 to |masks|
        invariant forall i | 0 <= i < k :: !Glob.Result(masks[i], mask)
      {
        found := Glob.Match(masks[k], mask);
        if found {
          return;
        }
      }
      return false;
    }

    /** A query is over: off the list, its descriptor closed, its result handled if somebody waits for it. */
    method Finish(node: Node<Query>, ghost i: nat, e: int, code: bv8)
      requires Sound() && i < |resolver.conns.nodes| && resolver.conns.nodes[i] == node
      modifies resolver, resolver.own, scans, scans.own
      ensures Sound() && resolver.own == old(resolver.own)
      ensures scans.Grew()
      ensures resolver.conns.nodes == old(resolver.conns.nodes[..i] + resolver.conns.nodes[i + 1..])
      ensures S() == ResultAt(cfg, old(S()), i, e, code)
    {
      var info := node.data.info;
      resolver.Take(node, i, e);
      scans.AnyResult(info, e, code, now);
    }

    /** One node of the first pass; the saved next node is the next in the list, whatever became of this one. */
    method SweepNode(node: Node<Query>, ghost i: nat, ufds: seq<int>) returns (ghost i': nat, ufds': seq<int>)
      requires Sound() && i < |resolver.conns.nodes| && resolver.conns.nodes[i] == node
      modifies resolver, resolver.own, scans, scans.own
      ensures Sound() && resolver.own == old(resolver.own)
      ensures scans.Grew()
      ensures (S(), i', ufds') == SweepOne(cfg, old(S()), i, ufds)
      ensures At(resolver.conns.nodes, i') == old(At(resolver.conns.nodes, i + 1))
    {
      var c := node.data;
      i', ufds' := i + 1, ufds;
      if c.fd >= 0 {
        if Expired(c, now) {
          Finish(node, i, ERR_TIMEOUT, 0);
          i' := i;
        } else {
          ufds' := ufds + [c.fd];
        }
      }
    }

    /** The first pass of firedns_cycle, with the next node saved before the list may change. */
    method SweepQueries() returns (ufds: seq<int>)
      requires Sound()
      modifies resolver, resolver.own, scans, scans.own
      ensures Sound() && resolver.own == old(resolver.own)
      ensures scans.Grew()
      ensures (S(), ufds) == Sweep(cfg, old(S()), 0, [])
    {
      ufds := [];
      var node := resolver.conns.head;
      ghost var i: nat := 0;
      while node != null
        invariant Sound() && resolver.own == old(resolver.own)
        invariant scans.Grew()
        invariant i <= |resolver.conns.nodes| && node == At(resolver.conns.nodes, i)
        invariant Sweep(cfg, S(), i, ufds) == Sweep(cfg, old(S()), 0, [])
        decreases |resolver.conns.nodes| - i
      {
        if |ufds| >= cfg.fdLimit {
          return;
        }
        var next := node.next;
        i, ufds := SweepNode(node, i, ufds);
        node := next;
      }
    }

    /** A reply to a node's query ends the query, unless it is for another. */
    method Answer(node: Node<Query>, ghost j: nat, reply: Reply)
      requires Sound() && j < |resolver.conns.nodes| && resolver.conns.nodes[j] == node
      requires Find(resolver.q.conns, node.data.fd) == j
      modifies resolver, resolver.own, scans, scans.own
      ensures Sound() && resolver.own == old(resolver.own) && scans.Grew()
      ensures S() == GetResult(cfg, old(S()), old(node.data.fd), reply)
      ensures reply.Mismatch? ==> resolver.conns.nodes == old(resolver.conns.nodes)
      ensures reply.Answer? ==>
                resolver.conns.nodes == old(resolver.conns.nodes)[..j] + old(resolver.conns.nodes)[j + 1..]
    {
      resolver.Unclear();
      if reply.Answer? {
        Finish(node, j, reply.error, if reply.error == ERR_NONE then reply.code else 0);
      }
    }

    /** The datagram read for a query, as the cursor over it finds. */
    method Read(c: Query, datagram: Option<seq<Byte>>) returns (reply: Reply)
      ensures reply == ReplyTo(cfg, c, datagram)
    {
      var id := cfg.ids(c.uid);
      var outcome := DnsReply.GetResult(id.0, id.1, QRY_A, CLASS_IN, datagram);
      reply := DnsReply.Collected(outcome);
    }

    /** firedns_getresult: the datagram is read on the first query with this descriptor, if there is one. */
    method Collect(fd: int, datagram: Option<seq<Byte>>) returns (ghost gone: bool)
      requires Sound()
      modifies resolver, resolver.own, scans, scans.own
      ensures Sound() && resolver.own == old(resolver.own) && scans.Grew()
      ensures S() == Daemon.Collect(cfg, old(S()), fd, datagram)
      ensures gone <==> |S().q.conns| < |old(S()).q.conns|
      ensures var n, j := old(resolver.conns.nodes), Find(old(resolver.q).conns, fd);
              if gone then |n| > j && resolver.conns.nodes == n[..j] + n[j + 1..] else resolver.conns.nodes == n
    {
      var node, j := resolver.FindNode(fd);
      if node == null {
        resolver.Unclear();
        return false;
      }
      gone := CollectAt(node, j, datagram);
    }

    method CollectAt(node: Node<Query>, ghost j: nat, datagram: Option<seq<Byte>>) returns (ghost gone: bool)
      requires Sound() && j < |resolver.conns.nodes| && resolver.conns.nodes[j] == node
      requires Find(resolver.q.conns, node.data.fd) == j
      modifies resolver, resolver.own, scans, scans.own
      ensures Sound() && resolver.own == old(resolver.own) && scans.Grew()
      ensures S() == Daemon.Collect(cfg, old(S()), old(node.data.fd), datagram)
      ensures gone <==> |S().q.conns| < |old(S()).q.conns|
      ensures var n := old(resolver.conns.nodes);
              resolver.conns.nodes == if gone then n[..j] + n[j + 1..] else n
    {
      var reply := Read(node.data, datagram);
      Answer(node, j, reply);
      gone := reply.Answer?;
    }

    /** A node that is ready, read through its descriptor. */
    method ReadNode(node: Node<Query>, ghost i: nat, datagram: Option<seq<Byte>>) returns (ghost i': nat)
      requires Sound() && i < |resolver.conns.nodes| && resolver.conns.nodes[i] == node
      requires node.data.fd > 0 && Find(resolver.q.conns, node.data.fd) == i
      modifies resolver, resolver.own, scans, scans.own
      ensures Sound() && resolver.own == old(resolver.own) && scans.Grew()
      ensures S() == Daemon.Collect(cfg, old(S()), old(node.data.fd), datagram)
      ensures i' == if |S().q.conns| < |old(S()).q.conns| then i else i + 1
      ensures At(resolver.conns.nodes, i') == old(At(resolver.conns.nodes, i + 1))
    {
      ghost var gone := Collect(node.data.fd, datagram);
      i' := if gone then i else i + 1;
    }

    /** One node of the second pass; the saved next node is the next in the list, whatever became of this one. */
    method ServeNode(node: Node<Query>, ghost i: nat, ready: set<int>, received: map<int, seq<Byte>>,
                     resent: map<nat, Sent>, ghost answered: seq<Query>)
      returns (ghost i': nat, ghost answered': seq<Query>)
      requires Sound() && i < |resolver.conns.nodes| && resolver.conns.nodes[i] == node
      requires node.data.fd > 0 ==> Find(resolver.q.conns, node.data.fd) == i
      modifies resolver, resolver.own, scans, scans.own
      ensures Sound() && resolver.own == old(resolver.own)
      ensures scans.Grew()
      ensures (S(), i', answered') == ServeOne(cfg, old(S()), i, ready, received, resent, answered)
      ensures At(resolver.conns.nodes, i') == old(At(resolver.conns.nodes, i + 1))
    {
      var c := node.data;
      i', answered' := i + 1, answered;
      if c.fd > 0 {
        if c.fd in ready {
          i' := ReadNode(node, i, Datagram(received, c.fd));
          answered' := answered + [c];
        }
      } else if resolver.inuse < cfg.fdLimit {
        resolver.Send(node, i, if c.uid in resent then resent[c.uid] else NotSent(ERR_NETWORK), now);
      }
    }

    /** The second pass of firedns_cycle, with the next node saved before the list may change. */
    method ServeQueries(ready: set<int>, received: map<int, seq<Byte>>, resent: map<nat, Sent>)
      requires Sound() && FdsApart(resolver.q.conns)
      modifies resolver, resolver.own, scans, scans.own
      ensures Sound() && resolver.own == old(resolver.own)
      ensures scans.Grew()
      ensures S() == Serve(cfg, old(S()), 0, ready, received, resent, []).0
    {
      var node := resolver.conns.head;
      ghost var i: nat, answered: seq<Query> := 0, [];
      while node != null
        invariant Sound() && resolver.own == old(resolver.own)
        invariant scans.Grew()
        invariant FdsApart(resolver.q.conns)
        invariant i <= |resolver.conns.nodes| && node == At(resolver.conns.nodes, i)
        invariant Serve(cfg, S(), i, ready, received, resent, answered)
                  == Serve(cfg, old(S()), 0, ready, received, resent, [])
        decreases |resolver.conns.nodes| - i
      {
        var next := node.next;
        ServeOneApart(cfg, S(), i, ready, received, resent, answered);
        i, answered := ServeNode(node, i, ready, received, resent, answered);
        node := next;
      }
    }

    /** firedns_cycle */
    method OnCycle(count: int, ready: set<int>, received: map<int, seq<Byte>>, resent: map<nat, Sent>)
      requires Sound() && FdsApart(resolver.q.conns)
      modifies resolver, resolver.own, scans, scans.own
      ensures Sound() && resolver.own == old(resolver.own)
      ensures scans.Grew()
      ensures S() == CycleStep(cfg, old(S()), Cycle(count, ready, received, resent))
    {
      if resolver.conns.elements == 0 {
        return;
      }
      var ufds := SweepQueries();
      if count == -1 || count == 0 {
        return;
      }
      SweepApart(cfg, old(S()), 0, []);
      ServeQueries((set fd | fd in ready && fd in ufds), received, resent);
    }

    /** One try of the blocking resolver: a query nobody else waits for, collected at once. */
    method OnResolve(request: Sent, datagram: Option<seq<Byte>>)
      requires Sound()
      modifies resolver, resolver.own, scans, scans.own
      ensures Sound() && resolver.Grew()
      ensures scans.Grew()
      ensures S() == ResolveStep(cfg, old(S()), Resolve(request, datagram))
    {
      var fd := resolver.GetIp(None, request, now);
      if fd != -1 {
        ghost var gone := Collect(fd, datagram);
      }
    }

    method Dispatch(e: Event)
      requires Sound() && FdsApart(resolver.q.conns)
      modifies resolver, resolver.own, scans, scans.own
      ensures Sound() && resolver.Grew() && scans.Grew()
      ensures S() == React(cfg, old(S()), e)
    {
      match e {
        case Connect(ip, numeric, mask, ipmask, sent, accepted) =>
          OnConnect(ip, numeric, mask, ipmask, sent, accepted);
        case Manual(target, sent, accepted) => BeginScan(Some(target), true, true, sent, accepted);
        case Resolve(request, datagram) => OnResolve(request, datagram);
        case Cycle(count, ready, received, resent) => OnCycle(count, ready, received, resent);
        case Tick => OnTick();
        case _ => CallBack(e);
      }
    }

    /** What comes from libopm. */
    method CallBack(e: Event)
      requires Sound() && (e.OpenProxy? || e.End?)
      modifies scans, scans.own
      ensures Sound() && scans.Grew()
      ensures S() == React(cfg, old(S()), e)
    {
      match e {
        case OpenProxy(scan, scanner) => OnOpenProxy(scan, scanner);
        case End(scan, scanner) => OnEnd(scan, scanner);
      }
    }

    method OnOpenProxy(scan: nat, scanner: nat)
      requires Sound()
      modifies scans
      ensures Sound() && scans.own == old(scans.own)
      ensures S() == old(S()).(t := OpenProxyFound(old(S()).t, scan, scanner))
    {
      scans.OpenProxy(scan, scanner);
    }

    method OnEnd(scan: nat, scanner: nat)
      requires Sound()
      modifies scans, scans.own
      ensures Sound() && scans.Grew()
      ensures S() == old(S()).(t := ScannerEnds(old(S()).t, scan, scanner, now, cfg.negcache))
    {
      scans.End(scan, scanner, now);
    }

    method OnTick()
      requires Sound()
      modifies scans, scans.own
      ensures Sound() && scans.Grew()
      ensures S() == TickStep(cfg, old(S()))
    {
      scans.Tick(now);
    }

    /** One event at one time takes the step of the machine, and leaves the objects valid. */
    method Handle(e: Event, at: int)
      requires Valid()
      modifies this, resolver, resolver.own, scans, scans.own
      ensures Valid() && resolver.Grew() && scans.Grew()
      ensures S() == Step(cfg, old(S()), e, at)
    {
      ghost var s := Step(cfg, S(), e, at);
      StepKeeps(cfg, S(), e, at);
      Advance(e, at);
      StandsFor(s);
    }

    method Advance(e: Event, at: int)
      requires Sound() && FdsApart(resolver.q.conns)
      modifies this, resolver, resolver.own, scans, scans.own
      ensures Sound() && resolver.Grew() && scans.Grew()
      ensures S() == Step(cfg, old(S()), e, at)
    {
      Pass(at);
      Dispatch(e);
    }

    /** Time does not go back. */
    method Pass(at: int)
      requires Sound()
      modifies this
      ensures Sound() && S() == old(S()).(now := if at > old(now) then at else old(now))
    {
      now := if at > now then at else now;
    }

    lemma StandsFor(s: State)
      requires Sound() && ValidConfig(cfg) && S() == s && Inv(cfg, s)
      ensures Valid()
    {
    }

    /** What a valid daemon guarantees: exact counters, one kline per scan at most, and only clean scans cached. */
    lemma Guarantees()
      requires Valid()
      ensures forall id | id in scans.live :: scans.live[id].scans == Owed(resolver.conns.Contents(), scans.t, id) > 0
      ensures resolver.inuse == Open(resolver.conns.Contents())
      ensures resolver.inuse <= cfg.fdLimit
      ensures forall id: nat :: scans.t.klines[id] <= 1
      ensures forall id | id in scans.t.cachedBy :: scans.t.klines[id] == 0 && !scans.t.started[id].manual
      ensures !scans.t.dangling
    {
      HistorySays(scans.t, now);
    }

    /** A daemon driven through any run stands for the state that run ends in. */
    static method Drive(cfg: Config, start: int, maxb: nat, trace: Trace) returns (b: Bopm)
      requires ValidConfig(cfg) && 0x1_0000_0000 <= Pow2(maxb)
      ensures b.Valid() && b.cfg == cfg && b.S() == Run(cfg, start, trace)
      ensures forall id | id in b.scans.live ::
                b.scans.live[id].scans == Owed(b.resolver.conns.Contents(), b.scans.t, id) > 0
      ensures b.resolver.inuse == Open(b.resolver.conns.Contents())
      ensures b.resolver.inuse <= cfg.fdLimit
      ensures forall id: nat :: b.scans.t.klines[id] <= 1
      ensures forall id | id in b.scans.t.cachedBy :: b.scans.t.klines[id] == 0 && !b.scans.t.started[id].manual
      ensures !b.scans.t.dangling
    {
      b := Boot(cfg, start, maxb);
      b.HandleAll(start, trace);
      b.Guarantees();
    }

    /** One event after the other. */
    method HandleAll(ghost start: int, trace: Trace)
      requires Valid() && S() == Initial(start)
      modifies this, resolver, resolver.own, scans, scans.own
      ensures Valid() && resolver.Grew() && scans.Grew()
      ensures S() == Run(cfg, start, trace)
      decreases |trace|
    {
      if trace != [] {
        var n := |trace| - 1;
        HandleAll(start, trace[..n]);
        Handle(trace[n].0, trace[n].1);
      }
    }

    static method Boot(cfg: Config, start: int, maxb: nat) returns (b: Bopm)
      requires ValidConfig(cfg) && 0x1_0000_0000 <= Pow2(maxb)
      ensures b.Valid() && b.cfg == cfg && b.S() == Initial(start)
      ensures fresh(b) && fresh(b.resolver) && fresh(b.scans) && fresh(b.resolver.own) && fresh(b.scans.own)
    {
      b := new Bopm(cfg, start, maxb);
      RunKeeps(cfg, start, []);
    }
  }
}
