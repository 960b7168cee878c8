/** What a kline is sent for: an open proxy, or a reply that lists the client; and nothing else. */
module Klines {
  import opened Options
  import opened Basics
  import opened DnsQueue
  import opened Lifecycle
  import opened Daemon
  import opened Sending
  import DnsReply

  /** The reply read on the query lists what its blacklist lists. */
  ghost predicate ListsOn(cfg: Config, c: Query, reply: Reply) {
    && c.info.Some? && c.info.value.blacklist < |cfg.blacklists|
    && reply.Answer? && reply.error == ERR_NONE && Listed(cfg.blacklists[c.info.value.blacklist], reply.code)
  }

  /** The query is one for the scan. */
  ghost predicate IsFor(c: Query, id: nat) { c.info.Some? && c.info.value.scan == id }

  lemma LookupResultKlines(cfg: Config, t: Tracker, c: Query, error: int, code: bv8, now: int, id: nat)
    requires c.info.Some? && !(IsFor(c, id) && ListsOn(cfg, c, Answer(error, code)))
    ensures LookupResult(cfg, t, c.info.value, error, code, now).klines[id] == t.klines[id]
  {
    var info := c.info.value;
    if info.scan in t.live {
      var t1 :=
        if error == ERR_NONE && info.blacklist < |cfg.blacklists|
        then BlacklistHit(t, info.scan, cfg.blacklists[info.blacklist], code) else t;
      TestDoneKlines(t1, info.scan, now, cfg.negcache);
    }
  }

  lemma ResultKlines(cfg: Config, s: State, i: nat, error: int, code: bv8, id: nat)
    requires i < |s.q.conns|
    requires !(IsFor(s.q.conns[i], id) && ListsOn(cfg, s.q.conns[i], Answer(error, code)))
    ensures ResultAt(cfg, s, i, error, code).t.klines[id] == s.t.klines[id]
  {
    var c := s.q.conns[i];
    if c.info.Some? { LookupResultKlines(cfg, s.t, c, error, code, s.now, id); }
  }

  /** A timeout sends no kline, and adds no query. */
  lemma SweepKlines(cfg: Config, s: State, id: nat)
    ensures var s' := Sweep(cfg, s, 0, []).0;
            s'.t.klines[id] == s.t.klines[id] && forall c | c in s'.q.conns :: c in s.q.conns
  {
    var kept := (s': State) => s'.t.klines[id] == s.t.klines[id] && forall c | c in s'.q.conns :: c in s.q.conns;
    forall s', i: nat ensures TimeoutKeeps(cfg, kept, s', i) {
      if i < |s'.q.conns| && kept(s') { ResultKlines(cfg, s', i, ERR_TIMEOUT, 0, id); }
    }
    SweepInduct(cfg, s, 0, [], kept);
  }

  /** No reply of the pass to a listed query of the scan lists it. */
  ghost predicate NoneLists(cfg: Config, net: Net, polled: seq<Query>, id: nat) {
    forall c | c in polled && IsFor(c, id) && c.fd > 0 && c.fd in net.ready ::
      !ListsOn(cfg, c, ReplyOn(cfg, c, net.received))
  }

  /** What is ahead of the pass was listed at the poll, and there is no kline more. */
  ghost predicate Quiet(polled: seq<Query>, id: nat, klines: nat, s: State, i: nat) {
    FdsApart(s.q.conns) && s.t.klines[id] == klines && forall j | i <= j < |s.q.conns| :: s.q.conns[j] in polled
  }

  lemma ReadQuiet(cfg: Config, net: Net, polled: seq<Query>, s: State, i: nat, id: nat)
    requires NoneLists(cfg, net, polled, id) && Quiet(polled, id, s.t.klines[id], s, i) && i < |s.q.conns|
    requires s.q.conns[i].fd > 0 && s.q.conns[i].fd in net.ready
    ensures var s1 := Collect(cfg, s, s.q.conns[i].fd, Datagram(net.received, s.q.conns[i].fd));
            && s1.t.klines[id] == s.t.klines[id]
            && (s1.q.conns == s.q.conns || s1.q.conns == Without(s.q.conns, i))
  {
    var c := s.q.conns[i];
    FindsItself(s.q.conns, i);
    var reply := ReplyOn(cfg, c, net.received);
    if reply.Answer? {
      ResultKlines(cfg, s.(q := s.q.(error := ERR_OTHER)), i, reply.error,
                   if reply.error == ERR_NONE then reply.code else 0, id);
    }
  }

  lemma EntryQuiet(cfg: Config, net: Net, polled: seq<Query>, s: State, i: nat, id: nat, klines: nat)
    requires NoneLists(cfg, net, polled, id) && Quiet(polled, id, klines, s, i) && i < |s.q.conns|
    ensures var r := ServeOne(cfg, s, i, net.ready, net.received, net.resent, []); Quiet(polled, id, klines, r.0, r.1)
  {
    var c := s.q.conns[i];
    ServeOneApart(cfg, s, i, net.ready, net.received, net.resent, []);
    if c.fd > 0 && c.fd in net.ready {
      ReadQuiet(cfg, net, polled, s, i, id);
      NextIsUp(s.q.conns, i);
    }
  }

  lemma ServeKlines(cfg: Config, net: Net, s: State, id: nat)
    requires FdsApart(s.q.conns) && NoneLists(cfg, net, s.q.conns, id)
    ensures Serve(cfg, s, 0, net.ready, net.received, net.resent, []).0.t.klines[id] == s.t.klines[id]
  {
    var kept := (s': State, i: nat) => Quiet(s.q.conns, id, s.t.klines[id], s', i);
    forall s', i: nat ensures EntryKeeps(cfg, net, kept, s', i) {
      if i < |s'.q.conns| && kept(s', i) { EntryQuiet(cfg, net, s.q.conns, s', i, id, s.t.klines[id]); }
    }
    ServeInduct(cfg, net, s, 0, [], kept);
  }

  /** The event is a cycle that reads a listing on query c. */
  ghost predicate ReadsListing(cfg: Config, e: Event, c: Query) {
    && e.Cycle? && e.count != -1 && e.count != 0
    && c.fd > 0 && c.fd in e.ready && ListsOn(cfg, c, ReplyOn(cfg, c, e.received))
  }

  /** The event reports an open proxy of the scan, or reads a listing on one of its queries. */
  ghost predicate Finds(cfg: Config, s: State, e: Event, id: nat) {
    || (e.OpenProxy? && e.scan == id && e.scanner in Outstanding(s.t, id))
    || (exists c :: c in s.q.conns && IsFor(c, id) && ReadsListing(cfg, e, c))
  }

  lemma CycleKlines(cfg: Config, s: State, e: Event, id: nat)
    requires FdsApart(s.q.conns) && e.Cycle? && !Finds(cfg, s, e, id)
    ensures CycleStep(cfg, s, e).t.klines[id] == s.t.klines[id]
  {
    if s.q.conns != [] {
      var (s1, ufds) := Sweep(cfg, s, 0, []);
      SweepKlines(cfg, s, id);
      SweepApart(cfg, s, 0, []);
      if e.count != -1 && e.count != 0 {
        NoneFound(cfg, s, e, id, s1.q.conns, ufds);
        ServeKlines(cfg, NetOf(e, ufds), s1, id);
      }
    }
  }

  lemma NoneFound(cfg: Config, s: State, e: Event, id: nat, polled: seq<Query>, ufds: seq<int>)
    requires e.Cycle? && e.count != -1 && e.count != 0
    requires !Finds(cfg, s, e, id) && forall c | c in polled :: c in s.q.conns
    ensures NoneLists(cfg, NetOf(e, ufds), polled, id)
  {
    var net := NetOf(e, ufds);
    forall c | c in polled && IsFor(c, id) && c.fd > 0 && c.fd in net.ready
      ensures !ListsOn(cfg, c, ReplyOn(cfg, c, net.received))
    {
      assert !ReadsListing(cfg, e, c);
    }
  }

  lemma BeginKlines(cfg: Config, s: State, ip: Option<Address>, manual: bool, numeric: bool, sent: seq<Sent>,
                    matched: seq<bool>)
    ensures Begin(cfg, s, ip, manual, numeric, sent, matched).t.klines == s.t.klines
  {
    var id := s.t.nextScan;
    var s0 := s.(t := Create(s.t, ip, manual));
    StartLookupsInduct(cfg, s0, id, 0, sent, (r: State, i: nat) => r.t.klines == s.t.klines);
    var s1 := if numeric then StartLookups(cfg, s0, id, 0, sent) else s0;
    StartScannersInduct(cfg, s1.t, id, 0, matched, (t: Tracker, i: nat) => t.klines == s.t.klines);
  }

  /** A query of the blocking resolver is nobody's. */
  lemma ResolveTracks(cfg: Config, s: State, e: Event)
    requires e.Resolve?
    ensures ResolveStep(cfg, s, e).t == s.t
  {
    var (q, fd) := GetIp(s.q, cfg.fdLimit, None, e.request, s.now);
    if fd != -1 { FoundAt(q.conns, fd, |s.q.conns|); }
  }

  lemma ReactKlines(cfg: Config, s: State, e: Event, id: nat)
    requires FdsApart(s.q.conns) && !Finds(cfg, s, e, id)
    ensures React(cfg, s, e).t.klines[id] == s.t.klines[id]
  {
    match e
    case Connect(ip, numeric, mask, _, sent, accepted) =>
      BeginKlines(cfg, s, ip, false, numeric, sent, Matched(cfg, mask, accepted));
    case Manual(target, sent, accepted) => BeginKlines(cfg, s, Some(target), true, true, sent, accepted);
    case Resolve(_, _) => ResolveTracks(cfg, s, e);
    case Cycle(_, _, _, _) => CycleKlines(cfg, s, e, id);
    case End(scan, scanner) => EndKlines(cfg, s, scan, scanner);
    case _ =>
  }

  lemma EndKlines(cfg: Config, s: State, scan: nat, scanner: nat)
    ensures ScannerEnds(s.t, scan, scanner, s.now, cfg.negcache).klines == s.t.klines
  {
    if scanner in Outstanding(s.t, scan) && scan in s.t.live {
      TestDoneKlines(s.t.(opm := s.t.opm[scan := Outstanding(s.t, scan) - {scanner}]), scan, s.now, cfg.negcache);
    }
  }

  /** After any run, an event that finds neither an open proxy nor a listing of a scan leaves its klines alone. */
  lemma {:induction false} KlinedOnlyIfFound(cfg: Config, start: int, trace: Trace, e: Event, at: int, id: nat)
    requires ValidConfig(cfg) && !Finds(cfg, Before(cfg, start, trace, at), e, id)
    ensures Run(cfg, start, trace + [(e, at)]).t.klines[id] == Run(cfg, start, trace).t.klines[id]
  {
    RunReacts(cfg, start, trace, e, at);
    BeforeKeeps(cfg, start, trace, at);
    ReactKlines(cfg, Before(cfg, start, trace, at), e, id);
  }

  // ---- Replies that say no ----

  /** The header of the datagram says that it is for another lookup, no reply, in error or without an answer. */
  ghost predicate Refuses(cfg: Config, c: Query, h: DnsReply.ReplyHeader) {
    || h.id0 != cfg.ids(c.uid).0 || h.id1 != cfg.ids(c.uid).1
    || h.qr == 0 || h.opcode != 0 || h.rcode != 0 || h.ancount == 0
  }

  ghost predicate Refused(cfg: Config, c: Query, datagram: seq<Byte>) {
    exists h, p :: DnsReply.GoodHeader(h) && datagram == DnsReply.HeaderBytes(h) + p && Refuses(cfg, c, h)
  }

  lemma RefusedListsNothing(cfg: Config, c: Query, datagram: seq<Byte>)
    requires Refused(cfg, c, datagram)
    ensures !ListsOn(cfg, c, ReplyTo(cfg, c, Some(datagram)))
  {
    var h, p :| DnsReply.GoodHeader(h) && datagram == DnsReply.HeaderBytes(h) + p && Refuses(cfg, c, h);
    DnsReply.HeaderDecides(cfg.ids(c.uid).0, cfg.ids(c.uid).1, QRY_A, CLASS_IN, h, p);
  }

  /**
   After any run, a cycle in which nothing is received for a scan, or only datagrams that are for another lookup,
   no replies, in error (as for a client that no blacklist has) or without an answer, leaves its klines as they were.
   */
  lemma {:induction false} RefusedKeepsKlines(cfg: Config, start: int, trace: Trace, e: Event, at: int, id: nat)
    requires ValidConfig(cfg) && e.Cycle?
    requires forall c | c in Run(cfg, start, trace).q.conns && IsFor(c, id) && c.fd in e.received ::
               Refused(cfg, c, e.received[c.fd])
    ensures Run(cfg, start, trace + [(e, at)]).t.klines[id] == Run(cfg, start, trace).t.klines[id]
  {
    var s := Before(cfg, start, trace, at);
    forall c | c in s.q.conns && IsFor(c, id) ensures !ReadsListing(cfg, e, c) {
      if c.fd in e.received {
        RefusedListsNothing(cfg, c, e.received[c.fd]);
      } else {
        DnsReply.NothingDecides(cfg.ids(c.uid).0, cfg.ids(c.uid).1, QRY_A, CLASS_IN, []);
      }
    }
    KlinedOnlyIfFound(cfg, start, trace, e, at, id);
  }

  /** A datagram with another id leaves the query listed: its own reply may still come. */
  lemma {:induction false} StrayReplyLeaves(cfg: Config, start: int, trace: Trace, e: Event, at: int, n: nat,
                                            c: Query, h: DnsReply.ReplyHeader, p: seq<Byte>)
    requires ValidConfig(cfg) && InTime(cfg, start, trace, n, c, at) && !AnsweredSince(cfg, trace, n, c)
    requires e.Cycle? && DnsReply.GoodHeader(h) && c.fd in e.received && e.received[c.fd] == DnsReply.HeaderBytes(h) + p
    requires h.id0 != cfg.ids(c.uid).0 || h.id1 != cfg.ids(c.uid).1
    ensures c in Run(cfg, start, trace + [(e, at)]).q.conns
  {
    InTimeListed(cfg, start, trace, n, c, at);
    BeforeKeeps(cfg, start, trace, at);
    DnsReply.HeaderDecides(cfg.ids(c.uid).0, cfg.ids(c.uid).1, QRY_A, CLASS_IN, h, p);
    RunReacts(cfg, start, trace, e, at);
    ReactLeaves(cfg, Before(cfg, start, trace, at), e, c);
  }
}
