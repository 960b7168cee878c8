/**
 What the negative cache remembers through any run: an automatic scan that finished clean has its client let go, and
 the cache is rebuilt when it is due.
 */
module Remembering {
  import opened Options
  import opened Basics
  import opened DnsQueue
  import opened Lifecycle
  import opened Daemon
  import opened Sending
  import Cache = NegCache

  /** An automatic scan of an address other than 0 that finished clean. */
  ghost predicate Clean(t: Tracker, id: nat) {
    && id in t.finished && id in t.started && !t.finished[id].positive && !t.started[id].manual
    && t.started[id].ip.Some? && t.started[id].ip.value != 0
  }

  /** The cache has the address of the scan, entered when the scan finished or later. */
  ghost predicate Recalled(t: Tracker, id: nat)
    requires Clean(t, id)
  {
    var ip := t.started[id].ip.value;
    ip in t.cache && t.cache[ip] >= t.finished[id].at
  }

  /** Live scans are as started, nothing finished in the future, and what finished clean lately is in the cache. */
  ghost predicate Recalls(t: Tracker, now: int, negcache: int) {
    && (forall id | id in t.live ::
          && id < t.nextScan && id in t.started
          && t.started[id].ip == t.live[id].ip && t.started[id].manual == t.live[id].manual)
    && (forall id | id in t.finished :: id < t.nextScan && t.finished[id].at <= now)
    && (forall id | Clean(t, id) && now - t.finished[id].at < negcache :: Recalled(t, id))
  }

  /** A step that finishes nothing and leaves the cache keeps it. */
  ghost predicate Unfinishing(t: Tracker, t': Tracker) {
    && t'.finished == t.finished && t'.cache == t.cache && t.nextScan <= t'.nextScan
    && (forall id | id in t.finished && id < t.nextScan :: id in t'.started <==> id in t.started)
    && (forall id | id in t.started && id < t.nextScan :: id in t'.started && t'.started[id] == t.started[id])
    && (forall id | id in t'.live ::
          && id < t'.nextScan && id in t'.started
          && t'.started[id].ip == t'.live[id].ip && t'.started[id].manual == t'.live[id].manual)
  }

  lemma UnfinishingRecalls(t: Tracker, t': Tracker, now: int, negcache: int)
    requires Recalls(t, now, negcache) && Unfinishing(t, t')
    ensures Recalls(t', now, negcache)
  {
    forall id | Clean(t', id) && now - t'.finished[id].at < negcache ensures Recalled(t', id) {
      assert Clean(t, id);
    }
  }

  lemma FinishRecalls(t: Tracker, id: nat, now: int, negcache: int)
    requires Recalls(t, now, negcache) && id in t.live
    ensures Recalls(CheckFinished(t, id, now, negcache), now, negcache)
  {
    if t.live[id].scans == 0 {
      var t' := CheckFinished(t, id, now, negcache);
      FinishParts(t, now, id, negcache);
      forall k | Clean(t', k) && now - t'.finished[k].at < negcache ensures Recalled(t', k) {
        if k == id { FinishedIsCached(t, id, now, negcache); } else { OthersRecalled(t, id, now, negcache, k); }
      }
    }
  }

  lemma FinishedIsCached(t: Tracker, id: nat, now: int, negcache: int)
    requires Recalls(t, now, negcache) && id in t.live && t.live[id].scans == 0 && negcache > 0
    requires Clean(CheckFinished(t, id, now, negcache), id)
    ensures Recalled(CheckFinished(t, id, now, negcache), id)
  {
  }

  lemma OthersRecalled(t: Tracker, id: nat, now: int, negcache: int, k: nat)
    requires Recalls(t, now, negcache) && id in t.live && t.live[id].scans == 0 && k != id
    requires var t' := CheckFinished(t, id, now, negcache); Clean(t', k) && now - t'.finished[k].at < negcache
    ensures Recalled(CheckFinished(t, id, now, negcache), k)
  {
    assert Clean(t, k) && Recalled(t, k);
  }

  lemma TestDoneRecalls(t: Tracker, id: nat, now: int, negcache: int)
    requires Recalls(t, now, negcache) && id in t.live
    ensures Recalls(TestDone(t, id, now, negcache), now, negcache)
  {
    UnfinishingRecalls(t, DropTest(t, id), now, negcache);
    FinishRecalls(DropTest(t, id), id, now, negcache);
  }

  lemma ResultRecalls(cfg: Config, s: State, i: nat, error: int, code: bv8)
    requires Recalls(s.t, s.now, cfg.negcache) && i < |s.q.conns|
    ensures Recalls(ResultAt(cfg, s, i, error, code).t, s.now, cfg.negcache)
  {
    var c := s.q.conns[i];
    if c.info.Some? {
      var info := c.info.value;
      if info.scan in s.t.live {
        var t1 :=
          if error == ERR_NONE && info.blacklist < |cfg.blacklists|
          then BlacklistHit(s.t, info.scan, cfg.blacklists[info.blacklist], code) else s.t;
        UnfinishingRecalls(s.t, t1, s.now, cfg.negcache);
        TestDoneRecalls(t1, info.scan, s.now, cfg.negcache);
      }
    }
  }

  ghost predicate RecallsNow(cfg: Config, now: int, s: State) {
    s.now == now && Recalls(s.t, now, cfg.negcache)
  }

  lemma CollectRecalls(cfg: Config, s: State, fd: int, datagram: Option<seq<Byte>>)
    requires RecallsNow(cfg, s.now, s)
    ensures RecallsNow(cfg, s.now, Collect(cfg, s, fd, datagram))
  {
    var j := Find(s.q.conns, fd);
    var s1 := s.(q := s.q.(error := ERR_OTHER));
    if j < |s.q.conns| {
      var reply := ReplyTo(cfg, s.q.conns[j], datagram);
      if reply.Answer? { ResultRecalls(cfg, s1, j, reply.error, if reply.error == ERR_NONE then reply.code else 0); }
    }
  }

  lemma CycleRecalls(cfg: Config, s: State, e: Event)
    requires e.Cycle? && RecallsNow(cfg, s.now, s)
    ensures RecallsNow(cfg, s.now, CycleStep(cfg, s, e))
  {
    var (s1, ufds) := Sweep(cfg, s, 0, []);
    SweepRecalls(cfg, s);
    if e.count != -1 && e.count != 0 { ServeRecalls(cfg, NetOf(e, ufds), s1); }
  }

  lemma SweepRecalls(cfg: Config, s: State)
    requires RecallsNow(cfg, s.now, s)
    ensures RecallsNow(cfg, s.now, Sweep(cfg, s, 0, []).0)
  {
    var kept := (s': State) => RecallsNow(cfg, s.now, s');
    forall s', i: nat ensures TimeoutKeeps(cfg, kept, s', i) {
      if i < |s'.q.conns| && kept(s') { ResultRecalls(cfg, s', i, ERR_TIMEOUT, 0); }
    }
    SweepInduct(cfg, s, 0, [], kept);
  }

  lemma ServeRecalls(cfg: Config, net: Net, s: State)
    requires RecallsNow(cfg, s.now, s)
    ensures RecallsNow(cfg, s.now, Serve(cfg, s, 0, net.ready, net.received, net.resent, []).0)
  {
    var kept := (s': State, i: nat) => RecallsNow(cfg, s.now, s');
    forall s', i: nat ensures EntryKeeps(cfg, net, kept, s', i) {
      if i < |s'.q.conns| && kept(s', i) {
        CollectRecalls(cfg, s', s'.q.conns[i].fd, Datagram(net.received, s'.q.conns[i].fd));
      }
    }
    ServeInduct(cfg, net, s, 0, [], kept);
  }

  lemma BeginRecalls(cfg: Config, s: State, ip: Option<Address>, manual: bool, numeric: bool, sent: seq<Sent>,
                     matched: seq<bool>)
    requires RecallsNow(cfg, s.now, s)
    ensures RecallsNow(cfg, s.now, Begin(cfg, s, ip, manual, numeric, sent, matched))
  {
    var s0 := s.(t := Create(s.t, ip, manual));
    UnfinishingRecalls(s.t, s0.t, s.now, cfg.negcache);
    TestsRecall(cfg, s0, s.t.nextScan, numeric, sent, matched);
  }

  lemma TestsRecall(cfg: Config, s: State, id: nat, numeric: bool, sent: seq<Sent>, matched: seq<bool>)
    requires RecallsNow(cfg, s.now, s) && id in s.t.live
    ensures RecallsNow(cfg, s.now, StartTests(cfg, s, id, numeric, sent, matched))
  {
    LookupsRecall(cfg, s, id, sent);
    var s1 := if numeric then StartLookups(cfg, s, id, 0, sent) else s;
    ScannersRecall(cfg, s1, id, matched);
    var t2 := StartScanners(cfg, s1.t, id, 0, matched);
    UnfinishingRecalls(t2, Started(t2, id), s.now, cfg.negcache);
  }

  lemma LookupsRecall(cfg: Config, s: State, id: nat, sent: seq<Sent>)
    requires RecallsNow(cfg, s.now, s) && id in s.t.live
    ensures RecallsNow(cfg, s.now, StartLookups(cfg, s, id, 0, sent))
  {
    var kept := (r: State, i: nat) => RecallsNow(cfg, s.now, r);
    forall r, i: nat | kept(r, i) && i < |cfg.blacklists| && id in r.t.live
      ensures kept(StartLookup(cfg, r, id, i, Pick(sent, i)), i + 1)
    {
      UnfinishingRecalls(r.t, AddTest(r.t, id), s.now, cfg.negcache);
    }
    StartLookupsInduct(cfg, s, id, 0, sent, kept);
  }

  lemma ScannersRecall(cfg: Config, s: State, id: nat, matched: seq<bool>)
    requires RecallsNow(cfg, s.now, s) && id in s.t.live
    ensures Recalls(StartScanners(cfg, s.t, id, 0, matched), s.now, cfg.negcache)
  {
    var kept := (t: Tracker, i: nat) => Recalls(t, s.now, cfg.negcache);
    forall t, i: nat ensures KeptOn(cfg, id, kept, t, i) {
      if kept(t, i) && i < |cfg.scanners| && id in t.live {
        UnfinishingRecalls(t, ScannerAccepts(t, id, i), s.now, cfg.negcache);
      }
    }
    StartScannersInduct(cfg, s.t, id, 0, matched, kept);
  }

  /** A rebuild only forgets what is too old to count. */
  lemma TickRecalls(cfg: Config, s: State)
    requires RecallsNow(cfg, s.now, s)
    ensures RecallsNow(cfg, s.now, TickStep(cfg, s))
  {
    var t' := TickStep(cfg, s).t;
    forall id | Clean(t', id) && s.now - t'.finished[id].at < cfg.negcache ensures Recalled(t', id) {
      assert Clean(s.t, id) && Recalled(s.t, id);
    }
  }

  lemma EndRecalls(cfg: Config, s: State, scan: nat, scanner: nat)
    requires RecallsNow(cfg, s.now, s)
    ensures Recalls(ScannerEnds(s.t, scan, scanner, s.now, cfg.negcache), s.now, cfg.negcache)
  {
    if scanner in Outstanding(s.t, scan) {
      var t1 := s.t.(opm := s.t.opm[scan := Outstanding(s.t, scan) - {scanner}]);
      UnfinishingRecalls(s.t, t1, s.now, cfg.negcache);
      if scan in t1.live {
        TestDoneRecalls(t1, scan, s.now, cfg.negcache);
      } else {
        UnfinishingRecalls(t1, t1.(dangling := true), s.now, cfg.negcache);
      }
    }
  }

  lemma OpenProxyRecalls(t: Tracker, scan: nat, scanner: nat, now: int, negcache: int)
    requires Recalls(t, now, negcache)
    ensures Recalls(OpenProxyFound(t, scan, scanner), now, negcache)
  {
    UnfinishingRecalls(t, OpenProxyFound(t, scan, scanner), now, negcache);
  }

  lemma ResolveRecalls(cfg: Config, s: State, e: Event)
    requires RecallsNow(cfg, s.now, s) && e.Resolve?
    ensures RecallsNow(cfg, s.now, ResolveStep(cfg, s, e))
  {
    var (q, fd) := GetIp(s.q, cfg.fdLimit, None, e.request, s.now);
    CollectRecalls(cfg, s.(q := q), fd, e.datagram);
  }

  lemma ReactRecalls(cfg: Config, s: State, e: Event)
    requires RecallsNow(cfg, s.now, s)
    ensures RecallsNow(cfg, s.now, React(cfg, s, e))
  {
    match e
    case Connect(ip, numeric, mask, _, sent, accepted) =>
      BeginRecalls(cfg, s, ip, false, numeric, sent, Matched(cfg, mask, accepted));
    case Manual(target, sent, accepted) => BeginRecalls(cfg, s, Some(target), true, true, sent, accepted);
    case Resolve(_, _) => ResolveRecalls(cfg, s, e);
    case Cycle(_, _, _, _) => CycleRecalls(cfg, s, e);
    case _ => CallbackRecalls(cfg, s, e);
  }

  lemma CallbackRecalls(cfg: Config, s: State, e: Event)
    requires RecallsNow(cfg, s.now, s) && (e.OpenProxy? || e.End? || e.Tick?)
    ensures RecallsNow(cfg, s.now, React(cfg, s, e))
  {
    match e
    case OpenProxy(scan, scanner) => OpenProxyRecalls(s.t, scan, scanner, s.now, cfg.negcache);
    case End(scan, scanner) => EndRecalls(cfg, s, scan, scanner);
    case Tick => TickRecalls(cfg, s);
  }

  lemma {:induction false} RunRecalls(cfg: Config, start: int, trace: Trace)
    ensures Recalls(Run(cfg, start, trace).t, Run(cfg, start, trace).now, cfg.negcache)
  {
    if trace != [] {
      var k := |trace| - 1;
      var before, e, at := trace[..k], trace[k].0, trace[k].1;
      assert trace == before + [(e, at)];
      RunRecalls(cfg, start, before);
      RunReacts(cfg, start, before, e, at);
      var s := Run(cfg, start, before);
      LaterRecalls(s.t, s.now, Before(cfg, start, before, at).now, cfg.negcache);
      ReactRecalls(cfg, Before(cfg, start, before, at), e);
    }
  }

  lemma LaterRecalls(t: Tracker, now: int, later: int, negcache: int)
    requires Recalls(t, now, negcache) && now <= later
    ensures Recalls(t, later, negcache)
  {
  }

  /**
   After any run, a client that connects less than negcache seconds after an automatic scan of its address
   finished clean is let go, whatever was entered and rebuilt between.
   */
  lemma {:induction false} CleanClientIsLetGo(cfg: Config, start: int, trace: Trace, e: Event, at: int, id: nat)
    requires e.Connect? && Clean(Run(cfg, start, trace).t, id) && Run(cfg, start, trace).t.started[id].ip == e.ip
    requires Before(cfg, start, trace, at).now - Run(cfg, start, trace).t.finished[id].at < cfg.negcache
    ensures Run(cfg, start, trace + [(e, at)]) == Before(cfg, start, trace, at)
  {
    var s := Before(cfg, start, trace, at);
    RunRecalls(cfg, start, trace);
    LaterRecalls(s.t, Run(cfg, start, trace).now, s.now, cfg.negcache);
    RunReacts(cfg, start, trace, e, at);
  }

  // ---- When the cache is rebuilt ----

  lemma CycleCounts(cfg: Config, s: State, e: Event)
    requires e.Cycle?
    ensures CycleStep(cfg, s, e).counter == s.counter
  {
    var (s1, ufds) := Sweep(cfg, s, 0, []);
    SweepInduct(cfg, s, 0, [], (s': State) => s'.counter == s.counter);
    var net := NetOf(e, ufds);
    ServeInduct(cfg, net, s1, 0, [], (s': State, i: nat) => s'.counter == s.counter);
  }

  lemma BeginCounts(cfg: Config, s: State, ip: Option<Address>, manual: bool, numeric: bool, sent: seq<Sent>,
                    matched: seq<bool>)
    ensures Begin(cfg, s, ip, manual, numeric, sent, matched).counter == s.counter
  {
    StartLookupsInduct(cfg, s.(t := Create(s.t, ip, manual)), s.t.nextScan, 0, sent,
                       (r: State, i: nat) => r.counter == s.counter);
  }

  lemma ReactCounts(cfg: Config, s: State, e: Event)
    requires !e.Tick?
    ensures React(cfg, s, e).counter == s.counter
  {
    match e
    case Connect(ip, numeric, mask, _, sent, accepted) =>
      BeginCounts(cfg, s, ip, false, numeric, sent, Matched(cfg, mask, accepted));
    case Manual(target, sent, accepted) => BeginCounts(cfg, s, Some(target), true, true, sent, accepted);
    case Cycle(_, _, _, _) => CycleCounts(cfg, s, e);
    case _ =>
  }

  /** How many ticks a run has. */
  ghost function Ticks(trace: Trace): nat {
    if trace == [] then 0 else Ticks(trace[..|trace| - 1]) + if trace[|trace| - 1].0.Tick? then 1 else 0
  }

  lemma NextTick(n: nat)
    ensures (n + 1) % 43201 == if n % 43201 < 43200 then n % 43201 + 1 else 0
  {
  }

  lemma {:induction false} TicksCounted(cfg: Config, start: int, trace: Trace)
    requires cfg.negcache > 0
    ensures Run(cfg, start, trace).counter == Ticks(trace) % 43201
  {
    if trace != [] {
      var k := |trace| - 1;
      var before, e, at := trace[..k], trace[k].0, trace[k].1;
      assert trace == before + [(e, at)];
      TicksCounted(cfg, start, before);
      RunReacts(cfg, start, before, e, at);
      NextTick(Ticks(before));
      if e.Tick? {
        TickCounts(cfg, Before(cfg, start, before, at));
      } else {
        ReactCounts(cfg, Before(cfg, start, before, at), e);
      }
    }
  }

  lemma TickCounts(cfg: Config, s: State)
    requires cfg.negcache > 0
    ensures React(cfg, s, Tick).counter == if s.counter < 43200 then s.counter + 1 else 0
  {
  }

  /** The cache has kept exactly what is younger than negcache, and forgotten when address 0 was seen. */
  ghost predicate Pruned(t: Tracker, t': Tracker, now: int, negcache: int) {
    && t'.zero == 0
    && (forall ip :: ip in t'.cache <==> ip in t.cache && now - t.cache[ip] < negcache)
    && forall ip | ip in t'.cache :: t'.cache[ip] == t.cache[ip]
  }

  /** In any run, a tick prunes the cache if it is one of every 43201, and leaves it alone if not. */
  lemma {:induction false} RebuiltOnTime(cfg: Config, start: int, trace: Trace, at: int)
    requires cfg.negcache > 0
    ensures var t, t' := Run(cfg, start, trace).t, Run(cfg, start, trace + [(Tick, at)]).t;
            if Ticks(trace + [(Tick, at)]) % 43201 == 0
            then Pruned(t, t', Before(cfg, start, trace, at).now, cfg.negcache) else t' == t
  {
    RunReacts(cfg, start, trace, Tick, at);
    TicksCounted(cfg, start, trace);
    OneMoreTick(trace, at);
    NextTick(Ticks(trace));
    TickPrunes(cfg, Before(cfg, start, trace, at));
  }

  lemma OneMoreTick(trace: Trace, at: int)
    ensures Ticks(trace + [(Tick, at)]) == Ticks(trace) + 1
  {
    assert (trace + [(Tick, at)])[..|trace|] == trace;
  }

  lemma TickPrunes(cfg: Config, s: State)
    requires cfg.negcache > 0
    ensures var t' := React(cfg, s, Tick).t;
            if s.counter >= 43200 then Pruned(s.t, t', s.now, cfg.negcache) else t' == s.t
  {
  }
}
