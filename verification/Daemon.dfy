/**
 The daemon as an event-driven state machine: clients connect, operators ask for checks, lookups
 are answered or time out, libopm calls back, the timer ticks. Each event runs to its end before
 the next; what sockets, poll, libopm and the clock do is input.
 */
module Daemon {
  import opened Options
  import opened Basics
  import opened DnsQueue
  import opened Lifecycle
  import DnsReply
  import Glob
  import Cache = NegCache

  datatype State = State(q: Queue, t: Tracker, now: int, counter: nat)

  datatype Event =
    | Connect(ip: Option<Address>, numeric: bool, mask: Glob.Text, ipmask: Glob.Text, sent: seq<Sent>,
              accepted: seq<bool>)
    | Manual(target: Address, sent: seq<Sent>, accepted: seq<bool>)
    | Resolve(request: Sent, datagram: Option<seq<Byte>>)
    | Cycle(count: int, ready: set<int>, received: map<int, seq<Byte>>, resent: map<nat, Sent>)
    | OpenProxy(scan: nat, scanner: nat)
    | End(scan: nat, scanner: nat)
    | Tick

  function Initial(now: int): State {
    State(EMPTY, IDLE, now, 0)
  }

  /** What every event boundary keeps. */
  ghost predicate Inv(cfg: Config, s: State) {
    Valid(s.q, cfg.fdLimit) && Refs(s.q.conns, s.t, None, None) && History(s.t, s.now)
  }

  // ---- Starting a scan ----

  function Pick(sent: seq<Sent>, i: nat): Sent {
    if i < |sent| then sent[i] else NotSent(ERR_NETWORK)
  }

  /** One pass of the loop in dnsbl_add: a lookup is counted if it was sent or queued. */
  function StartLookup(cfg: Config, s: State, id: nat, i: nat, sent: Sent): (r: State)
    requires id in s.t.live
    ensures id in r.t.live
  {
    var (q, fd) := GetIp(s.q, cfg.fdLimit, Some(Info(id, i)), sent, s.now);
    s.(q := q, t := if fd == -1 && q.error != ERR_FDLIMIT then s.t else AddTest(s.t, id))
  }

  /** dnsbl_add from blacklist i on. */
  function StartLookups(cfg: Config, s: State, id: nat, i: nat, sent: seq<Sent>): (r: State)
    requires id in s.t.live
    ensures id in r.t.live
    decreases |cfg.blacklists| - i
  {
    if i >= |cfg.blacklists| then s
    else StartLookups(cfg, StartLookup(cfg, s, id, i, Pick(sent, i)), id, i + 1, sent)
  }

  /** The loop over the scanners from scanner i on: each that has a matching mask and accepts is counted. */
  function StartScanners(cfg: Config, t: Tracker, id: nat, i: nat, matched: seq<bool>): (r: Tracker)
    requires id in t.live
    ensures id in r.live
    decreases |cfg.scanners| - i
  {
    if i >= |cfg.scanners| then t
    else StartScanners(cfg, if i < |matched| && matched[i] then ScannerAccepts(t, id, i) else t, id, i + 1, matched)
  }

  /** The common part of scan_connect and scan_manual. */
  function Begin(cfg: Config, s: State, ip: Option<Address>, manual: bool, numeric: bool,
                 sent: seq<Sent>, matched: seq<bool>): State
  {
    var id := s.t.nextScan;
    StartTests(cfg, s.(t := Create(s.t, ip, manual)), id, numeric, sent, matched)
  }

  function StartTests(cfg: Config, s: State, id: nat, numeric: bool, sent: seq<Sent>, matched: seq<bool>): State
    requires id in s.t.live
  {
    var s1 := if numeric then StartLookups(cfg, s, id, 0, sent) else s;
    var t2 := StartScanners(cfg, s1.t, id, 0, matched);
    s1.(t := Started(t2, id))
  }

  /** A scan without a test to wait for is dropped. */
  function Started(t: Tracker, id: nat): Tracker
    requires id in t.live
  {
    if t.live[id].scans == 0 then Free(t, id) else t
  }

  /** Whether the negative cache makes scan_connect skip this client. */
  predicate Skips(cfg: Config, s: State, ip: nat) {
    if ip == 0 then cfg.negcache > 0 && s.now - s.t.zero <= cfg.negcache
    else Cache.Hit(s.t.cache, ip, s.now, cfg.negcache)
  }

  function ConnectStep(cfg: Config, s: State, e: Event): State
    requires e.Connect?
  {
    if cfg.negcache > 0 && (e.ip.None? || Skips(cfg, s, e.ip.value)) then s
    else if IsExempt(cfg, e.mask, e.ipmask) then s
    else Begin(cfg, s, e.ip, false, e.numeric, e.sent, Matched(cfg, e.mask, e.accepted))
  }

  /** scan_checkexempt */
  predicate IsExempt(cfg: Config, mask: Glob.Text, ipmask: Glob.Text) {
    exists m | m in cfg.exempts :: Glob.Exempts(m, mask, ipmask)
  }

  /** A scanner takes a client if one of its masks matches and libopm accepts. */
  predicate MaskMatches(masks: seq<Glob.Text>, mask: Glob.Text) {
    exists m | m in masks :: Glob.Result(m, mask)
  }

  function Matched(cfg: Config, mask: Glob.Text, accepted: seq<bool>): seq<bool> {
    seq(|cfg.scanners|, i requires 0 <= i < |cfg.scanners| =>
      MaskMatches(cfg.scanners[i], mask) && i < |accepted| && accepted[i])
  }

  // ---- The cycle of the lookup queue ----

  /** Query i is over: off the list, and its result handled if somebody waits for it. */
  function ResultAt(cfg: Config, s: State, i: nat, error: int, code: bv8): State
    requires i < |s.q.conns|
  {
    var c := s.q.conns[i];
    s.(q := Settle(s.q, i, error),
       t := if c.info.Some? then LookupResult(cfg, s.t, c.info.value, error, code, s.now) else s.t)
  }

  predicate Expired(c: Query, now: int) {
    c.fd > 0 && c.start + FDNS_TIMEOUT < now
  }

  /** One step of the first pass: an expired query is over, any other open one goes in the poll array. */
  function SweepOne(cfg: Config, s: State, i: nat, ufds: seq<int>): (r: (State, nat, seq<int>))
    requires i < |s.q.conns|
    ensures r.1 <= |r.0.q.conns| && |r.0.q.conns| - r.1 < |s.q.conns| - i
  {
    var c := s.q.conns[i];
    if c.fd < 0 then (s, i + 1, ufds)
    else if Expired(c, s.now) then (ResultAt(cfg, s, i, ERR_TIMEOUT, 0), i, ufds)
    else (s, i + 1, ufds + [c.fd])
  }

  /** The first pass of firedns_cycle from entry i on. */
  function Sweep(cfg: Config, s: State, i: nat, ufds: seq<int>): (State, seq<int>)
    decreases |s.q.conns| - i
  {
    if i >= |s.q.conns| || |ufds| >= cfg.fdLimit then (s, ufds)
    else
      var (s1, i1, ufds1) := SweepOne(cfg, s, i, ufds);
      Sweep(cfg, s1, i1, ufds1)
  }

  /** What comes of recv: nothing received is a failure. */
  function Datagram(received: map<int, seq<Byte>>, fd: int): Option<seq<Byte>> {
    if fd in received then Some(received[fd]) else None
  }

  const QRY_A: nat := 1
  const CLASS_IN: nat := 1

  /** What a datagram, or a failed recv, is for the query it is read on. */
  function ReplyTo(cfg: Config, c: Query, datagram: Option<seq<Byte>>): Reply {
    DnsReply.Collected(DnsReply.Read(cfg.ids(c.uid).0, cfg.ids(c.uid).1, QRY_A, CLASS_IN, datagram))
  }

  function ReplyOn(cfg: Config, c: Query, received: map<int, seq<Byte>>): Reply {
    ReplyTo(cfg, c, Datagram(received, c.fd))
  }

  /** The first query with this descriptor, read. */
  function Collect(cfg: Config, s: State, fd: int, datagram: Option<seq<Byte>>): State {
    var j := Find(s.q.conns, fd);
    GetResult(cfg, s, fd, if j < |s.q.conns| then ReplyTo(cfg, s.q.conns[j], datagram) else Mismatch)
  }

  /** firedns_getresult: the state after, and whether the query is gone. */
  function GetResult(cfg: Config, s: State, fd: int, reply: Reply): State {
    var j := Find(s.q.conns, fd);
    var s1 := s.(q := s.q.(error := ERR_OTHER));
    if j == |s.q.conns| || reply.Mismatch? then s1
    else ResultAt(cfg, s1, j, reply.error, if reply.error == ERR_NONE then reply.code else 0)
  }

  /**
   One step of the second pass: an open query that is ready is read, a waiting one is sent if a
   descriptor is free. `answered` collects the queries a readiness flag was applied to.
   */
  function ServeOne(cfg: Config, s: State, i: nat, ready: set<int>, received: map<int, seq<Byte>>,
                    resent: map<nat, Sent>, answered: seq<Query>): (r: (State, nat, seq<Query>))
    requires i < |s.q.conns|
    ensures r.1 <= |r.0.q.conns| && |r.0.q.conns| - r.1 < |s.q.conns| - i
  {
    var c := s.q.conns[i];
    if c.fd > 0 then
      if c.fd in ready then
        var s1 := Collect(cfg, s, c.fd, Datagram(received, c.fd));
        (s1, if |s1.q.conns| < |s.q.conns| then i else i + 1, answered + [s.q.conns[Find(s.q.conns, c.fd)]])
      else (s, i + 1, answered)
    else if s.q.inuse < cfg.fdLimit then
      var sent := if c.uid in resent then resent[c.uid] else NotSent(ERR_NETWORK);
      (s.(q := Reopen(s.q, i, sent, s.now)), i + 1, answered)
    else (s, i + 1, answered)
  }

  /** The second pass of firedns_cycle from entry i on. */
  function Serve(cfg: Config, s: State, i: nat, ready: set<int>, received: map<int, seq<Byte>>, resent: map<nat, Sent>,
                 answered: seq<Query>): (State, seq<Query>)
    decreases |s.q.conns| - i
  {
    if i >= |s.q.conns| then (s, answered)
    else
      var (s1, i1, answered1) := ServeOne(cfg, s, i, ready, received, resent, answered);
      Serve(cfg, s1, i1, ready, received, resent, answered1)
  }

  /** firedns_cycle: sweep, poll, and serve unless poll counts nothing or fails; only POLLIN makes a query ready. */
  function CycleStep(cfg: Config, s: State, e: Event): State
    requires e.Cycle?
  {
    if s.q.conns == [] then s
    else
      var (s1, ufds) := Sweep(cfg, s, 0, []);
      var ready := set fd | fd in e.ready && fd in ufds;
      if e.count == -1 || e.count == 0 then s1 else Serve(cfg, s1, 0, ready, e.received, e.resent, []).0
  }

  // ---- All events ----

  /** One try of the blocking resolver: a query nobody else waits for, collected at once. */
  function ResolveStep(cfg: Config, s: State, e: Event): State
    requires e.Resolve?
  {
    var (q, fd) := GetIp(s.q, cfg.fdLimit, None, e.request, s.now);
    var s1 := s.(q := q);
    if fd == -1 then s1 else Collect(cfg, s1, fd, e.datagram)
  }

  /** scan_timer */
  function TickStep(cfg: Config, s: State): State {
    var (t, counter) := Ticked(cfg, s.t, s.counter, s.now);
    s.(t := t, counter := counter)
  }

  function Ticked(cfg: Config, t: Tracker, counter: nat, now: int): (Tracker, nat) {
    if cfg.negcache <= 0 then (t, counter)
    else if counter >= NEG_CACHE_REBUILD then
      (t.(cache := Cache.Rebuilt(t.cache, now, cfg.negcache), zero := 0), 0)
    else (t, counter + 1)
  }

  /** One event at one time; the clock does not go back. */
  function Step(cfg: Config, s: State, e: Event, at: int): State {
    React(cfg, s.(now := if at > s.now then at else s.now), e)
  }

  function React(cfg: Config, s: State, e: Event): State {
    match e
    case Connect(_, _, _, _, _, _) => ConnectStep(cfg, s, e)
    case Manual(target, sent, accepted) => Begin(cfg, s, Some(target), true, true, sent, accepted)
    case Resolve(_, _) => ResolveStep(cfg, s, e)
    case Cycle(_, _, _, _) => CycleStep(cfg, s, e)
    case OpenProxy(scan, scanner) => s.(t := OpenProxyFound(s.t, scan, scanner))
    case End(scan, scanner) => s.(t := ScannerEnds(s.t, scan, scanner, s.now, cfg.negcache))
    case Tick => TickStep(cfg, s)
  }

  type Trace = seq<(Event, int)>

  function Run(cfg: Config, start: int, trace: Trace): State {
    if trace == [] then Initial(start)
    else
      var last := trace[|trace| - 1];
      Step(cfg, Run(cfg, start, trace[..|trace| - 1]), last.0, last.1)
  }

  // ---- Starting a scan keeps the invariant ----

  /** While scan id is being started: everything holds but that something is owed to it. */
  ghost predicate Starting(cfg: Config, s: State, id: nat) {
    && Valid(s.q, cfg.fdLimit)
    && Refs(s.q.conns, s.t, None, Some(id))
    && History(s.t, s.now)
    && id in s.t.live && !s.t.live[id].positive
  }

  /** Up to blacklist i at most one test per blacklist is counted, and no proxy scan. */
  ghost predicate LookupsStarting(cfg: Config, s: State, id: nat, i: nat, now: int) {
    Starting(cfg, s, id) && s.now == now && s.t.live[id].scans <= i && Outstanding(s.t, id) == {}
  }

  lemma LookupsGoOn(cfg: Config, s: State, id: nat, i: nat, sent: Sent, now: int)
    requires ValidConfig(cfg) && LookupsStarting(cfg, s, id, i, now) && i < |cfg.blacklists|
    ensures LookupsStarting(cfg, StartLookup(cfg, s, id, i, sent), id, i + 1, now)
  {
    StartLookupKeeps(cfg, s, id, i, sent);
  }

  /** What every lookup keeps, all of them keep. */
  lemma {:induction false} StartLookupsInduct(cfg: Config, s: State, id: nat, i: nat, sent: seq<Sent>,
                                              kept: (State, nat) -> bool)
    requires id in s.t.live && i <= |cfg.blacklists| && kept(s, i)
    requires forall s, i: nat | kept(s, i) && i < |cfg.blacklists| && id in s.t.live ::
               kept(StartLookup(cfg, s, id, i, Pick(sent, i)), i + 1)
    ensures kept(StartLookups(cfg, s, id, i, sent), |cfg.blacklists|)
    decreases |cfg.blacklists| - i
  {
    if i < |cfg.blacklists| {
      StartLookupsInduct(cfg, StartLookup(cfg, s, id, i, Pick(sent, i)), id, i + 1, sent, kept);
    }
  }

  lemma StartLookupsKeeps(cfg: Config, s: State, id: nat, sent: seq<Sent>)
    requires ValidConfig(cfg) && LookupsStarting(cfg, s, id, 0, s.now)
    ensures LookupsStarting(cfg, StartLookups(cfg, s, id, 0, sent), id, |cfg.blacklists|, s.now)
  {
    var kept := (s': State, i: nat) => LookupsStarting(cfg, s', id, i, s.now);
    forall s', i: nat | kept(s', i) && i < |cfg.blacklists| && id in s'.t.live
      ensures kept(StartLookup(cfg, s', id, i, Pick(sent, i)), i + 1)
    {
      LookupsGoOn(cfg, s', id, i, Pick(sent, i), s.now);
    }
    StartLookupsInduct(cfg, s, id, 0, sent, kept);
  }

  lemma StartLookupKeeps(cfg: Config, s: State, id: nat, i: nat, sent: Sent)
    requires Starting(cfg, s, id) && s.t.live[id].scans < 65535
    ensures var r := StartLookup(cfg, s, id, i, sent);
            && Starting(cfg, r, id) && r.now == s.now
            && r.t.live[id].scans <= s.t.live[id].scans + 1 && Outstanding(r.t, id) == Outstanding(s.t, id)
  {
    var info := Some(Info(id, i));
    GetIpKeeps(s.q, cfg.fdLimit, info, sent, s.now);
    var (q, fd) := GetIp(s.q, cfg.fdLimit, info, sent, s.now);
    LookupStarts(cfg, s, id, q, !(fd == -1 && q.error != ERR_FDLIMIT));
  }

  lemma LookupStarts(cfg: Config, s: State, id: nat, q: Queue, counted: bool)
    requires Starting(cfg, s, id) && s.t.live[id].scans < 65535 && Valid(q, cfg.fdLimit)
    requires if counted then |q.conns| > 0 && q.conns == s.q.conns + [q.conns[|q.conns| - 1]] else q.conns == s.q.conns
    requires counted ==> var info := q.conns[|q.conns| - 1].info; info.Some? && info.value.scan == id
    ensures var r := s.(q := q, t := if counted then AddTest(s.t, id) else s.t);
            && Starting(cfg, r, id) && r.now == s.now
            && r.t.live[id].scans <= s.t.live[id].scans + 1 && Outstanding(r.t, id) == Outstanding(s.t, id)
  {
    if counted {
      LookupAdded(s.q.conns, s.t, id, q.conns[|q.conns| - 1]);
      AddTestHistory(s.t, s.now, id);
    }
  }

  /** Up to scanner i at most one test per blacklist and scanner is counted, and only those scanners owe an END. */
  ghost predicate ScannersStarting(cfg: Config, s: State, t: Tracker, id: nat, i: nat) {
    && Starting(cfg, s.(t := t), id)
    && t.live[id].scans <= |cfg.blacklists| + i
    && forall x | x in Outstanding(t, id) :: x < i
  }

  lemma ScannersGoOn(cfg: Config, s: State, t: Tracker, id: nat, i: nat)
    requires ValidConfig(cfg) && ScannersStarting(cfg, s, t, id, i) && i < |cfg.scanners|
    ensures ScannersStarting(cfg, s, t, id, i + 1)
    ensures ScannersStarting(cfg, s, ScannerAccepts(t, id, i), id, i + 1)
  {
    AcceptRefs(s.q.conns, t, id, i);
    AcceptHistory(t, s.now, id, i);
  }

  /** A scanner passed by or accepted keeps what is kept. */
  ghost predicate KeptOn(cfg: Config, id: nat, kept: (Tracker, nat) -> bool, t: Tracker, i: nat) {
    kept(t, i) && i < |cfg.scanners| && id in t.live ==> kept(t, i + 1) && kept(ScannerAccepts(t, id, i), i + 1)
  }

  /** What every scanner keeps, all of them keep. */
  lemma {:induction false} StartScannersInduct(cfg: Config, t: Tracker, id: nat, i: nat, matched: seq<bool>,
                                               kept: (Tracker, nat) -> bool)
    requires id in t.live && i <= |cfg.scanners| && kept(t, i)
    requires forall t, i: nat :: KeptOn(cfg, id, kept, t, i)
    ensures kept(StartScanners(cfg, t, id, i, matched), |cfg.scanners|)
    decreases |cfg.scanners| - i
  {
    if i < |cfg.scanners| {
      var t1 := if i < |matched| && matched[i] then ScannerAccepts(t, id, i) else t;
      assert KeptOn(cfg, id, kept, t, i);
      StartScannersInduct(cfg, t1, id, i + 1, matched, kept);
    }
  }

  lemma StartScannersKeeps(cfg: Config, s: State, id: nat, matched: seq<bool>)
    requires ValidConfig(cfg) && ScannersStarting(cfg, s, s.t, id, 0)
    ensures Starting(cfg, s.(t := StartScanners(cfg, s.t, id, 0, matched)), id)
  {
    var kept := (t: Tracker, i: nat) => ScannersStarting(cfg, s, t, id, i);
    AllScannersGoOn(cfg, s, id, kept);
    StartScannersInduct(cfg, s.t, id, 0, matched, kept);
  }

  lemma AllScannersGoOn(cfg: Config, s: State, id: nat, kept: (Tracker, nat) -> bool)
    requires ValidConfig(cfg) && forall t, i: nat :: kept(t, i) == ScannersStarting(cfg, s, t, id, i)
    ensures forall t, i: nat :: KeptOn(cfg, id, kept, t, i)
  {
    forall t, i: nat ensures KeptOn(cfg, id, kept, t, i) {
      if kept(t, i) && i < |cfg.scanners| && id in t.live { ScannersGoOn(cfg, s, t, id, i); }
    }
  }

  lemma CreateStarts(cfg: Config, s: State, ip: Option<Address>, manual: bool)
    requires Inv(cfg, s)
    ensures var s0 := s.(t := Create(s.t, ip, manual)); var id := s.t.nextScan;
            Starting(cfg, s0, id) && s0.t.live[id].scans == 0 && Outstanding(s0.t, id) == {}
  {
    CreateRefs(s.q.conns, s.t, ip, manual);
    NoLookups(s.q.conns, s.t, s.t.nextScan);
    CreateHistory(s.t, s.now, ip, manual);
  }

  /** A scan with tests to wait for is on its way; one without is dropped. */
  lemma StartedOrDropped(cfg: Config, s: State, id: nat)
    requires Starting(cfg, s, id)
    ensures Inv(cfg, s.(t := Started(s.t, id)))
  {
    if s.t.live[id].scans == 0 {
      FreeRefs(s.q.conns, s.t, id);
      AbortHistory(s.t, s.now, id);
    }
  }

  lemma BeginKeeps(cfg: Config, s: State, ip: Option<Address>, manual: bool, numeric: bool,
                   sent: seq<Sent>, matched: seq<bool>)
    requires ValidConfig(cfg) && Inv(cfg, s)
    ensures Inv(cfg, Begin(cfg, s, ip, manual, numeric, sent, matched))
  {
    var id := s.t.nextScan;
    var s0 := s.(t := Create(s.t, ip, manual));
    CreateStarts(cfg, s, ip, manual);
    var s1 := if numeric then StartLookups(cfg, s0, id, 0, sent) else s0;
    if numeric { StartLookupsKeeps(cfg, s0, id, sent); }
    StartScannersKeeps(cfg, s1, id, matched);
    StartedOrDropped(cfg, s1.(t := StartScanners(cfg, s1.t, id, 0, matched)), id);
  }

  lemma BeginGrows(cfg: Config, s: State, ip: Option<Address>, manual: bool, numeric: bool,
                   sent: seq<Sent>, matched: seq<bool>)
    requires ValidConfig(cfg) && Inv(cfg, s)
    ensures Grows(s.t, Begin(cfg, s, ip, manual, numeric, sent, matched).t)
  {
    var id := s.t.nextScan;
    var s0 := s.(t := Create(s.t, ip, manual));
    CreateGrows(s.t, s.now, ip, manual);
    var s1 := if numeric then StartLookups(cfg, s0, id, 0, sent) else s0;
    var t2 := StartScanners(cfg, s1.t, id, 0, matched);
    if numeric { LookupsGrow(cfg, s0, id, 0, sent); }
    ScannersGrow(cfg, s1.t, id, 0, matched);
    GrowsTrans(s.t, s0.t, s1.t);
    GrowsTrans(s.t, s1.t, t2);
  }

  lemma {:induction false} LookupsGrow(cfg: Config, s: State, id: nat, i: nat, sent: seq<Sent>)
    requires id in s.t.live
    ensures Grows(s.t, StartLookups(cfg, s, id, i, sent).t)
    decreases |cfg.blacklists| - i
  {
    if i < |cfg.blacklists| {
      var s1 := StartLookup(cfg, s, id, i, Pick(sent, i));
      LookupsGrow(cfg, s1, id, i + 1, sent);
      GrowsTrans(s.t, s1.t, StartLookups(cfg, s1, id, i + 1, sent).t);
    }
  }

  lemma {:induction false} ScannersGrow(cfg: Config, t: Tracker, id: nat, i: nat, matched: seq<bool>)
    requires id in t.live
    ensures Grows(t, StartScanners(cfg, t, id, i, matched))
    decreases |cfg.scanners| - i
  {
    if i < |cfg.scanners| {
      var t1 := if i < |matched| && matched[i] then ScannerAccepts(t, id, i) else t;
      ScannersGrow(cfg, t1, id, i + 1, matched);
      GrowsTrans(t, t1, StartScanners(cfg, t1, id, i + 1, matched));
    }
  }

  // ---- Handling a result keeps the invariant ----

  lemma ResultKeeps(cfg: Config, s: State, i: nat, error: int, code: bv8)
    requires Inv(cfg, s) && i < |s.q.conns| && s.q.conns[i].fd > 0
    ensures Inv(cfg, ResultAt(cfg, s, i, error, code))
    ensures ResultAt(cfg, s, i, error, code).q.conns == Without(s.q.conns, i)
    ensures Grows(s.t, ResultAt(cfg, s, i, error, code).t)
  {
    var c := s.q.conns[i];
    SettleKeeps(s.q, cfg.fdLimit, i, error);
    if c.info.Some? {
      LookupTaken(s.q.conns, s.t, i);
      LookupResultRefs(cfg, Without(s.q.conns, i), s.t, c.info.value, error, code, s.now);
      LookupResultHistory(cfg, s.t, s.now, c.info.value, error, code);
      LookupResultGrows(cfg, s.t, s.now, c.info.value, error, code);
    } else {
      PlainTaken(s.q.conns, s.t, i);
    }
  }

  lemma ErrorKeeps(cfg: Config, s: State, error: int)
    requires Inv(cfg, s)
    ensures Inv(cfg, s.(q := s.q.(error := error)))
  {
  }

  lemma GetResultKeeps(cfg: Config, s: State, fd: int, reply: Reply)
    requires Inv(cfg, s) && fd > 0
    ensures var s1 := GetResult(cfg, s, fd, reply); var j := Find(s.q.conns, fd);
            && Inv(cfg, s1)
            && s1.q.conns == (if j == |s.q.conns| || reply.Mismatch? then s.q.conns else Without(s.q.conns, j))
            && s1.now == s.now && Grows(s.t, s1.t)
  {
    ErrorKeeps(cfg, s, ERR_OTHER);
    var j := Find(s.q.conns, fd);
    if j < |s.q.conns| && reply.Answer? {
      ResultKeeps(cfg, s.(q := s.q.(error := ERR_OTHER)), j, reply.error,
                  if reply.error == ERR_NONE then reply.code else 0);
    }
  }

  // ---- The first pass ----

  /** So far: every open query before entry i is unexpired and in the poll array, which holds nothing else. */
  ghost predicate Swept(s: State, i: nat, ufds: seq<int>)
    requires i <= |s.q.conns|
  {
    && (forall j | 0 <= j < i && s.q.conns[j].fd > 0 :: s.q.conns[j].fd in ufds && !Expired(s.q.conns[j], s.now))
    && |ufds| == Open(s.q.conns[..i])
    && forall fd | fd in ufds :: exists j :: 0 <= j < i && s.q.conns[j].fd == fd && fd > 0
  }

  lemma ExpiredKeeps(cfg: Config, s: State, i: nat, ufds: seq<int>)
    requires Inv(cfg, s) && i < |s.q.conns| && s.q.conns[i].fd > 0 && Swept(s, i, ufds)
    ensures var s1 := ResultAt(cfg, s, i, ERR_TIMEOUT, 0);
            Inv(cfg, s1) && s1.now == s.now && Grows(s.t, s1.t) && Swept(s1, i, ufds)
  {
    ResultKeeps(cfg, s, i, ERR_TIMEOUT, 0);
    SweptSame(s, ResultAt(cfg, s, i, ERR_TIMEOUT, 0), i, ufds);
  }

  lemma SweepOneKeeps(cfg: Config, s: State, i: nat, ufds: seq<int>)
    requires Inv(cfg, s) && i < |s.q.conns| && Swept(s, i, ufds)
    ensures var (s1, i1, ufds1) := SweepOne(cfg, s, i, ufds);
            Inv(cfg, s1) && s1.now == s.now && Grows(s.t, s1.t) && Swept(s1, i1, ufds1)
  {
    var c := s.q.conns[i];
    if c.fd < 0 || !Expired(c, s.now) {
      SweptOn(s, i, ufds, if c.fd > 0 then ufds + [c.fd] else ufds);
    } else {
      ExpiredKeeps(cfg, s, i, ufds);
    }
  }

  /** After the first pass every query in flight is unexpired and polled, and the poll array is not overrun. */
  lemma {:induction false} SweepKeeps(cfg: Config, s: State, i: nat, ufds: seq<int>)
    requires Inv(cfg, s) && i <= |s.q.conns| && Swept(s, i, ufds)
    ensures var (s', ufds') := Sweep(cfg, s, i, ufds);
            && Inv(cfg, s') && s'.now == s.now && Grows(s.t, s'.t)
            && Swept(s', |s'.q.conns|, ufds')
            && |ufds'| <= cfg.fdLimit
    decreases |s.q.conns| - i
  {
    if i == |s.q.conns| || |ufds| >= cfg.fdLimit {
      SweepStops(cfg, s, i, ufds);
    } else {
      SweepOneKeeps(cfg, s, i, ufds);
      var (s1, i1, ufds1) := SweepOne(cfg, s, i, ufds);
      SweepKeeps(cfg, s1, i1, ufds1);
      GrowsTrans(s.t, s1.t, Sweep(cfg, s1, i1, ufds1).0.t);
    }
  }

  /** The pass may stop at the end of the list or with a full poll array. */
  lemma SweepStops(cfg: Config, s: State, i: nat, ufds: seq<int>)
    requires Valid(s.q, cfg.fdLimit) && i <= |s.q.conns| && Swept(s, i, ufds)
    requires i == |s.q.conns| || |ufds| >= cfg.fdLimit
    ensures Swept(s, |s.q.conns|, ufds) && |ufds| <= cfg.fdLimit
  {
    if i == |s.q.conns| {
      assert s.q.conns[..i] == s.q.conns;
    } else {
      OpenPrefix(s.q.conns, i);
      SweptFull(s, i, ufds);
    }
  }

  /** A full poll array already holds every open query. */
  lemma SweptFull(s: State, i: nat, ufds: seq<int>)
    requires i <= |s.q.conns| && Swept(s, i, ufds) && |ufds| >= Open(s.q.conns)
    ensures Swept(s, |s.q.conns|, ufds)
  {
    var c := s.q.conns;
    OpenPrefix(c, i);
    forall j | i <= j < |c| ensures c[j].fd <= 0 { NoneOpenBeyond(c, i, j); }
    assert c[..|c|] == c;
    forall fd | fd in ufds ensures exists j :: 0 <= j < |c| && c[j].fd == fd && fd > 0 {
      var j :| 0 <= j < i && c[j].fd == fd && fd > 0;
    }
  }

  lemma OpenPrefix(c: seq<Query>, i: nat)
    requires i <= |c|
    ensures Open(c[..i]) <= Open(c)
  {
    assert c == c[..i] + c[i..];
    OpenConcat(c[..i], c[i..]);
  }

  lemma OpenStep(c: seq<Query>, i: nat)
    requires i < |c|
    ensures Open(c[..i + 1]) == Open(c[..i]) + One(c[i].fd > 0)
  {
    assert c[..i + 1] == c[..i] + [c[i]];
    OpenAppend(c[..i], c[i]);
  }

  lemma SweptOn(s: State, i: nat, ufds: seq<int>, ufds': seq<int>)
    requires i < |s.q.conns| && Swept(s, i, ufds) && !Expired(s.q.conns[i], s.now)
    requires s.q.conns[i].fd != 0
    requires ufds' == if s.q.conns[i].fd > 0 then ufds + [s.q.conns[i].fd] else ufds
    ensures Swept(s, i + 1, ufds')
  {
    OpenStep(s.q.conns, i);
    forall fd | fd in ufds' ensures exists j :: 0 <= j < i + 1 && s.q.conns[j].fd == fd && fd > 0 {
      if fd in ufds {
        var j :| 0 <= j < i && s.q.conns[j].fd == fd && fd > 0;
        assert 0 <= j < i + 1;
      } else {
        assert s.q.conns[i].fd == fd;
      }
    }
  }

  lemma SweptSame(s: State, s1: State, i: nat, ufds: seq<int>)
    requires i <= |s.q.conns| && i <= |s1.q.conns| && s1.q.conns[..i] == s.q.conns[..i] && s1.now == s.now
    requires Swept(s, i, ufds)
    ensures Swept(s1, i, ufds)
  {
    assert forall j | 0 <= j < i :: s1.q.conns[j] == s1.q.conns[..i][j] == s.q.conns[..i][j] == s.q.conns[j];
    forall fd | fd in ufds ensures exists j :: 0 <= j < i && s1.q.conns[j].fd == fd && fd > 0 {
      var j :| 0 <= j < i && s.q.conns[j].fd == fd && fd > 0;
      assert s1.q.conns[j].fd == fd;
    }
  }

  /** The first pass only takes queries off the list. */
  lemma {:induction false} SweepApart(cfg: Config, s: State, i: nat, ufds: seq<int>)
    requires FdsApart(s.q.conns)
    ensures FdsApart(Sweep(cfg, s, i, ufds).0.q.conns)
    decreases |s.q.conns| - i
  {
    if i < |s.q.conns| && |ufds| < cfg.fdLimit {
      var (s1, i1, ufds1) := SweepOne(cfg, s, i, ufds);
      WithoutApart(s.q.conns, i);
      SweepApart(cfg, s1, i1, ufds1);
    }
  }

  // ---- The second pass ----

  lemma FindsItself(c: seq<Query>, i: nat)
    requires FdsApart(c) && i < |c| && c[i].fd > 0
    ensures Find(c, c[i].fd) == i
  {
  }

  /** What is still to be visited is exactly what was listed at the poll, and so is what was answered. */
  ghost predicate Served(s: State, i: nat, ready: set<int>, answered: seq<Query>, polled: seq<Query>, k: nat) {
    && i <= |s.q.conns| && k <= |polled| && s.q.conns[i..] == polled[k..]
    && forall a | a in answered :: a in polled && a.fd in ready
  }

  lemma NextIsUp(c: seq<Query>, i: nat)
    requires i < |c|
    ensures Without(c, i)[i..] == c[i + 1..]
  {
  }

  lemma ReadyKeeps(cfg: Config, s: State, i: nat, datagram: Option<seq<Byte>>)
    requires Inv(cfg, s) && i < |s.q.conns| && s.q.conns[i].fd > 0
    ensures var fd := s.q.conns[i].fd; var s1 := Collect(cfg, s, fd, datagram);
            && Find(s.q.conns, fd) == i
            && Inv(cfg, s1) && s1.now == s.now && Grows(s.t, s1.t)
            && (s1.q.conns == s.q.conns || s1.q.conns == Without(s.q.conns, i))
  {
    FindsItself(s.q.conns, i);
    GetResultKeeps(cfg, s, s.q.conns[i].fd, ReplyTo(cfg, s.q.conns[i], datagram));
  }

  lemma SendKeeps(cfg: Config, s: State, i: nat, sent: Sent)
    requires Inv(cfg, s) && i < |s.q.conns| && s.q.conns[i].fd <= 0 && s.q.inuse < cfg.fdLimit
    ensures var s1 := s.(q := Reopen(s.q, i, sent, s.now));
            Inv(cfg, s1) && s1.q.conns[i + 1..] == s.q.conns[i + 1..]
  {
    var s1 := s.(q := Reopen(s.q, i, sent, s.now));
    ReopenKeeps(s.q, cfg.fdLimit, i, sent, s.now);
    ReopenRefs(s.q.conns, s1.q.conns, s.t);
  }

  /** One step of the second pass keeps descriptors apart, so that it is about its own query. */
  lemma ServeOneApart(cfg: Config, s: State, i: nat, ready: set<int>, received: map<int, seq<Byte>>,
                      resent: map<nat, Sent>, answered: seq<Query>)
    requires FdsApart(s.q.conns) && i < |s.q.conns|
    ensures FdsApart(ServeOne(cfg, s, i, ready, received, resent, answered).0.q.conns)
    ensures s.q.conns[i].fd > 0 ==> Find(s.q.conns, s.q.conns[i].fd) == i
  {
    var c := s.q.conns[i];
    if c.fd > 0 {
      FindsItself(s.q.conns, i);
      WithoutApart(s.q.conns, i);
    } else {
      ReopenApart(s.q, i, if c.uid in resent then resent[c.uid] else NotSent(ERR_NETWORK), s.now);
    }
  }

  lemma WithoutApart(c: seq<Query>, i: nat)
    requires FdsApart(c) && i < |c|
    ensures FdsApart(Without(c, i))
  {
    var w := Without(c, i);
    assert forall j | 0 <= j < |w| :: w[j] == c[if j < i then j else j + 1];
  }

  lemma ReopenApart(q: Queue, i: nat, sent: Sent, now: int)
    requires FdsApart(q.conns) && i < |q.conns|
    ensures FdsApart(Reopen(q, i, sent, now).conns)
  {
  }

  lemma AheadMoves(conns: seq<Query>, i: nat, polled: seq<Query>, k: nat)
    requires i < |conns| && k <= |polled| && conns[i..] == polled[k..]
    ensures k < |polled| && conns[i] == polled[k] && conns[i + 1..] == polled[k + 1..]
  {
    assert conns[i] == conns[i..][0];
    assert conns[i + 1..] == conns[i..][1..];
  }

  lemma ServeOneKeeps(cfg: Config, s: State, i: nat, ready: set<int>, received: map<int, seq<Byte>>,
                      resent: map<nat, Sent>, answered: seq<Query>, polled: seq<Query>, k: nat)
    requires Inv(cfg, s) && i < |s.q.conns| && Served(s, i, ready, answered, polled, k)
    ensures var (s1, i1, answered1) := ServeOne(cfg, s, i, ready, received, resent, answered);
            && Inv(cfg, s1) && s1.now == s.now && Grows(s.t, s1.t)
            && Served(s1, i1, ready, answered1, polled, k + 1)
  {
    var c := s.q.conns[i];
    AheadMoves(s.q.conns, i, polled, k);
    if c.fd > 0 && c.fd in ready {
      ReadyKeeps(cfg, s, i, Datagram(received, c.fd));
      NextIsUp(s.q.conns, i);
    } else if c.fd <= 0 && s.q.inuse < cfg.fdLimit {
      SendKeeps(cfg, s, i, if c.uid in resent then resent[c.uid] else NotSent(ERR_NETWORK));
    }
  }

  /**
   The second pass keeps the invariant and only applies a readiness flag to queries that were open,
   with that descriptor, when poll was called: what is still to be visited is exactly what was
   listed then (polled[k..]), however descriptors were closed and reused meanwhile.
   */
  lemma {:induction false} ServeKeeps(cfg: Config, s: State, i: nat, ready: set<int>, received: map<int, seq<Byte>>,
                                      resent: map<nat, Sent>, answered: seq<Query>, polled: seq<Query>, k: nat)
    requires Inv(cfg, s) && Served(s, i, ready, answered, polled, k)
    ensures var (s', answered') := Serve(cfg, s, i, ready, received, resent, answered);
            && Inv(cfg, s') && s'.now == s.now && Grows(s.t, s'.t)
            && forall a | a in answered' :: a in polled && a.fd in ready
    decreases |s.q.conns| - i
  {
    if i < |s.q.conns| {
      ServeOneKeeps(cfg, s, i, ready, received, resent, answered, polled, k);
      var (s1, i1, answered1) := ServeOne(cfg, s, i, ready, received, resent, answered);
      ServeKeeps(cfg, s1, i1, ready, received, resent, answered1, polled, k + 1);
      GrowsTrans(s.t, s1.t, Serve(cfg, s1, i1, ready, received, resent, answered1).0.t);
    }
  }

  /** Whom the queries are for does not depend on their descriptors. */
  lemma ReopenRefs(c: seq<Query>, c': seq<Query>, t: Tracker)
    requires Refs(c, t, None, None) && |c| == |c'| && forall i | 0 <= i < |c| :: c[i].info == c'[i].info
    ensures Refs(c', t, None, None)
  {
    forall id | id in t.live ensures Lookups(c', id) == Lookups(c, id) { SameLookups(c, c', id); }
  }

  lemma {:induction false} SameLookups(c: seq<Query>, c': seq<Query>, id: nat)
    requires |c| == |c'| && forall i | 0 <= i < |c| :: c[i].info == c'[i].info
    ensures Lookups(c, id) == Lookups(c', id)
  {
    if c != [] {
      assert forall i | 0 <= i < |c[1..]| :: c[1..][i] == c[i + 1] && c'[1..][i] == c'[i + 1];
      SameLookups(c[1..], c'[1..], id);
    }
  }

  // ---- Every event keeps the invariant ----

  lemma CycleKeeps(cfg: Config, s: State, e: Event)
    requires Inv(cfg, s) && e.Cycle?
    ensures Inv(cfg, CycleStep(cfg, s, e))
    ensures Grows(s.t, CycleStep(cfg, s, e).t)
  {
    if s.q.conns != [] {
      assert s.q.conns[..0] == [];
      SweepKeeps(cfg, s, 0, []);
      var (s1, ufds) := Sweep(cfg, s, 0, []);
      if e.count != -1 && e.count != 0 {
        AllServedKeep(cfg, s.t, s1, (set fd | fd in e.ready && fd in ufds), e.received, e.resent);
      }
    }
  }

  lemma AllServedKeep(cfg: Config, t: Tracker, s: State, ready: set<int>, received: map<int, seq<Byte>>,
                      resent: map<nat, Sent>)
    requires Inv(cfg, s) && Grows(t, s.t)
    ensures var s' := Serve(cfg, s, 0, ready, received, resent, []).0; Inv(cfg, s') && Grows(t, s'.t)
  {
    ServeKeeps(cfg, s, 0, ready, received, resent, [], s.q.conns, 0);
    GrowsTrans(t, s.t, Serve(cfg, s, 0, ready, received, resent, []).0.t);
  }

  lemma ResolveKeeps(cfg: Config, s: State, e: Event)
    requires Inv(cfg, s) && e.Resolve?
    ensures Inv(cfg, ResolveStep(cfg, s, e))
    ensures Grows(s.t, ResolveStep(cfg, s, e).t)
  {
    var (q, fd) := GetIp(s.q, cfg.fdLimit, None, e.request, s.now);
    RequestKeeps(cfg, s, e.request);
    if fd != -1 { CollectKeeps(cfg, s.(q := q), fd, e.datagram); }
  }

  lemma RequestKeeps(cfg: Config, s: State, request: Sent)
    requires Inv(cfg, s)
    ensures var (q, fd) := GetIp(s.q, cfg.fdLimit, None, request, s.now);
            Inv(cfg, s.(q := q)) && (fd != -1 ==> fd > 0)
  {
    var (q, fd) := GetIp(s.q, cfg.fdLimit, None, request, s.now);
    GetIpKeeps(s.q, cfg.fdLimit, None, request, s.now);
    if fd != -1 { PlainAdded(s.q.conns, s.t, q.conns[|q.conns| - 1]); }
  }

  lemma CollectKeeps(cfg: Config, s: State, fd: int, datagram: Option<seq<Byte>>)
    requires Inv(cfg, s) && fd > 0
    ensures var s1 := Collect(cfg, s, fd, datagram); Inv(cfg, s1) && s1.now == s.now && Grows(s.t, s1.t)
  {
    var j := Find(s.q.conns, fd);
    GetResultKeeps(cfg, s, fd, if j < |s.q.conns| then ReplyTo(cfg, s.q.conns[j], datagram) else Mismatch);
  }

  lemma PlainAdded(c: seq<Query>, t: Tracker, q: Query)
    requires Refs(c, t, None, None) && q.info.None?
    ensures Refs(c + [q], t, None, None)
  {
    forall id | id in t.live ensures Lookups(c + [q], id) == Lookups(c, id) {
      LookupsConcat(c, [q], id);
      assert [q][1..] == [];
    }
  }

  lemma TickKeeps(cfg: Config, s: State)
    requires Inv(cfg, s)
    ensures Inv(cfg, TickStep(cfg, s))
  {
    var t' := s.t.(cache := Cache.Rebuilt(s.t.cache, s.now, cfg.negcache), zero := 0);
    SameRefs(s.q.conns, s.t, t');
    RebuiltHistory(s.t, s.now, t');
  }

  lemma RebuiltHistory(t: Tracker, now: int, t': Tracker)
    requires History(t, now) && t' == t.(cache := t'.cache, zero := t'.zero)
    requires forall ip | ip in t'.cache :: ip in t.cache && t'.cache[ip] == t.cache[ip]
    ensures History(t', now)
  {
    forall ip | ip in t'.cache ensures CachedFrom(t', ip) {
      assert CachedFrom(t, ip);
    }
  }

  lemma LaterKeeps(cfg: Config, s: State, at: int)
    requires Inv(cfg, s) && at >= s.now
    ensures Inv(cfg, s.(now := at))
  {
  }

  lemma {:induction false} StepKeeps(cfg: Config, s0: State, e: Event, at: int)
    requires ValidConfig(cfg) && Inv(cfg, s0)
    ensures Inv(cfg, Step(cfg, s0, e, at))
  {
    var s := s0.(now := if at > s0.now then at else s0.now);
    LaterKeeps(cfg, s0, s.now);
    match e
    case Connect(ip, numeric, mask, _, sent, accepted) =>
      BeginKeeps(cfg, s, ip, false, numeric, sent, Matched(cfg, mask, accepted));
    case Manual(target, sent, accepted) => BeginKeeps(cfg, s, Some(target), true, true, sent, accepted);
    case Resolve(_, _) => ResolveKeeps(cfg, s, e);
    case Cycle(_, _, _, _) => CycleKeeps(cfg, s, e);
    case OpenProxy(scan, scanner) =>
      OpenProxyRefs(s.q.conns, s.t, scan, scanner);
      OpenProxyHistory(s.t, s.now, scan, scanner);
    case End(scan, scanner) =>
      ScannerEndsRefs(s.q.conns, s.t, scan, scanner, s.now, cfg.negcache);
      ScannerEndsHistory(s.t, s.now, scan, scanner, cfg.negcache);
    case Tick => TickKeeps(cfg, s);
  }

  lemma ConnectGrows(cfg: Config, s: State, e: Event)
    requires ValidConfig(cfg) && Inv(cfg, s) && e.Connect?
    ensures Grows(s.t, ConnectStep(cfg, s, e).t)
  {
    BeginGrows(cfg, s, e.ip, false, e.numeric, e.sent, Matched(cfg, e.mask, e.accepted));
  }

  lemma StepGrows(cfg: Config, s0: State, e: Event, at: int)
    requires ValidConfig(cfg) && Inv(cfg, s0)
    ensures Grows(s0.t, Step(cfg, s0, e, at).t)
  {
    var s := s0.(now := if at > s0.now then at else s0.now);
    LaterKeeps(cfg, s0, s.now);
    ReactGrows(cfg, s, e);
  }

  lemma ReactGrows(cfg: Config, s: State, e: Event)
    requires ValidConfig(cfg) && Inv(cfg, s)
    ensures Grows(s.t, React(cfg, s, e).t)
  {
    match e
    case Connect(_, _, _, _, _, _) => ConnectGrows(cfg, s, e);
    case Manual(target, sent, accepted) => BeginGrows(cfg, s, Some(target), true, true, sent, accepted);
    case Resolve(_, _) => ResolveKeeps(cfg, s, e);
    case Cycle(_, _, _, _) => CycleKeeps(cfg, s, e);
    case _ => CallbackGrows(cfg, s, e);
  }

  lemma CallbackGrows(cfg: Config, s: State, e: Event)
    requires Inv(cfg, s) && (e.OpenProxy? || e.End? || e.Tick?)
    ensures Grows(s.t, React(cfg, s, e).t)
  {
    match e
    case OpenProxy(scan, scanner) => OpenProxyGrows(s.t, scan, scanner);
    case End(scan, scanner) => ScannerEndsGrows(s.t, s.now, scan, scanner, cfg.negcache);
    case Tick => TickGrows(cfg, s);
  }

  lemma TickGrows(cfg: Config, s: State)
    ensures Grows(s.t, TickStep(cfg, s).t)
  {
  }

  /** The invariant holds after every run. */
  lemma {:induction false} RunKeeps(cfg: Config, start: int, trace: Trace)
    requires ValidConfig(cfg)
    ensures Inv(cfg, Run(cfg, start, trace))
  {
    if trace != [] {
      var last := trace[|trace| - 1];
      RunKeeps(cfg, start, trace[..|trace| - 1]);
      StepKeeps(cfg, Run(cfg, start, trace[..|trace| - 1]), last.0, last.1);
    }
  }

  // ---- What every run guarantees ----

  /** A run only adds to the history of the runs it extends. */
  lemma {:induction false} HistoryNeverRewritten(cfg: Config, start: int, trace: Trace, n: nat)
    requires ValidConfig(cfg) && n <= |trace|
    ensures Grows(Run(cfg, start, trace[..n]).t, Run(cfg, start, trace).t)
  {
    if n == |trace| {
      assert trace[..n] == trace;
    } else {
      var before := trace[..|trace| - 1];
      var last := trace[|trace| - 1];
      HistoryNeverRewritten(cfg, start, before, n);
      assert before[..n] == trace[..n];
      RunKeeps(cfg, start, before);
      StepGrows(cfg, Run(cfg, start, before), last.0, last.1);
    }
  }

  /**
   The counter of a scan is exactly the lookups and proxy scans still to come back for it; a scan
   is alive exactly while there are any; and no callback ever finds its scan freed.
   */
  lemma {:induction false} ScanCounterExact(cfg: Config, start: int, trace: Trace, id: nat)
    requires ValidConfig(cfg)
    ensures var s := Run(cfg, start, trace);
            && (id in s.t.live <==> Owed(s.q.conns, s.t, id) > 0)
            && (id in s.t.live ==> s.t.live[id].scans == Owed(s.q.conns, s.t, id))
            && !s.t.dangling
  {
    RunKeeps(cfg, start, trace);
    var s := Run(cfg, start, trace);
    if id !in s.t.live { NoLookups(s.q.conns, s.t, id); }
  }

  /** One kline per scan at most, none for a manual scan, and a scan that sent one is never cached. */
  lemma {:induction false} KlinesAndCaching(cfg: Config, start: int, trace: Trace, id: nat)
    requires ValidConfig(cfg)
    ensures var t := Run(cfg, start, trace).t;
            && t.klines[id] <= 1
            && (id in t.started && t.started[id].manual ==> t.klines[id] == 0 && id !in t.cachedBy)
            && (id in t.cachedBy ==> t.klines[id] == 0 && id in t.finished && !t.finished[id].positive)
            && (id in t.finished ==> (t.finished[id].positive <==> t.klines[id] == 1))
  {
    RunKeeps(cfg, start, trace);
  }

  /** A scan that had sent a kline at any point of a run is not cached by its end. */
  lemma {:induction false} PositiveNeverCached(cfg: Config, start: int, trace: Trace, n: nat, id: nat)
    requires ValidConfig(cfg) && n <= |trace| && Run(cfg, start, trace[..n]).t.klines[id] > 0
    ensures id !in Run(cfg, start, trace).t.cachedBy
  {
    HistoryNeverRewritten(cfg, start, trace, n);
    KlinesAndCaching(cfg, start, trace, id);
  }

  /** An automatic scan of ip finished clean at most negcache seconds before at. */
  ghost predicate CleanScanWithin(t: Tracker, id: nat, ip: nat, at: int, negcache: int) {
    && id in t.finished && id in t.started
    && t.started[id].ip == Some(ip) && !t.started[id].manual
    && !t.finished[id].positive && t.klines[id] == 0
    && at - negcache <= t.finished[id].at <= at
  }

  /** A client is only ever skipped because an automatic scan of its address recently found it clean. */
  lemma {:induction false} SkipIsJustified(cfg: Config, start: int, trace: Trace, ip: nat, at: int)
    requires ValidConfig(cfg) && ip != 0
    requires at >= Run(cfg, start, trace).now
    requires Skips(cfg, Run(cfg, start, trace).(now := at), ip)
    ensures exists id :: CleanScanWithin(Run(cfg, start, trace).t, id, ip, at, cfg.negcache)
  {
    RunKeeps(cfg, start, trace);
    var t := Run(cfg, start, trace).t;
    assert CachedFrom(t, ip);
    assert CleanScanWithin(t, t.cacher[ip], ip, at, cfg.negcache);
  }

  /** The descriptor count is the number of open queries and stays within the limit. */
  lemma {:induction false} DescriptorsCounted(cfg: Config, start: int, trace: Trace)
    requires ValidConfig(cfg)
    ensures var q := Run(cfg, start, trace).q; q.inuse == Open(q.conns) && q.inuse <= cfg.fdLimit
  {
    RunKeeps(cfg, start, trace);
  }

  /** After any run, the first pass of a cycle polls every query in flight, none of them expired, and fits the array. */
  lemma {:induction false} SweepPollsAllInFlight(cfg: Config, start: int, trace: Trace, at: int)
    requires ValidConfig(cfg) && at >= Run(cfg, start, trace).now
    ensures var (s, ufds) := Sweep(cfg, Run(cfg, start, trace).(now := at), 0, []);
            && (forall j | 0 <= j < |s.q.conns| && s.q.conns[j].fd > 0 ::
                  s.q.conns[j].fd in ufds && at <= s.q.conns[j].start + FDNS_TIMEOUT)
            && |ufds| == s.q.inuse
            && |ufds| <= cfg.fdLimit
  {
    var s0 := Run(cfg, start, trace);
    RunKeeps(cfg, start, trace);
    LaterKeeps(cfg, s0, at);
    assert s0.q.conns[..0] == [];
    SweepKeeps(cfg, s0.(now := at), 0, []);
    var (s, ufds) := Sweep(cfg, s0.(now := at), 0, []);
    assert s.q.conns[..|s.q.conns|] == s.q.conns;
  }

  /** Every accepted lookup is delivered once, or still listed and not delivered; nothing else is delivered. */
  lemma {:induction false} LookupsConserved(cfg: Config, start: int, trace: Trace, uid: nat)
    requires ValidConfig(cfg)
    ensures var q := Run(cfg, start, trace).q;
            q.delivered[uid] == (if uid in q.accepted && !Waiting(q.conns, uid) then 1 else 0)
  {
    RunKeeps(cfg, start, trace);
  }

  /** In a cycle after any run, a readiness flag only goes to a query that was open on that descriptor at the poll. */
  lemma {:induction false} ReadinessNotReused(cfg: Config, start: int, trace: Trace, at: int, ready: set<int>,
                                              received: map<int, seq<Byte>>, resent: map<nat, Sent>)
    requires ValidConfig(cfg) && at >= Run(cfg, start, trace).now
    ensures var (s, ufds) := Sweep(cfg, Run(cfg, start, trace).(now := at), 0, []);
            var reported := set fd | fd in ready && fd in ufds;
            var answered := Serve(cfg, s, 0, reported, received, resent, []).1;
            forall a | a in answered :: a in s.q.conns && a.fd in ufds && a.fd in ready
  {
    var s0 := Run(cfg, start, trace);
    RunKeeps(cfg, start, trace);
    LaterKeeps(cfg, s0, at);
    assert s0.q.conns[..0] == [];
    SweepKeeps(cfg, s0.(now := at), 0, []);
    var (s, ufds) := Sweep(cfg, s0.(now := at), 0, []);
    ServeKeeps(cfg, s, 0, (set fd | fd in ready && fd in ufds), received, resent, [], s.q.conns, 0);
  }
}
