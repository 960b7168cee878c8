/**
 When a query counts as sent, and what becomes of it: it is polled for five seconds, unless it is answered
 before, and it is over with the first cycle after that.
 */
module Sending {
  import opened Options
  import opened Basics
  import opened DnsQueue
  import opened Lifecycle
  import opened Daemon

  // ---- Induction over the passes of a cycle ----

  ghost predicate TimeoutKeeps(cfg: Config, kept: State -> bool, s: State, i: nat) {
    i < |s.q.conns| && kept(s) && Expired(s.q.conns[i], s.now) ==> kept(ResultAt(cfg, s, i, ERR_TIMEOUT, 0))
  }

  /** What every timeout keeps, the first pass keeps. */
  lemma {:induction false} SweepInduct(cfg: Config, s: State, i: nat, ufds: seq<int>, kept: State -> bool)
    requires kept(s) && forall s, i: nat :: TimeoutKeeps(cfg, kept, s, i)
    ensures kept(Sweep(cfg, s, i, ufds).0)
    decreases |s.q.conns| - i
  {
    if i < |s.q.conns| && |ufds| < cfg.fdLimit {
      var (s1, i1, ufds1) := SweepOne(cfg, s, i, ufds);
      assert TimeoutKeeps(cfg, kept, s, i);
      SweepInduct(cfg, s1, i1, ufds1, kept);
    }
  }

  /** What poll and the sockets answer in a cycle. */
  datatype Net = Net(ready: set<int>, received: map<int, seq<Byte>>, resent: map<nat, Sent>)

  ghost predicate EntryKeeps(cfg: Config, net: Net, kept: (State, nat) -> bool, s: State, i: nat) {
    i < |s.q.conns| && kept(s, i) ==>
      var r := ServeOne(cfg, s, i, net.ready, net.received, net.resent, []);
      kept(r.0, r.1)
  }

  /** What every entry keeps, the second pass keeps. */
  lemma {:induction false} ServeInduct(cfg: Config, net: Net, s: State, i: nat, answered: seq<Query>,
                                       kept: (State, nat) -> bool)
    requires i <= |s.q.conns| && kept(s, i) && forall s, i: nat :: EntryKeeps(cfg, net, kept, s, i)
    ensures var s' := Serve(cfg, s, i, net.ready, net.received, net.resent, answered).0; kept(s', |s'.q.conns|)
    decreases |s.q.conns| - i
  {
    if i < |s.q.conns| {
      var (s1, i1, answered1) := ServeOne(cfg, s, i, net.ready, net.received, net.resent, answered);
      assert EntryKeeps(cfg, net, kept, s, i);
      ServeInduct(cfg, net, s1, i1, answered1, kept);
    }
  }

  // ---- How the entries change ----

  /** The entry is new, or waited before; if it is open now, it counts as sent now. */
  ghost predicate Renewed(q: Queue, c: Query, now: int) {
    && (c.fd > 0 ==> c.start == now)
    && (c.uid >= q.nextUid || exists b :: b in q.conns && b.fd <= 0 && b.uid == c.uid && b.info == c.info)
  }

  /** Every entry is as it was, or is new or sent now. */
  ghost predicate Evolves(q: Queue, q': Queue, now: int) {
    && q.nextUid <= q'.nextUid && q.accepted <= q'.accepted
    && forall c | c in q'.conns :: c in q.conns || Renewed(q, c, now)
  }

  lemma EvolvesTrans(a: Queue, b: Queue, c: Queue, now: int)
    requires Evolves(a, b, now) && Evolves(b, c, now)
    ensures Evolves(a, c, now)
  {
    forall x | x in c.conns ensures x in a.conns || Renewed(a, x, now) {
      if x !in b.conns && x.uid < b.nextUid {
        var y :| y in b.conns && y.fd <= 0 && y.uid == x.uid && y.info == x.info;
        assert y in a.conns || Renewed(a, y, now);
      }
    }
  }

  lemma FewerEvolve(q: Queue, q': Queue, now: int)
    requires q'.nextUid == q.nextUid && q'.accepted == q.accepted && forall c | c in q'.conns :: c in q.conns
    ensures Evolves(q, q', now)
  {
  }

  lemma ResultEvolves(cfg: Config, s: State, i: nat, error: int, code: bv8)
    requires i < |s.q.conns|
    ensures Evolves(s.q, ResultAt(cfg, s, i, error, code).q, s.now)
  {
    FewerEvolve(s.q, ResultAt(cfg, s, i, error, code).q, s.now);
  }

  lemma CollectEvolves(cfg: Config, s: State, fd: int, datagram: Option<seq<Byte>>)
    ensures Evolves(s.q, Collect(cfg, s, fd, datagram).q, s.now) && Collect(cfg, s, fd, datagram).now == s.now
  {
    FewerEvolve(s.q, Collect(cfg, s, fd, datagram).q, s.now);
  }

  lemma GetIpEvolves(q: Queue, limit: nat, info: Option<Info>, sent: Sent, now: int)
    ensures Evolves(q, GetIp(q, limit, info, sent, now).0, now)
  {
  }

  lemma ReopenEvolves(q: Queue, i: nat, sent: Sent, now: int)
    requires i < |q.conns| && q.conns[i].fd <= 0
    ensures Evolves(q, Reopen(q, i, sent, now), now)
  {
    var q' := Reopen(q, i, sent, now);
    forall c | c in q'.conns ensures c in q.conns || Renewed(q, c, now) {
      if c !in q.conns { assert q.conns[i] in q.conns && c == q'.conns[i]; }
    }
  }

  /** The state is one that has evolved from queue q. */
  ghost predicate EvolvedFrom(q: Queue, now: int, s: State) {
    s.now == now && Evolves(q, s.q, now)
  }

  lemma SweepEvolves(cfg: Config, s: State)
    ensures EvolvedFrom(s.q, s.now, Sweep(cfg, s, 0, []).0)
  {
    var kept := (s': State) => EvolvedFrom(s.q, s.now, s');
    forall s', i: nat ensures TimeoutKeeps(cfg, kept, s', i) {
      if i < |s'.q.conns| && kept(s') && Expired(s'.q.conns[i], s'.now) {
        ResultEvolves(cfg, s', i, ERR_TIMEOUT, 0);
        EvolvesTrans(s.q, s'.q, ResultAt(cfg, s', i, ERR_TIMEOUT, 0).q, s.now);
      }
    }
    SweepInduct(cfg, s, 0, [], kept);
  }

  lemma EntryEvolves(cfg: Config, net: Net, s: State, i: nat)
    requires i < |s.q.conns|
    ensures EvolvedFrom(s.q, s.now, ServeOne(cfg, s, i, net.ready, net.received, net.resent, []).0)
  {
    var c := s.q.conns[i];
    if c.fd > 0 && c.fd in net.ready {
      CollectEvolves(cfg, s, c.fd, Datagram(net.received, c.fd));
    } else if c.fd <= 0 && s.q.inuse < cfg.fdLimit {
      ReopenEvolves(s.q, i, if c.uid in net.resent then net.resent[c.uid] else NotSent(ERR_NETWORK), s.now);
    } else {
      FewerEvolve(s.q, s.q, s.now);
    }
  }

  lemma ServeEvolves(cfg: Config, net: Net, s: State)
    ensures EvolvedFrom(s.q, s.now, Serve(cfg, s, 0, net.ready, net.received, net.resent, []).0)
  {
    var kept := (s': State, i: nat) => EvolvedFrom(s.q, s.now, s');
    forall s', i: nat ensures EntryKeeps(cfg, net, kept, s', i) {
      if i < |s'.q.conns| && kept(s', i) {
        EntryEvolves(cfg, net, s', i);
        EvolvesTrans(s.q, s'.q, ServeOne(cfg, s', i, net.ready, net.received, net.resent, []).0.q, s.now);
      }
    }
    FewerEvolve(s.q, s.q, s.now);
    ServeInduct(cfg, net, s, 0, [], kept);
  }

  /** What the second pass of a cycle gets to see. */
  ghost function NetOf(e: Event, ufds: seq<int>): Net
    requires e.Cycle?
  {
    Net((set fd | fd in e.ready && fd in ufds), e.received, e.resent)
  }

  lemma CycleEvolves(cfg: Config, s: State, e: Event)
    requires e.Cycle?
    ensures EvolvedFrom(s.q, s.now, CycleStep(cfg, s, e))
  {
    if s.q.conns == [] {
      FewerEvolve(s.q, s.q, s.now);
    } else {
      var (s1, ufds) := Sweep(cfg, s, 0, []);
      SweepEvolves(cfg, s);
      if e.count != -1 && e.count != 0 {
        ServeEvolves(cfg, NetOf(e, ufds), s1);
        EvolvesTrans(s.q, s1.q, CycleStep(cfg, s, e).q, s.now);
      }
    }
  }

  lemma {:induction false} LookupsEvolve(cfg: Config, s: State, id: nat, i: nat, sent: seq<Sent>)
    requires id in s.t.live
    ensures EvolvedFrom(s.q, s.now, StartLookups(cfg, s, id, i, sent))
    decreases |cfg.blacklists| - i
  {
    FewerEvolve(s.q, s.q, s.now);
    if i < |cfg.blacklists| {
      var s1 := StartLookup(cfg, s, id, i, Pick(sent, i));
      GetIpEvolves(s.q, cfg.fdLimit, Some(Info(id, i)), Pick(sent, i), s.now);
      LookupsEvolve(cfg, s1, id, i + 1, sent);
      EvolvesTrans(s.q, s1.q, StartLookups(cfg, s1, id, i + 1, sent).q, s.now);
    }
  }

  lemma BeginEvolves(cfg: Config, s: State, ip: Option<Address>, manual: bool, numeric: bool, sent: seq<Sent>,
                     matched: seq<bool>)
    ensures EvolvedFrom(s.q, s.now, Begin(cfg, s, ip, manual, numeric, sent, matched))
  {
    var s0 := s.(t := Create(s.t, ip, manual));
    FewerEvolve(s.q, s.q, s.now);
    LookupsEvolve(cfg, s0, s.t.nextScan, 0, sent);
  }

  lemma ResolveEvolves(cfg: Config, s: State, e: Event)
    requires e.Resolve?
    ensures EvolvedFrom(s.q, s.now, ResolveStep(cfg, s, e))
  {
    var (q, fd) := GetIp(s.q, cfg.fdLimit, None, e.request, s.now);
    GetIpEvolves(s.q, cfg.fdLimit, None, e.request, s.now);
    if fd != -1 {
      CollectEvolves(cfg, s.(q := q), fd, e.datagram);
      EvolvesTrans(s.q, q, Collect(cfg, s.(q := q), fd, e.datagram).q, s.now);
    }
  }

  lemma ReactEvolves(cfg: Config, s: State, e: Event)
    ensures EvolvedFrom(s.q, s.now, React(cfg, s, e))
  {
    FewerEvolve(s.q, s.q, s.now);
    match e
    case Connect(ip, numeric, mask, _, sent, accepted) =>
      BeginEvolves(cfg, s, ip, false, numeric, sent, Matched(cfg, mask, accepted));
    case Manual(target, sent, accepted) => BeginEvolves(cfg, s, Some(target), true, true, sent, accepted);
    case Resolve(_, _) => ResolveEvolves(cfg, s, e);
    case Cycle(_, _, _, _) => CycleEvolves(cfg, s, e);
    case _ =>
  }

  // ---- A query in time stays listed ----

  lemma StillListed(conns: seq<Query>, i: nat, c: Query)
    requires i < |conns| && c in conns && c != conns[i]
    ensures c in Without(conns, i)
  {
    var j :| 0 <= j < |conns| && conns[j] == c;
    assert Without(conns, i)[if j < i then j else j - 1] == c;
  }

  /** A query that is not expired is still listed after the first pass. */
  lemma SweepLeaves(cfg: Config, s: State, c: Query)
    requires c in s.q.conns && !Expired(c, s.now)
    ensures c in Sweep(cfg, s, 0, []).0.q.conns
  {
    var kept := (s': State) => s'.now == s.now && c in s'.q.conns;
    forall s', i: nat ensures TimeoutKeeps(cfg, kept, s', i) {
      if i < |s'.q.conns| && kept(s') && Expired(s'.q.conns[i], s'.now) { StillListed(s'.q.conns, i, c); }
    }
    SweepInduct(cfg, s, 0, [], kept);
  }

  /** The second pass reads no answer on the query. */
  ghost predicate Unanswered(cfg: Config, net: Net, c: Query) {
    c.fd !in net.ready || ReplyOn(cfg, c, net.received).Mismatch?
  }

  lemma ReadLeaves(cfg: Config, s: State, i: nat, datagram: Option<seq<Byte>>, c: Query)
    requires FdsApart(s.q.conns) && i < |s.q.conns| && s.q.conns[i].fd > 0 && c in s.q.conns
    requires c == s.q.conns[i] ==> ReplyTo(cfg, c, datagram).Mismatch?
    ensures c in Collect(cfg, s, s.q.conns[i].fd, datagram).q.conns
  {
    FindsItself(s.q.conns, i);
    if c != s.q.conns[i] { StillListed(s.q.conns, i, c); }
  }

  lemma SendLeaves(q: Queue, i: nat, sent: Sent, now: int, c: Query)
    requires i < |q.conns| && c in q.conns && c != q.conns[i]
    ensures c in Reopen(q, i, sent, now).conns
  {
    var j :| 0 <= j < |q.conns| && q.conns[j] == c;
    assert Reopen(q, i, sent, now).conns[j] == c;
  }

  lemma EntryLeaves(cfg: Config, net: Net, s: State, i: nat, c: Query)
    requires FdsApart(s.q.conns) && i < |s.q.conns| && c in s.q.conns && c.fd > 0 && Unanswered(cfg, net, c)
    ensures c in ServeOne(cfg, s, i, net.ready, net.received, net.resent, []).0.q.conns
  {
    var b := s.q.conns[i];
    if b.fd > 0 && b.fd in net.ready {
      ReadLeaves(cfg, s, i, Datagram(net.received, b.fd), c);
    } else if b.fd <= 0 && s.q.inuse < cfg.fdLimit {
      SendLeaves(s.q, i, if b.uid in net.resent then net.resent[b.uid] else NotSent(ERR_NETWORK), s.now, c);
    }
  }

  lemma ServeLeaves(cfg: Config, net: Net, s: State, c: Query)
    requires FdsApart(s.q.conns) && c in s.q.conns && c.fd > 0 && Unanswered(cfg, net, c)
    ensures c in Serve(cfg, s, 0, net.ready, net.received, net.resent, []).0.q.conns
  {
    var kept := (s': State, i: nat) => FdsApart(s'.q.conns) && c in s'.q.conns;
    forall s', i: nat ensures EntryKeeps(cfg, net, kept, s', i) {
      if i < |s'.q.conns| && kept(s', i) {
        ServeOneApart(cfg, s', i, net.ready, net.received, net.resent, []);
        EntryLeaves(cfg, net, s', i, c);
      }
    }
    ServeInduct(cfg, net, s, 0, [], kept);
  }

  /** The event is a cycle that reads an answer to the query. */
  ghost predicate AnswersNow(cfg: Config, e: Event, c: Query) {
    e.Cycle? && e.count != -1 && e.count != 0 && c.fd in e.ready && ReplyOn(cfg, c, e.received).Answer?
  }

  lemma CycleLeaves(cfg: Config, s: State, e: Event, c: Query)
    requires FdsApart(s.q.conns) && e.Cycle? && c in s.q.conns && c.fd > 0 && !Expired(c, s.now)
    requires !AnswersNow(cfg, e, c)
    ensures c in CycleStep(cfg, s, e).q.conns
  {
    var (s1, ufds) := Sweep(cfg, s, 0, []);
    SweepLeaves(cfg, s, c);
    SweepApart(cfg, s, 0, []);
    if e.count != -1 && e.count != 0 { ServeLeaves(cfg, NetOf(e, ufds), s1, c); }
  }

  lemma {:induction false} LookupsLeave(cfg: Config, s: State, id: nat, i: nat, sent: seq<Sent>, c: Query)
    requires id in s.t.live && c in s.q.conns
    ensures c in StartLookups(cfg, s, id, i, sent).q.conns
    decreases |cfg.blacklists| - i
  {
    if i < |cfg.blacklists| { LookupsLeave(cfg, StartLookup(cfg, s, id, i, Pick(sent, i)), id, i + 1, sent, c); }
  }

  lemma BeginLeaves(cfg: Config, s: State, ip: Option<Address>, manual: bool, numeric: bool, sent: seq<Sent>,
                    matched: seq<bool>, c: Query)
    requires c in s.q.conns
    ensures c in Begin(cfg, s, ip, manual, numeric, sent, matched).q.conns
  {
    LookupsLeave(cfg, s.(t := Create(s.t, ip, manual)), s.t.nextScan, 0, sent, c);
  }

  lemma ResolveLeaves(cfg: Config, s: State, e: Event, c: Query)
    requires e.Resolve? && c in s.q.conns
    ensures c in ResolveStep(cfg, s, e).q.conns
  {
    var (q, fd) := GetIp(s.q, cfg.fdLimit, None, e.request, s.now);
    if fd != -1 {
      FoundAt(q.conns, fd, |s.q.conns|);
      StillListed(q.conns, |s.q.conns|, c);
    }
  }

  /** Any event leaves an open query in time listed, unless it reads an answer to it. */
  lemma ReactLeaves(cfg: Config, s: State, e: Event, c: Query)
    requires FdsApart(s.q.conns) && c in s.q.conns && c.fd > 0 && !Expired(c, s.now)
    ensures c in React(cfg, s, e).q.conns || AnswersNow(cfg, e, c)
  {
    match e
    case Connect(ip, numeric, mask, _, sent, accepted) =>
      BeginLeaves(cfg, s, ip, false, numeric, sent, Matched(cfg, mask, accepted), c);
    case Manual(target, sent, accepted) => BeginLeaves(cfg, s, Some(target), true, true, sent, accepted, c);
    case Resolve(_, _) => ResolveLeaves(cfg, s, e, c);
    case Cycle(_, _, _, _) => if !AnswersNow(cfg, e, c) { CycleLeaves(cfg, s, e, c); }
    case _ =>
  }

  // ---- The time of sending ----

  /** The state in which an event at time `at` finds the daemon after a run. */
  ghost function Before(cfg: Config, start: int, trace: Trace, at: int): State {
    var s := Run(cfg, start, trace);
    s.(now := if at > s.now then at else s.now)
  }

  lemma BeforeKeeps(cfg: Config, start: int, trace: Trace, at: int)
    requires ValidConfig(cfg)
    ensures Inv(cfg, Before(cfg, start, trace, at))
  {
    RunKeeps(cfg, start, trace);
    LaterKeeps(cfg, Run(cfg, start, trace), Before(cfg, start, trace, at).now);
  }

  lemma RunReacts(cfg: Config, start: int, trace: Trace, e: Event, at: int)
    ensures Run(cfg, start, trace + [(e, at)]) == React(cfg, Before(cfg, start, trace, at), e)
  {
    assert (trace + [(e, at)])[..|trace|] == trace;
  }

  /** Event n of the run has sent query c: it is open after the event, and was not before. */
  ghost predicate SentAt(cfg: Config, start: int, trace: Trace, n: nat, c: Query) {
    && n < |trace| && c.fd > 0
    && c in Run(cfg, start, trace[..n + 1]).q.conns && c !in Run(cfg, start, trace[..n]).q.conns
  }

  /** The time of event n. */
  ghost function TimeOf(cfg: Config, start: int, trace: Trace, n: nat): int
    requires n < |trace|
  {
    Run(cfg, start, trace[..n + 1]).now
  }

  /** A query counts as sent when it was. */
  lemma {:induction false} SentIsStamped(cfg: Config, start: int, trace: Trace, n: nat, c: Query)
    requires SentAt(cfg, start, trace, n, c)
    ensures c.start == TimeOf(cfg, start, trace, n)
  {
    var before, e, at := trace[..n], trace[n].0, trace[n].1;
    assert trace[..n + 1] == before + [(e, at)];
    RunReacts(cfg, start, before, e, at);
    ReactEvolves(cfg, Before(cfg, start, before, at), e);
  }

  /** Every open query was sent by some event of the run. */
  lemma {:induction false} OpenWasSent(cfg: Config, start: int, trace: Trace, c: Query) returns (n: nat)
    requires c in Run(cfg, start, trace).q.conns && c.fd > 0
    ensures SentAt(cfg, start, trace, n, c)
    decreases |trace|
  {
    n := |trace| - 1;
    var before := trace[..n];
    assert trace[..n + 1] == trace;
    if c in Run(cfg, start, before).q.conns {
      n := OpenWasSent(cfg, start, before, c);
      assert before[..n + 1] == trace[..n + 1] && before[..n] == trace[..n];
    }
  }

  /** Some later cycle of the run has read an answer to the query event n sent. */
  ghost predicate AnsweredSince(cfg: Config, trace: Trace, n: nat, c: Query) {
    exists m :: n < m < |trace| && AnswersNow(cfg, trace[m].0, c)
  }

  /** Up to five seconds after it was sent, a query is listed unless a cycle has read an answer to it. */
  lemma {:induction false} SentStays(cfg: Config, start: int, trace: Trace, n: nat, c: Query)
    requires ValidConfig(cfg) && SentAt(cfg, start, trace, n, c)
    requires Run(cfg, start, trace).now <= TimeOf(cfg, start, trace, n) + 5
    ensures c in Run(cfg, start, trace).q.conns || AnsweredSince(cfg, trace, n, c)
    decreases |trace|
  {
    var k := |trace| - 1;
    if n == k {
      assert trace[..n + 1] == trace;
    } else {
      var before, e, at := trace[..k], trace[k].0, trace[k].1;
      assert before[..n + 1] == trace[..n + 1] && before[..n] == trace[..n] && trace == before + [(e, at)];
      RunReacts(cfg, start, before, e, at);
      ReactEvolves(cfg, Before(cfg, start, before, at), e);
      SentStays(cfg, start, before, n, c);
      if c in Run(cfg, start, before).q.conns { StaysOneMore(cfg, start, before, n, c, e, at, trace); }
    }
  }

  lemma StaysOneMore(cfg: Config, start: int, before: Trace, n: nat, c: Query, e: Event, at: int, trace: Trace)
    requires ValidConfig(cfg) && SentAt(cfg, start, before, n, c) && trace == before + [(e, at)]
    requires c in Run(cfg, start, before).q.conns
    requires Before(cfg, start, before, at).now <= TimeOf(cfg, start, before, n) + 5
    ensures c in Run(cfg, start, trace).q.conns || AnsweredSince(cfg, trace, n, c)
  {
    var s := Before(cfg, start, before, at);
    BeforeKeeps(cfg, start, before, at);
    SentIsStamped(cfg, start, before, n, c);
    RunReacts(cfg, start, before, e, at);
    ReactLeaves(cfg, s, e, c);
    if AnswersNow(cfg, e, c) { assert trace[|before|].0 == e; }
  }

  /** The event finds the query event n sent not more than five seconds old. */
  ghost predicate InTime(cfg: Config, start: int, trace: Trace, n: nat, c: Query, at: int) {
    SentAt(cfg, start, trace, n, c) && Before(cfg, start, trace, at).now <= TimeOf(cfg, start, trace, n) + 5
  }

  lemma InTimeListed(cfg: Config, start: int, trace: Trace, n: nat, c: Query, at: int)
    requires ValidConfig(cfg) && InTime(cfg, start, trace, n, c, at) && !AnsweredSince(cfg, trace, n, c)
    ensures c in Before(cfg, start, trace, at).q.conns && !Expired(c, Before(cfg, start, trace, at).now)
  {
    SentStays(cfg, start, trace, n, c);
    SentIsStamped(cfg, start, trace, n, c);
  }

  /** Up to five seconds after it was sent, every cycle polls a query that was not answered. */
  lemma {:induction false} SentIsPolled(cfg: Config, start: int, trace: Trace, n: nat, c: Query, at: int)
    requires ValidConfig(cfg) && InTime(cfg, start, trace, n, c, at) && !AnsweredSince(cfg, trace, n, c)
    ensures var (s, ufds) := Sweep(cfg, Before(cfg, start, trace, at), 0, []); c in s.q.conns && c.fd in ufds
  {
    var s := Before(cfg, start, trace, at);
    InTimeListed(cfg, start, trace, n, c, at);
    BeforeKeeps(cfg, start, trace, at);
    assert s.q.conns[..0] == [];
    SweepKeeps(cfg, s, 0, []);
    SweepLeaves(cfg, s, c);
  }

  /** The first pass leaves nothing that is expired. */
  lemma SweepEnds(cfg: Config, s: State, c: Query, s1: State, ufds: seq<int>)
    requires Inv(cfg, s) && (s1, ufds) == Sweep(cfg, s, 0, []) && c.fd > 0 && c.start + 5 < s.now
    ensures c !in s1.q.conns && s1.now == s.now
  {
    assert s.q.conns[..0] == [];
    SweepKeeps(cfg, s, 0, []);
  }

  lemma CycleEnds(cfg: Config, s: State, e: Event, c: Query)
    requires Inv(cfg, s) && e.Cycle? && c in s.q.conns && c.fd > 0 && c.start + 5 < s.now
    ensures !Waiting(CycleStep(cfg, s, e).q.conns, c.uid)
  {
    var (s1, ufds) := Sweep(cfg, s, 0, []);
    SweepEnds(cfg, s, c, s1, ufds);
    var q' := CycleStep(cfg, s, e).q;
    if c in q'.conns { ServedFrom(cfg, s, e, s1, ufds, c); }
    CycleEvolves(cfg, s, e);
    NoneSince(s.q, q', c, s.now);
  }

  lemma ServedFrom(cfg: Config, s: State, e: Event, s1: State, ufds: seq<int>, c: Query)
    requires e.Cycle? && s.q.conns != [] && Sweep(cfg, s, 0, []) == (s1, ufds) && s1.now == s.now
    requires c.fd > 0 && c.start != s.now && c in CycleStep(cfg, s, e).q.conns
    ensures c in s1.q.conns
  {
    if e.count != -1 && e.count != 0 { ServeEvolves(cfg, NetOf(e, ufds), s1); }
  }

  /** An open query is listed later as it is, or not at all. */
  lemma NoneSince(q: Queue, q': Queue, c: Query, now: int)
    requires WellListed(q) && Evolves(q, q', now) && c in q.conns && c.fd > 0 && c !in q'.conns
    ensures !Waiting(q'.conns, c.uid)
  {
    if Waiting(q'.conns, c.uid) {
      var i :| 0 <= i < |q'.conns| && q'.conns[i].uid == c.uid;
      var d := q'.conns[i];
      assert d in q'.conns;
      if d !in q.conns {
        var b :| b in q.conns && b.fd <= 0 && b.uid == d.uid && b.info == d.info;
        OneEach(q.conns, b, c);
      } else {
        OneEach(q.conns, d, c);
      }
    }
  }

  lemma OneEach(conns: seq<Query>, b: Query, c: Query)
    requires UidsApart(conns) && b in conns && c in conns && b.uid == c.uid
    ensures b == c
  {
    var i :| 0 <= i < |conns| && conns[i] == b;
    var j :| 0 <= j < |conns| && conns[j] == c;
  }

  /** The first cycle more than five seconds after a query was sent is the end of it. */
  lemma {:induction false} SentTimesOut(cfg: Config, start: int, trace: Trace, n: nat, c: Query, e: Event, at: int)
    requires ValidConfig(cfg) && SentAt(cfg, start, trace, n, c) && e.Cycle?
    requires Before(cfg, start, trace, at).now > TimeOf(cfg, start, trace, n) + 5
    requires c in Run(cfg, start, trace).q.conns
    ensures var q := Run(cfg, start, trace + [(e, at)]).q;
            !Waiting(q.conns, c.uid) && (c.info.Some? ==> q.delivered[c.uid] == 1)
  {
    var s := Before(cfg, start, trace, at);
    SentIsStamped(cfg, start, trace, n, c);
    BeforeKeeps(cfg, start, trace, at);
    RunReacts(cfg, start, trace, e, at);
    CycleEnds(cfg, s, e, c);
    RunKeeps(cfg, start, trace + [(e, at)]);
    ReactEvolves(cfg, s, e);
  }

  // ---- A query keeps its purpose ----

  /** Every entry that is not new was listed before, for the same purpose. */
  ghost predicate Kin(q: Queue, q': Queue) {
    && q.nextUid <= q'.nextUid
    && forall c | c in q'.conns && c.uid < q.nextUid :: exists b :: b in q.conns && b.uid == c.uid && b.info == c.info
  }

  lemma EvolvedKin(q: Queue, q': Queue, q'': Queue, now: int)
    requires Kin(q, q') && Evolves(q', q'', now)
    ensures Kin(q, q'')
  {
    forall c | c in q''.conns && c.uid < q.nextUid
      ensures exists b :: b in q.conns && b.uid == c.uid && b.info == c.info
    {
      if c !in q'.conns {
        var d :| d in q'.conns && d.fd <= 0 && d.uid == c.uid && d.info == c.info;
      }
    }
  }

  lemma {:induction false} RunKin(cfg: Config, start: int, trace: Trace, n: nat)
    requires n <= |trace|
    ensures Kin(Run(cfg, start, trace[..n]).q, Run(cfg, start, trace).q)
  {
    if n == |trace| {
      assert trace[..n] == trace;
    } else {
      var k := |trace| - 1;
      var before, e, at := trace[..k], trace[k].0, trace[k].1;
      assert before[..n] == trace[..n] && trace == before + [(e, at)];
      RunKin(cfg, start, before, n);
      RunReacts(cfg, start, before, e, at);
      ReactEvolves(cfg, Before(cfg, start, before, at), e);
      EvolvedKin(Run(cfg, start, trace[..n]).q, Run(cfg, start, before).q, Run(cfg, start, trace).q,
                 Run(cfg, start, trace).now);
    }
  }

  /** A query is for the same blacklist of the same scan as long as it is listed, however often it is sent. */
  lemma {:induction false} PurposeKept(cfg: Config, start: int, trace: Trace, n: nat, b: Query, c: Query)
    requires ValidConfig(cfg) && n <= |trace| && b.uid == c.uid
    requires b in Run(cfg, start, trace[..n]).q.conns && c in Run(cfg, start, trace).q.conns
    ensures b.info == c.info
  {
    var q := Run(cfg, start, trace[..n]).q;
    RunKin(cfg, start, trace, n);
    RunKeeps(cfg, start, trace[..n]);
    var d :| d in q.conns && d.uid == c.uid && d.info == c.info;
    OneEach(q.conns, b, d);
  }

  // ---- A query that waits is sent ----

  lemma {:induction false} OpenFewer(c: seq<Query>, j: nat)
    requires j < |c| && c[j].fd <= 0
    ensures Open(c) < |c|
  {
    if j > 0 { OpenFewer(c[1..], j - 1); } else { OpenAtMost(c[1..]); }
  }

  lemma {:induction false} OpenAtMost(c: seq<Query>)
    ensures Open(c) <= |c|
  {
    if c != [] { OpenAtMost(c[1..]); }
  }

  /** Query c is still ahead of the pass, or open as c'; no other is open on its descriptor, and there are enough. */
  ghost predicate Coming(cfg: Config, c: Query, c': Query, s: State, i: nat) {
    && Inv(cfg, s) && s.now == c'.start && |s.q.conns| <= cfg.fdLimit
    && (forall d | d in s.q.conns && d.fd == c'.fd :: d == c')
    && (c' in s.q.conns || exists j :: i <= j < |s.q.conns| && s.q.conns[j] == c)
  }

  /** The socket layer sends c as c' and gives the descriptor to no other query. */
  ghost predicate Given(net: Net, c: Query, c': Query) {
    && c.fd < 0 < c'.fd && c' == c.(fd := c'.fd, start := c'.start) && c'.fd !in net.ready
    && c.uid in net.resent && net.resent[c.uid] == SentOn(c'.fd)
    && forall u | u in net.resent && u != c.uid :: net.resent[u] != SentOn(c'.fd)
  }

  lemma OwnTurn(cfg: Config, net: Net, s: State, i: nat, c: Query, c': Query)
    requires Coming(cfg, c, c', s, i) && Given(net, c, c') && i < |s.q.conns| && s.q.conns[i] == c && c' !in s.q.conns
    ensures c' in ServeOne(cfg, s, i, net.ready, net.received, net.resent, []).0.q.conns
  {
    OpenFewer(s.q.conns, i);
    var s1 := ServeOne(cfg, s, i, net.ready, net.received, net.resent, []).0;
    assert s1.q.conns[i] == c';
  }

  lemma CollectFewer(cfg: Config, s: State, fd: int, datagram: Option<seq<Byte>>)
    ensures forall d | d in Collect(cfg, s, fd, datagram).q.conns :: d in s.q.conns
  {
  }

  lemma OnlySentTakes(q: Queue, i: nat, sent: Sent, now: int, fd: int)
    requires i < |q.conns| && sent != SentOn(fd)
    ensures forall d | d in Reopen(q, i, sent, now).conns && d.fd == fd :: d in q.conns
  {
  }

  /** At another entry, nobody takes the descriptor. */
  lemma NobodyTakes(cfg: Config, net: Net, s: State, i: nat, c: Query, c': Query)
    requires (forall d | d in s.q.conns && d.fd == c'.fd :: d == c') && Given(net, c, c') && i < |s.q.conns|
    requires s.q.conns[i].uid != c.uid
    ensures var s1 := ServeOne(cfg, s, i, net.ready, net.received, net.resent, []).0;
            forall d | d in s1.q.conns && d.fd == c'.fd :: d == c'
  {
    var b := s.q.conns[i];
    if b.fd > 0 && b.fd in net.ready {
      CollectFewer(cfg, s, b.fd, Datagram(net.received, b.fd));
    } else if b.fd <= 0 && s.q.inuse < cfg.fdLimit {
      OnlySentTakes(s.q, i, if b.uid in net.resent then net.resent[b.uid] else NotSent(ERR_NETWORK), s.now, c'.fd);
    }
  }

  lemma StaysAhead(cfg: Config, net: Net, s: State, i: nat, j: nat)
    requires Inv(cfg, s) && i < j < |s.q.conns|
    ensures var r := ServeOne(cfg, s, i, net.ready, net.received, net.resent, []);
            exists k :: r.1 <= k < |r.0.q.conns| && r.0.q.conns[k] == s.q.conns[j]
  {
    var r := ServeOne(cfg, s, i, net.ready, net.received, net.resent, []);
    ServeOneKeeps(cfg, s, i, net.ready, net.received, net.resent, [], s.q.conns, i);
    AheadAt(s.q.conns, i + 1, r.0.q.conns, r.1, j);
  }

  lemma AheadAt(a: seq<Query>, i: nat, b: seq<Query>, k: nat, j: nat)
    requires i <= j < |a| && k <= |b| && b[k..] == a[i..]
    ensures k + (j - i) < |b| && b[k + (j - i)] == a[j]
  {
    assert b[k..][j - i] == a[i..][j - i];
  }

  lemma EntryComes(cfg: Config, net: Net, s: State, i: nat, c: Query, c': Query)
    requires Coming(cfg, c, c', s, i) && Given(net, c, c') && i < |s.q.conns|
    ensures var r := ServeOne(cfg, s, i, net.ready, net.received, net.resent, []); Coming(cfg, c, c', r.0, r.1)
  {
    var r := ServeOne(cfg, s, i, net.ready, net.received, net.resent, []);
    ServeOneKeeps(cfg, s, i, net.ready, net.received, net.resent, [], s.q.conns, i);
    EntryShrinks(cfg, net, s, i);
    if c' in s.q.conns { EntryLeaves(cfg, net, s, i, c'); }
    if s.q.conns[i].uid == c.uid {
      OwnEntry(cfg, net, s, i, c, c');
    } else {
      NobodyTakes(cfg, net, s, i, c, c');
      if c' !in s.q.conns {
        var j :| i <= j < |s.q.conns| && s.q.conns[j] == c;
        StaysAhead(cfg, net, s, i, j);
      }
    }
  }

  lemma EntryShrinks(cfg: Config, net: Net, s: State, i: nat)
    requires Inv(cfg, s) && i < |s.q.conns|
    ensures |ServeOne(cfg, s, i, net.ready, net.received, net.resent, []).0.q.conns| <= |s.q.conns|
  {
    var b := s.q.conns[i];
    if b.fd > 0 && b.fd in net.ready { ReadyKeeps(cfg, s, i, Datagram(net.received, b.fd)); }
  }

  lemma OwnEntry(cfg: Config, net: Net, s: State, i: nat, c: Query, c': Query)
    requires Coming(cfg, c, c', s, i) && Given(net, c, c') && i < |s.q.conns| && s.q.conns[i].uid == c.uid
    ensures var s1 := ServeOne(cfg, s, i, net.ready, net.received, net.resent, []).0;
            c' in s1.q.conns && forall d | d in s1.q.conns && d.fd == c'.fd :: d == c'
  {
    if c' in s.q.conns {
      OneEach(s.q.conns, s.q.conns[i], c');
    } else {
      var j :| i <= j < |s.q.conns| && s.q.conns[j] == c;
      OwnTurn(cfg, net, s, i, c, c');
    }
  }

  lemma ServeSends(cfg: Config, net: Net, s: State, c: Query, c': Query)
    requires Coming(cfg, c, c', s, 0) && Given(net, c, c')
    ensures c' in Serve(cfg, s, 0, net.ready, net.received, net.resent, []).0.q.conns
  {
    var kept := (s': State, i: nat) => Coming(cfg, c, c', s', i);
    forall s', i: nat ensures EntryKeeps(cfg, net, kept, s', i) {
      if i < |s'.q.conns| && kept(s', i) { EntryComes(cfg, net, s', i, c, c'); }
    }
    ServeInduct(cfg, net, s, 0, [], kept);
  }

  /** The first pass leaves a waiting query where it is, and the descriptor free. */
  lemma SweptIsComing(cfg: Config, s: State, c: Query, c': Query, s1: State, ufds: seq<int>)
    requires Inv(cfg, s) && c in s.q.conns && c.fd < 0 < c'.fd && (s1, ufds) == Sweep(cfg, s, 0, [])
    requires c'.start == s.now && |s.q.conns| <= cfg.fdLimit && forall d | d in s.q.conns :: d.fd != c'.fd
    ensures Coming(cfg, c, c', s1, 0) && c'.fd !in ufds
  {
    assert s.q.conns[..0] == [];
    SweepKeeps(cfg, s, 0, []);
    SweepLeaves(cfg, s, c);
    SweepFewer(cfg, s);
  }

  lemma SweepFewer(cfg: Config, s: State)
    ensures var c := Sweep(cfg, s, 0, []).0.q.conns; |c| <= |s.q.conns| && forall d | d in c :: d in s.q.conns
  {
    var kept := (s': State) => |s'.q.conns| <= |s.q.conns| && forall d | d in s'.q.conns :: d in s.q.conns;
    SweepInduct(cfg, s, 0, [], kept);
  }

  /**
   After any run with no more queries listed than there may be descriptors, a cycle that can send a waiting query,
   on a descriptor that no other has or is given, has it open on that descriptor, sent now.
   */
  lemma {:induction false} WaitingIsSent(cfg: Config, start: int, trace: Trace, e: Event, at: int, c: Query, fd: int)
    requires ValidConfig(cfg) && e.Cycle? && e.count != -1 && e.count != 0 && fd > 0
    requires c in Run(cfg, start, trace).q.conns && c.fd < 0 && |Run(cfg, start, trace).q.conns| <= cfg.fdLimit
    requires forall d | d in Run(cfg, start, trace).q.conns :: d.fd != fd
    requires c.uid in e.resent && e.resent[c.uid] == SentOn(fd)
    requires forall u | u in e.resent && u != c.uid :: e.resent[u] != SentOn(fd)
    ensures c.(fd := fd, start := Before(cfg, start, trace, at).now) in Run(cfg, start, trace + [(e, at)]).q.conns
  {
    var s := Before(cfg, start, trace, at);
    var c' := c.(fd := fd, start := s.now);
    BeforeKeeps(cfg, start, trace, at);
    RunReacts(cfg, start, trace, e, at);
    var (s1, ufds) := Sweep(cfg, s, 0, []);
    SweptIsComing(cfg, s, c, c', s1, ufds);
    ServeSends(cfg, NetOf(e, ufds), s1, c, c');
  }
}
