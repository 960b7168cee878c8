/** What a scan begins with: which blacklists are asked, and with which scanners libopm has the client to scan. */
module Starts {
  import opened Options
  import opened Basics
  import opened DnsQueue
  import opened Lifecycle
  import opened Daemon

  // ---- The lookups ----

  /** Among the entries from `from` on is one for blacklist i of the scan. */
  ghost predicate Asked(q: Queue, from: nat, id: nat, i: nat) {
    exists j :: from <= j < |q.conns| && q.conns[j].info == Some(Info(id, i))
  }

  /** The socket layer could send on a descriptor that no entry has. */
  ghost predicate Usable(q: Queue, sent: Sent) {
    sent.SentOn? && sent.fd > 0 && forall c | c in q.conns :: c.fd != sent.fd
  }

  /** The entry is for a blacklist below n: sent now on the descriptor it was given, or waiting since all are used. */
  ghost predicate EntryFor(cfg: Config, q: Queue, c: Query, id: nat, n: nat, sent: seq<Sent>, now: int) {
    && c.info.Some? && c.info.value.scan == id && c.info.value.blacklist < n
    && ((c.fd > 0 && Pick(sent, c.info.value.blacklist) == SentOn(c.fd) && c.start == now)
        || (c.fd == -1 && q.inuse >= cfg.fdLimit))
  }

  /**
   The queue has behind what it had one entry for each blacklist below n, in order, and nothing else; only a
   blacklist whose lookup could not be sent, though there were descriptors left, is without one.
   */
  ghost predicate AskedUpTo(cfg: Config, q: Queue, q': Queue, id: nat, n: nat, sent: seq<Sent>, now: int) {
    var from := |q.conns|;
    && from <= |q'.conns| && q'.conns[..from] == q.conns && q.inuse <= q'.inuse
    && (forall j | from <= j < |q'.conns| :: EntryFor(cfg, q', q'.conns[j], id, n, sent, now))
    && (forall j, k | from <= j < k < |q'.conns| ::
          q'.conns[j].info.value.blacklist < q'.conns[k].info.value.blacklist)
    && (forall i: nat | i < n && !Asked(q', from, id, i) :: q.inuse < cfg.fdLimit && !Usable(q', Pick(sent, i)))
  }

  lemma AskedNext(cfg: Config, q: Queue, r: Queue, id: nat, i: nat, sent: seq<Sent>, now: int)
    requires AskedUpTo(cfg, q, r, id, i, sent, now)
    ensures AskedUpTo(cfg, q, GetIp(r, cfg.fdLimit, Some(Info(id, i)), Pick(sent, i), now).0, id, i + 1, sent, now)
  {
    var r' := GetIp(r, cfg.fdLimit, Some(Info(id, i)), Pick(sent, i), now).0;
    if r'.conns == r.conns {
      AskedFailed(cfg, q, r, r', id, i, sent, now);
    } else {
      AskedMore(cfg, q, r, r', id, i, sent, now);
    }
  }

  lemma AskedFailed(cfg: Config, q: Queue, r: Queue, r': Queue, id: nat, i: nat, sent: seq<Sent>, now: int)
    requires AskedUpTo(cfg, q, r, id, i, sent, now) && r'.conns == r.conns && r'.inuse == r.inuse
    requires r.inuse < cfg.fdLimit && !Usable(r, Pick(sent, i))
    ensures AskedUpTo(cfg, q, r', id, i + 1, sent, now)
  {
    var from := |q.conns|;
    forall k: nat | k < i + 1 && !Asked(r', from, id, k)
      ensures q.inuse < cfg.fdLimit && !Usable(r', Pick(sent, k))
    {
      assert k < i ==> !Asked(r, from, id, k);
    }
  }

  lemma AskedMore(cfg: Config, q: Queue, r: Queue, r': Queue, id: nat, i: nat, sent: seq<Sent>, now: int)
    requires AskedUpTo(cfg, q, r, id, i, sent, now)
    requires |r'.conns| == |r.conns| + 1 && r'.conns[..|r.conns|] == r.conns && r.inuse <= r'.inuse
    requires r'.conns[|r.conns|].info == Some(Info(id, i))
    requires EntryFor(cfg, r', r'.conns[|r.conns|], id, i + 1, sent, now)
    ensures AskedUpTo(cfg, q, r', id, i + 1, sent, now)
  {
    var from, last := |q.conns|, |r.conns|;
    SameBefore(r.conns, r'.conns, from);
    forall j | from <= j < |r'.conns| ensures EntryFor(cfg, r', r'.conns[j], id, i + 1, sent, now) {
      if j < last { EntryStays(cfg, r, r', r.conns[j], id, i, sent, now); }
    }
    StillRising(r.conns, r'.conns, from, i);
    forall k: nat | k < i + 1 && !Asked(r', from, id, k)
      ensures q.inuse < cfg.fdLimit && !Usable(r', Pick(sent, k))
    {
      StillUnasked(r, r', from, id, k);
      assert k != i by { assert r'.conns[last].info == Some(Info(id, i)); }
      StillUnusable(r, r', Pick(sent, k));
    }
  }

  lemma EntryStays(cfg: Config, r: Queue, r': Queue, c: Query, id: nat, i: nat, sent: seq<Sent>, now: int)
    requires EntryFor(cfg, r, c, id, i, sent, now) && r.inuse <= r'.inuse
    ensures EntryFor(cfg, r', c, id, i + 1, sent, now)
  {
  }

  lemma StillRising(a: seq<Query>, b: seq<Query>, from: nat, i: nat)
    requires |b| == |a| + 1 && (forall j | 0 <= j < |a| :: b[j] == a[j])
    requires b[|a|].info.Some? && b[|a|].info.value.blacklist == i
    requires forall j | from <= j < |a| :: a[j].info.Some? && a[j].info.value.blacklist < i
    requires forall j, k | from <= j < k < |a| :: a[j].info.value.blacklist < a[k].info.value.blacklist
    ensures forall j | from <= j < |b| :: b[j].info.Some?
    ensures forall j, k | from <= j < k < |b| :: b[j].info.value.blacklist < b[k].info.value.blacklist
  {
  }

  lemma SameBefore(a: seq<Query>, b: seq<Query>, from: nat)
    requires from <= |a| <= |b| && b[..|a|] == a
    ensures (forall j | 0 <= j < |a| :: b[j] == a[j]) && b[..from] == a[..from]
  {
    assert forall j | 0 <= j < |a| :: b[j] == b[..|a|][j];
  }

  lemma StillUnasked(r: Queue, r': Queue, from: nat, id: nat, k: nat)
    requires |r.conns| <= |r'.conns| && (forall j | 0 <= j < |r.conns| :: r'.conns[j] == r.conns[j])
    requires !Asked(r', from, id, k)
    ensures !Asked(r, from, id, k)
  {
  }

  lemma StillUnusable(r: Queue, r': Queue, sent: Sent)
    requires |r.conns| <= |r'.conns| && (forall j | 0 <= j < |r.conns| :: r'.conns[j] == r.conns[j])
    requires !Usable(r, sent)
    ensures !Usable(r', sent)
  {
    if sent.SentOn? && sent.fd > 0 {
      var c :| c in r.conns && c.fd == sent.fd;
      var j :| 0 <= j < |r.conns| && r.conns[j] == c;
      assert r'.conns[j] == c;
    }
  }

  /** The loop of dnsbl_add asks every blacklist it can, each once and under its own number. */
  lemma {:induction false} LookupsAsked(cfg: Config, s: State, id: nat, sent: seq<Sent>)
    requires id in s.t.live
    ensures AskedUpTo(cfg, s.q, StartLookups(cfg, s, id, 0, sent).q, id, |cfg.blacklists|, sent, s.now)
  {
    var kept := (r: State, i: nat) => r.now == s.now && AskedUpTo(cfg, s.q, r.q, id, i, sent, s.now);
    forall r, i: nat | kept(r, i) && i < |cfg.blacklists| && id in r.t.live
      ensures kept(StartLookup(cfg, r, id, i, Pick(sent, i)), i + 1)
    {
      AskedNext(cfg, s.q, r.q, id, i, sent, s.now);
    }
    assert s.q.conns[..|s.q.conns|] == s.q.conns;
    StartLookupsInduct(cfg, s, id, 0, sent, kept);
  }

  lemma BeginAsks(cfg: Config, s: State, ip: Option<Address>, manual: bool, numeric: bool, sent: seq<Sent>,
                  matched: seq<bool>)
    ensures var q := Begin(cfg, s, ip, manual, numeric, sent, matched).q;
            if numeric then AskedUpTo(cfg, s.q, q, s.t.nextScan, |cfg.blacklists|, sent, s.now) else q == s.q
  {
    LookupsAsked(cfg, s.(t := Create(s.t, ip, manual)), s.t.nextScan, sent);
  }

  // ---- The scanners ----

  /** The scanners that are ticked off in a list. */
  ghost function Chosen(cfg: Config, matched: seq<bool>): set<nat> {
    set x: nat | x < |cfg.scanners| && x < |matched| && matched[x]
  }

  lemma {:induction false} ScannersExactly(cfg: Config, t: Tracker, id: nat, i: nat, matched: seq<bool>)
    requires id in t.live && i <= |cfg.scanners|
    ensures Outstanding(StartScanners(cfg, t, id, i, matched), id)
            == Outstanding(t, id) + set x | x in Chosen(cfg, matched) && x >= i
    decreases |cfg.scanners| - i
  {
    if i < |cfg.scanners| {
      var t1 := if i < |matched| && matched[i] then ScannerAccepts(t, id, i) else t;
      ScannersExactly(cfg, t1, id, i + 1, matched);
    }
  }

  lemma LookupsKeepStarted(cfg: Config, s: State, id: nat, sent: seq<Sent>)
    requires id in s.t.live
    ensures var r := StartLookups(cfg, s, id, 0, sent);
            r.t.nextScan == s.t.nextScan && r.t.started == s.t.started && r.t.opm == s.t.opm
  {
    var kept := (r: State, i: nat) =>
      r.t.nextScan == s.t.nextScan && r.t.started == s.t.started && r.t.opm == s.t.opm;
    StartLookupsInduct(cfg, s, id, 0, sent, kept);
  }

  lemma ScannersKeepStarted(cfg: Config, t: Tracker, id: nat, matched: seq<bool>)
    requires id in t.live
    ensures var r := StartScanners(cfg, t, id, 0, matched); r.nextScan == t.nextScan && r.started == t.started
  {
    StartScannersInduct(cfg, t, id, 0, matched,
                        (r: Tracker, i: nat) => r.nextScan == t.nextScan && r.started == t.started);
  }

  /** The scan begins, and libopm owes an END for exactly the scanners ticked off. */
  lemma {:induction false} BeginStarts(cfg: Config, s: State, ip: Option<Address>, manual: bool, numeric: bool,
                                       sent: seq<Sent>, matched: seq<bool>)
    requires Outstanding(s.t, s.t.nextScan) == {}
    ensures var t := Begin(cfg, s, ip, manual, numeric, sent, matched).t; var id := s.t.nextScan;
            && t.nextScan == id + 1 && t.started == s.t.started[id := Scan(ip, manual, false, 0)]
            && Outstanding(t, id) == Chosen(cfg, matched)
  {
    var id := s.t.nextScan;
    var s0 := s.(t := Create(s.t, ip, manual));
    var s1 := if numeric then StartLookups(cfg, s0, id, 0, sent) else s0;
    LookupsKeepStarted(cfg, s0, id, sent);
    ScannersKeepStarted(cfg, s1.t, id, matched);
    ScannersExactly(cfg, s1.t, id, 0, matched);
  }
}
