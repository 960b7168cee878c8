/** What becomes of a client that connects: who is scanned, by which scanners, and who is let go on what ground. */
module Clients {
  import opened Options
  import opened Basics
  import opened DnsQueue
  import opened Lifecycle
  import opened Daemon
  import opened Sending
  import opened Outcomes
  import opened Starts
  import DnsReply
  import Glob

  // ---- Who is scanned ----

  /** The cache lets the client go, or its address does not parse, which only matters with a cache. */
  ghost predicate LetGo(cfg: Config, s: State, ip: Option<Address>) {
    cfg.negcache > 0 && (ip.None? || Skips(cfg, s, ip.value))
  }

  /** Some exempt mask really means the client. */
  ghost predicate MeantExempt(cfg: Config, mask: Glob.Text, ipmask: Glob.Text) {
    exists m | m in cfg.exempts :: Glob.Meaning(m, mask) || Glob.Meaning(m, ipmask)
  }

  /** The mask means the client, and the matcher finds out in its budget. */
  ghost predicate MeansInBudget(m: Glob.Text, mask: Glob.Text) {
    Glob.Meaning(m, mask) && Glob.Iterations(m, mask, Glob.START) <= 512
  }

  /** A client is exempt only if an exempt mask means it, and is if one means it within the budget. */
  lemma {:induction false} ExemptIsMeant(cfg: Config, mask: Glob.Text, ipmask: Glob.Text)
    ensures IsExempt(cfg, mask, ipmask) ==> MeantExempt(cfg, mask, ipmask)
    ensures (exists m | m in cfg.exempts :: MeansInBudget(m, mask) || MeansInBudget(m, ipmask))
            ==> IsExempt(cfg, mask, ipmask)
  {
    if IsExempt(cfg, mask, ipmask) {
      var m :| m in cfg.exempts && Glob.Exempts(m, mask, ipmask);
      Glob.ExemptionMeant(m, mask, ipmask);
    }
    if m :| m in cfg.exempts && (MeansInBudget(m, mask) || MeansInBudget(m, ipmask)) {
      Glob.MatchDecides(m, mask);
      Glob.MatchDecides(m, ipmask);
      assert Glob.Exempts(m, mask, ipmask);
    }
  }

  lemma NothingOwedYet(cfg: Config, start: int, trace: Trace, at: int)
    requires ValidConfig(cfg)
    ensures var s := Before(cfg, start, trace, at); Outstanding(s.t, s.t.nextScan) == {}
  {
    BeforeRefs(cfg, start, trace, at);
    var s := Before(cfg, start, trace, at);
    NoLookups(s.q.conns, s.t, s.t.nextScan);
  }

  /**
   After any run, a client that connects has a scan of its address started exactly if the cache does not
   let it go and it is not exempt; and a client that is exempt is really meant by some exempt mask.
   */
  lemma {:induction false} ScannedUnlessExcused(cfg: Config, start: int, trace: Trace, e: Event, at: int)
    requires ValidConfig(cfg) && e.Connect?
    ensures var s := Before(cfg, start, trace, at); var t := Run(cfg, start, trace + [(e, at)]).t;
            if LetGo(cfg, s, e.ip) || IsExempt(cfg, e.mask, e.ipmask) then t == s.t
            else t.nextScan == s.t.nextScan + 1 && t.started == s.t.started[s.t.nextScan := Scan(e.ip, false, false, 0)]
    ensures IsExempt(cfg, e.mask, e.ipmask) ==> MeantExempt(cfg, e.mask, e.ipmask)
  {
    RunReacts(cfg, start, trace, e, at);
    NothingOwedYet(cfg, start, trace, at);
    BeginStarts(cfg, Before(cfg, start, trace, at), e.ip, false, e.numeric, e.sent, Matched(cfg, e.mask, e.accepted));
    ExemptIsMeant(cfg, e.mask, e.ipmask);
  }

  /** After any run, a manual check starts a manual scan of its target, with exactly the scanners that accept. */
  lemma {:induction false} ManualStarts(cfg: Config, start: int, trace: Trace, e: Event, at: int)
    requires ValidConfig(cfg) && e.Manual?
    ensures var s := Before(cfg, start, trace, at); var t := Run(cfg, start, trace + [(e, at)]).t;
            && t.nextScan == s.t.nextScan + 1
            && t.started == s.t.started[s.t.nextScan := Scan(Some(e.target), true, false, 0)]
            && Outstanding(t, s.t.nextScan) == Chosen(cfg, e.accepted)
  {
    RunReacts(cfg, start, trace, e, at);
    NothingOwedYet(cfg, start, trace, at);
    BeginStarts(cfg, Before(cfg, start, trace, at), Some(e.target), true, true, e.sent, e.accepted);
  }

  /** Whatever comes after a manual check, its scan sends no kline and enters nothing in the cache. */
  lemma {:induction false} ManualNeverPunished(cfg: Config, start: int, trace: Trace, n: nat)
    requires ValidConfig(cfg) && n < |trace| && trace[n].0.Manual?
    ensures var id := Run(cfg, start, trace[..n]).t.nextScan; var t := Run(cfg, start, trace).t;
            id in t.started && t.started[id].manual && t.klines[id] == 0 && id !in t.cachedBy
  {
    var before, e, at := trace[..n], trace[n].0, trace[n].1;
    assert trace[..n + 1] == before + [(e, at)];
    ManualStarts(cfg, start, before, e, at);
    HistoryNeverRewritten(cfg, start, trace, n + 1);
    KlinesAndCaching(cfg, start, trace, Run(cfg, start, before).t.nextScan);
  }

  // ---- By which scanners ----

  /** One of the scanner's masks really means the client, and libopm accepted. */
  ghost predicate MeantFor(cfg: Config, scanner: nat, mask: Glob.Text, accepted: seq<bool>) {
    && scanner < |cfg.scanners| && scanner < |accepted| && accepted[scanner]
    && exists m | m in cfg.scanners[scanner] :: Glob.Meaning(m, mask)
  }

  /** And the matcher finds out in its budget. */
  ghost predicate MeantInBudget(cfg: Config, scanner: nat, mask: Glob.Text, accepted: seq<bool>) {
    && scanner < |cfg.scanners| && scanner < |accepted| && accepted[scanner]
    && exists m | m in cfg.scanners[scanner] :: MeansInBudget(m, mask)
  }

  lemma MatchedIsMeant(cfg: Config, mask: Glob.Text, accepted: seq<bool>, x: nat)
    ensures x in Chosen(cfg, Matched(cfg, mask, accepted)) ==> MeantFor(cfg, x, mask, accepted)
    ensures MeantInBudget(cfg, x, mask, accepted) ==> x in Chosen(cfg, Matched(cfg, mask, accepted))
  {
    if x in Chosen(cfg, Matched(cfg, mask, accepted)) {
      var m :| m in cfg.scanners[x] && Glob.Result(m, mask);
      Glob.MatchDecides(m, mask);
    }
    if MeantInBudget(cfg, x, mask, accepted) {
      var m :| m in cfg.scanners[x] && MeansInBudget(m, mask);
      Glob.MatchDecides(m, mask);
      assert MaskMatches(cfg.scanners[x], mask);
    }
  }

  /**
   After any run, libopm owes an END for a client that is scanned only from scanners that have a mask that
   means it, and from every scanner that has one which means it within the budget, if it accepted.
   */
  lemma {:induction false} ScannersMeant(cfg: Config, start: int, trace: Trace, e: Event, at: int, x: nat)
    requires ValidConfig(cfg) && e.Connect?
    requires !LetGo(cfg, Before(cfg, start, trace, at), e.ip) && !IsExempt(cfg, e.mask, e.ipmask)
    ensures var owing := Outstanding(Run(cfg, start, trace + [(e, at)]).t, Run(cfg, start, trace).t.nextScan);
            && (x in owing ==> MeantFor(cfg, x, e.mask, e.accepted))
            && (MeantInBudget(cfg, x, e.mask, e.accepted) ==> x in owing)
  {
    RunReacts(cfg, start, trace, e, at);
    NothingOwedYet(cfg, start, trace, at);
    BeginStarts(cfg, Before(cfg, start, trace, at), e.ip, false, e.numeric, e.sent, Matched(cfg, e.mask, e.accepted));
    MatchedIsMeant(cfg, e.mask, e.accepted, x);
  }

  // ---- By which blacklists ----

  /** The event is one that has somebody scanned. */
  ghost predicate Scans(cfg: Config, s: State, e: Event) {
    e.Manual? || (e.Connect? && !LetGo(cfg, s, e.ip) && !IsExempt(cfg, e.mask, e.ipmask))
  }

  /**
   After any run, whoever is scanned has every blacklist asked once, under its own number, if the address is one
   that can be looked up; but for those whose lookup could not be sent.
   */
  lemma {:induction false} BlacklistsAsked(cfg: Config, start: int, trace: Trace, e: Event, at: int)
    requires Scans(cfg, Before(cfg, start, trace, at), e)
    ensures var s := Before(cfg, start, trace, at); var q := Run(cfg, start, trace + [(e, at)]).q;
            if e.Manual? || e.numeric
            then AskedUpTo(cfg, s.q, q, s.t.nextScan, |cfg.blacklists|, e.sent, s.now) else q == s.q
  {
    var s := Before(cfg, start, trace, at);
    RunReacts(cfg, start, trace, e, at);
    if e.Manual? {
      BeginAsks(cfg, s, Some(e.target), true, true, e.sent, e.accepted);
    } else {
      BeginAsks(cfg, s, e.ip, false, e.numeric, e.sent, Matched(cfg, e.mask, e.accepted));
    }
  }

  /**
   In any run, if a client is scanned from event n on, b is the query that asks blacklist i about it, and a reply
   to that query is read within five seconds of the time it was sent, the first answer, then the client's kline
   is sent if blacklist i lists what the reply says.
   */
  lemma {:induction false} ListedClientIsKlined(cfg: Config, start: int, trace: Trace, e: Event, at: int, n: nat,
                                                i: nat, b: Query, m: nat, c: Query, code: bv8)
    requires ValidConfig(cfg) && n < |trace| && trace[n].0.Connect?
    requires Scans(cfg, Before(cfg, start, trace[..n], trace[n].1), trace[n].0)
    requires b in Run(cfg, start, trace[..n + 1]).q.conns
    requires b.info == Some(Info(Run(cfg, start, trace[..n]).t.nextScan, i)) && i < |cfg.blacklists|
    requires c.uid == b.uid && InTime(cfg, start, trace, m, c, at) && !AnsweredSince(cfg, trace, m, c)
    requires Reads(cfg, e, c, Answer(ERR_NONE, code)) && Listed(cfg.blacklists[i], code)
    ensures Run(cfg, start, trace + [(e, at)]).t.klines[Run(cfg, start, trace[..n]).t.nextScan] == 1
  {
    InTimeListed(cfg, start, trace, m, c, at);
    PurposeKept(cfg, start, trace, n + 1, b, c);
    ClientRemains(cfg, start, trace, n, Run(cfg, start, trace[..n]).t.nextScan);
    ListingIsKlined(cfg, start, trace, e, at, m, c, code);
  }

  /** The scan a connect starts is an automatic one for good. */
  lemma ClientRemains(cfg: Config, start: int, trace: Trace, n: nat, id: nat)
    requires ValidConfig(cfg) && n < |trace| && trace[n].0.Connect? && id == Run(cfg, start, trace[..n]).t.nextScan
    requires Scans(cfg, Before(cfg, start, trace[..n], trace[n].1), trace[n].0)
    ensures id in Run(cfg, start, trace).t.started && !Run(cfg, start, trace).t.started[id].manual
  {
    var after := trace[..n + 1];
    OneMoreEvent(trace, n);
    ClientBegins(cfg, start, trace[..n], trace[n].0, trace[n].1, after, id);
    HistoryNeverRewritten(cfg, start, trace, n + 1);
    StartedRemains(Run(cfg, start, after).t, Run(cfg, start, trace).t, id);
  }

  lemma OneMoreEvent(trace: Trace, n: nat)
    requires n < |trace|
    ensures trace[..n + 1] == trace[..n] + [(trace[n].0, trace[n].1)]
  {
  }

  lemma ClientBegins(cfg: Config, start: int, before: Trace, e: Event, at: int, after: Trace, id: nat)
    requires ValidConfig(cfg) && e.Connect? && Scans(cfg, Before(cfg, start, before, at), e)
    requires after == before + [(e, at)] && id == Run(cfg, start, before).t.nextScan
    ensures id in Run(cfg, start, after).t.started && !Run(cfg, start, after).t.started[id].manual
  {
    ScannedUnlessExcused(cfg, start, before, e, at);
  }

  lemma StartedRemains(t: Tracker, t': Tracker, id: nat)
    requires Grows(t, t') && id in t.started
    ensures id in t'.started && t'.started[id] == t.started[id]
  {
  }

  // ---- From the bytes of a reply to the kline ----

  /** The datagram is a well-formed reply to query c with these sections and no error. */
  ghost predicate WellFormedReply(cfg: Config, c: Query, datagram: seq<Byte>, qs: seq<DnsReply.Question>,
                                  rs: seq<DnsReply.Record>, rest: seq<Byte>)
  {
    && (forall i | 0 <= i < |qs| :: DnsReply.GoodQuestion(qs[i]))
    && (forall i | 0 <= i < |rs| :: DnsReply.GoodRecord(rs[i]))
    && |qs| < 65536 && |rs| < 65536
    && |DnsReply.AllQuestions(qs)| + |DnsReply.AllRecords(rs)| + |rest| <= 512
    && exists flags1: Byte, flags2: Byte, nscount: nat, arcount: nat ::
         && nscount < 65536 && arcount < 65536
         && flags1 / 128 == 1 && (flags1 / 8) % 16 == 0 && flags2 % 16 == 0
         && datagram == DnsReply.Header(cfg.ids(c.uid).0, cfg.ids(c.uid).1, flags1, flags2,
                                        |qs|, |rs|, nscount, arcount)
                        + (DnsReply.AllQuestions(qs) + DnsReply.AllRecords(rs) + rest)
  }

  /** Record n is the first address record of the answers. */
  ghost predicate FirstAddress(rs: seq<DnsReply.Record>, n: nat) {
    && n < |rs| && rs[n].kind == QRY_A && rs[n].cls == CLASS_IN && |rs[n].data| == 4
    && forall i | 0 <= i < n :: rs[i].kind != QRY_A || rs[i].cls != CLASS_IN
  }

  lemma AddressCollected(cfg: Config, c: Query, datagram: seq<Byte>, qs: seq<DnsReply.Question>,
                         rs: seq<DnsReply.Record>, rest: seq<Byte>, n: nat)
    requires WellFormedReply(cfg, c, datagram, qs, rs, rest) && FirstAddress(rs, n)
    ensures ReplyTo(cfg, c, Some(datagram)) == Answer(ERR_NONE, rs[n].data[3] as bv8)
  {
    var flags1: Byte, flags2: Byte, nscount: nat, arcount: nat :|
      && nscount < 65536 && arcount < 65536
      && flags1 / 128 == 1 && (flags1 / 8) % 16 == 0 && flags2 % 16 == 0
      && datagram == DnsReply.Header(cfg.ids(c.uid).0, cfg.ids(c.uid).1, flags1, flags2, |qs|, |rs|, nscount, arcount)
                     + (DnsReply.AllQuestions(qs) + DnsReply.AllRecords(rs) + rest);
    DnsReply.WellFormedReplyRead(cfg.ids(c.uid).0, cfg.ids(c.uid).1, flags1, flags2, QRY_A, CLASS_IN, qs, rs,
                                 nscount, arcount, rest);
    DnsReply.ListingCollected(rs, n, QRY_A, CLASS_IN);
  }

  /**
   In any run, a cycle that receives, within five seconds of the time a lookup was sent, a well-formed reply whose
   first address record lists the client, and no answer before it, has the client's kline sent, exactly once.
   */
  lemma {:induction false} ReplyBytesToKline(cfg: Config, start: int, trace: Trace, e: Event, at: int, m: nat,
                                             c: Query, qs: seq<DnsReply.Question>, rs: seq<DnsReply.Record>,
                                             rest: seq<Byte>, n: nat)
    requires ValidConfig(cfg) && InTime(cfg, start, trace, m, c, at) && !AnsweredSince(cfg, trace, m, c)
    requires e.Cycle? && e.count != -1 && e.count != 0 && c.fd in e.ready && c.fd in e.received
    requires WellFormedReply(cfg, c, e.received[c.fd], qs, rs, rest) && FirstAddress(rs, n)
    requires Lists(cfg, Before(cfg, start, trace, at).t, c, rs[n].data[3] as bv8)
    ensures Run(cfg, start, trace + [(e, at)]).t.klines[c.info.value.scan] == 1
  {
    AddressCollected(cfg, c, e.received[c.fd], qs, rs, rest, n);
    ListingIsKlined(cfg, start, trace, e, at, m, c, rs[n].data[3] as bv8);
  }
}
