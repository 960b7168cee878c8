/** What single events come to after any run: whose kline is sent, and when a scan is over. */
module Outcomes {
  import opened Options
  import opened Basics
  import opened DnsQueue
  import opened Lifecycle
  import opened Daemon
  import opened Sending
  import Cache = NegCache

  lemma RunOnce(cfg: Config, start: int, trace: Trace, e: Event, at: int)
    ensures Run(cfg, start, trace + [(e, at)]) == Step(cfg, Run(cfg, start, trace), e, at)
  {
    assert (trace + [(e, at)])[..|trace|] == trace;
  }

  lemma BeforeRefs(cfg: Config, start: int, trace: Trace, at: int)
    requires ValidConfig(cfg)
    ensures var s := Before(cfg, start, trace, at); Refs(s.q.conns, s.t, None, None)
  {
    RunKeeps(cfg, start, trace);
  }

  /** An open proxy reported for a client's scan has its kline sent by then, once. */
  lemma {:induction false} OpenProxyIsKlined(cfg: Config, start: int, trace: Trace, id: nat, scanner: nat, at: int)
    requires ValidConfig(cfg)
    requires var t := Run(cfg, start, trace).t;
             scanner in Outstanding(t, id) && id in t.started && !t.started[id].manual
    ensures Run(cfg, start, trace + [(OpenProxy(id, scanner), at)]).t.klines[id] == 1
  {
    RunOnce(cfg, start, trace, OpenProxy(id, scanner), at);
    RunKeeps(cfg, start, trace);
    ProxyReported(cfg, Run(cfg, start, trace), id, scanner, at);
  }

  lemma ProxyReported(cfg: Config, s: State, id: nat, scanner: nat, at: int)
    requires Inv(cfg, s) && scanner in Outstanding(s.t, id) && id in s.t.started && !s.t.started[id].manual
    ensures Step(cfg, s, OpenProxy(id, scanner), at).t.klines[id] == 1
  {
    ProxyHandled(s.q.conns, s.t, id, scanner);
  }

  lemma ProxyHandled(c: seq<Query>, t: Tracker, id: nat, scanner: nat)
    requires Referenced(c, t) && LiveHistory(t) && scanner in Outstanding(t, id)
    requires id in t.started && !t.started[id].manual
    ensures OpenProxyFound(t, id, scanner).klines[id] == 1
  {
  }

  lemma ListedIsPositive(t: Tracker, now: int, id: nat, bl: Blacklist, code: bv8)
    requires LiveHistory(t) && id in t.live && !t.live[id].manual && Listed(bl, code)
    ensures BlacklistHit(t, id, bl, code).klines[id] == 1 && id in BlacklistHit(t, id, bl, code).live
  {
  }

  /** What a scan comes to when one of the tests it waits for is over. */
  ghost predicate Settled(t: Tracker, t': Tracker, id: nat, owed: nat, now: int, negcache: int)
    requires id in t.live
  {
    var sc := t.live[id];
    if owed > 1 then
      && id in t'.live && t'.live[id] == sc.(scans := owed - 1)
      && t'.finished == t.finished && t'.cache == t.cache
    else
      && id !in t'.live
      && t'.finished == t.finished[id := Finish(sc.positive, now)]
      && t'.cache == if sc.manual || sc.positive || negcache <= 0 then t.cache else Cache.Inserted(t.cache, sc.ip, now)
  }

  lemma TestDoneSettles(t: Tracker, id: nat, now: int, negcache: int)
    requires id in t.live && 0 < t.live[id].scans < 65536
    ensures Settled(t, TestDone(t, id, now, negcache), id, t.live[id].scans, now, negcache)
  {
    var d := DropTest(t, id);
    assert d.live[id].scans == t.live[id].scans - 1;
  }

  /**
   When a proxy scan ends, the scan it belongs to is finished exactly if nothing else is owed to it;
   then, and only then, a clean automatic scan enters its address in the cache.
   */
  lemma {:induction false} EndSettles(cfg: Config, start: int, trace: Trace, id: nat, scanner: nat, at: int)
    requires ValidConfig(cfg) && scanner in Outstanding(Run(cfg, start, trace).t, id)
    ensures var s := Before(cfg, start, trace, at);
            && id in s.t.live
            && Settled(s.t, Run(cfg, start, trace + [(End(id, scanner), at)]).t, id,
                       Owed(s.q.conns, s.t, id), s.now, cfg.negcache)
  {
    RunReacts(cfg, start, trace, End(id, scanner), at);
    BeforeRefs(cfg, start, trace, at);
    EndReported(cfg, Before(cfg, start, trace, at), id, scanner);
  }

  lemma EndReported(cfg: Config, s: State, id: nat, scanner: nat)
    requires Refs(s.q.conns, s.t, None, None) && scanner in Outstanding(s.t, id)
    ensures id in s.t.live
    ensures Settled(s.t, React(cfg, s, End(id, scanner)).t, id, Owed(s.q.conns, s.t, id), s.now, cfg.negcache)
  {
    EndHandled(cfg, s, id, scanner);
  }

  lemma EndHandled(cfg: Config, s: State, id: nat, scanner: nat)
    requires Refs(s.q.conns, s.t, None, None) && scanner in Outstanding(s.t, id)
    ensures id in s.t.live
    ensures Settled(s.t, ScannerEnds(s.t, id, scanner, s.now, cfg.negcache), id,
                    Owed(s.q.conns, s.t, id), s.now, cfg.negcache)
  {
    var t1 := s.t.(opm := s.t.opm[id := Outstanding(s.t, id) - {scanner}]);
    TestDoneSettles(t1, id, s.now, cfg.negcache);
  }

  // ---- Lookups that are answered or time out in a cycle ----

  /** The lookup is for a client's scan, and the reply lists the client. */
  ghost predicate Lists(cfg: Config, t: Tracker, c: Query, code: bv8) {
    && c.info.Some? && c.info.value.blacklist < |cfg.blacklists|
    && Listed(cfg.blacklists[c.info.value.blacklist], code)
    && c.info.value.scan in t.started && !t.started[c.info.value.scan].manual
  }

  lemma ListingHandled(cfg: Config, s: State, i: nat, code: bv8)
    requires Inv(cfg, s) && i < |s.q.conns| && Lists(cfg, s.t, s.q.conns[i], code)
    ensures ResultAt(cfg, s, i, ERR_NONE, code).t.klines[s.q.conns[i].info.value.scan] == 1
  {
    var info := s.q.conns[i].info.value;
    assert info.scan in s.t.live;
    ListedIsPositive(s.t, s.now, info.scan, cfg.blacklists[info.blacklist], code);
    TestDoneKlines(BlacklistHit(s.t, info.scan, cfg.blacklists[info.blacklist], code), info.scan, s.now, cfg.negcache);
  }

  // ---- The second pass as a walk ----

  /** A place of the second pass: the state, the entry it is at, and how much of the polled list is behind it. */
  datatype Place = Place(s: State, i: nat, answered: seq<Query>, k: nat)

  ghost function NextPlace(cfg: Config, net: Net, x: Place): Place {
    if x.i >= |x.s.q.conns| then x
    else
      var (s1, i1, answered1) := ServeOne(cfg, x.s, x.i, net.ready, net.received, net.resent, x.answered);
      Place(s1, i1, answered1, x.k + 1)
  }

  /** What the rest of the pass makes of the scans. */
  ghost function Rest(cfg: Config, net: Net, x: Place): Tracker {
    Serve(cfg, x.s, x.i, net.ready, net.received, net.resent, x.answered).0.t
  }

  /** A step brings the walk one nearer to its goal, with the same still to come of it. */
  ghost predicate Nears<X(!new), R(!new)>(next: X -> X, rest: X -> R, near: (X, nat) -> bool, x: X, d: nat) {
    near(x, d) && d > 0 ==> near(next(x), d - 1) && rest(next(x)) == rest(x)
  }

  /** A walk that keeps its distance from a goal comes to it, with the same still to come of it. */
  lemma {:induction false} Arrives<X(!new), R(!new)>(x: X, d: nat, next: X -> X, rest: X -> R, near: (X, nat) -> bool)
    returns (y: X)
    requires near(x, d)
    requires forall x, d :: Nears(next, rest, near, x, d)
    ensures near(y, 0) && rest(y) == rest(x)
    decreases d
  {
    assert Nears(next, rest, near, x, d);
    if d == 0 { y := x; } else { y := Arrives(next(x), d - 1, next, rest, near); }
  }

  /** The pass is d entries before query c, of which nothing is lost on the way. */
  ghost predicate Near(cfg: Config, net: Net, polled: seq<Query>, was: State, c: Query, x: Place, d: nat) {
    && Inv(cfg, x.s) && x.s.now == was.now && Grows(was.t, x.s.t)
    && Served(x.s, x.i, net.ready, x.answered, polled, x.k)
    && x.i + d < |x.s.q.conns| && x.s.q.conns[x.i + d] == c
  }

  lemma NearStep(cfg: Config, net: Net, polled: seq<Query>, was: State, c: Query, x: Place, d: nat)
    requires Near(cfg, net, polled, was, c, x, d) && d > 0
    ensures Near(cfg, net, polled, was, c, NextPlace(cfg, net, x), d - 1)
    ensures Rest(cfg, net, NextPlace(cfg, net, x)) == Rest(cfg, net, x)
  {
    var y := NextPlace(cfg, net, x);
    ServeOneKeeps(cfg, x.s, x.i, net.ready, net.received, net.resent, x.answered, polled, x.k);
    NearAgain(cfg, net, polled, was, c, x, y, d);
  }

  lemma NearAgain(cfg: Config, net: Net, polled: seq<Query>, was: State, c: Query, x: Place, y: Place, d: nat)
    requires Near(cfg, net, polled, was, c, x, d) && d > 0
    requires Inv(cfg, y.s) && y.s.now == x.s.now && Grows(x.s.t, y.s.t) && y.k == x.k + 1
    requires Served(y.s, y.i, net.ready, y.answered, polled, y.k)
    ensures Near(cfg, net, polled, was, c, y, d - 1)
  {
    GrowsTrans(was.t, x.s.t, y.s.t);
    NextInLine(x.s, x.i, y.s, y.i, polled, x.k, x.i + d);
  }

  lemma NearSteps(cfg: Config, net: Net, polled: seq<Query>, was: State, c: Query, next: Place -> Place,
                  rest: Place -> Tracker, near: (Place, nat) -> bool)
    requires forall x :: next(x) == NextPlace(cfg, net, x)
    requires forall x :: rest(x) == Rest(cfg, net, x)
    requires forall x, d: nat :: near(x, d) == Near(cfg, net, polled, was, c, x, d)
    ensures forall x, d :: Nears(next, rest, near, x, d)
  {
    forall x, d ensures Nears(next, rest, near, x, d) {
      if near(x, d) && d > 0 { NearStep(cfg, net, polled, was, c, x, d); }
    }
  }

  lemma NearStart(cfg: Config, net: Net, s: State, j: nat)
    requires Inv(cfg, s) && j < |s.q.conns|
    ensures Near(cfg, net, s.q.conns, s, s.q.conns[j], Place(s, 0, [], 0), j)
  {
  }

  /** The second pass comes to every query that was listed at the poll. */
  lemma {:induction false} ServeReaches(cfg: Config, net: Net, s: State, j: nat) returns (y: Place)
    requires Inv(cfg, s) && j < |s.q.conns|
    ensures Near(cfg, net, s.q.conns, s, s.q.conns[j], y, 0)
    ensures Rest(cfg, net, y) == Rest(cfg, net, Place(s, 0, [], 0))
  {
    NearStart(cfg, net, s, j);
    y := WalksThere(cfg, net, s.q.conns, s, s.q.conns[j], Place(s, 0, [], 0), j,
                    (x: Place) => NextPlace(cfg, net, x), (x: Place) => Rest(cfg, net, x),
                    (x: Place, d: nat) => Near(cfg, net, s.q.conns, s, s.q.conns[j], x, d));
  }

  lemma WalksThere(cfg: Config, net: Net, polled: seq<Query>, was: State, c: Query, x: Place, d: nat,
                   next: Place -> Place, rest: Place -> Tracker, near: (Place, nat) -> bool) returns (y: Place)
    requires forall x :: next(x) == NextPlace(cfg, net, x)
    requires forall x :: rest(x) == Rest(cfg, net, x)
    requires forall x, d: nat :: near(x, d) == Near(cfg, net, polled, was, c, x, d)
    requires near(x, d)
    ensures near(y, 0) && rest(y) == rest(x)
  {
    NearSteps(cfg, net, polled, was, c, next, rest, near);
    y := Arrives(x, d, next, rest, near);
  }

  /** A listing that is ready has its kline sent in the second pass. */
  lemma ServeKlines(cfg: Config, net: Net, s: State, j: nat, code: bv8)
    requires Inv(cfg, s) && j < |s.q.conns| && Lists(cfg, s.t, s.q.conns[j], code)
    requires var c := s.q.conns[j];
             c.fd > 0 && c.fd in net.ready && ReplyOn(cfg, c, net.received) == Answer(ERR_NONE, code)
    ensures Rest(cfg, net, Place(s, 0, [], 0)).klines[s.q.conns[j].info.value.scan] >= 1
  {
    var y := ServeReaches(cfg, net, s, j);
    ListingServed(cfg, y.s, y.i, net.ready, net.received, net.resent, y.answered, code);
    RestGrows(cfg, net, s.q.conns, s, s.q.conns[j], y);
    KlinesGrow(NextPlace(cfg, net, y).s.t, Rest(cfg, net, y), s.q.conns[j].info.value.scan);
  }

  /** What the rest of the pass does comes on top of what is done at this place. */
  lemma RestGrows(cfg: Config, net: Net, polled: seq<Query>, was: State, c: Query, x: Place)
    requires Near(cfg, net, polled, was, c, x, 0)
    ensures Grows(NextPlace(cfg, net, x).s.t, Rest(cfg, net, x))
  {
    var y := NextPlace(cfg, net, x);
    ServeOneKeeps(cfg, x.s, x.i, net.ready, net.received, net.resent, x.answered, polled, x.k);
    ServeKeeps(cfg, y.s, y.i, net.ready, net.received, net.resent, y.answered, polled, y.k);
  }

  lemma KlinesGrow(t: Tracker, t': Tracker, id: nat)
    requires Grows(t, t')
    ensures t.klines[id] <= t'.klines[id]
  {
  }

  lemma ListingServed(cfg: Config, s: State, i: nat, ready: set<int>, received: map<int, seq<Byte>>,
                      resent: map<nat, Sent>, answered: seq<Query>, code: bv8)
    requires Inv(cfg, s) && i < |s.q.conns| && Lists(cfg, s.t, s.q.conns[i], code)
    requires var c := s.q.conns[i];
             c.fd > 0 && c.fd in ready && ReplyOn(cfg, c, received) == Answer(ERR_NONE, code)
    ensures ServeOne(cfg, s, i, ready, received, resent, answered).0.t.klines[s.q.conns[i].info.value.scan] == 1
  {
    FindsItself(s.q.conns, i);
    ErrorKeeps(cfg, s, ERR_OTHER);
    ListingHandled(cfg, s.(q := s.q.(error := ERR_OTHER)), i, code);
  }

  lemma NextInLine(s: State, i: nat, s1: State, i1: nat, polled: seq<Query>, k: nat, j: nat)
    requires i < j < |s.q.conns| && k < |polled| && s.q.conns[i..] == polled[k..]
    requires i1 <= |s1.q.conns| && s1.q.conns[i1..] == polled[k + 1..]
    ensures i1 + (j - i - 1) < |s1.q.conns| && s1.q.conns[i1 + (j - i - 1)] == s.q.conns[j]
  {
    assert s.q.conns[j] == s.q.conns[i..][j - i] == polled[k + (j - i)];
    assert polled[k + (j - i)] == polled[k + 1..][j - i - 1] == s1.q.conns[i1..][j - i - 1];
  }

  /** In the state an event finds, query c is open and in time, and the cycle reads this reply on it. */
  ghost predicate Answers(cfg: Config, e: Event, s: State, c: Query, reply: Reply) {
    && e.Cycle? && e.count != -1 && e.count != 0
    && c in s.q.conns && c.fd > 0 && !Expired(c, s.now) && c.fd in e.ready && ReplyOn(cfg, c, e.received) == reply
  }

  /** What the first pass of the cycle leaves to the second: the query, listed and polled. */
  lemma SweptIsPolled(cfg: Config, s: State, c: Query) returns (j: nat)
    requires Inv(cfg, s) && c in s.q.conns && c.fd > 0 && !Expired(c, s.now)
    ensures var (s1, ufds) := Sweep(cfg, s, 0, []);
            && Inv(cfg, s1) && s1.now == s.now && Grows(s.t, s1.t)
            && j < |s1.q.conns| && s1.q.conns[j] == c && c.fd in ufds
  {
    assert s.q.conns[..0] == [];
    SweepKeeps(cfg, s, 0, []);
    SweepLeaves(cfg, s, c);
    var (s1, ufds) := Sweep(cfg, s, 0, []);
    j :| 0 <= j < |s1.q.conns| && s1.q.conns[j] == c;
  }

  /** The event is a cycle that finds the query ready and reads this reply on it. */
  ghost predicate Reads(cfg: Config, e: Event, c: Query, reply: Reply) {
    e.Cycle? && e.count != -1 && e.count != 0 && c.fd in e.ready && ReplyOn(cfg, c, e.received) == reply
  }

  /**
   In any run, a cycle that reads a listing of a client within five seconds of the time the lookup was sent,
   the first answer to it, has the client's kline sent, exactly once.
   */
  lemma {:induction false} ListingIsKlined(cfg: Config, start: int, trace: Trace, e: Event, at: int, n: nat, c: Query,
                                           code: bv8)
    requires ValidConfig(cfg) && InTime(cfg, start, trace, n, c, at) && !AnsweredSince(cfg, trace, n, c)
    requires Reads(cfg, e, c, Answer(ERR_NONE, code)) && Lists(cfg, Before(cfg, start, trace, at).t, c, code)
    ensures Run(cfg, start, trace + [(e, at)]).t.klines[c.info.value.scan] == 1
  {
    InTimeListed(cfg, start, trace, n, c, at);
    RunReacts(cfg, start, trace, e, at);
    BeforeKeeps(cfg, start, trace, at);
    ListingInCycle(cfg, Before(cfg, start, trace, at), e, c, code);
    KlinesAndCaching(cfg, start, trace + [(e, at)], c.info.value.scan);
  }

  lemma ListingInCycle(cfg: Config, s: State, e: Event, c: Query, code: bv8)
    requires Inv(cfg, s) && Answers(cfg, e, s, c, Answer(ERR_NONE, code)) && Lists(cfg, s.t, c, code)
    ensures CycleStep(cfg, s, e).t.klines[c.info.value.scan] >= 1
  {
    var j := SweptIsPolled(cfg, s, c);
    var (s1, ufds) := Sweep(cfg, s, 0, []);
    ListsLater(cfg, s.t, s1.t, c, code);
    ServeKlines(cfg, NetOf(e, ufds), s1, j, code);
    CycleServes(cfg, s, e, s1, ufds);
  }

  lemma ListsLater(cfg: Config, t: Tracker, t': Tracker, c: Query, code: bv8)
    requires Lists(cfg, t, c, code) && Grows(t, t')
    ensures Lists(cfg, t', c, code)
  {
  }

  lemma CycleServes(cfg: Config, s: State, e: Event, s1: State, ufds: seq<int>)
    requires e.Cycle? && e.count != -1 && e.count != 0 && s.q.conns != [] && Sweep(cfg, s, 0, []) == (s1, ufds)
    ensures CycleStep(cfg, s, e).t == Rest(cfg, NetOf(e, ufds), Place(s1, 0, [], 0))
  {
  }

  // ---- The last lookup of a scan ----

  /** Entry j is the one lookup for its scan, and all the scan waits for. */
  ghost predicate Lone(s: State, c: Query, sc: Scan, j: nat) {
    && j < |s.q.conns| && s.q.conns[j] == c && c.info.Some? && sc.scans == 1
    && c.info.value.scan in s.t.live && s.t.live[c.info.value.scan] == sc
    && forall m | 0 <= m < |s.q.conns| && m != j && s.q.conns[m].info.Some? ::
         s.q.conns[m].info.value.scan != c.info.value.scan
  }

  ghost predicate StillLone(s: State, c: Query, sc: Scan) {
    exists j :: Lone(s, c, sc, j)
  }

  /** The scan is finished and freed, and its address is cached exactly if it was automatic and clean. */
  ghost predicate Over(t: Tracker, id: nat, sc: Scan, positive: bool, now: int, negcache: int) {
    && id !in t.live && id in t.finished && t.finished[id] == Finish(positive, now)
    && (id in t.cachedBy <==> !sc.manual && !positive && negcache > 0)
    && (id in t.cachedBy && sc.ip.Some? ==>
          if sc.ip.value == 0 then t.zero == now else sc.ip.value in t.cache && t.cache[sc.ip.value] == now)
  }

  /** Whether this result turns the scan positive. */
  ghost predicate TurnsPositive(cfg: Config, c: Query, sc: Scan, error: int, code: bv8)
    requires c.info.Some?
  {
    && error == ERR_NONE && c.info.value.blacklist < |cfg.blacklists|
    && Listed(cfg.blacklists[c.info.value.blacklist], code) && !sc.manual
  }

  /** Handling the result of the lone lookup ends its scan. */
  lemma LoneHandled(cfg: Config, s: State, c: Query, sc: Scan, j: nat, error: int, code: bv8)
    requires LiveHistory(s.t) && Lone(s, c, sc, j)
    ensures Over(ResultAt(cfg, s, j, error, code).t, c.info.value.scan, sc,
                 sc.positive || TurnsPositive(cfg, c, sc, error, code), s.now, cfg.negcache)
  {
    var info := c.info.value;
    var t1 :=
      if error == ERR_NONE && info.blacklist < |cfg.blacklists|
      then BlacklistHit(s.t, info.scan, cfg.blacklists[info.blacklist], code) else s.t;
    var sc1 := sc.(positive := sc.positive || TurnsPositive(cfg, c, sc, error, code));
    assert t1.live[info.scan] == sc1;
    TestOver(t1, info.scan, sc1, s.now, cfg.negcache);
  }

  lemma TestOver(t: Tracker, id: nat, sc: Scan, now: int, negcache: int)
    requires id in t.live && t.live[id] == sc && sc.scans == 1 && id !in t.cachedBy
    ensures Over(TestDone(t, id, now, negcache), id, sc, sc.positive, now, negcache)
  {
    TestDoneSettles(t, id, now, negcache);
  }

  /** Nothing has changed for this scan, and what was cached just now still is. */
  ghost predicate SameFor(t: Tracker, t': Tracker, id: nat, now: int) {
    && (id in t'.live <==> id in t.live) && (id in t.live ==> t'.live[id] == t.live[id])
    && (id in t.finished ==> id in t'.finished && t'.finished[id] == t.finished[id])
    && (id in t'.cachedBy <==> id in t.cachedBy)
    && (t.zero == now ==> t'.zero == now)
    && (forall ip | ip in t.cache && t.cache[ip] == now :: ip in t'.cache && t'.cache[ip] == now)
  }

  lemma OverStays(t: Tracker, t': Tracker, id: nat, sc: Scan, positive: bool, now: int, negcache: int)
    requires Over(t, id, sc, positive, now, negcache) && SameFor(t, t', id, now)
    ensures Over(t', id, sc, positive, now, negcache)
  {
  }

  lemma OtherFinishes(t: Tracker, other: nat, id: nat, now: int, negcache: int)
    requires other in t.live && other != id
    ensures SameFor(t, CheckFinished(t, other, now, negcache), id, now)
  {
    if t.live[other].scans == 0 {
      var t' := CheckFinished(t, other, now, negcache);
      FinishParts(t, now, other, negcache);
      assert t'.cache == t.cache || t'.cache == Cache.Inserted(t.cache, t.live[other].ip, now);
      assert t'.zero == t.zero || t'.zero == now;
    }
  }

  /** Handling the result of another scan's lookup changes nothing for this one. */
  lemma OtherHandled(cfg: Config, s: State, i: nat, error: int, code: bv8, id: nat)
    requires i < |s.q.conns| && (s.q.conns[i].info.Some? ==> s.q.conns[i].info.value.scan != id)
    ensures SameFor(s.t, ResultAt(cfg, s, i, error, code).t, id, s.now)
  {
    if s.q.conns[i].info.Some? {
      var info := s.q.conns[i].info.value;
      if info.scan in s.t.live {
        var t1 :=
          if error == ERR_NONE && info.blacklist < |cfg.blacklists|
          then BlacklistHit(s.t, info.scan, cfg.blacklists[info.blacklist], code) else s.t;
        OtherFinishes(DropTest(t1, info.scan), info.scan, id, s.now, cfg.negcache);
      }
    }
  }

  /** A lone lookup stays one while another entry is taken off the list. */
  lemma LoneStays(cfg: Config, s: State, c: Query, sc: Scan, j: nat, i: nat, error: int, code: bv8)
    requires Lone(s, c, sc, j) && i < |s.q.conns| && i != j
    ensures Lone(ResultAt(cfg, s, i, error, code), c, sc, if i < j then j - 1 else j)
  {
    OtherHandled(cfg, s, i, error, code, c.info.value.scan);
    var w := Without(s.q.conns, i);
    assert forall m | 0 <= m < |w| :: w[m] == s.q.conns[if m < i then m else m + 1];
  }

  /** After the first pass the lone lookup is still waited for, or was expired and its scan is over. */
  lemma {:induction false} SweepLone(cfg: Config, s: State, i: nat, ufds: seq<int>, c: Query, sc: Scan, j: nat)
    requires Inv(cfg, s) && Lone(s, c, sc, j)
    ensures var s' := Sweep(cfg, s, i, ufds).0;
            || StillLone(s', c, sc)
            || (Expired(c, s.now) && Over(s'.t, c.info.value.scan, sc, sc.positive, s.now, cfg.negcache))
    decreases |s.q.conns| - i
  {
    if i < |s.q.conns| && |ufds| < cfg.fdLimit {
      var (s1, i1, ufds1) := SweepOne(cfg, s, i, ufds);
      if s1 == s {
        SweepLone(cfg, s1, i1, ufds1, c, sc, j);
      } else {
        ResultKeeps(cfg, s, i, ERR_TIMEOUT, 0);
        if i != j {
          LoneStays(cfg, s, c, sc, j, i, ERR_TIMEOUT, 0);
          SweepLone(cfg, s1, i1, ufds1, c, sc, if i < j then j - 1 else j);
        } else {
          LoneHandled(cfg, s, c, sc, j, ERR_TIMEOUT, 0);
          SweepOver(cfg, s1, i1, ufds1, c.info.value.scan, sc, sc.positive);
        }
      }
    } else {
      assert Sweep(cfg, s, i, ufds).0 == s;
    }
  }

  /** Once a scan is over, the rest of the first pass leaves it so. */
  lemma {:induction false} SweepOver(cfg: Config, s: State, i: nat, ufds: seq<int>, id: nat, sc: Scan, positive: bool)
    requires Inv(cfg, s) && Over(s.t, id, sc, positive, s.now, cfg.negcache)
    ensures Over(Sweep(cfg, s, i, ufds).0.t, id, sc, positive, s.now, cfg.negcache)
    decreases |s.q.conns| - i
  {
    if i < |s.q.conns| && |ufds| < cfg.fdLimit {
      var (s1, i1, ufds1) := SweepOne(cfg, s, i, ufds);
      if s1 != s {
        ResultKeeps(cfg, s, i, ERR_TIMEOUT, 0);
        OtherHandled(cfg, s, i, ERR_TIMEOUT, 0, id);
        OverStays(s.t, s1.t, id, sc, positive, s.now, cfg.negcache);
      }
      SweepOver(cfg, s1, i1, ufds1, id, sc, positive);
    }
  }

  /** Once a scan is over, the rest of the second pass leaves it so. */
  lemma {:induction false} ServeOver(cfg: Config, s: State, i: nat, ready: set<int>, received: map<int, seq<Byte>>,
                                     resent: map<nat, Sent>, answered: seq<Query>, polled: seq<Query>, k: nat,
                                     id: nat, sc: Scan, positive: bool)
    requires Inv(cfg, s) && Served(s, i, ready, answered, polled, k)
    requires Over(s.t, id, sc, positive, s.now, cfg.negcache)
    ensures Over(Serve(cfg, s, i, ready, received, resent, answered).0.t, id, sc, positive, s.now, cfg.negcache)
    decreases |s.q.conns| - i
  {
    if i < |s.q.conns| {
      var (s1, i1, answered1) := ServeOne(cfg, s, i, ready, received, resent, answered);
      ServeOneKeeps(cfg, s, i, ready, received, resent, answered, polled, k);
      OverServed(cfg, s, i, ready, received, resent, answered, id, sc, positive);
      ServeOver(cfg, s1, i1, ready, received, resent, answered1, polled, k + 1, id, sc, positive);
    }
  }

  lemma OverServed(cfg: Config, s: State, i: nat, ready: set<int>, received: map<int, seq<Byte>>,
                   resent: map<nat, Sent>, answered: seq<Query>, id: nat, sc: Scan, positive: bool)
    requires Inv(cfg, s) && i < |s.q.conns| && Over(s.t, id, sc, positive, s.now, cfg.negcache)
    ensures Over(ServeOne(cfg, s, i, ready, received, resent, answered).0.t, id, sc, positive, s.now, cfg.negcache)
  {
    var c := s.q.conns[i];
    if c.fd > 0 && c.fd in ready {
      var reply := ReplyOn(cfg, c, received);
      ReadOther(cfg, s, i, reply, id);
      OverStays(s.t, GetResult(cfg, s, c.fd, reply).t, id, sc, positive, s.now, cfg.negcache);
      ServesReady(cfg, s, i, ready, received, resent, answered);
    }
  }

  /** Reading a reply for another scan changes nothing for this one. */
  lemma ReadOther(cfg: Config, s: State, i: nat, reply: Reply, id: nat)
    requires Inv(cfg, s) && i < |s.q.conns| && s.q.conns[i].fd > 0
    requires s.q.conns[i].info.Some? ==> s.q.conns[i].info.value.scan != id
    ensures SameFor(s.t, GetResult(cfg, s, s.q.conns[i].fd, reply).t, id, s.now)
  {
    FindsItself(s.q.conns, i);
    if reply.Answer? {
      OtherHandled(cfg, s.(q := s.q.(error := ERR_OTHER)), i, reply.error,
                   if reply.error == ERR_NONE then reply.code else 0, id);
    }
  }

  /** The pass is d entries before the lone lookup. */
  ghost predicate NearLone(cfg: Config, net: Net, polled: seq<Query>, was: State, c: Query, sc: Scan,
                           x: Place, d: nat) {
    Near(cfg, net, polled, was, c, x, d) && Lone(x.s, c, sc, x.i + d)
  }

  lemma NearLoneStep(cfg: Config, net: Net, polled: seq<Query>, was: State, c: Query, sc: Scan, x: Place, d: nat)
    requires NearLone(cfg, net, polled, was, c, sc, x, d) && d > 0
    ensures NearLone(cfg, net, polled, was, c, sc, NextPlace(cfg, net, x), d - 1)
    ensures Rest(cfg, net, NextPlace(cfg, net, x)) == Rest(cfg, net, x)
  {
    NearStep(cfg, net, polled, was, c, x, d);
    LoneServed(cfg, x.s, x.i, net.ready, net.received, net.resent, x.answered, c, sc, x.i + d);
  }

  lemma NearLoneSteps(cfg: Config, net: Net, polled: seq<Query>, was: State, c: Query, sc: Scan, next: Place -> Place,
                      rest: Place -> Tracker, near: (Place, nat) -> bool)
    requires forall x :: next(x) == NextPlace(cfg, net, x)
    requires forall x :: rest(x) == Rest(cfg, net, x)
    requires forall x, d: nat :: near(x, d) == NearLone(cfg, net, polled, was, c, sc, x, d)
    ensures forall x, d :: Nears(next, rest, near, x, d)
  {
    forall x, d ensures Nears(next, rest, near, x, d) {
      if near(x, d) && d > 0 { NearLoneStep(cfg, net, polled, was, c, sc, x, d); }
    }
  }

  lemma WalksToLone(cfg: Config, net: Net, polled: seq<Query>, was: State, c: Query, sc: Scan, x: Place, d: nat,
                    next: Place -> Place, rest: Place -> Tracker, near: (Place, nat) -> bool) returns (y: Place)
    requires forall x :: next(x) == NextPlace(cfg, net, x)
    requires forall x :: rest(x) == Rest(cfg, net, x)
    requires forall x, d: nat :: near(x, d) == NearLone(cfg, net, polled, was, c, sc, x, d)
    requires near(x, d)
    ensures near(y, 0) && rest(y) == rest(x)
  {
    NearLoneSteps(cfg, net, polled, was, c, sc, next, rest, near);
    y := Arrives(x, d, next, rest, near);
  }

  /** Where the second pass comes to the lone lookup, it still is one. */
  lemma ReachesLone(cfg: Config, net: Net, s: State, c: Query, sc: Scan, j: nat) returns (y: Place)
    requires Inv(cfg, s) && Lone(s, c, sc, j)
    ensures NearLone(cfg, net, s.q.conns, s, c, sc, y, 0)
    ensures Rest(cfg, net, y) == Rest(cfg, net, Place(s, 0, [], 0))
  {
    NearStart(cfg, net, s, j);
    y := WalksToLone(cfg, net, s.q.conns, s, c, sc, Place(s, 0, [], 0), j,
                     (x: Place) => NextPlace(cfg, net, x), (x: Place) => Rest(cfg, net, x),
                     (x: Place, d: nat) => NearLone(cfg, net, s.q.conns, s, c, sc, x, d));
  }

  /** A lone lookup that is ready ends its scan in the second pass. */
  lemma ServeLone(cfg: Config, net: Net, s: State, c: Query, sc: Scan, j: nat, error: int, code: bv8)
    requires Inv(cfg, s) && Lone(s, c, sc, j)
    requires c.fd > 0 && c.fd in net.ready && ReplyOn(cfg, c, net.received) == Answer(error, code)
    ensures Over(Rest(cfg, net, Place(s, 0, [], 0)), c.info.value.scan, sc,
                 sc.positive || TurnsPositive(cfg, c, sc, error, code), s.now, cfg.negcache)
  {
    var y := ReachesLone(cfg, net, s, c, sc, j);
    LoneEnds(cfg, net, s.q.conns, s, c, sc, y, error, code);
  }

  lemma LoneEnds(cfg: Config, net: Net, polled: seq<Query>, was: State, c: Query, sc: Scan, x: Place,
                 error: int, code: bv8)
    requires NearLone(cfg, net, polled, was, c, sc, x, 0)
    requires c.fd > 0 && c.fd in net.ready && ReplyOn(cfg, c, net.received) == Answer(error, code)
    ensures Over(Rest(cfg, net, x), c.info.value.scan, sc,
                 sc.positive || TurnsPositive(cfg, c, sc, error, code), was.now, cfg.negcache)
  {
    var y := NextPlace(cfg, net, x);
    ServeOneKeeps(cfg, x.s, x.i, net.ready, net.received, net.resent, x.answered, polled, x.k);
    LoneIsOver(cfg, net, x, c, sc, error, code);
    ServeOver(cfg, y.s, y.i, net.ready, net.received, net.resent, y.answered, polled, y.k, c.info.value.scan, sc,
              sc.positive || TurnsPositive(cfg, c, sc, error, code));
  }

  lemma LoneIsOver(cfg: Config, net: Net, x: Place, c: Query, sc: Scan, error: int, code: bv8)
    requires FdsApart(x.s.q.conns) && LiveHistory(x.s.t) && Lone(x.s, c, sc, x.i)
    requires c.fd > 0 && c.fd in net.ready && ReplyOn(cfg, c, net.received) == Answer(error, code)
    ensures Over(NextPlace(cfg, net, x).s.t, c.info.value.scan, sc,
                 sc.positive || TurnsPositive(cfg, c, sc, error, code), x.s.now, cfg.negcache)
  {
    FindsItself(x.s.q.conns, x.i);
    LoneHandled(cfg, x.s.(q := x.s.q.(error := ERR_OTHER)), c, sc, x.i, error, if error == ERR_NONE then code else 0);
  }

  /** Reading a reply to another entry leaves a lone lookup one. */
  lemma LoneRead(cfg: Config, s: State, i: nat, reply: Reply, c: Query, sc: Scan, j: nat)
    requires FdsApart(s.q.conns) && Lone(s, c, sc, j) && i < j && s.q.conns[i].fd > 0
    ensures var s1 := GetResult(cfg, s, s.q.conns[i].fd, reply);
            Lone(s1, c, sc, if |s1.q.conns| < |s.q.conns| then j - 1 else j)
  {
    FindsItself(s.q.conns, i);
    if reply.Answer? {
      LoneStays(cfg, s.(q := s.q.(error := ERR_OTHER)), c, sc, j, i, reply.error,
                if reply.error == ERR_NONE then reply.code else 0);
    }
  }

  /** Sending another entry that waited leaves a lone lookup one. */
  lemma LoneSent(s: State, i: nat, sent: Sent, c: Query, sc: Scan, j: nat)
    requires Lone(s, c, sc, j) && i < j
    ensures Lone(s.(q := Reopen(s.q, i, sent, s.now)), c, sc, j)
  {
  }

  /** What the second pass does at an entry that is ready. */
  lemma ServesReady(cfg: Config, s: State, i: nat, ready: set<int>, received: map<int, seq<Byte>>,
                    resent: map<nat, Sent>, answered: seq<Query>)
    requires FdsApart(s.q.conns) && i < |s.q.conns| && s.q.conns[i].fd > 0 && s.q.conns[i].fd in ready
    ensures var s1 := GetResult(cfg, s, s.q.conns[i].fd, ReplyOn(cfg, s.q.conns[i], received));
            var r := ServeOne(cfg, s, i, ready, received, resent, answered);
            r.0 == s1 && r.1 == if |s1.q.conns| < |s.q.conns| then i else i + 1
  {
    FindsItself(s.q.conns, i);
  }

  /** One step of the second pass on another entry leaves a lone lookup one. */
  lemma LoneServed(cfg: Config, s: State, i: nat, ready: set<int>, received: map<int, seq<Byte>>,
                   resent: map<nat, Sent>, answered: seq<Query>, c: Query, sc: Scan, j: nat)
    requires FdsApart(s.q.conns) && Lone(s, c, sc, j) && i < j
    ensures var (s1, i1, _) := ServeOne(cfg, s, i, ready, received, resent, answered);
            Lone(s1, c, sc, i1 + (j - i - 1))
  {
    var d := s.q.conns[i];
    if d.fd > 0 && d.fd in ready {
      LoneRead(cfg, s, i, ReplyOn(cfg, d, received), c, sc, j);
      ServesReady(cfg, s, i, ready, received, resent, answered);
    } else if d.fd <= 0 && s.q.inuse < cfg.fdLimit {
      LoneSent(s, i, if d.uid in resent then resent[d.uid] else NotSent(ERR_NETWORK), c, sc, j);
    }
  }

  /**
   In any run, a cycle that reads an answer to the last thing a scan waits for, within five seconds of the time
   it was sent, finishes and frees that scan: positive if it was or the reply lists a client, and cached exactly
   if automatic and clean.
   */
  lemma {:induction false} AnswerSettles(cfg: Config, start: int, trace: Trace, e: Event, at: int, n: nat, c: Query,
                                         error: int, code: bv8)
    requires ValidConfig(cfg) && InTime(cfg, start, trace, n, c, at) && !AnsweredSince(cfg, trace, n, c)
    requires c.info.Some? && Reads(cfg, e, c, Answer(error, code))
    requires var s := Before(cfg, start, trace, at); Owed(s.q.conns, s.t, c.info.value.scan) == 1
    ensures var s := Before(cfg, start, trace, at); var id := c.info.value.scan;
            && id in s.t.live
            && Over(Run(cfg, start, trace + [(e, at)]).t, id, s.t.live[id],
                    s.t.live[id].positive || TurnsPositive(cfg, c, s.t.live[id], error, code), s.now, cfg.negcache)
  {
    InTimeListed(cfg, start, trace, n, c, at);
    RunReacts(cfg, start, trace, e, at);
    BeforeKeeps(cfg, start, trace, at);
    AnswerInCycle(cfg, Before(cfg, start, trace, at), e, c, error, code);
  }

  lemma AnswerInCycle(cfg: Config, s: State, e: Event, c: Query, error: int, code: bv8)
    requires Inv(cfg, s) && c.info.Some? && Answers(cfg, e, s, c, Answer(error, code))
    requires Owed(s.q.conns, s.t, c.info.value.scan) == 1
    ensures var id := c.info.value.scan;
            && id in s.t.live
            && Over(CycleStep(cfg, s, e).t, id, s.t.live[id],
                    s.t.live[id].positive || TurnsPositive(cfg, c, s.t.live[id], error, code), s.now, cfg.negcache)
  {
    var j0 := LastIsLone(cfg, s, c);
    var sc := s.t.live[c.info.value.scan];
    var (s1, ufds) := Sweep(cfg, s, 0, []);
    var j := SweptIsLone(cfg, s, c, sc, j0, s1, ufds);
    ServeLone(cfg, NetOf(e, ufds), s1, c, sc, j, error, code);
    CycleServes(cfg, s, e, s1, ufds);
  }

  /** A lone lookup in time still is one after the first pass, and polled. */
  lemma SweptIsLone(cfg: Config, s: State, c: Query, sc: Scan, j0: nat, s1: State, ufds: seq<int>) returns (j: nat)
    requires Inv(cfg, s) && Lone(s, c, sc, j0) && c.fd > 0 && !Expired(c, s.now) && (s1, ufds) == Sweep(cfg, s, 0, [])
    ensures Inv(cfg, s1) && s1.now == s.now && Lone(s1, c, sc, j) && c.fd in ufds
  {
    SweepLone(cfg, s, 0, [], c, sc, j0);
    var _ := SweptIsPolled(cfg, s, c);
    j :| Lone(s1, c, sc, j);
  }

  /** The only thing owed to a scan is a lone lookup. */
  lemma LastIsLone(cfg: Config, s: State, c: Query) returns (j: nat)
    requires Inv(cfg, s) && c in s.q.conns && c.info.Some? && Owed(s.q.conns, s.t, c.info.value.scan) == 1
    ensures c.info.value.scan in s.t.live && Lone(s, c, s.t.live[c.info.value.scan], j)
  {
    var id := c.info.value.scan;
    j :| 0 <= j < |s.q.conns| && s.q.conns[j] == c;
    OnlyLookup(s.q.conns, s.t, j, id);
  }

  lemma OnlyLookup(conns: seq<Query>, t: Tracker, j: nat, id: nat)
    requires j < |conns| && conns[j].info.Some? && conns[j].info.value.scan == id && Lookups(conns, id) <= 1
    ensures Lookups(conns, id) == 1
    ensures forall m | 0 <= m < |conns| && m != j && conns[m].info.Some? :: conns[m].info.value.scan != id
  {
    LookupsWithout(conns, j, id);
    var w := Without(conns, j);
    OthersReferenced(w, t, id);
    forall m | 0 <= m < |conns| && m != j && conns[m].info.Some? ensures conns[m].info.value.scan != id {
      assert conns[m] == w[if m < j then m else m - 1];
    }
  }

  /**
   In any run, the first cycle more than five seconds after the last thing a scan waits for was sent finishes and
   frees that scan.
   */
  lemma {:induction false} TimeoutSettles(cfg: Config, start: int, trace: Trace, e: Event, at: int, n: nat, c: Query)
    requires ValidConfig(cfg) && SentAt(cfg, start, trace, n, c) && e.Cycle? && c.info.Some?
    requires Before(cfg, start, trace, at).now > TimeOf(cfg, start, trace, n) + 5
    requires var s := Before(cfg, start, trace, at);
             c in s.q.conns && Owed(s.q.conns, s.t, c.info.value.scan) == 1
    ensures var s := Before(cfg, start, trace, at); var id := c.info.value.scan;
            && id in s.t.live
            && Over(Run(cfg, start, trace + [(e, at)]).t, id, s.t.live[id], s.t.live[id].positive, s.now, cfg.negcache)
  {
    SentIsStamped(cfg, start, trace, n, c);
    RunReacts(cfg, start, trace, e, at);
    BeforeKeeps(cfg, start, trace, at);
    TimeoutInCycle(cfg, Before(cfg, start, trace, at), e, c);
  }

  lemma TimeoutInCycle(cfg: Config, s: State, e: Event, c: Query)
    requires Inv(cfg, s) && e.Cycle? && c.info.Some?
    requires c in s.q.conns && Expired(c, s.now) && Owed(s.q.conns, s.t, c.info.value.scan) == 1
    ensures var id := c.info.value.scan;
            && id in s.t.live
            && Over(CycleStep(cfg, s, e).t, id, s.t.live[id], s.t.live[id].positive, s.now, cfg.negcache)
  {
    var j0 := LastIsLone(cfg, s, c);
    var sc := s.t.live[c.info.value.scan];
    var (s1, ufds) := Sweep(cfg, s, 0, []);
    SweptIsOver(cfg, s, c, sc, j0, s1, ufds);
    if e.count != -1 && e.count != 0 {
      var net := NetOf(e, ufds);
      ServeOver(cfg, s1, 0, net.ready, net.received, net.resent, [], s1.q.conns, 0, c.info.value.scan, sc, sc.positive);
      CycleServes(cfg, s, e, s1, ufds);
    }
  }

  /** The first pass ends the scan of a lone lookup that is expired. */
  lemma SweptIsOver(cfg: Config, s: State, c: Query, sc: Scan, j0: nat, s1: State, ufds: seq<int>)
    requires Inv(cfg, s) && Lone(s, c, sc, j0) && Expired(c, s.now) && (s1, ufds) == Sweep(cfg, s, 0, [])
    ensures Inv(cfg, s1) && s1.now == s.now && Over(s1.t, c.info.value.scan, sc, sc.positive, s.now, cfg.negcache)
  {
    assert s.q.conns[..0] == [];
    SweepKeeps(cfg, s, 0, []);
    SweepLone(cfg, s, 0, [], c, sc, j0);
  }
}
