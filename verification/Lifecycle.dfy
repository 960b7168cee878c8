/**
 The life of a scan: from the connect (or a manual check) that starts it, through blacklist
 lookups and proxy scans that come back in any order, to the point where it is finished and freed.

 libopm is an environment: each accepted scan owes one END callback, open-proxy callbacks come
 before it, and an event it may not raise is ignored.
 */
module Lifecycle {
  import opened Options
  import opened Basics
  import opened Bits
  import opened DnsQueue
  import Glob
  import Cache = NegCache

  /** An IPv4 address as inet_pton gives it. */
  type Address = n: nat | n < 0x1_0000_0000

  const NEG_CACHE_REBUILD: nat := 60 * 60 * 12

  datatype Blacklist = Blacklist(bitmask: bool, banUnknown: bool, numbers: seq<bv8>)

  /**
   The blacklists, each scanner's masks, the masks of exempt clients, the most descriptors for lookups,
   how long a clean address is remembered, and the random id of each query.
   */
  datatype Config = Config(blacklists: seq<Blacklist>, scanners: seq<seq<Glob.Text>>, exempts: seq<Glob.Text>,
                           fdLimit: nat, negcache: int, ids: nat -> (Byte, Byte))

  /** Fewer than 65536 tests per scan, so that the unsigned short counter does not wrap. */
  ghost predicate ValidConfig(cfg: Config) {
    |cfg.blacklists| + |cfg.scanners| < 65536
  }

  /** scan_struct: the address if it parses, whether an operator asked, and the two counters. */
  datatype Scan = Scan(ip: Option<Address>, manual: bool, positive: bool, scans: nat)

  datatype Finish = Finish(positive: bool, at: int)

  /**
   The scans, the libopm scans still to end, the negative cache as a map with the time of its head
   (address 0), and the history: scans
   as started, scans as finished, klines sent, scans that entered their address in the cache, and
   the scan each cached address comes from. `dangling` records a callback for a freed scan.
   */
  datatype Tracker = Tracker(live: map<nat, Scan>, opm: map<nat, set<nat>>, nextScan: nat,
                             cache: Cache.Entries, zero: int,
                             started: map<nat, Scan>, finished: map<nat, Finish>, klines: multiset<nat>,
                             cachedBy: set<nat>, cacher: map<nat, nat>, dangling: bool)

  const IDLE := Tracker(map[], map[], 0, map[], 0, map[], map[], multiset{}, {}, map[], false)

  // ---- Steps of a scan ----

  function Create(t: Tracker, ip: Option<Address>, manual: bool): Tracker {
    var sc := Scan(ip, manual, false, 0);
    t.(live := t.live[t.nextScan := sc], started := t.started[t.nextScan := sc], nextScan := t.nextScan + 1)
  }

  function Outstanding(t: Tracker, id: nat): set<nat> {
    if id in t.opm then t.opm[id] else {}
  }

  /** ss->scans++ on an unsigned short. */
  function AddTest(t: Tracker, id: nat): Tracker
    requires id in t.live
  {
    t.(live := t.live[id := t.live[id].(scans := (t.live[id].scans + 1) % 65536)])
  }

  /** ss->scans-- on an unsigned short. */
  function DropTest(t: Tracker, id: nat): Tracker
    requires id in t.live
  {
    t.(live := t.live[id := t.live[id].(scans := (t.live[id].scans + 65535) % 65536)])
  }

  /** opm_scan succeeded: the scanner owes an END. */
  function ScannerAccepts(t: Tracker, id: nat, scanner: nat): Tracker
    requires id in t.live
  {
    AddTest(t, id).(opm := t.opm[id := Outstanding(t, id) + {scanner}])
  }

  function Free(t: Tracker, id: nat): Tracker {
    t.(live := t.live - {id})
  }

  /** scan_positive: one kline per scan, whatever finds it first. */
  function Positive(t: Tracker, id: nat): Tracker
    requires id in t.live
  {
    if t.live[id].positive then t
    else t.(live := t.live[id := t.live[id].(positive := true)], klines := t.klines + multiset{id})
  }

  /** scan_negative: the address goes in the negative cache. */
  function Negative(t: Tracker, id: nat, now: int, negcache: int): Tracker
    requires id in t.live
  {
    if negcache <= 0 then t
    else
      var ip := t.live[id].ip;
      t.(cache := Cache.Inserted(t.cache, ip, now),
         zero := Cache.ZeroSeen(t.zero, ip, now),
         cachedBy := t.cachedBy + {id},
         cacher := if ip.Some? && ip.value != 0 then t.cacher[ip.value := id] else t.cacher)
  }

  /** scan_checkfinished: with no test left, record a clean scan and free the scan. */
  function CheckFinished(t: Tracker, id: nat, now: int, negcache: int): Tracker
    requires id in t.live
  {
    if t.live[id].scans > 0 then t
    else
      var sc := t.live[id];
      var t1 := t.(finished := t.finished[id := Finish(sc.positive, now)]);
      Free(if sc.manual || sc.positive then t1 else Negative(t1, id, now, negcache), id)
  }

  function TestDone(t: Tracker, id: nat, now: int, negcache: int): Tracker
    requires id in t.live
  {
    CheckFinished(DropTest(t, id), id, now, negcache)
  }

  /**
   The reply names a type of listing, or the blacklist bans what it cannot name. A number is a signed
   char and the reply an unsigned one: the upper half of the numbers equals no reply.
   */
  predicate Listed(bl: Blacklist, code: bv8) {
    bl.banUnknown || exists n | n in bl.numbers :: if bl.bitmask then n & code != 0 else n < 128 && n == code
  }

  /** A bitmask lists every reply that shares a bit with one of its numbers, a plain list the replies that are one. */
  ghost predicate Names(bl: Blacklist, n: bv8, code: bv8) {
    if bl.bitmask then ShareSome(n as nat, code as nat) else code == n && code as nat < 128
  }

  lemma {:induction false} ListedExactly(bl: Blacklist, code: bv8)
    ensures Listed(bl, code) <==> bl.banUnknown || exists n :: n in bl.numbers && Names(bl, n, code)
  {
    forall n | n in bl.numbers ensures n & code != 0 <==> ShareSome(n as nat, code as nat) { AndIsShared(n, code, 8); }
  }

  /** dnsbl_positive */
  function BlacklistHit(t: Tracker, id: nat, bl: Blacklist, code: bv8): Tracker
    requires id in t.live
  {
    if !Listed(bl, code) || t.live[id].manual || t.live[id].positive then t else Positive(t, id)
  }

  /** dnsbl_result */
  function LookupResult(cfg: Config, t: Tracker, info: Info, error: int, code: bv8, now: int): Tracker {
    if info.scan !in t.live then t.(dangling := true)
    else
      var t1 :=
        if error == ERR_NONE && info.blacklist < |cfg.blacklists|
        then BlacklistHit(t, info.scan, cfg.blacklists[info.blacklist], code) else t;
      TestDone(t1, info.scan, now, cfg.negcache)
  }

  /** scan_open_proxy */
  function OpenProxyFound(t: Tracker, id: nat, scanner: nat): Tracker {
    if scanner !in Outstanding(t, id) then t
    else if id !in t.live then t.(dangling := true)
    else if t.live[id].manual then t
    else Positive(t, id)
  }

  /** scan_end */
  function ScannerEnds(t: Tracker, id: nat, scanner: nat, now: int, negcache: int): Tracker {
    if scanner !in Outstanding(t, id) then t
    else
      var t1 := t.(opm := t.opm[id := Outstanding(t, id) - {scanner}]);
      if id !in t.live then t1.(dangling := true) else TestDone(t1, id, now, negcache)
  }

  // ---- The reference count ----

  ghost function Owed(c: seq<Query>, t: Tracker, id: nat): nat {
    Lookups(c, id) + |Outstanding(t, id)|
  }

  /** Everything that will call back names a live scan. */
  ghost predicate Referenced(c: seq<Query>, t: Tracker) {
    && !t.dangling
    && (forall i | 0 <= i < |c| && c[i].info.Some? :: c[i].info.value.scan in t.live)
    && (forall id | id in t.opm && t.opm[id] != {} :: id in t.live)
    && (forall id | id in t.live :: id < t.nextScan)
    && (forall id | id in t.opm :: id < t.nextScan)
  }

  /**
   ss->scans counts what is still owed to each scan (plus one for the scan `held`, whose result is
   being handled), and but for the scan `newborn` something is always owed.
   */
  ghost predicate Balanced(c: seq<Query>, t: Tracker, held: Option<nat>, newborn: Option<nat>) {
    && (held.Some? ==> held.value in t.live)
    && forall id | id in t.live ::
      && t.live[id].scans == Owed(c, t, id) + One(held == Some(id))
      && t.live[id].scans < 65536
      && (newborn != Some(id) ==> t.live[id].scans > 0)
  }

  ghost predicate Refs(c: seq<Query>, t: Tracker, held: Option<nat>, newborn: Option<nat>) {
    Referenced(c, t) && Balanced(c, t, held, newborn)
  }

  lemma CreateRefs(c: seq<Query>, t: Tracker, ip: Option<Address>, manual: bool)
    requires Refs(c, t, None, None)
    ensures Refs(c, Create(t, ip, manual), None, Some(t.nextScan))
  {
    NoLookups(c, t, t.nextScan);
  }

  /** A scan that is not live has nothing owed. */
  lemma {:induction false} NoLookups(c: seq<Query>, t: Tracker, id: nat)
    requires Referenced(c, t) && id !in t.live
    ensures Lookups(c, id) == 0 && Outstanding(t, id) == {}
  {
    if c != [] {
      forall i | 0 <= i < |c[1..]| && c[1..][i].info.Some? ensures c[1..][i].info.value.scan in t.live {
        assert c[1..][i] == c[i + 1];
      }
      NoLookups(c[1..], t, id);
    }
  }

  lemma AcceptRefs(c: seq<Query>, t: Tracker, id: nat, scanner: nat)
    requires Refs(c, t, None, Some(id)) && id in t.live && t.live[id].scans < 65535
    requires scanner !in Outstanding(t, id)
    ensures Refs(c, ScannerAccepts(t, id, scanner), None, Some(id))
    ensures ScannerAccepts(t, id, scanner).live[id].scans == t.live[id].scans + 1
  {
    forall i: nat ensures Owed(c, ScannerAccepts(t, id, scanner), i) == Owed(c, t, i) + One(i == id) {
      AcceptOwed(c, t, id, scanner, i);
    }
  }

  lemma AcceptOwed(c: seq<Query>, t: Tracker, id: nat, scanner: nat, i: nat)
    requires id in t.live && scanner !in Outstanding(t, id)
    ensures Owed(c, ScannerAccepts(t, id, scanner), i) == Owed(c, t, i) + One(i == id)
  {
  }

  lemma LookupAdded(c: seq<Query>, t: Tracker, id: nat, q: Query)
    requires Refs(c, t, None, Some(id)) && id in t.live && t.live[id].scans < 65535
    requires q.info.Some? && q.info.value.scan == id
    ensures Refs(c + [q], AddTest(t, id), None, Some(id))
    ensures AddTest(t, id).live[id].scans == t.live[id].scans + 1
  {
    LookupCounted(c, q, id);
  }

  lemma LookupCounted(c: seq<Query>, q: Query, id: nat)
    requires q.info.Some? && q.info.value.scan == id
    ensures forall i: nat :: Lookups(c + [q], i) == Lookups(c, i) + One(i == id)
  {
    forall i: nat ensures Lookups(c + [q], i) == Lookups(c, i) + One(i == id) {
      LookupsConcat(c, [q], i);
      assert [q][1..] == [];
    }
  }

  /** Taking a lookup off the list leaves its scan holding the result. */
  lemma LookupTaken(c: seq<Query>, t: Tracker, i: nat)
    requires Refs(c, t, None, None) && i < |c| && c[i].info.Some?
    ensures Refs(Without(c, i), t, Some(c[i].info.value.scan), None)
  {
    WithoutReferenced(c, t, i);
    forall id | id in t.live
      ensures Lookups(c, id) == Lookups(Without(c, i), id) + One(c[i].info.value.scan == id)
    {
      LookupsWithout(c, i, id);
    }
  }

  lemma WithoutReferenced(c: seq<Query>, t: Tracker, i: nat)
    requires Referenced(c, t) && i < |c|
    ensures Referenced(Without(c, i), t)
  {
    forall j | 0 <= j < |Without(c, i)| && Without(c, i)[j].info.Some?
      ensures Without(c, i)[j].info.value.scan in t.live
    {
      assert Without(c, i)[j] == c[if j < i then j else j + 1];
    }
  }

  lemma PlainTaken(c: seq<Query>, t: Tracker, i: nat)
    requires Refs(c, t, None, None) && i < |c| && c[i].info.None?
    ensures Refs(Without(c, i), t, None, None)
  {
    WithoutReferenced(c, t, i);
    forall id | id in t.live ensures Lookups(c, id) == Lookups(Without(c, i), id) {
      LookupsWithout(c, i, id);
    }
  }

  /** A held result that is done with either leaves something owed, or finishes the scan and frees it. */
  lemma {:induction false} TestDoneRefs(c: seq<Query>, t: Tracker, id: nat, now: int, negcache: int)
    requires Refs(c, t, Some(id), None)
    ensures Refs(c, TestDone(t, id, now, negcache), None, None)
    ensures id in TestDone(t, id, now, negcache).live <==> Owed(c, t, id) > 0
  {
    var d := DropTest(t, id);
    DropRefs(c, t, id);
    CheckFinishedRefs(c, d, id, now, negcache);
    assert Owed(c, d, id) == Owed(c, t, id);
  }

  lemma CheckFinishedRefs(c: seq<Query>, t: Tracker, id: nat, now: int, negcache: int)
    requires Refs(c, t, None, Some(id)) && id in t.live
    ensures Refs(c, CheckFinished(t, id, now, negcache), None, None)
    ensures id in CheckFinished(t, id, now, negcache).live <==> Owed(c, t, id) > 0
  {
    if t.live[id].scans == 0 {
      FreeRefs(c, t, id);
      FinishSame(t, id, now, negcache);
      SameRefs(c, Free(t, id), CheckFinished(t, id, now, negcache));
    }
  }

  lemma FinishSame(t: Tracker, id: nat, now: int, negcache: int)
    requires id in t.live && t.live[id].scans == 0
    ensures var t', f := CheckFinished(t, id, now, negcache), Free(t, id);
            t'.live == f.live && t'.opm == f.opm && t'.nextScan == f.nextScan && t'.dangling == f.dangling
  {
  }

  lemma SameRefs(c: seq<Query>, t: Tracker, t': Tracker)
    requires Refs(c, t, None, None)
    requires t'.live == t.live && t'.opm == t.opm && t'.nextScan == t.nextScan && t'.dangling == t.dangling
    ensures Refs(c, t', None, None)
  {
    assert forall id | id in t.live :: Owed(c, t', id) == Owed(c, t, id);
  }

  lemma DropRefs(c: seq<Query>, t: Tracker, id: nat)
    requires Refs(c, t, Some(id), None)
    ensures Refs(c, DropTest(t, id), None, Some(id))
  {
    var d := DropTest(t, id);
    assert d.live.Keys == t.live.Keys;
    assert Referenced(c, d);
    forall i | i in d.live
      ensures d.live[i].scans == Owed(c, d, i) && d.live[i].scans < 65536 && (i != id ==> d.live[i].scans > 0)
    {
      DropExact(t.live[i].scans);
    }
  }

  lemma DropExact(n: nat)
    requires 0 < n < 65536
    ensures (n + 65535) % 65536 == n - 1
  {
  }

  lemma FreeRefs(c: seq<Query>, t: Tracker, id: nat)
    requires Refs(c, t, None, Some(id)) && id in t.live && t.live[id].scans == 0
    ensures Refs(c, Free(t, id), None, None)
  {
    OthersReferenced(c, t, id);
    assert forall i | i in t.live :: Owed(c, Free(t, id), i) == Owed(c, t, i);
  }

  /** If nothing is owed to a scan, nothing names it. */
  lemma {:induction false} OthersReferenced(c: seq<Query>, t: Tracker, id: nat)
    requires Lookups(c, id) == 0
    ensures forall i | 0 <= i < |c| && c[i].info.Some? :: c[i].info.value.scan != id
  {
    if c != [] {
      OthersReferenced(c[1..], t, id);
      forall i | 0 <= i < |c| && c[i].info.Some? ensures c[i].info.value.scan != id {
        if i > 0 { assert c[i] == c[1..][i - 1]; }
      }
    }
  }

  lemma {:induction false} LookupResultRefs(cfg: Config, c: seq<Query>, t: Tracker, info: Info, error: int, code: bv8,
                                            now: int)
    requires Refs(c, t, Some(info.scan), None)
    ensures Refs(c, LookupResult(cfg, t, info, error, code, now), None, None)
  {
    var t1 :=
      if error == ERR_NONE && info.blacklist < |cfg.blacklists|
      then BlacklistHit(t, info.scan, cfg.blacklists[info.blacklist], code) else t;
    assert Refs(c, t1, Some(info.scan), None);
    TestDoneRefs(c, t1, info.scan, now, cfg.negcache);
  }

  lemma OpenProxyRefs(c: seq<Query>, t: Tracker, id: nat, scanner: nat)
    requires Refs(c, t, None, None)
    ensures Refs(c, OpenProxyFound(t, id, scanner), None, None)
  {
  }

  lemma {:induction false} ScannerEndsRefs(c: seq<Query>, t: Tracker, id: nat, scanner: nat, now: int, negcache: int)
    requires Refs(c, t, None, None)
    ensures Refs(c, ScannerEnds(t, id, scanner, now, negcache), None, None)
  {
    if scanner in Outstanding(t, id) {
      var t1 := t.(opm := t.opm[id := Outstanding(t, id) - {scanner}]);
      assert |Outstanding(t, id)| == |Outstanding(t1, id)| + 1;
      assert Refs(c, t1, Some(id), None);
      TestDoneRefs(c, t1, id, now, negcache);
    }
  }

  // ---- The history ----

  /** A live scan is as it was started, has sent its kline if it is positive, and is not cached. */
  ghost predicate LiveHistory(t: Tracker) {
    forall id | id in t.live ::
      && id < t.nextScan
      && id in t.started && t.started[id].ip == t.live[id].ip && t.started[id].manual == t.live[id].manual
      && id !in t.finished && id !in t.cachedBy
      && t.klines[id] == One(t.live[id].positive)
      && (t.live[id].manual ==> !t.live[id].positive)
  }

  /** A scan that is gone sent a kline exactly if it finished positive, and only clean automatic scans were cached. */
  ghost predicate GoneHistory(t: Tracker, now: int) {
    && (forall id | id in t.finished ::
          id in t.started && (t.finished[id].positive ==> !t.started[id].manual) && t.finished[id].at <= now)
    && (forall id | id in t.started :: id < t.nextScan)
    && (forall id: nat | id !in t.live :: t.klines[id] == One(id in t.finished && t.finished[id].positive))
    && (forall id | id in t.cachedBy :: id in t.finished && !t.finished[id].positive && !t.started[id].manual)
  }

  /** The cached address ip was entered, with its time, by a clean automatic scan of that address. */
  ghost predicate CachedFrom(t: Tracker, ip: nat)
    requires ip in t.cache
  {
    && ip != 0
    && ip in t.cacher
    && var id := t.cacher[ip];
      && id in t.cachedBy && id in t.finished && id in t.started
      && t.started[id].ip == Some(ip)
      && t.finished[id].at == t.cache[ip]
  }

  ghost predicate CacheHistory(t: Tracker) {
    forall ip | ip in t.cache :: CachedFrom(t, ip)
  }

  ghost predicate History(t: Tracker, now: int) {
    LiveHistory(t) && GoneHistory(t, now) && CacheHistory(t)
  }

  /** What the history comes to. */
  lemma HistorySays(t: Tracker, now: int)
    requires History(t, now)
    ensures forall id: nat :: t.klines[id] <= 1
    ensures forall id | id in t.cachedBy :: t.klines[id] == 0 && id in t.started && !t.started[id].manual
  {
  }

  lemma CreateHistory(t: Tracker, now: int, ip: Option<Address>, manual: bool)
    requires History(t, now)
    ensures History(Create(t, ip, manual), now)
  {
  }

  lemma AddTestHistory(t: Tracker, now: int, id: nat)
    requires History(t, now) && id in t.live
    ensures History(AddTest(t, id), now)
  {
  }

  lemma AcceptHistory(t: Tracker, now: int, id: nat, scanner: nat)
    requires History(t, now) && id in t.live
    ensures History(ScannerAccepts(t, id, scanner), now)
  {
    AddTestHistory(t, now, id);
  }

  lemma AbortHistory(t: Tracker, now: int, id: nat)
    requires History(t, now) && id in t.live && !t.live[id].positive
    ensures History(Free(t, id), now)
  {
  }

  lemma PositiveHistory(t: Tracker, now: int, id: nat)
    requires History(t, now) && id in t.live && !t.live[id].manual
    ensures History(Positive(t, id), now)
  {
  }

  lemma {:induction false} CheckFinishedHistory(t: Tracker, now: int, id: nat, negcache: int)
    requires History(t, now) && id in t.live
    ensures History(CheckFinished(t, id, now, negcache), now)
  {
    if t.live[id].scans == 0 {
      var t' := CheckFinished(t, id, now, negcache);
      FinishParts(t, now, id, negcache);
      FinishLive(t, id, t');
      FinishGone(t, now, id, t');
      FinishCache(t, now, id, negcache);
    }
  }

  /** What finishing a scan leaves alone, and what it records. */
  lemma FinishParts(t: Tracker, now: int, id: nat, negcache: int)
    requires id in t.live && t.live[id].scans == 0
    ensures Finished(t, id, CheckFinished(t, id, now, negcache), now)
  {
  }

  ghost predicate Finished(t: Tracker, id: nat, t': Tracker, now: int)
    requires id in t.live
  {
    && t'.live == t.live - {id}
    && t'.started == t.started && t'.nextScan == t.nextScan && t'.klines == t.klines && t'.dangling == t.dangling
    && t'.finished == t.finished[id := Finish(t.live[id].positive, now)]
    && t.cachedBy <= t'.cachedBy <= t.cachedBy + {id}
    && (t.live[id].manual || t.live[id].positive ==> t'.cachedBy == t.cachedBy)
  }

  lemma FinishLive(t: Tracker, id: nat, t': Tracker)
    requires LiveHistory(t) && id in t.live && exists now :: Finished(t, id, t', now)
    ensures LiveHistory(t')
  {
  }

  lemma FinishGone(t: Tracker, now: int, id: nat, t': Tracker)
    requires LiveHistory(t) && GoneHistory(t, now) && id in t.live && Finished(t, id, t', now)
    ensures GoneHistory(t', now)
  {
  }

  /** An entry is left alone, or is this scan's. */
  ghost predicate EntryFrom(t: Tracker, id: nat, t': Tracker, ip: nat, now: int)
    requires id in t.live && ip in t'.cache
  {
    || (ip in t.cache && t'.cache[ip] == t.cache[ip]
        && (ip in t.cacher ==> ip in t'.cacher && t'.cacher[ip] == t.cacher[ip]))
    || (ip != 0 && t.live[id].ip == Some(ip) && t'.cache[ip] == now && id in t'.cachedBy
        && ip in t'.cacher && t'.cacher[ip] == id)
  }

  lemma FinishEntry(t: Tracker, id: nat, t': Tracker, ip: nat, now: int)
    requires LiveHistory(t) && CacheHistory(t) && id in t.live && Finished(t, id, t', now)
    requires ip in t'.cache && EntryFrom(t, id, t', ip, now)
    ensures CachedFrom(t', ip)
  {
    if ip in t.cache { assert CachedFrom(t, ip); }
  }

  lemma FinishCache(t: Tracker, now: int, id: nat, negcache: int)
    requires LiveHistory(t) && CacheHistory(t) && id in t.live && t.live[id].scans == 0
    ensures CacheHistory(CheckFinished(t, id, now, negcache))
  {
    var t' := CheckFinished(t, id, now, negcache);
    FinishParts(t, now, id, negcache);
    forall ip | ip in t'.cache ensures CachedFrom(t', ip) {
      FinishEntry(t, id, t', ip, now);
    }
  }

  lemma TestDoneHistory(t: Tracker, now: int, id: nat, negcache: int)
    requires History(t, now) && id in t.live
    ensures History(TestDone(t, id, now, negcache), now)
  {
    var d := DropTest(t, id);
    assert History(d, now);
    CheckFinishedHistory(d, now, id, negcache);
  }

  lemma LookupResultHistory(cfg: Config, t: Tracker, now: int, info: Info, error: int, code: bv8)
    requires History(t, now)
    ensures History(LookupResult(cfg, t, info, error, code, now), now)
  {
    if info.scan in t.live {
      var t1 :=
        if error == ERR_NONE && info.blacklist < |cfg.blacklists|
        then BlacklistHit(t, info.scan, cfg.blacklists[info.blacklist], code) else t;
      if t1 != t { PositiveHistory(t, now, info.scan); }
      TestDoneHistory(t1, now, info.scan, cfg.negcache);
    }
  }

  lemma ScannerEndsHistory(t: Tracker, now: int, id: nat, scanner: nat, negcache: int)
    requires History(t, now)
    ensures History(ScannerEnds(t, id, scanner, now, negcache), now)
  {
    if scanner in Outstanding(t, id) && id in t.live {
      TestDoneHistory(t.(opm := t.opm[id := Outstanding(t, id) - {scanner}]), now, id, negcache);
    }
  }

  lemma OpenProxyHistory(t: Tracker, now: int, id: nat, scanner: nat)
    requires History(t, now)
    ensures History(OpenProxyFound(t, id, scanner), now)
  {
    if scanner in Outstanding(t, id) && id in t.live && !t.live[id].manual {
      PositiveHistory(t, now, id);
    }
  }

  // ---- The history is only ever added to ----

  ghost predicate Grows(t: Tracker, t': Tracker) {
    && t.klines <= t'.klines
    && t.cachedBy <= t'.cachedBy
    && (forall id | id in t.started :: id in t'.started && t'.started[id] == t.started[id])
    && (forall id | id in t.finished :: id in t'.finished && t'.finished[id] == t.finished[id])
    && (t.dangling ==> t'.dangling)
  }

  lemma CreateGrows(t: Tracker, now: int, ip: Option<Address>, manual: bool)
    requires History(t, now)
    ensures Grows(t, Create(t, ip, manual))
  {
  }

  lemma GrowsTrans(a: Tracker, b: Tracker, c: Tracker)
    requires Grows(a, b) && Grows(b, c)
    ensures Grows(a, c)
  {
  }

  lemma TestDoneGrows(t: Tracker, now: int, id: nat, negcache: int)
    requires LiveHistory(t) && id in t.live
    ensures Grows(t, TestDone(t, id, now, negcache))
  {
    var d := DropTest(t, id);
    if d.live[id].scans == 0 {
      FinishParts(d, now, id, negcache);
    }
  }

  lemma TestDoneKlines(t: Tracker, id: nat, now: int, negcache: int)
    requires id in t.live
    ensures TestDone(t, id, now, negcache).klines == t.klines
  {
  }

  lemma LookupResultGrows(cfg: Config, t: Tracker, now: int, info: Info, error: int, code: bv8)
    requires History(t, now)
    ensures Grows(t, LookupResult(cfg, t, info, error, code, now))
  {
    if info.scan in t.live {
      var t1 :=
        if error == ERR_NONE && info.blacklist < |cfg.blacklists|
        then BlacklistHit(t, info.scan, cfg.blacklists[info.blacklist], code) else t;
      if t1 != t { PositiveHistory(t, now, info.scan); }
      PositiveGrows(t, info.scan, t1);
      TestDoneGrows(t1, now, info.scan, cfg.negcache);
      GrowsTrans(t, t1, TestDone(t1, info.scan, now, cfg.negcache));
    }
  }

  lemma PositiveGrows(t: Tracker, id: nat, t': Tracker)
    requires id in t.live && (t' == t || t' == Positive(t, id))
    ensures Grows(t, t')
  {
  }

  lemma ScannerEndsGrows(t: Tracker, now: int, id: nat, scanner: nat, negcache: int)
    requires LiveHistory(t)
    ensures Grows(t, ScannerEnds(t, id, scanner, now, negcache))
  {
    if scanner in Outstanding(t, id) && id in t.live {
      var t1 := t.(opm := t.opm[id := Outstanding(t, id) - {scanner}]);
      TestDoneGrows(t1, now, id, negcache);
      GrowsTrans(t, t1, TestDone(t1, id, now, negcache));
    }
  }

  lemma OpenProxyGrows(t: Tracker, id: nat, scanner: nat)
    ensures Grows(t, OpenProxyFound(t, id, scanner))
  {
  }
}
