/**
 The scans and the negative cache, updated in place. Each operation is proved to be a step of the
 scan life cycle, with the linked trie in the place of the map.
 */
module Scanning {
  import opened Options
  import opened Bits
  import opened DnsQueue
  import opened Lifecycle
  import Daemon
  import Trie = NegCache

  class Scans {
    const cfg: Config
    const cache: Trie.Cache
    // the scan structures by the order in which they were allocated, and libopm's scans still to end
    var live: map<nat, Scan>
    var nextScan: nat
    var opm: map<nat, set<nat>>
    // nc_counter of scan_timer
    var counter: nat
    /** The scans, the cache as a map and the history that these fields stand for. */
    ghost var t: Tracker
    /** The cache, its trie and the trie's nodes. */
    ghost var own: set<object>

    ghost predicate Valid()
      reads this, own
    {
      && CacheValid()
      && t.live == live && t.nextScan == nextScan && t.opm == opm
      && t.cache == cache.trie.entries && t.zero == cache.trie.head.seen
    }

    ghost predicate CacheValid()
      reads this, own
    {
      && this !in own && cache in own && cache.own <= own
      && cache.Valid() && 0x1_0000_0000 <= Pow2(cache.trie.maxb)
    }

    /** What is owned now was owned before, or is new. */
    twostate predicate Grew()
      reads this
    {
      forall o | o in own :: o in old(own) || fresh(o)
    }

    constructor (cfg: Config, maxb: nat)
      requires 0x1_0000_0000 <= Pow2(maxb)
      ensures Valid() && this.cfg == cfg
      ensures fresh(own) && t == IDLE && counter == 0
    {
      this.cfg := cfg;
      cache := new Trie.Cache(maxb);
      live, nextScan, opm, counter, t := map[], 0, map[], 0, IDLE;
      new;
      own := {cache} + cache.own;
    }

    /** scan_create, or the start of a manual check */
    method Create(ip: Option<Address>, manual: bool) returns (id: nat)
      requires Valid()
      modifies this
      ensures Valid() && own == old(own) && counter == old(counter)
      ensures id == old(nextScan) && id in live && t == Lifecycle.Create(old(t), ip, manual)
    {
      id := nextScan;
      live := live[id := Scan(ip, manual, false, 0)];
      nextScan := nextScan + 1;
      t := Lifecycle.Create(t, ip, manual);
    }

    /** ss->scans++ */
    method CountTest(id: nat)
      requires Valid() && id in live
      modifies this
      ensures Valid() && own == old(own) && counter == old(counter) && id in live && t == AddTest(old(t), id)
    {
      live := live[id := live[id].(scans := (live[id].scans + 1) % 65536)];
      t := AddTest(t, id);
    }

    /** The loop over the scanners, and scan_free if no test at all was accepted. */
    method StartAll(id: nat, matched: seq<bool>)
      requires Valid() && id in live
      modifies this
      ensures Valid() && own == old(own) && counter == old(counter)
      ensures t == Daemon.Started(Daemon.StartScanners(cfg, old(t), id, 0, matched), id)
    {
      AcceptAll(id, matched);
      DropIdle(id);
    }

    /** The scanners with a matching mask that accept are counted, and owe an END. */
    method AcceptAll(id: nat, matched: seq<bool>)
      requires Valid() && id in live
      modifies this
      ensures Valid() && own == old(own) && counter == old(counter)
      ensures id in live && t == Daemon.StartScanners(cfg, old(t), id, 0, matched)
    {
      var i := 0;
      while i < |cfg.scanners|
        invariant Valid() && own == old(own) && counter == old(counter) && id in live && i <= |cfg.scanners|
        invariant Daemon.StartScanners(cfg, t, id, i, matched) == Daemon.StartScanners(cfg, old(t), id, 0, matched)
      {
        if i < |matched| && matched[i] {
          Accept(id, i);
        }
        i := i + 1;
      }
    }

    /** opm_scan succeeded. */
    method Accept(id: nat, scanner: nat)
      requires Valid() && id in live
      modifies this
      ensures Valid() && own == old(own) && counter == old(counter)
      ensures id in live && t == ScannerAccepts(old(t), id, scanner)
    {
      var out := if id in opm then opm[id] else {};
      live := live[id := live[id].(scans := (live[id].scans + 1) % 65536)];
      opm := opm[id := out + {scanner}];
      t := ScannerAccepts(t, id, scanner);
    }

    /** scan_free, if no test was accepted */
    method DropIdle(id: nat)
      requires Valid() && id in live
      modifies this
      ensures Valid() && own == old(own) && counter == old(counter) && t == Daemon.Started(old(t), id)
    {
      if live[id].scans == 0 {
        live := live - {id};
        t := Free(t, id);
      }
    }

    /** scan_positive */
    method Positive(id: nat)
      requires Valid() && id in live
      modifies this
      ensures Valid() && own == old(own) && counter == old(counter) && id in live && t == Lifecycle.Positive(old(t), id)
    {
      if !live[id].positive {
        live := live[id := live[id].(positive := true)];
        t := Lifecycle.Positive(t, id);
      }
    }

    /** scan_negative */
    method Negative(id: nat, now: int)
      requires Valid() && id in live
      modifies this`t, this`own, own
      ensures Valid() && Grew() && counter == old(counter)
      ensures t == Lifecycle.Negative(old(t), id, now, cfg.negcache)
    {
      if cfg.negcache > 0 {
        Remember(id, now);
      }
    }

    method Remember(id: nat, now: int)
      requires Valid() && id in live && cfg.negcache > 0
      modifies this`t, this`own, own
      ensures Valid() && Grew() && counter == old(counter)
      ensures t == Lifecycle.Negative(old(t), id, now, cfg.negcache)
    {
      cache.Insert(live[id].ip, now);
      Adopt();
      t := Lifecycle.Negative(old(t), id, now, cfg.negcache);
    }

    /** scan_checkfinished */
    method CheckFinished(id: nat, now: int)
      requires Valid() && id in live
      modifies this, own
      ensures Valid() && Grew() && counter == old(counter)
      ensures t == Lifecycle.CheckFinished(old(t), id, now, cfg.negcache)
    {
      if live[id].scans <= 0 {
        Finish(id, now);
      }
    }

    method Finish(id: nat, now: int)
      requires Valid() && id in live && live[id].scans == 0
      modifies this, own
      ensures Valid() && Grew() && counter == old(counter)
      ensures t == Lifecycle.CheckFinished(old(t), id, now, cfg.negcache)
    {
      t := t.(finished := t.finished[id := Lifecycle.Finish(live[id].positive, now)]);
      NegativeIf(!live[id].manual && !live[id].positive, id, now);
      Release(id);
    }

    /** scan_free */
    method Release(id: nat)
      requires Valid()
      modifies this`live, this`t
      ensures Valid() && t == Free(old(t), id)
    {
      live, t := live - {id}, Free(t, id);
    }

    /** scan_negative, for a scan that is clean and automatic */
    method NegativeIf(clean: bool, id: nat, now: int)
      requires Valid() && id in live
      modifies this`t, this`own, own
      ensures Valid() && Grew() && counter == old(counter)
      ensures t == if clean then Lifecycle.Negative(old(t), id, now, cfg.negcache) else old(t)
    {
      if clean {
        Negative(id, now);
      }
    }

    /** ss->scans--, and see whether that was the last. */
    method TestDone(id: nat, now: int)
      requires Valid() && id in live
      modifies this, own
      ensures Valid() && Grew() && counter == old(counter)
      ensures t == Lifecycle.TestDone(old(t), id, now, cfg.negcache)
    {
      live := live[id := live[id].(scans := (live[id].scans + 65535) % 65536)];
      t := DropTest(t, id);
      CheckFinished(id, now);
    }

    /** dnsbl_result */
    method LookupResult(info: Info, error: int, code: bv8, now: int)
      requires Valid()
      modifies this, own
      ensures Valid() && Grew() && counter == old(counter)
      ensures t == Lifecycle.LookupResult(cfg, old(t), info, error, code, now)
    {
      if info.scan !in live {
        t := t.(dangling := true);
        return;
      }
      if error == ERR_NONE && info.blacklist < |cfg.blacklists| {
        if Listed(cfg.blacklists[info.blacklist], code) && !live[info.scan].manual && !live[info.scan].positive {
          Positive(info.scan);
        }
      }
      TestDone(info.scan, now);
    }

    /** The same, if there is anybody who waits for the result. */
    method AnyResult(info: Option<Info>, error: int, code: bv8, now: int)
      requires Valid()
      modifies this, own
      ensures Valid() && Grew() && counter == old(counter)
      ensures t == if info.Some? then Lifecycle.LookupResult(cfg, old(t), info.value, error, code, now) else old(t)
    {
      if info.Some? {
        LookupResult(info.value, error, code, now);
      }
    }

    /** scan_open_proxy, unless libopm may not call it */
    method OpenProxy(id: nat, scanner: nat)
      requires Valid()
      modifies this
      ensures Valid() && own == old(own) && counter == old(counter) && t == OpenProxyFound(old(t), id, scanner)
    {
      if id !in opm || scanner !in opm[id] {
        return;
      }
      if id !in live {
        t := t.(dangling := true);
      } else if !live[id].manual {
        Positive(id);
      }
    }

    /** scan_end, unless libopm may not call it */
    method End(id: nat, scanner: nat, now: int)
      requires Valid()
      modifies this, own
      ensures Valid() && Grew() && counter == old(counter)
      ensures t == ScannerEnds(old(t), id, scanner, now, cfg.negcache)
    {
      if id !in opm || scanner !in opm[id] {
        return;
      }
      opm := opm[id := opm[id] - {scanner}];
      t := t.(opm := opm);
      if id !in live {
        t := t.(dangling := true);
      } else {
        TestDone(id, now);
      }
    }

    /** check_neg_cache, for scan_connect */
    method Skips(ip: Address, now: int) returns (skip: bool)
      requires Valid()
      ensures skip == if ip == 0 then cfg.negcache > 0 && now - t.zero <= cfg.negcache
                      else Trie.Hit(t.cache, ip, now, cfg.negcache)
    {
      var n := cache.Check(ip, now, cfg.negcache);
      return n != null;
    }

    /** negcache_rebuild */
    method Rebuild(now: int)
      requires Valid()
      modifies this, own
      ensures Valid() && Grew() && counter == old(counter)
      ensures t == old(t).(cache := Trie.Rebuilt(old(t).cache, now, cfg.negcache), zero := 0)
    {
      cache.Rebuild(now, cfg.negcache);
      Adopt();
    }

    /** The history follows the cache. */
    ghost method Adopt()
      requires cache in own && this !in own && this !in cache.own
      requires cache.Valid() && 0x1_0000_0000 <= Pow2(cache.trie.maxb)
      requires t.live == live && t.nextScan == nextScan && t.opm == opm
      modifies this`own, this`t
      ensures Valid() && own == old(own) + cache.own
      ensures t == old(t).(cache := cache.trie.entries, zero := cache.trie.head.seen)
    {
      own := own + cache.own;
      t := t.(cache := cache.trie.entries, zero := cache.trie.head.seen);
    }

    /** scan_timer */
    method Tick(now: int)
      requires Valid()
      modifies this, own
      ensures Valid() && Grew()
      ensures (t, counter) == Daemon.Ticked(cfg, old(t), old(counter), now)
    {
      if cfg.negcache > 0 {
        if counter >= NEG_CACHE_REBUILD {
          Rebuild(now);
          counter := 0;
        } else {
          counter := counter + 1;
        }
      }
    }
  }
}
