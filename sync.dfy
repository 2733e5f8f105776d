/**
 * The module-level state of web/sync_daemon.py as one service object: the
 * lazily opened geo reader, the memo cache of `_get_location_for_ip`, the
 * daemon's lifecycle flags and the snapshots written to the local file.
 * Threads and locks are not modelled; every operation runs to completion.
 */
module SyncDaemon {
  import opened Wrappers
  import opened Records
  import opened GeoLookup

  /**
   * What `_sync_once` does: return the number of filled records; raise
   * `AttributeError` on a list element that is not an object; or let the
   * reader's uncaught open error through.
   */
  datatype SyncOutcome = Returned(filledCount: nat) | RaisedAttributeError | RaisedOpenError

  /** No value occurs twice. */
  ghost predicate Distinct(q: seq<Value>) {
    forall i, j :: 0 <= i < j < |q| ==> q[i] != q[j]
  }

  /** A cache holding every collected address holds every address the fill loop asks for. */
  lemma UniqueIpsCoverNeeding(rs: seq<Record>, cache: Cache)
    requires UniqueIps(rs) <= cache.Keys
    ensures CoversNeeding(rs, cache)
  {
  }

  class SyncService {
    /** `_geoip_reader`: the open database, if any. */
    var reader: Option<Database>
    /** The memo table of `_get_location_for_ip`, unbounded here. */
    var cache: Cache
    /** Every address the reader has been asked about, in order. */
    ghost var queries: seq<Value>
    /** `_started`. */
    var started: bool
    /** Whether `_thread` holds a thread. */
    var hasThread: bool
    /** Whether `_stop_flag` is set. */
    var stopSignalled: bool
    /** The lists written to the local snapshot file, oldest first. */
    var published: seq<seq<Record>>

    ghost predicate Valid()
      reads this
    {
      && (started <==> hasThread)
      && (started ==> !stopSignalled)
      && WellFormedCache(cache)
    }

    /** The state at import time: nothing open, nothing cached, not started. */
    constructor ()
      ensures Valid()
      ensures reader == None && cache == map[] && queries == [] && published == []
      ensures !started && !hasThread && !stopSignalled
    {
      reader := None;
      cache := map[];
      queries := [];
      started := false;
      hasThread := false;
      stopSignalled := false;
      published := [];
    }

    /**
     * One call of `_get_location_for_ip(ip)` from cache `c0`, reader `r0` and
     * query log `q0` gave `loc`, or raised: a cached argument is answered from
     * the cache with nothing else touched; for a new one, an uncaught open
     * error escapes with nothing touched (nothing is cached); otherwise the
     * reader is opened if it can be, the argument is resolved, the reader is
     * queried once if it is open and `ip` is truthy, and the result is cached.
     */
    ghost predicate LookedUp(ip: Value, file: DbFile, c0: Cache, r0: Option<Database>, q0: seq<Value>,
                             loc: Option<Location>, raised: bool)
      reads this
    {
      if ip in c0 then
        !raised && loc == c0[ip] && cache == c0 && reader == r0 && queries == q0
      else if OpenRaises(r0, file) then
        raised && cache == c0 && reader == r0 && queries == q0
      else
        && !raised
        && reader == Opened(r0, file)
        && loc == Resolve(reader, ip)
        && cache == c0[ip := loc]
        && queries == q0 + (if loc.Some? then [ip] else [])
    }

    /**
     * The warm-up loop took every address in `ips` through the cache from
     * cache `c0`, reader `r0` and query log `q0`: old entries are kept, each
     * new address is resolved with the reader as opened, and the reader was
     * queried exactly once for each new address it could resolve.
     */
    ghost predicate Warmed(ips: set<Value>, file: DbFile, c0: Cache, r0: Option<Database>, q0: seq<Value>)
      reads this
    {
      && cache.Keys == c0.Keys + ips
      && (forall ip :: ip in c0 ==> cache[ip] == c0[ip])
      && (forall ip :: ip in ips && ip !in c0 ==> cache[ip] == Resolve(Opened(r0, file), ip))
      && reader == (if ips <= c0.Keys then r0 else Opened(r0, file))
      && |q0| <= |queries| && queries[..|q0|] == q0
      && Distinct(queries[|q0|..])
      && (forall ip :: ip in queries[|q0|..] <==> ip in ips && ip !in c0 && Resolve(Opened(r0, file), ip).Some?)
    }

    /**
     * `_get_geoip_reader`: keep an open reader, otherwise try to open the
     * file, storing only success; an error other than an invalid database
     * escapes.
     */
    method GetReader(file: DbFile) returns (r: Option<Database>, raised: bool)
      modifies this`reader
      ensures raised <==> OpenRaises(old(reader), file)
      ensures reader == Opened(old(reader), file)
      ensures !raised ==> r == reader
    {
      raised := false;
      if reader.None? {
        match file
        case Missing =>
          return None, false;
        case Invalid =>
          return None, false;
        case Unreadable =>
          return None, true;
        case Mmdb(db) =>
          reader := Some(db);
      }
      r := reader;
    }

    /** `_get_location_for_ip` behind its memo cache. */
    method GetLocation(ip: Value, file: DbFile) returns (loc: Option<Location>, raised: bool)
      requires Valid()
      modifies this`reader, this`cache, this`queries
      ensures Valid()
      ensures LookedUp(ip, file, old(cache), old(reader), old(queries), loc, raised)
    {
      if ip in cache {
        return cache[ip], false;
      }
      var r;
      r, raised := GetReader(file);
      if raised {
        return None, true;
      }
      if r.None? || !Truthy(ip) {
        loc := None;
      } else {
        queries := queries + [ip];
        loc := Some(LocationOf(Query(r.value, ip)));
      }
      cache := cache[ip := loc];
    }

    /** `_fill_location_info(items[i])`: look up the record's `src_ip`, if it has one, and merge the result. */
    method FillLocationInfo(items: array<Record>, i: nat, file: DbFile) returns (raised: bool)
      requires Valid() && i < items.Length
      modifies items, this`reader, this`cache, this`queries
      ensures Valid()
      ensures !Truthy(Get(old(items[i]), "src_ip")) ==>
        && !raised && items[..] == old(items[..])
        && cache == old(cache) && reader == old(reader) && queries == old(queries)
      ensures Truthy(Get(old(items[i]), "src_ip")) && raised ==>
        && LookedUp(Get(old(items[i]), "src_ip"), file, old(cache), old(reader), old(queries), None, true)
        && items[..] == old(items[..])
      ensures Truthy(Get(old(items[i]), "src_ip")) && !raised ==>
        var ip := Get(old(items[i]), "src_ip");
        && ip in cache
        && LookedUp(ip, file, old(cache), old(reader), old(queries), cache[ip], false)
        && items[..] == old(items[..])[i := Filled(old(items[i]), cache[ip])]
    {
      raised := false;
      var ip := Get(items[i], "src_ip");
      if Truthy(ip) {
        var loc;
        loc, raised := GetLocation(ip, file);
        if raised {
          return;
        }
        items[i] := Filled(items[i], loc);
      }
    }

    /** Step 2 of `_sync_once`: look up every address once, in whatever order the set yields them. */
    method WarmCache(ips: set<Value>, file: DbFile) returns (raised: bool)
      requires Valid()
      modifies this`reader, this`cache, this`queries
      ensures Valid()
      ensures raised <==> OpenRaises(old(reader), file) && !(ips <= old(cache).Keys)
      ensures raised ==> cache == old(cache) && reader == old(reader) && queries == old(queries)
      ensures !raised ==> Warmed(ips, file, old(cache), old(reader), old(queries))
    {
      var remaining := ips;
      while remaining != {}
        invariant remaining <= ips
        invariant Valid()
        invariant Warmed(ips - remaining, file, old(cache), old(reader), old(queries))
        invariant OpenRaises(old(reader), file) ==> ips - remaining <= old(cache).Keys
        invariant ips - remaining <= old(cache).Keys ==>
          cache == old(cache) && reader == old(reader) && queries == old(queries)
        decreases remaining
      {
        var ip :| ip in remaining;
        ghost var c1, r1, q1 := cache, reader, queries;
        var _, failed := GetLocation(ip, file);
        if failed {
          return true;
        }
        if ip !in c1 {
          assert ip !in q1[|old(queries)|..];
          assert queries[|old(queries)|..] == q1[|old(queries)|..] + queries[|q1|..];
        }
        remaining := remaining - {ip};
      }
      assert ips - remaining == ips;
      raised := false;
    }

    /** Step 3 of `_sync_once`: fill every record that needs it from the warm cache, counting the fills. */
    method FillAll(items: array<Record>, file: DbFile) returns (filled: nat)
      requires Valid() && CoversNeeding(items[..], cache)
      modifies items, this`reader, this`cache, this`queries
      ensures Valid()
      ensures cache == old(cache) && reader == old(reader) && queries == old(queries)
      ensures items[..] == FillPass(old(items[..]), old(cache))
      ensures filled == CountNeeding(old(items[..]))
    {
      filled := 0;
      var i := 0;
      while i < items.Length
        invariant 0 <= i <= items.Length
        invariant Valid()
        invariant cache == old(cache) && reader == old(reader) && queries == old(queries)
        invariant forall k :: 0 <= k < i ==> items[k] == FillOne(old(items[k]), cache)
        invariant forall k :: i <= k < items.Length ==> items[k] == old(items[k])
        invariant filled == CountNeeding(old(items[..])[..i])
      {
        assert old(items[..])[..i + 1][..i] == old(items[..])[..i];
        if NeedsEnrichment(items[i]) {
          var _ := FillLocationInfo(items, i, file);
          filled := filled + 1;
        }
        i := i + 1;
      }
      assert old(items[..])[..items.Length] == old(items[..]);
    }

    /**
     * Steps 1 to 4 of `_sync_once` on a non-empty list of records. An open
     * error during the warm-up escapes before anything is filled or published.
     */
    method EnrichAndPublish(rs: seq<Record>, file: DbFile) returns (outcome: SyncOutcome)
      requires Valid()
      modifies this`reader, this`cache, this`queries, this`published
      ensures Valid()
      ensures OpenRaises(old(reader), file) && !(UniqueIps(rs) <= old(cache).Keys) ==>
        && outcome == RaisedOpenError && published == old(published)
        && cache == old(cache) && reader == old(reader) && queries == old(queries)
      ensures !(OpenRaises(old(reader), file) && !(UniqueIps(rs) <= old(cache).Keys)) ==>
        && Warmed(UniqueIps(rs), file, old(cache), old(reader), old(queries))
        && CoversNeeding(rs, cache)
        && published == old(published) + [FillPass(rs, cache)]
        && outcome == Returned(CountNeeding(rs))
    {
      var raised := WarmCache(UniqueIps(rs), file);
      if raised {
        return RaisedOpenError;
      }
      UniqueIpsCoverNeeding(rs, cache);
      var items := new Record[|rs|](i requires 0 <= i < |rs| => rs[i]);
      assert items[..] == rs;
      var filled := FillAll(items, file);
      published := published + [items[..]];
      outcome := Returned(filled);
    }

    /**
     * `_sync_once` once the remote document is in hand (`None` when the fetch
     * failed or the body was JSON `null`): normalise, collect the addresses,
     * warm the cache, fill, publish the whole list once, return the fill count.
     */
    method SyncOnce(fetched: Option<Payload>, file: DbFile) returns (outcome: SyncOutcome)
      requires Valid()
      modifies this`reader, this`cache, this`queries, this`published
      ensures Valid()
      ensures fetched.None? || Normalise(fetched.value) == [] ==>
        && outcome == Returned(0) && published == old(published)
        && cache == old(cache) && reader == old(reader) && queries == old(queries)
      ensures fetched.Some? && Normalise(fetched.value) != [] && AllRecords(Normalise(fetched.value)).None? ==>
        && outcome == RaisedAttributeError && published == old(published)
        && cache == old(cache) && reader == old(reader) && queries == old(queries)
      ensures fetched.Some? && Normalise(fetched.value) != [] && AllRecords(Normalise(fetched.value)).Some? ==>
        var rs := AllRecords(Normalise(fetched.value)).value;
        OpenRaises(old(reader), file) && !(UniqueIps(rs) <= old(cache).Keys) ==>
        && outcome == RaisedOpenError && published == old(published)
        && cache == old(cache) && reader == old(reader) && queries == old(queries)
      ensures fetched.Some? && Normalise(fetched.value) != [] && AllRecords(Normalise(fetched.value)).Some? ==>
        var rs := AllRecords(Normalise(fetched.value)).value;
        !(OpenRaises(old(reader), file) && !(UniqueIps(rs) <= old(cache).Keys)) ==>
        && Warmed(UniqueIps(rs), file, old(cache), old(reader), old(queries))
        && CoversNeeding(rs, cache)
        && published == old(published) + [FillPass(rs, cache)]
        && outcome == Returned(CountNeeding(rs))
    {
      if fetched.None? {
        return Returned(0);
      }
      var list := Normalise(fetched.value);
      if list == [] {
        return Returned(0);
      }
      var records := AllRecords(list);
      if records.None? {
        return RaisedAttributeError;
      }
      outcome := EnrichAndPublish(records.value, file);
    }

    /** `start_sync_daemon`: a no-op when started; otherwise clear the stop flag, start the thread, mark started. */
    method Start()
      requires Valid()
      modifies this`started, this`hasThread, this`stopSignalled
      ensures Valid()
      ensures old(started) ==> unchanged(this)
      ensures started && hasThread && !stopSignalled
    {
      if started {
        return;
      }
      stopSignalled := false;
      hasThread := true;
      started := true;
    }

    /**
     * `stop_sync_daemon`: a no-op when not started (the reader too is left as
     * it is); otherwise signal the loop, drop the thread, mark stopped, and
     * close and clear the reader. The cache survives.
     */
    method Stop()
      requires Valid()
      modifies this`started, this`hasThread, this`stopSignalled, this`reader
      ensures Valid()
      ensures !old(started) ==> unchanged(this)
      ensures old(started) ==> !started && !hasThread && stopSignalled && reader == None
    {
      if !started {
        return;
      }
      stopSignalled := true;
      hasThread := false;
      started := false;
      if reader.Some? {
        reader := None;
      }
    }
  }
}
