/**
 * Geographic lookup in web/sync_daemon.py: the geo database as an abstract
 * total lookup, `_get_location_for_ip`'s mapping of a database answer to a
 * location dict, `_fill_location_info`'s merge of that dict into a record,
 * and the fill pass of `_sync_once` over a warm cache.
 */
module GeoLookup {
  import opened Wrappers
  import opened Records

  /**
   * What the database holds for one address: `location.latitude` and
   * `location.longitude` (`Null` when absent) and `country.names.en` if present.
   */
  datatype GeoRecord = GeoRecord(latitude: Value, longitude: Value, countryName: Option<string>)

  /**
   * The answer of `reader.get(ip)`: a non-empty record; a miss (no record, or
   * an empty one, which `if match:` treats the same); or a raised exception.
   */
  datatype DbAnswer = Hit(record: GeoRecord) | Miss | LookupError

  /** An opened database. Addresses it does not list are misses. */
  type Database = map<Value, DbAnswer>

  /**
   * What the configured database path holds when the reader is opened: no
   * path or no file; a file the library rejects as not a database; a path
   * that exists but cannot be opened (a directory, no permission), where the
   * library raises an error other than the one the source catches; or a
   * database.
   */
  datatype DbFile = Missing | Invalid | Unreadable | Mmdb(db: Database)

  /** A location dict, merged into a record by `event.update`. */
  type Location = map<string, Value>

  /** The cache of `_get_location_for_ip`: results, `None` included, by argument. */
  type Cache = map<Value, Option<Location>>

  const Unknown: Value := Str("Unknown")

  function Query(db: Database, ip: Value): DbAnswer {
    if ip in db then db[ip] else Miss
  }

  /** A dict `_get_location_for_ip` can return: a string country, at most the three geo keys. */
  predicate IsLocation(loc: Location) {
    && loc.Keys <= {"lat", "lon", "country"}
    && "country" in loc && loc["country"].Str?
  }

  /** Every cached dict is one `_get_location_for_ip` can return. */
  predicate WellFormedCache(cache: Cache) {
    forall ip :: ip in cache && cache[ip].Some? ==> IsLocation(cache[ip].value)
  }

  /** The reader after `_get_geoip_reader`: kept once open; opened from a good file; otherwise still none. */
  function Opened(reader: Option<Database>, file: DbFile): (r: Option<Database>)
    ensures reader.Some? ==> r == reader
    ensures reader.None? ==> (r.Some? <==> file.Mmdb?) && (file.Mmdb? ==> r.value == file.db)
  {
    if reader.Some? then reader
    else if file.Mmdb? then Some(file.db)
    else None
  }

  /** Asking for the reader raises: none is open and opening the file fails with an uncaught error. */
  predicate OpenRaises(reader: Option<Database>, file: DbFile) {
    reader.None? && file.Unreadable?
  }

  /** Once the reader is open, asking again changes nothing. */
  lemma OpenedIsIdempotent(reader: Option<Database>, file: DbFile)
    ensures Opened(Opened(reader, file), file) == Opened(reader, file)
  {
  }

  /** The dict for one database answer. */
  function LocationOf(answer: DbAnswer): (loc: Location)
    ensures IsLocation(loc)
    ensures answer.Hit? ==> loc.Keys == {"lat", "lon", "country"}
    ensures answer.Hit? ==> loc["lat"] == answer.record.latitude && loc["lon"] == answer.record.longitude
    ensures answer.Hit? ==> loc["country"] == Str(answer.record.countryName.GetOr("Unknown"))
    ensures !answer.Hit? ==> loc == map["country" := Unknown]
  {
    match answer
    case Hit(g) => map["lat" := g.latitude, "lon" := g.longitude, "country" := Str(g.countryName.GetOr("Unknown"))]
    case Miss => map["country" := Unknown]
    case LookupError => map["country" := Unknown]
  }

  /** `_get_location_for_ip` computed afresh, given the reader `_get_geoip_reader` returned. */
  function Resolve(reader: Option<Database>, ip: Value): (loc: Option<Location>)
    ensures loc.None? <==> reader.None? || !Truthy(ip)
    ensures loc.Some? ==> IsLocation(loc.value)
  {
    if reader.None? || !Truthy(ip) then None
    else Some(LocationOf(Query(reader.value, ip)))
  }

  /** `if location_data:`: a dict is true when it has a key. */
  predicate HasLocation(loc: Option<Location>) {
    loc.Some? && loc.value != map[]
  }

  /**
   * `_fill_location_info` once it has the location: merge a non-empty dict,
   * otherwise (`None` or an empty dict) mark the country unknown.
   */
  function Filled(r: Record, loc: Option<Location>): (f: Record)
    ensures HasLocation(loc) ==> f.Keys == r.Keys + loc.value.Keys
    ensures HasLocation(loc) ==> forall k :: k in loc.value ==> f[k] == loc.value[k]
    ensures HasLocation(loc) ==> forall k :: k in r && k !in loc.value ==> f[k] == r[k]
    ensures !HasLocation(loc) ==> f.Keys == r.Keys + {"country"} && f["country"] == Unknown
    ensures !HasLocation(loc) ==> forall k :: k in r && k != "country" ==> f[k] == r[k]
  {
    if HasLocation(loc) then r + loc.value
    else r["country" := Unknown]
  }

  /** Merging the same location twice is merging it once. */
  lemma FilledIsIdempotent(r: Record, loc: Option<Location>)
    ensures Filled(Filled(r, loc), loc) == Filled(r, loc)
  {
  }

  /** A database hit with coordinates and a real country name settles the record. */
  lemma HitSettlesRecord(r: Record, db: Database)
    requires NeedsEnrichment(r)
    requires Query(db, Get(r, "src_ip")).Hit?
    requires Query(db, Get(r, "src_ip")).record.latitude != Null
    requires Query(db, Get(r, "src_ip")).record.countryName != Some("N/A")
    ensures !NeedsEnrichment(Filled(r, Resolve(Some(db), Get(r, "src_ip"))))
  {
  }

  /**
   * A miss or a failed lookup marks the country "Unknown" (not a placeholder),
   * so the record stays pending exactly when it still has no latitude.
   */
  lemma MissKeepsCoordinatesPending(r: Record, db: Database)
    requires NeedsEnrichment(r)
    requires !Query(db, Get(r, "src_ip")).Hit?
    ensures Get(Filled(r, Resolve(Some(db), Get(r, "src_ip"))), "country") == Unknown
    ensures NeedsEnrichment(Filled(r, Resolve(Some(db), Get(r, "src_ip")))) <==> LacksCoordinates(r)
  {
  }

  /** Every record that needs enrichment has its IP in the cache. */
  predicate CoversNeeding(rs: seq<Record>, cache: Cache) {
    forall i :: 0 <= i < |rs| && NeedsEnrichment(rs[i]) ==> Get(rs[i], "src_ip") in cache
  }

  /** One step of the fill loop: a record that needs enrichment takes its cached location. */
  function FillOne(r: Record, cache: Cache): (f: Record)
    requires WellFormedCache(cache)
    requires NeedsEnrichment(r) ==> Get(r, "src_ip") in cache
    ensures !NeedsEnrichment(r) ==> f == r
    ensures NeedsEnrichment(r) ==> r.Keys <= f.Keys && Get(f, "src_ip") == Get(r, "src_ip")
    ensures NeedsEnrichment(r) ==> Get(f, "country").Str?
  {
    if NeedsEnrichment(r) then Filled(r, cache[Get(r, "src_ip")]) else r
  }

  /** The fill loop of `_sync_once` over the whole list. */
  function FillPass(rs: seq<Record>, cache: Cache): (out: seq<Record>)
    requires WellFormedCache(cache) && CoversNeeding(rs, cache)
    ensures |out| == |rs|
    ensures forall i :: 0 <= i < |rs| && !NeedsEnrichment(rs[i]) ==> out[i] == rs[i]
    ensures forall i :: 0 <= i < |rs| && NeedsEnrichment(rs[i]) ==> out[i] == Filled(rs[i], cache[Get(rs[i], "src_ip")])
  {
    if rs == [] then []
    else FillPass(rs[..|rs| - 1], cache) + [FillOne(rs[|rs| - 1], cache)]
  }

  /** Filling keeps `src_ip`, so a refilled record takes the same cached entry. */
  lemma FillOneIsIdempotent(r: Record, cache: Cache)
    requires WellFormedCache(cache)
    requires NeedsEnrichment(r) ==> Get(r, "src_ip") in cache
    ensures var f := FillOne(r, cache);
      (NeedsEnrichment(f) ==> Get(f, "src_ip") in cache) && FillOne(f, cache) == f
  {
  }

  /** Running the fill pass again from the same cache changes nothing. */
  lemma FillPassIsIdempotent(rs: seq<Record>, cache: Cache)
    requires WellFormedCache(cache) && CoversNeeding(rs, cache)
    ensures CoversNeeding(FillPass(rs, cache), cache)
    ensures FillPass(FillPass(rs, cache), cache) == FillPass(rs, cache)
  {
    var once := FillPass(rs, cache);
    forall i | 0 <= i < |rs|
      ensures NeedsEnrichment(once[i]) ==> Get(once[i], "src_ip") in cache
      ensures FillOne(once[i], cache) == once[i]
    {
      FillOneIsIdempotent(rs[i], cache);
    }
    var twice := FillPass(once, cache);
    assert forall i :: 0 <= i < |rs| ==> twice[i] == FillOne(once[i], cache);
  }
}
