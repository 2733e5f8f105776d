/**
 * The event records that web/sync_daemon.py fetches, enriches and republishes,
 * and the pure parts of one sync pass over them: normalising the fetched
 * payload, the "needs enrichment" test, the set of IPs to resolve and the
 * number of records the fill loop touches.
 */
module Records {
  import opened Wrappers

  /**
   * A JSON value inside an event record. Numbers (coordinates among them) stay
   * opaque: `Num(token)` is some number, and token 0 stands for numeric zero,
   * whose Python truth value is false.
   */
  datatype Value = Null | Str(s: string) | Num(token: int)

  /** An event record: a JSON object with string keys. */
  type Record = map<string, Value>

  /** One element of a fetched JSON array: an object, or anything else. */
  datatype Item = Rec(fields: Record) | NonRecord

  /** A fetched JSON document other than `null`: an array, an object, or a scalar. */
  datatype Payload = List(items: seq<Item>) | Object(fields: Record) | Scalar

  /** Python's truth value of a JSON value. */
  predicate Truthy(v: Value) {
    match v
    case Null => false
    case Str(s) => s != ""
    case Num(token) => token != 0
  }

  /** `record.get(key)`: a missing key reads as `None`. */
  function Get(r: Record, key: string): Value {
    if key in r then r[key] else Null
  }

  /** `record.get('lat') is None`. */
  predicate LacksCoordinates(r: Record) {
    Get(r, "lat") == Null
  }

  /** `record.get('country') in ['N/A', None]`. */
  predicate LacksCountry(r: Record) {
    Get(r, "country") == Null || Get(r, "country") == Str("N/A")
  }

  /** The one test used both to collect IPs and to pick the records to fill. */
  function NeedsEnrichment(r: Record): (needs: bool)
    ensures needs ==> "src_ip" in r && Truthy(r["src_ip"])
    ensures needs ==> "lat" !in r || r["lat"] == Null || "country" !in r || r["country"] in {Null, Str("N/A")}
    ensures "src_ip" in r && Truthy(r["src_ip"]) && ("lat" !in r || "country" !in r) ==> needs
  {
    Truthy(Get(r, "src_ip")) && (LacksCoordinates(r) || LacksCountry(r))
  }

  /** The payload as a list: a list stays, an object becomes a one-element list, anything else the empty list. */
  function Normalise(p: Payload): (items: seq<Item>)
    ensures p.List? ==> items == p.items
    ensures p.Object? ==> items == [Rec(p.fields)]
    ensures p.Scalar? ==> items == []
  {
    match p
    case List(items) => items
    case Object(fields) => [Rec(fields)]
    case Scalar => []
  }

  /** The normalised list is empty exactly for an empty array and for a scalar; an object is never dropped. */
  lemma NormalisedEmpty(p: Payload)
    ensures Normalise(p) == [] <==> p == List([]) || p.Scalar?
    ensures p.Object? ==> |Normalise(p)| == 1 && Normalise(p)[0].Rec?
  {
  }

  /** The records of a list in which every element is an object; `None` as soon as one is not. */
  function AllRecords(items: seq<Item>): (rs: Option<seq<Record>>)
    ensures rs.Some? <==> forall i :: 0 <= i < |items| ==> items[i].Rec?
    ensures rs.Some? ==> |rs.value| == |items| && forall i :: 0 <= i < |items| ==> rs.value[i] == items[i].fields
  {
    if items == [] then Some([])
    else if items[0].NonRecord? then None
    else
      match AllRecords(items[1..])
      case None => None
      case Some(rest) => Some([items[0].fields] + rest)
  }

  /** The set of `src_ip` values of the records that need enrichment. */
  function UniqueIps(rs: seq<Record>): (ips: set<Value>)
    ensures forall ip :: ip in ips <==> exists r :: r in rs && NeedsEnrichment(r) && Get(r, "src_ip") == ip
    ensures forall ip :: ip in ips ==> Truthy(ip)
  {
    set r | r in rs && NeedsEnrichment(r) :: Get(r, "src_ip")
  }

  /** How many records need enrichment. */
  function CountNeeding(rs: seq<Record>): (n: nat)
    ensures n <= |rs|
    ensures n == 0 <==> forall i :: 0 <= i < |rs| ==> !NeedsEnrichment(rs[i])
  {
    if rs == [] then 0
    else CountNeeding(rs[..|rs| - 1]) + (if NeedsEnrichment(rs[|rs| - 1]) then 1 else 0)
  }

  /** Every IP to resolve comes from a record to fill, so there are never more IPs than filled records. */
  lemma {:induction false} UniqueIpsAtMostCount(rs: seq<Record>)
    ensures |UniqueIps(rs)| <= CountNeeding(rs)
  {
    if rs != [] {
      var init, last := rs[..|rs| - 1], rs[|rs| - 1];
      UniqueIpsAtMostCount(init);
      assert rs == init + [last];
      if NeedsEnrichment(last) {
        assert UniqueIps(rs) == UniqueIps(init) + {Get(last, "src_ip")};
      } else {
        assert UniqueIps(rs) == UniqueIps(init);
      }
    }
  }

  /** Records that share one IP and all need enrichment yield that IP once. */
  lemma {:induction false} SharedIpResolvedOnce(rs: seq<Record>, ip: Value)
    requires rs != []
    requires forall i :: 0 <= i < |rs| ==> NeedsEnrichment(rs[i]) && Get(rs[i], "src_ip") == ip
    ensures UniqueIps(rs) == {ip}
    ensures CountNeeding(rs) == |rs|
  {
    assert rs[0] in rs;
    CountAllNeeding(rs);
  }

  /** When every record needs enrichment, every record is counted. */
  lemma {:induction false} CountAllNeeding(rs: seq<Record>)
    requires forall i :: 0 <= i < |rs| ==> NeedsEnrichment(rs[i])
    ensures CountNeeding(rs) == |rs|
  {
    if rs != [] {
      CountAllNeeding(rs[..|rs| - 1]);
    }
  }
}
