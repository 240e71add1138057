/**
 * The geocode cache and `get_country_for_coords` (organise_photos.py).
 *
 * The cache is a JSON object held in a Python dict; a dict keeps insertion
 * order, so it is modelled as a sequence of (key, label) entries with
 * distinct keys. The foreign pieces (`f"{x:.6f}"`, `float()`, the geopy
 * distance and the Nominatim reverse call) are parameters.
 */
module Geocode {
  import opened Wrappers
  import opened Text
  import opened Metadata

  type Entry = (string, string)

  /** MAX_CACHE_PROXIMITY_ENTRIES: how many of the newest entries the proximity scan reads. */
  const MaxCacheProximityEntries: nat := 100

  /** A cached coordinate answers a query at most this many kilometres away. */
  const ProximityKm: real := 20.0

  /** The failure sentinel. */
  const Unknown := "Unknown"

  /** A label worth caching: non-empty and not the failure sentinel. */
  predicate Meaningful(name: string) {
    name != "" && name != Unknown
  }

  predicate DistinctKeys(entries: seq<Entry>) {
    forall i, j :: 0 <= i < j < |entries| ==> entries[i].0 != entries[j].0
  }

  predicate AllMeaningful(entries: seq<Entry>) {
    forall i :: 0 <= i < |entries| ==> Meaningful(entries[i].1)
  }

  /**
   * The foreign functions the lookup uses: `f"{x:.6f}"`, `float(s)` (None
   * when it raises) and the geopy distance in kilometres (None when it
   * raises).
   */
  datatype Env = Env(
    formatFixed6: real -> string,
    parseFloat: string -> Option<real>,
    distanceKm: (Coordinate, Coordinate) -> Option<real>)

  /** The cache key `f"{lat:.6f},{lon:.6f}"`. */
  function CacheKey(env: Env, lat: real, lon: real): string {
    env.formatFixed6(lat) + "," + env.formatFixed6(lon)
  }

  /** `k.split(',')` into exactly two parts, each read with `float()`; None when that fails. */
  function ParseKey(env: Env, k: string): Option<Coordinate> {
    var parts := Split(k, ',');
    if |parts| != 2 then None
    else
      match (env.parseFloat(parts[0]), env.parseFloat(parts[1]))
      case (Some(a), Some(b)) => Some((a, b))
      case _ => None
  }

  /**
   * A key the cache writes reads back as the coordinate the two formatted
   * numbers denote, provided the fixed-point format never emits a comma.
   */
  lemma CacheKeyParses(env: Env, lat: real, lon: real)
    requires ',' !in env.formatFixed6(lat) && ',' !in env.formatFixed6(lon)
    requires env.parseFloat(env.formatFixed6(lat)).Some? && env.parseFloat(env.formatFixed6(lon)).Some?
    ensures ParseKey(env, CacheKey(env, lat, lon)) ==
      Some((env.parseFloat(env.formatFixed6(lat)).value, env.parseFloat(env.formatFixed6(lon)).value))
  {
    SplitJoin(env.formatFixed6(lat), env.formatFixed6(lon), ',');
    assert CacheKey(env, lat, lon) == env.formatFixed6(lat) + [','] + env.formatFixed6(lon);
  }

  /** `cache[key]` when `key in cache`. */
  function ExactLookup(entries: seq<Entry>, key: string): (r: Option<string>)
    ensures r.None? <==> forall i :: 0 <= i < |entries| ==> entries[i].0 != key
    ensures r.Some? ==> exists i :: 0 <= i < |entries| && entries[i] == (key, r.value)
    decreases |entries|
  {
    if entries == [] then None
    else if entries[0].0 == key then Some(entries[0].1)
    else
      var r := ExactLookup(entries[1..], key);
      assert forall i :: 1 <= i < |entries| ==> entries[i] == entries[1..][i - 1];
      r
  }

  /** With distinct keys, an exact lookup finds the label stored under the key. */
  lemma ExactLookupAt(entries: seq<Entry>, i: nat)
    requires DistinctKeys(entries) && i < |entries|
    ensures ExactLookup(entries, entries[i].0) == Some(entries[i].1)
  {
    var r := ExactLookup(entries, entries[i].0);
    var j :| 0 <= j < |entries| && entries[j] == (entries[i].0, r.value);
    assert i == j;
  }

  /** The entries the proximity scan reads: the newest `min(100, |entries|)`, oldest first. */
  function RecentWindow(entries: seq<Entry>): (w: seq<Entry>)
    ensures |w| == if |entries| > MaxCacheProximityEntries then MaxCacheProximityEntries else |entries|
    ensures w == entries[|entries| - |w|..]
  {
    if |entries| > MaxCacheProximityEntries then entries[|entries| - MaxCacheProximityEntries..] else entries
  }

  /**
   * Whether entry `e` answers a query at (lat, lon): its key reads as a
   * coordinate, the distance to it can be computed and is at most 20 km,
   * and its label is meaningful.
   */
  predicate NearbyHit(env: Env, lat: real, lon: real, e: Entry) {
    var c := ParseKey(env, e.0);
    c.Some? &&
    var d := env.distanceKm((lat, lon), c.value);
    d.Some? && d.value <= ProximityKm && Meaningful(e.1)
  }

  /** The label of the first entry of `window`, oldest first, that answers the query. */
  function ProximityMatch(env: Env, lat: real, lon: real, window: seq<Entry>): (r: Option<string>)
    ensures r.None? <==> forall i :: 0 <= i < |window| ==> !NearbyHit(env, lat, lon, window[i])
    ensures r.Some? ==>
      exists i :: 0 <= i < |window| && NearbyHit(env, lat, lon, window[i]) && r.value == window[i].1 &&
        forall j :: 0 <= j < i ==> !NearbyHit(env, lat, lon, window[j])
    decreases |window|
  {
    if window == [] then None
    else if NearbyHit(env, lat, lon, window[0]) then Some(window[0].1)
    else
      var r := ProximityMatch(env, lat, lon, window[1..]);
      assert forall i :: 1 <= i < |window| ==> window[i] == window[1..][i - 1];
      r
  }

  /** The answer is the label of THE first hit of the window, whichever entry that is. */
  lemma ProximityMatchFirst(env: Env, lat: real, lon: real, window: seq<Entry>, i: nat)
    requires i < |window| && NearbyHit(env, lat, lon, window[i])
    requires forall j :: 0 <= j < i ==> !NearbyHit(env, lat, lon, window[j])
    ensures ProximityMatch(env, lat, lon, window) == Some(window[i].1)
  {
    var r := ProximityMatch(env, lat, lon, window);
    var k :| 0 <= k < |window| && NearbyHit(env, lat, lon, window[k]) && r.value == window[k].1 &&
      forall j :: 0 <= j < k ==> !NearbyHit(env, lat, lon, window[j]);
    assert k == i;
  }

  /** The proximity scan of `get_country_for_coords`: a forward loop with an early return. */
  method FirstNearby(env: Env, lat: real, lon: real, window: seq<Entry>) returns (found: Option<string>)
    ensures found == ProximityMatch(env, lat, lon, window)
    ensures found.Some? ==> Meaningful(found.value)
  {
    var k := 0;
    while k < |window|
      invariant 0 <= k <= |window|
      invariant ProximityMatch(env, lat, lon, window) == ProximityMatch(env, lat, lon, window[k..])
    {
      var (key, name) := window[k];
      assert window[k..][1..] == window[k + 1..];
      var c := ParseKey(env, key);
      if c.None? {
        k := k + 1;
        continue;
      }
      var d := env.distanceKm((lat, lon), c.value);
      if d.None? {
        k := k + 1;
        continue;
      }
      if d.value <= ProximityKm && name != "" && name != Unknown {
        return Some(name);
      }
      k := k + 1;
    }
    return None;
  }

  /**
   * A Nominatim result, reduced to what the name is taken from:
   * `loc.raw['address']` (empty when `raw` is missing, falsy, not a dict or
   * has no address), `loc.address`, `loc.display_name` and `str(loc)`. A
   * missing attribute or a None value is the empty string: both are falsy.
   */
  datatype Location = Location(addressFields: map<string, string>, address: string, displayName: string, text: string)

  /** The outcome of the reverse call: it raised, or it returned a location or None. */
  datatype ReverseOutcome = Raised | Returned(loc: Option<Location>)

  /** `d.get(k)`, with a missing key read as the (falsy) empty string. */
  function Field(d: map<string, string>, k: string): string {
    if k in d then d[k] else ""
  }

  /** Python's `a or b` on strings. */
  function Or(a: string, b: string): string {
    if a != "" then a else b
  }

  /** The name `get_country_for_coords` takes from the reverse call's outcome. */
  function LabelOf(outcome: ReverseOutcome): (name: string)
    ensures name != ""
    ensures outcome.Raised? || outcome.loc.None? ==> name == Unknown
  {
    match outcome
    case Raised => Unknown
    case Returned(None) => Unknown
    case Returned(Some(loc)) =>
      var addr := loc.addressFields;
      var fromAddress := Or(Or(Field(addr, "country"), Field(addr, "country_name")), Field(addr, "country_code"));
      var country := if fromAddress != "" then fromAddress else Or(loc.address, loc.displayName);
      var country' := if country != "" then country else loc.text;
      Or(country', Unknown)
  }

  /** The name sources of a location, highest priority first. */
  function Candidates(loc: Location): seq<string> {
    [Field(loc.addressFields, "country"), Field(loc.addressFields, "country_name"),
     Field(loc.addressFields, "country_code"), loc.address, loc.displayName, loc.text]
  }

  /** The first non-empty string of `s`, or `default`. */
  function FirstNonEmpty(s: seq<string>, default: string): (r: string)
    ensures r == default || r in s
    decreases |s|
  {
    if s == [] then default else if s[0] != "" then s[0] else FirstNonEmpty(s[1..], default)
  }

  /**
   * The name is the first non-empty of: the address's country, its
   * country_name, its country_code, the location's address, its
   * display_name and its string form; otherwise the sentinel.
   */
  lemma LabelPriority(loc: Location)
    ensures LabelOf(Returned(Some(loc))) == FirstNonEmpty(Candidates(loc), Unknown)
  {
    var c := Candidates(loc);
    assert FirstNonEmpty(c[5..], Unknown) == Or(c[5], Unknown) by { assert c[5..][1..] == []; }
    assert FirstNonEmpty(c[4..], Unknown) == Or(c[4], FirstNonEmpty(c[5..], Unknown)) by { assert c[4..][1..] == c[5..]; }
    assert FirstNonEmpty(c[3..], Unknown) == Or(c[3], FirstNonEmpty(c[4..], Unknown)) by { assert c[3..][1..] == c[4..]; }
    assert FirstNonEmpty(c[2..], Unknown) == Or(c[2], FirstNonEmpty(c[3..], Unknown)) by { assert c[2..][1..] == c[3..]; }
    assert FirstNonEmpty(c[1..], Unknown) == Or(c[1], FirstNonEmpty(c[2..], Unknown)) by { assert c[1..][1..] == c[2..]; }
  }

  /** What one call of `get_country_for_coords` answers, leaves in the cache, and whether it went to the network. */
  datatype Resolution = Resolution(country: string, cache: seq<Entry>, queried: bool)

  /**
   * `get_country_for_coords` as a function of the cache before the call:
   * the exact key first, then the proximity window, then the reverse call,
   * whose name is appended to the cache only when it is meaningful.
   */
  function Resolve(env: Env, entries: seq<Entry>, lat: real, lon: real, reverse: Coordinate -> ReverseOutcome): Resolution {
    var key := CacheKey(env, lat, lon);
    match ExactLookup(entries, key)
    case Some(v) => Resolution(v, entries, false)
    case None =>
      match ProximityMatch(env, lat, lon, RecentWindow(entries))
      case Some(v) => Resolution(v, entries, false)
      case None =>
        var name := LabelOf(reverse((lat, lon)));
        Resolution(name, if Meaningful(name) then entries + [(key, name)] else entries, true)
  }

  /**
   * Where the answer comes from: without a call it is the label of an entry
   * already in the cache; with a call it is the label of the call's outcome.
   */
  lemma ResolveAnswerSource(env: Env, entries: seq<Entry>, lat: real, lon: real, reverse: Coordinate -> ReverseOutcome)
    ensures var r := Resolve(env, entries, lat, lon, reverse);
      && (r.queried ==> r.country == LabelOf(reverse((lat, lon))))
      && (!r.queried ==> exists i :: 0 <= i < |entries| && entries[i].1 == r.country)
  {
    var key := CacheKey(env, lat, lon);
    var window := RecentWindow(entries);
    var r := Resolve(env, entries, lat, lon, reverse);
    if ExactLookup(entries, key).None? && !r.queried {
      var i :| 0 <= i < |window| && window[i].1 == r.country;
      assert entries[|entries| - |window| + i] == window[i];
    }
  }

  /** An exact key hit answers the stored name, leaves the cache alone and makes no call. */
  lemma ResolveExactHit(env: Env, entries: seq<Entry>, lat: real, lon: real, reverse: Coordinate -> ReverseOutcome, i: nat)
    requires DistinctKeys(entries) && i < |entries| && entries[i].0 == CacheKey(env, lat, lon)
    ensures Resolve(env, entries, lat, lon, reverse) == Resolution(entries[i].1, entries, false)
  {
    ExactLookupAt(entries, i);
  }

  /**
   * Without an exact hit, the first entry of the newest 100, oldest first,
   * that lies within 20 km with a meaningful name answers the query; the
   * cache is left alone and no call is made.
   */
  lemma ResolveNearbyHit(env: Env, entries: seq<Entry>, lat: real, lon: real, reverse: Coordinate -> ReverseOutcome, i: nat)
    requires forall j :: 0 <= j < |entries| ==> entries[j].0 != CacheKey(env, lat, lon)
    requires |entries| - |RecentWindow(entries)| <= i < |entries| && NearbyHit(env, lat, lon, entries[i])
    requires forall j :: |entries| - |RecentWindow(entries)| <= j < i ==> !NearbyHit(env, lat, lon, entries[j])
    ensures Resolve(env, entries, lat, lon, reverse) == Resolution(entries[i].1, entries, false)
  {
    var w := RecentWindow(entries);
    var off := |entries| - |w|;
    assert forall j :: 0 <= j < |w| ==> w[j] == entries[off + j];
    ProximityMatchFirst(env, lat, lon, w, i - off);
  }

  /**
   * When no key matches exactly and no entry of the window is a nearby hit
   * (everything within reach is farther than 20 km, unreadable or
   * unlabelled), the reverse call is made and its name is the answer; the
   * cache gains exactly that key, last, iff the name is meaningful.
   */
  lemma ResolveQueries(env: Env, entries: seq<Entry>, lat: real, lon: real, reverse: Coordinate -> ReverseOutcome)
    requires forall j :: 0 <= j < |entries| ==> entries[j].0 != CacheKey(env, lat, lon)
    requires forall j :: |entries| - |RecentWindow(entries)| <= j < |entries| ==> !NearbyHit(env, lat, lon, entries[j])
    ensures var r := Resolve(env, entries, lat, lon, reverse);
      && r.queried
      && r.country == LabelOf(reverse((lat, lon)))
      && (Meaningful(r.country) ==> r.cache == entries + [(CacheKey(env, lat, lon), r.country)])
      && (!Meaningful(r.country) ==> r.cache == entries)
  {
    var w := RecentWindow(entries);
    var off := |entries| - |w|;
    assert forall j :: 0 <= j < |w| ==> w[j] == entries[off + j];
  }

  /**
   * Resolving keeps the cache's keys distinct and never stores the
   * sentinel or an empty name: a cache holding only meaningful labels
   * still does afterwards. The cache grows by at most one entry.
   */
  lemma ResolvePreservesCache(env: Env, entries: seq<Entry>, lat: real, lon: real, reverse: Coordinate -> ReverseOutcome)
    requires DistinctKeys(entries)
    ensures var r := Resolve(env, entries, lat, lon, reverse);
      && DistinctKeys(r.cache)
      && (AllMeaningful(entries) ==> AllMeaningful(r.cache))
      && entries <= r.cache && |r.cache| <= |entries| + 1
      && (|r.cache| == |entries| + 1 ==> r.queried && Meaningful(r.country))
  {
    var key := CacheKey(env, lat, lon);
    if ExactLookup(entries, key).None? && ProximityMatch(env, lat, lon, RecentWindow(entries)).None? {
      var name := LabelOf(reverse((lat, lon)));
      if Meaningful(name) {
        AppendFresh(entries, (key, name));
      }
    }
  }

  /** Appending an entry under a new key keeps the keys distinct and keeps every label meaningful. */
  lemma AppendFresh(entries: seq<Entry>, e: Entry)
    requires DistinctKeys(entries) && Meaningful(e.1)
    requires forall i :: 0 <= i < |entries| ==> entries[i].0 != e.0
    ensures DistinctKeys(entries + [e])
    ensures AllMeaningful(entries) ==> AllMeaningful(entries + [e])
  {
    var c := entries + [e];
    assert forall i :: 0 <= i < |entries| ==> c[i] == entries[i];
  }

  /**
   * Asking again for the same coordinate, with the cache the first call left,
   * gives the same name and makes no call, unless the first call went to the
   * network and got nothing meaningful, which is retried.
   */
  lemma ResolveAgain(env: Env, entries: seq<Entry>, lat: real, lon: real,
                     reverse: Coordinate -> ReverseOutcome, reverse': Coordinate -> ReverseOutcome)
    requires DistinctKeys(entries)
    ensures var r := Resolve(env, entries, lat, lon, reverse);
      var r' := Resolve(env, r.cache, lat, lon, reverse');
      (!r.queried || Meaningful(r.country)) ==> r' == Resolution(r.country, r.cache, false)
  {
    var r := Resolve(env, entries, lat, lon, reverse);
    if r.queried && Meaningful(r.country) {
      ResolvePreservesCache(env, entries, lat, lon, reverse);
      ExactLookupAt(r.cache, |entries|);
    }
  }

  /**
   * With "48.856600,2.352200" -> "France" cached, the Paris coordinate is
   * answered "France" from the cache, whatever the reverse call would do.
   */
  lemma ResolveParisFromCache(env: Env, reverse: Coordinate -> ReverseOutcome)
    requires env.formatFixed6(48.8566) == "48.856600" && env.formatFixed6(2.3522) == "2.352200"
    ensures Resolve(env, [("48.856600,2.352200", "France")], 48.8566, 2.3522, reverse) ==
      Resolution("France", [("48.856600,2.352200", "France")], false)
  {
    ResolveExactHit(env, [("48.856600,2.352200", "France")], 48.8566, 2.3522, reverse, 0);
  }

  /**
   * The in-memory geocode cache. `externalCalls` counts the reverse calls
   * made through it, so that the contracts can say when none is made.
   */
  class GeocodeCache {
    var entries: seq<Entry>
    ghost var externalCalls: nat

    ghost predicate Valid()
      reads this
    {
      DistinctKeys(entries)
    }

    /** `load_cache`: the parsed JSON object, or an empty cache when the file is missing or unreadable. */
    constructor Load(parsed: Option<seq<Entry>>)
      requires parsed.Some? ==> DistinctKeys(parsed.value)
      ensures Valid() && externalCalls == 0
      ensures entries == if parsed.Some? then parsed.value else []
    {
      entries := if parsed.Some? then parsed.value else [];
      externalCalls := 0;
    }

    /** `get_country_for_coords(lat, lon, reverse, cache)`. */
    method CountryForCoords(env: Env, lat: real, lon: real, reverse: Coordinate -> ReverseOutcome) returns (country: string)
      requires Valid()
      modifies this
      ensures Valid()
      ensures var r := Resolve(env, old(entries), lat, lon, reverse);
        && country == r.country
        && entries == r.cache
        && externalCalls == old(externalCalls) + (if r.queried then 1 else 0)
    {
      ResolvePreservesCache(env, entries, lat, lon, reverse);
      var key := CacheKey(env, lat, lon);
      var exact := ExactLookup(entries, key);
      if exact.Some? {
        return exact.value;
      }
      var recent := if |entries| > MaxCacheProximityEntries then entries[|entries| - MaxCacheProximityEntries..] else entries;
      assert recent == RecentWindow(entries);
      var near := FirstNearby(env, lat, lon, recent);
      if near.Some? {
        return near.value;
      }
      var outcome := reverse((lat, lon));
      externalCalls := externalCalls + 1;
      country := LabelOf(outcome);
      if country != "" && country != Unknown {
        entries := entries + [(key, country)];
      }
    }
  }
}
