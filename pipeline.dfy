/**
 * The scan loop of `run` in organise_photos.py: for every discovered file,
 * in discovery order, pick its date and coordinate, resolve the country
 * through the geocode cache, name the folder, create it and choose a free
 * target name. Each file yields exactly one record; an exception while
 * planning a file (here: the folder cannot be created) yields an error
 * record with an empty target instead.
 */
module Pipeline {
  import opened Wrappers
  import opened Paths
  import opened Metadata
  import opened Geocode
  import opened Planner

  /** One discovered file and what the metadata stage reads from it. */
  datatype MediaFile = MediaFile(path: Path, tags: Tags, modified: Option<DateTime>, now: DateTime)

  predicate HasName(f: MediaFile) {
    f.path != [] && f.path[|f.path| - 1] != ""
  }

  /** The file's name, `path.name`. */
  function FileName(f: MediaFile): string
    requires HasName(f)
  {
    f.path[|f.path| - 1]
  }

  /**
   * One row of the plan. A planned file carries its date, coordinate,
   * folder country (empty in two-level mode) and target path; a failed one
   * carries the exception's message, and its target is empty.
   */
  datatype PlanRecord =
    | Planned(src: Path, date: DateTime, gps: Option<Coordinate>, country: string, target: Path)
    | Failed(src: Path, error: string)
  {
    function Target(): Path {
      if Planned? then target else []
    }
  }

  /**
   * What a run is configured with and the collaborators it calls:
   * `parse` is `strptime`, `geo` the geocoding helpers, `reverse` the
   * rate-limited Nominatim call, `mkdir` the folder creation (None, or the
   * message of the exception it raises) and `listing` the names present in
   * a folder of the destination while the scan runs.
   */
  datatype Settings = Settings(
    dst: Path,
    twoLevel: bool,
    parse: string -> Option<DateTime>,
    geo: Env,
    reverse: Coordinate -> ReverseOutcome,
    mkdir: string -> Option<string>,
    listing: string -> set<string>)

  /** The folder country and the cache after it was looked up. */
  function CountryFor(s: Settings, gps: Option<Coordinate>, cache: seq<Entry>): (string, seq<Entry>) {
    if s.twoLevel then ("", cache)
    else if gps.None? then (SlugifyFolderName("NoLocation"), cache)
    else
      var r := Resolve(s.geo, cache, gps.value.0, gps.value.1, s.reverse);
      (SlugifyFolderName(r.country), r.cache)
  }

  /**
   * The record for one file and the cache it leaves behind; `taken` gives,
   * per folder, the names the collision check treats as present.
   */
  function PlanFile(s: Settings, f: MediaFile, cache: seq<Entry>, taken: string -> set<string>): (PlanRecord, seq<Entry>)
    requires HasName(f)
  {
    var date := CaptureDate(f.tags, s.parse, f.modified, f.now);
    var gps := GpsOf(f.tags);
    var (country, cache') := CountryFor(s, gps, cache);
    var folder := FolderName(date, s.twoLevel, country);
    match s.mkdir(folder)
    case Some(msg) => (Failed(f.path, msg), cache')
    case None => (Planned(f.path, date, gps, country, s.dst + [folder, CollisionTarget(FileName(f), taken(folder))]), cache')
  }

  predicate AllNamed(files: seq<MediaFile>) {
    forall k :: 0 <= k < |files| ==> HasName(files[k])
  }

  /** The records of the scan over `files` and the cache it leaves, starting from `cache`. */
  function PlanAll(s: Settings, files: seq<MediaFile>, cache: seq<Entry>): (seq<PlanRecord>, seq<Entry>)
    requires AllNamed(files)
    decreases |files|
  {
    if files == [] then ([], cache)
    else
      var prev := PlanAll(s, files[..|files| - 1], cache);
      var step := PlanFile(s, files[|files| - 1], prev.1, s.listing);
      (prev.0 + [step.0], step.1)
  }

  /**
   * The facts a record states about its file, given the geocode cache the
   * earlier files left behind: its date and coordinate are the metadata
   * stage's; its folder country is empty in two-level mode, `NoLocation`
   * without a coordinate and otherwise the slug of the label `Resolve`
   * gives on that cache; the record fails, carrying mkdir's message and no
   * target, exactly when that folder cannot be made; otherwise the target
   * is `dst/<folder>/<name>` with the least free name in the folder.
   */
  predicate RecordFits(s: Settings, f: MediaFile, cache: seq<Entry>, r: PlanRecord, taken: string -> set<string>)
    requires HasName(f)
  {
    var date := CaptureDate(f.tags, s.parse, f.modified, f.now);
    var gps := GpsOf(f.tags);
    var country :=
      if s.twoLevel then ""
      else if gps.None? then "NoLocation"
      else SlugifyFolderName(Resolve(s.geo, cache, gps.value.0, gps.value.1, s.reverse).country);
    var folder := FolderName(date, s.twoLevel, country);
    && r.src == f.path
    && (r.Failed? <==> s.mkdir(folder).Some?)
    && (r.Failed? ==> r.error == s.mkdir(folder).value && r.Target() == [])
    && (r.Planned? ==>
          && r.date == date
          && r.gps == gps
          && r.country == country
          && |r.Target()| == |s.dst| + 2
          && r.Target()[..|s.dst|] == s.dst
          && r.Target()[|s.dst|] == folder
          && r.Target()[|s.dst| + 1] == CollisionTarget(FileName(f), taken(folder))
          && r.Target()[|s.dst| + 1] !in taken(folder))
  }

  /**
   * One file's record: planned into `dst/<folder>/<free name>` with the
   * chosen date, coordinate and country, or failed exactly when its folder
   * cannot be made.
   */
  lemma PlanFileFits(s: Settings, f: MediaFile, cache: seq<Entry>, taken: string -> set<string>)
    requires HasName(f)
    ensures RecordFits(s, f, cache, PlanFile(s, f, cache, taken).0, taken)
  {
    var r := PlanFile(s, f, cache, taken).0;
    var date := CaptureDate(f.tags, s.parse, f.modified, f.now);
    var gps := GpsOf(f.tags);
    var country := CountryFor(s, gps, cache).0;
    SlugNoLocation();
    assert country ==
      if s.twoLevel then ""
      else if gps.None? then "NoLocation"
      else SlugifyFolderName(Resolve(s.geo, cache, gps.value.0, gps.value.1, s.reverse).country);
    var folder := FolderName(date, s.twoLevel, country);
    if s.mkdir(folder).Some? {
      assert r == Failed(f.path, s.mkdir(folder).value);
    } else {
      var target := s.dst + [folder, CollisionTarget(FileName(f), taken(folder))];
      assert r == Planned(f.path, date, gps, country, target);
      assert target[..|s.dst|] == s.dst;
    }
  }

  /**
   * There is one record per file, and the record at every position fits
   * its file on the cache the scan of the earlier files left behind.
   */
  predicate AllFit(s: Settings, files: seq<MediaFile>, cache: seq<Entry>, records: seq<PlanRecord>)
    requires AllNamed(files)
    decreases |files|
  {
    && |records| == |files|
    && (files != [] ==>
          var n := |files| - 1;
          && AllNamed(files[..n])
          && AllFit(s, files[..n], cache, records[..n])
          && RecordFits(s, files[n], PlanAll(s, files[..n], cache).1, records[n], s.listing))
  }

  /** A record that fits the last file extends records that fit the others. */
  lemma FitsSnoc(s: Settings, files: seq<MediaFile>, cache: seq<Entry>, rs: seq<PlanRecord>, r: PlanRecord)
    requires AllNamed(files) && files != []
    requires AllNamed(files[..|files| - 1]) && AllFit(s, files[..|files| - 1], cache, rs)
    requires RecordFits(s, files[|files| - 1], PlanAll(s, files[..|files| - 1], cache).1, r, s.listing)
    ensures AllFit(s, files, cache, rs + [r])
  {
    assert (rs + [r])[..|rs|] == rs;
  }

  /** If the records of all but the last file fit, the records of all files fit. */
  lemma PlanAllFitsStep(s: Settings, files: seq<MediaFile>, cache: seq<Entry>)
    requires AllNamed(files) && files != []
    requires AllNamed(files[..|files| - 1]) && AllFit(s, files[..|files| - 1], cache, PlanAll(s, files[..|files| - 1], cache).0)
    ensures AllFit(s, files, cache, PlanAll(s, files, cache).0)
  {
    var n := |files| - 1;
    var prev := PlanAll(s, files[..n], cache);
    var r := PlanFile(s, files[n], prev.1, s.listing).0;
    PlanFileFits(s, files[n], prev.1, s.listing);
    FitsSnoc(s, files, cache, prev.0, r);
  }

  /**
   * The scan appends exactly one record per file, in discovery order, and
   * each record fits its file on the cache the earlier files left behind.
   */
  lemma {:induction false} PlanAllRecords(s: Settings, files: seq<MediaFile>, cache: seq<Entry>)
    requires AllNamed(files)
    ensures AllFit(s, files, cache, PlanAll(s, files, cache).0)
    decreases |files|
  {
    if files != [] {
      assert AllNamed(files[..|files| - 1]);
      PlanAllRecords(s, files[..|files| - 1], cache);
      PlanAllFitsStep(s, files, cache);
    }
  }

  /**
   * `cache'` is a well-formed successor of `cache` after at most `n`
   * lookups: keys stay distinct, no failure sentinel or empty label is
   * added, existing entries keep their place, and at most `n` entries are
   * appended.
   */
  predicate CacheGrows(cache: seq<Entry>, cache': seq<Entry>, n: nat) {
    && DistinctKeys(cache')
    && (AllMeaningful(cache) ==> AllMeaningful(cache'))
    && cache <= cache'
    && |cache'| <= |cache| + n
  }

  /** The scan keeps the geocode cache well-formed and adds at most one entry per file. */
  lemma {:induction false} PlanAllCache(s: Settings, files: seq<MediaFile>, cache: seq<Entry>)
    requires AllNamed(files) && DistinctKeys(cache)
    ensures CacheGrows(cache, PlanAll(s, files, cache).1, |files|)
    decreases |files|
  {
    if files != [] {
      assert AllNamed(files[..|files| - 1]);
      PlanAllCache(s, files[..|files| - 1], cache);
      PlanAllCacheStep(s, files, cache);
    }
  }

  /** If the scan of all but the last file keeps the cache well-formed, so does the whole scan. */
  lemma PlanAllCacheStep(s: Settings, files: seq<MediaFile>, cache: seq<Entry>)
    requires AllNamed(files) && files != [] && AllNamed(files[..|files| - 1])
    requires CacheGrows(cache, PlanAll(s, files[..|files| - 1], cache).1, |files| - 1)
    ensures CacheGrows(cache, PlanAll(s, files, cache).1, |files|)
  {
    var n := |files| - 1;
    CacheStep(s, files[n], PlanAll(s, files[..n], cache).1);
  }

  /** Planning one file keeps the cache well-formed and adds at most one entry, at the end. */
  lemma CacheStep(s: Settings, f: MediaFile, cache: seq<Entry>)
    requires HasName(f) && DistinctKeys(cache)
    ensures var cache' := PlanFile(s, f, cache, s.listing).1;
      && DistinctKeys(cache')
      && (AllMeaningful(cache) ==> AllMeaningful(cache'))
      && cache <= cache'
      && |cache'| <= |cache| + 1
  {
    var gps := GpsOf(f.tags);
    if !s.twoLevel && gps.Some? {
      ResolvePreservesCache(s.geo, cache, gps.value.0, gps.value.1, s.reverse);
    }
  }

  /** In two-level mode the country is never looked up: the cache is untouched. */
  lemma {:induction false} TwoLevelLeavesCache(s: Settings, files: seq<MediaFile>, cache: seq<Entry>)
    requires AllNamed(files) && s.twoLevel
    ensures PlanAll(s, files, cache).1 == cache
    ensures forall k :: 0 <= k < |PlanAll(s, files, cache).0| && PlanAll(s, files, cache).0[k].Planned? ==>
      PlanAll(s, files, cache).0[k].country == ""
    decreases |files|
  {
    if files != [] {
      var n := |files| - 1;
      TwoLevelLeavesCache(s, files[..n], cache);
      var (rs, c1) := PlanAll(s, files[..n], cache);
      var (r, c2) := PlanFile(s, files[n], c1, s.listing);
      assert c2 == c1;
      assert PlanAll(s, files, cache) == (rs + [r], c2);
    }
  }

  /** A July 2023 capture date, the date of both files in the collision example. */
  const ExampleDate := DateTime(2023, 7, 1, 0, 0, 0)

  /**
   * A two-level run into an empty destination whose collaborators find
   * nothing: no date tag parses, no coordinate is known, every folder can
   * be created and every folder is empty.
   */
  const ExampleSettings := Settings([], true, _ => None, Env(_ => "", _ => None, (_, _) => None), _ => Raised, _ => None, _ => {})

  /** Two files named `IMG_0001.jpg` in different source folders, both modified in July 2023. */
  const ExampleFiles := [
    MediaFile(["a", "IMG_0001.jpg"], map[], Some(ExampleDate), ExampleDate),
    MediaFile(["b", "IMG_0001.jpg"], map[], Some(ExampleDate), ExampleDate)]

  /**
   * As written, the collision check only sees what is on disk: two files
   * with the same name that land in the same folder get the same target,
   * and executing the plan then overwrites the first copy with the second.
   */
  lemma SameNameCollides()
    ensures var records := PlanAll(ExampleSettings, ExampleFiles, []).0;
      && |records| == 2
      && records[0].Planned? && records[1].Planned?
      && records[0].src != records[1].src
      && records[0].target == records[1].target
  {
    var s, files, d := ExampleSettings, ExampleFiles, ExampleDate;
    var f1, f2 := files[0], files[1];
    assert files[..1] == [f1] && files[..1][..0] == [];
    var target := [YearMonth(d), CollisionTarget("IMG_0001.jpg", {})];
    assert CaptureDate(f1.tags, s.parse, f1.modified, f1.now) == d;
    assert CaptureDate(f2.tags, s.parse, f2.modified, f2.now) == d;
    var r1 := PlanFile(s, f1, [], s.listing).0;
    var r2 := PlanFile(s, f2, [], s.listing).0;
    assert r1 == Planned(f1.path, d, None, "", target);
    assert r2 == Planned(f2.path, d, None, "", target);
    assert PlanFile(s, f1, [], s.listing) == (r1, []);
    assert PlanFile(s, f2, [], s.listing) == (r2, []);
    var one := files[..1];
    assert one[|one| - 1] == f1 && one[..|one| - 1] == [];
    assert PlanAll(s, one[..|one| - 1], []) == ([], []);
    var p := PlanAll(s, one, []);
    assert p.0 == [] + [PlanFile(s, f1, [], s.listing).0];
    assert p.0 == [r1] && p.1 == [];
    assert PlanAll(s, files, []).0 == [r1, r2];
  }

  /** The names planned so far whose target lies directly in `dir`. */
  function PlannedNames(planned: seq<PlanRecord>, dir: Path): (names: set<string>)
    ensures forall k :: (0 <= k < |planned| && planned[k].Planned? &&
      |planned[k].target| == |dir| + 1 && planned[k].target[..|dir|] == dir) ==> planned[k].target[|dir|] in names
  {
    set k | 0 <= k < |planned| && planned[k].Planned? &&
      |planned[k].target| == |dir| + 1 && planned[k].target[..|dir|] == dir :: planned[k].target[|dir|]
  }

  /** The names on disk in `folder` together with those planned into it earlier in the run. */
  function TakenSoFar(s: Settings, planned: seq<PlanRecord>): string -> set<string> {
    folder => s.listing(folder) + PlannedNames(planned, s.dst + [folder])
  }

  /**
   * The scan with the collision check counting every name planned earlier
   * in the same run as taken, like a name on disk, so that no two files of
   * a run are given the same target.
   */
  function PlanAllTracked(s: Settings, files: seq<MediaFile>, cache: seq<Entry>): (seq<PlanRecord>, seq<Entry>)
    requires AllNamed(files)
    decreases |files|
  {
    if files == [] then ([], cache)
    else
      var (records, cache') := PlanAllTracked(s, files[..|files| - 1], cache);
      var (r, cache'') := PlanFile(s, files[|files| - 1], cache', TakenSoFar(s, records));
      (records + [r], cache'')
  }

  /** The facts `PlanAllTrackedDistinct` states about the records of a run. */
  predicate TrackedPlan(s: Settings, records: seq<PlanRecord>) {
    && (forall k :: 0 <= k < |records| && records[k].Planned? ==>
          && |records[k].target| == |s.dst| + 2
          && records[k].target[..|s.dst|] == s.dst
          && records[k].target[|s.dst| + 1] !in s.listing(records[k].target[|s.dst|]))
    && (forall i, j :: 0 <= i < j < |records| && records[i].Planned? && records[j].Planned? ==>
          records[i].target != records[j].target)
  }

  /** A target whose name is not among those planned into its folder differs from every planned target. */
  lemma FreshTarget(s: Settings, rs: seq<PlanRecord>, t: Path)
    requires |t| == |s.dst| + 2 && t[..|s.dst|] == s.dst
    requires t[|s.dst| + 1] !in PlannedNames(rs, s.dst + [t[|s.dst|]])
    ensures forall i :: 0 <= i < |rs| && rs[i].Planned? ==> rs[i].target != t
  {
    var dir := s.dst + [t[|s.dst|]];
    assert t[..|dir|] == dir;
  }

  /** Appending a record whose target is fresh on disk and in the run keeps a plan tracked. */
  lemma TrackedAppend(s: Settings, rs: seq<PlanRecord>, r: PlanRecord)
    requires TrackedPlan(s, rs)
    requires r.Planned? ==>
      && |r.target| == |s.dst| + 2
      && r.target[..|s.dst|] == s.dst
      && r.target[|s.dst| + 1] !in s.listing(r.target[|s.dst|])
      && forall i :: 0 <= i < |rs| && rs[i].Planned? ==> rs[i].target != r.target
    ensures TrackedPlan(s, rs + [r])
  {
    var records := rs + [r];
    assert forall i :: 0 <= i < |rs| ==> records[i] == rs[i];
  }

  /** A record planned against `TakenSoFar` keeps a tracked plan tracked. */
  lemma TrackedStep(s: Settings, rs: seq<PlanRecord>, f: MediaFile, cache: seq<Entry>)
    requires HasName(f) && TrackedPlan(s, rs)
    ensures TrackedPlan(s, rs + [PlanFile(s, f, cache, TakenSoFar(s, rs)).0])
  {
    var taken := TakenSoFar(s, rs);
    var r := PlanFile(s, f, cache, taken).0;
    PlanFileFits(s, f, cache, taken);
    if r.Planned? {
      var t := r.target;
      var folder := t[|s.dst|];
      assert taken(folder) == s.listing(folder) + PlannedNames(rs, s.dst + [folder]);
      FreshTarget(s, rs, t);
    }
    TrackedAppend(s, rs, r);
  }

  /**
   * With planned names counted as taken, every planned target lies in a
   * folder directly under `dst`, is absent from that folder on disk, and no
   * two records of the run share a target.
   */
  lemma {:induction false} PlanAllTrackedDistinct(s: Settings, files: seq<MediaFile>, cache: seq<Entry>)
    requires AllNamed(files)
    ensures |PlanAllTracked(s, files, cache).0| == |files|
    ensures TrackedPlan(s, PlanAllTracked(s, files, cache).0)
    decreases |files|
  {
    if files != [] {
      var n := |files| - 1;
      assert AllNamed(files[..n]);
      PlanAllTrackedDistinct(s, files[..n], cache);
      var (rs, c1) := PlanAllTracked(s, files[..n], cache);
      TrackedStep(s, rs, files[n], c1);
    }
  }

  /** On the two same-named files of `SameNameCollides`, the corrected scan plans two different targets. */
  lemma SameNameSeparated()
    ensures var records := PlanAllTracked(ExampleSettings, ExampleFiles, []).0;
      && |records| == 2
      && records[0].Planned? && records[1].Planned?
      && records[0].target != records[1].target
  {
    var s, files := ExampleSettings, ExampleFiles;
    assert files[..1] == [files[0]] && files[..1][..0] == [];
    PlanAllTrackedDistinct(s, files, []);
  }

  /** The body of the scan loop's `try` for one file. */
  method PlanOne(s: Settings, f: MediaFile, cache: GeocodeCache) returns (r: PlanRecord)
    requires HasName(f) && cache.Valid()
    modifies cache
    ensures cache.Valid()
    ensures (r, cache.entries) == PlanFile(s, f, old(cache.entries), s.listing)
  {
    var date, gps := ExtractDateAndGps(f.tags, s.parse, f.modified, f.now);
    var country: string;
    if s.twoLevel {
      country := "";
    } else {
      country := "NoLocation";
      if gps.Some? {
        country := cache.CountryForCoords(s.geo, gps.value.0, gps.value.1, s.reverse);
      }
      country := SlugifyFolderName(country);
    }
    var folder := FolderName(date, s.twoLevel, country);
    var failure := s.mkdir(folder);
    if failure.Some? {
      r := Failed(f.path, failure.value);
    } else {
      var target := PlanTarget(FileName(f), s.listing(folder));
      r := Planned(f.path, date, gps, country, s.dst + [folder, target]);
    }
  }

  /**
   * The scan loop of `run`. `cache` is the geocode cache that `load_cache`
   * produced; the records are returned in discovery order.
   */
  method ScanFiles(s: Settings, files: seq<MediaFile>, cache: GeocodeCache) returns (records: seq<PlanRecord>)
    requires AllNamed(files) && cache.Valid()
    modifies cache
    ensures cache.Valid()
    ensures (records, cache.entries) == PlanAll(s, files, old(cache.entries))
  {
    records := [];
    var k := 0;
    while k < |files|
      invariant 0 <= k <= |files| && cache.Valid()
      invariant (records, cache.entries) == PlanAll(s, files[..k], old(cache.entries))
    {
      assert files[..k + 1][..k] == files[..k];
      var r := PlanOne(s, files[k], cache);
      records := records + [r];
      k := k + 1;
    }
    assert files[..k] == files;
  }
}
