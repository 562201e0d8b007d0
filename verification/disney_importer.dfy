// Model of ref_data/disney_data_importer.py: the normalisation of one
// scraped Disney job, the loading of a jobs file, the file format test and
// the department and location counts of the file statistics. The
// department, content and id rules are the ones soupboss/ingestion.py
// uses; the location rule differs and is compared with it here.

module DisneyImporter {
  import opened Wrappers
  import opened Text
  import opened Json
  import opened Collections
  import Ingestion

  type Fields = map<string, Value>

  // ---------------------------------------------------------------------
  // _process_disney_job

  /** A list entry is used when it is a string that is not the long
      "Select Location" option and its first part is non-empty and under
      50 characters. */
  predicate Usable(v: Value) {
    v.Str? && !StartsWith(v.s, Ingestion.SelectPrefix)
    && Ingestion.FirstPart(v.s) != [] && |Ingestion.FirstPart(v.s)| < 50
  }

  /** The location picked from a list: the first part of the first usable
      entry. */
  function ListLocation(locs: seq<Value>): (r: Option<string>)
    ensures r.Some? ==> r.value != [] && |r.value| < 50 && ',' !in r.value
    ensures r.None? <==> forall i :: 0 <= i < |locs| ==> !Usable(locs[i])
  {
    if locs == [] then None
    else if Usable(locs[0]) then Some(Ingestion.FirstPart(locs[0].s))
    else
      var r := ListLocation(locs[1..]);
      assert forall i :: 1 <= i < |locs| ==> locs[i] == locs[1..][i - 1];
      r
  }

  /** The filtering loop, which stops at the first usable entry. */
  method FindLocation(locs: seq<Value>) returns (r: Option<string>)
    ensures r == ListLocation(locs)
  {
    for i := 0 to |locs|
      invariant ListLocation(locs[i..]) == ListLocation(locs)
    {
      var loc := locs[i];
      assert locs[i..][0] == loc && locs[i..][1..] == locs[i + 1..];
      if loc.Str? && !StartsWith(loc.s, Ingestion.SelectPrefix) {
        var cleanLoc := Ingestion.FirstPart(loc.s);
        if cleanLoc != [] && |cleanLoc| < 50 {
          return Some(cleanLoc);
        }
      }
    }
    return None;
  }

  /** The location of a job: from a non-empty list, the first usable
      entry; from a string, its first part; otherwise None. */
  function Location(locations: Value): Option<string> {
    if !Truthy(locations) then None
    else if locations.List? then ListLocation(locations.items)
    else if locations.Str? && !StartsWith(locations.s, Ingestion.SelectPrefix) then Some(Ingestion.FirstPart(locations.s))
    else None
  }

  /** An entry the importer uses is one ingestion accepts, so whenever the
      importer finds a location in a list, ingestion finds one too. */
  lemma {:induction false} ListLocationImpliesIngestion(locs: seq<Value>)
    ensures ListLocation(locs).Some? ==> Ingestion.ListLocation(locs).Some?
  {
    if locs != [] && !Ingestion.Acceptable(locs[0]) {
      ListLocationImpliesIngestion(locs[1..]);
    }
  }

  /** When no entry that ingestion accepts has an empty first part, both
      rules pick the same location. */
  lemma {:induction false} ListLocationAgrees(locs: seq<Value>)
    requires forall i :: 0 <= i < |locs| && Ingestion.Acceptable(locs[i]) ==> Ingestion.FirstPart(locs[i].s) != []
    ensures ListLocation(locs) == Ingestion.ListLocation(locs)
  {
    if locs != [] && !Ingestion.Acceptable(locs[0]) {
      assert forall i :: 1 <= i < |locs| ==> locs[i] == locs[1..][i - 1];
      ListLocationAgrees(locs[1..]);
    }
  }

  /** A location string that starts with a comma has an empty first part. */
  lemma LeadingCommaEmpty(s: string)
    requires s != [] && s[0] == ','
    ensures Ingestion.FirstPart(s) == []
  {
    assert IndexOf(s, ',') == 0;
    assert Split(s, ',')[0] == [];
  }

  /** The rules differ: a list entry whose first part is empty, such as
      ", Orlando", is taken by ingestion as the empty location and skipped
      here. */
  lemma ListLocationDiffers()
    ensures Ingestion.ListLocation([Str(", Orlando")]) == Some("")
    ensures ListLocation([Str(", Orlando")]) == None
  {
    var s := ", Orlando";
    LeadingCommaEmpty(s);
    assert |s| < |Ingestion.SelectPrefix|;
    assert Ingestion.Acceptable(Str(s)) && !Usable(Str(s));
    var locs := [Str(s)];
    assert locs[0] == Str(s);
  }

  /** The standardised record of one job. */
  datatype ImportedJob = ImportedJob(
    externalId: Value, title: Value, department: Value, location: Option<string>,
    contentHtml: Value, contentText: Value, jobUrl: Value, datePosted: Value, rawData: Fields)

  /** _process_disney_job as a function of the job's fields; toText is the
      HTML-to-text converter, None when it raises. None when the
      department rule raises. */
  function JobRecord(job: Fields, toText: string -> Option<string>): (r: Option<ImportedJob>)
    ensures r.Some? <==> Ingestion.Processable(Object(job))
  {
    var summary := GetOr(job, "summaryHtml", Str(""));
    var department := Ingestion.Department(GetOr(job, "business", Null), summary);
    if department.None? then None
    else
      Some(ImportedJob(
        Ingestion.DisneyExternalId(job),
        GetOr(job, "jobName", Str("Unknown Job")),
        department.value,
        Location(GetOr(job, "locations", List([]))),
        summary,
        Ingestion.ContentText(summary, toText),
        GetOr(job, "jobUrl", Str("")),
        GetOr(job, "datePosted", Null),
        job))
  }

  /** _process_disney_job, with the location found by the filtering loop. */
  method ProcessDisneyJob(job: Fields, toText: string -> Option<string>) returns (rec: Option<ImportedJob>)
    ensures rec.Some? <==> Ingestion.Processable(Object(job))
    ensures rec == JobRecord(job, toText)
  {
    var locations := GetOr(job, "locations", List([]));
    var locationText: Option<string> := None;
    if Truthy(locations) {
      if locations.List? {
        locationText := FindLocation(locations.items);
      } else if locations.Str? && !StartsWith(locations.s, Ingestion.SelectPrefix) {
        locationText := Some(Ingestion.FirstPart(locations.s));
      }
    }
    var summary := GetOr(job, "summaryHtml", Str(""));
    var department := Ingestion.Department(GetOr(job, "business", Null), summary);
    if department.None? {
      return None;
    }
    rec := Some(ImportedJob(
      Ingestion.DisneyExternalId(job),
      GetOr(job, "jobName", Str("Unknown Job")),
      department.value,
      locationText,
      summary,
      Ingestion.ContentText(summary, toText),
      GetOr(job, "jobUrl", Str("")),
      GetOr(job, "datePosted", Null),
      job));
  }

  /** Both normalisations raise on the same jobs. Apart from the location,
      the record agrees with the one ingestion builds from the same job;
      the location agrees when no list entry has an empty first part. */
  lemma RecordMatchesIngestion(job: Fields, toText: string -> Option<string>)
    ensures JobRecord(job, toText).Some? <==> Ingestion.DisneyRecord(job, toText).Some?
    ensures JobRecord(job, toText).Some? ==>
      var mine, theirs := JobRecord(job, toText).value, Ingestion.DisneyRecord(job, toText).value;
      && mine.externalId == theirs.externalId && mine.title == theirs.title
      && mine.department == theirs.department && mine.contentHtml == theirs.contentHtml
      && mine.contentText == theirs.contentText
      && (mine.location.Some? ==> theirs.location.Str?)
    ensures var locations := GetOr(job, "locations", List([]));
      (locations.List? && forall i :: 0 <= i < |locations.items| && Ingestion.Acceptable(locations.items[i])
                                    ==> Ingestion.FirstPart(locations.items[i].s) != [])
      && JobRecord(job, toText).Some?
      ==> JobRecord(job, toText).value.location == Ingestion.Location(locations)
  {
    var locations := GetOr(job, "locations", List([]));
    if locations.List? {
      ListLocationImpliesIngestion(locations.items);
      if forall i :: 0 <= i < |locations.items| && Ingestion.Acceptable(locations.items[i])
                     ==> Ingestion.FirstPart(locations.items[i].s) != [] {
        ListLocationAgrees(locations.items);
      }
    }
  }

  // ---------------------------------------------------------------------
  // load_jobs_from_file

  /** Each failure ends the program with exit status 1. */
  datatype LoadError = Unreadable | InvalidFormat | NotSized | BadMetadata | Unprocessable(index: nat)

  /** Python's len() is defined on these values only. */
  predicate Sized(v: Value) {
    v.Str? || v.List? || v.Object?
  }

  /** The jobs a parsed file holds (None when it cannot be read or
      parsed): the "jobs" value of an object, or a bare list. Iterating an
      empty string or dict gives no job; iterating a non-empty one gives a
      string, which is not a dict. */
  function FileJobs(data: Option<Value>): (r: Result<seq<Value>, LoadError>)
    ensures data.Some? && data.value.List? ==> r == Ok(data.value.items)
    ensures r.Ok? ==> data.Some? && (data.value.List? || (data.value.Object? && "jobs" in data.value.fields))
  {
    match data
    case None => Err(Unreadable)
    case Some(List(items)) => Ok(items)
    case Some(Object(fields)) =>
      if "jobs" !in fields then Err(InvalidFormat)
      else
        var jobs := fields["jobs"];
        if !Sized(jobs) then Err(NotSized)
        else if "metadata" in fields && !fields["metadata"].Object? then Err(BadMetadata)
        else if jobs.List? then Ok(jobs.items)
        else if !Truthy(jobs) then Ok([])
        else Err(Unprocessable(0))
    case Some(_) => Err(InvalidFormat)
  }

  /** load_jobs_from_file: every job processed, in file order; the first
      job that cannot be processed (it is not a dict, or the department
      rule raises on it) ends the load. */
  method LoadJobsFromFile(data: Option<Value>, toText: string -> Option<string>)
    returns (r: Result<seq<ImportedJob>, LoadError>)
    ensures FileJobs(data).Err? ==> r == Err(FileJobs(data).error)
    ensures FileJobs(data).Ok? ==> var jobs := FileJobs(data).value;
      && (r.Ok? <==> forall i :: 0 <= i < |jobs| ==> Ingestion.Processable(jobs[i]))
      && (r.Err? ==> r.error.Unprocessable? && Ingestion.FirstUnprocessable(jobs) == Some(r.error.index))
      && (r.Ok? ==> |r.value| == |jobs| && forall i :: 0 <= i < |jobs| ==> Some(r.value[i]) == JobRecord(jobs[i].fields, toText))
  {
    var loaded := FileJobs(data);
    if loaded.Err? {
      return Err(loaded.error);
    }
    var jobs := loaded.value;
    var processed: seq<ImportedJob> := [];
    for i := 0 to |jobs|
      invariant |processed| == i
      invariant forall j :: 0 <= j < i ==> Ingestion.Processable(jobs[j]) && Some(processed[j]) == JobRecord(jobs[j].fields, toText)
    {
      if !jobs[i].Object? {
        return Err(Unprocessable(i));
      }
      var rec := ProcessDisneyJob(jobs[i].fields, toText);
      if rec.None? {
        return Err(Unprocessable(i));
      }
      processed := processed + [rec.value];
    }
    r := Ok(processed);
  }

  // ---------------------------------------------------------------------
  // test_file_format

  /** Python's `key in v`: dict keys, list elements or substrings; a
      TypeError (None) on anything else. */
  function PyIn(key: string, v: Value): Option<bool> {
    if Ingestion.Searchable(v) then Some(Ingestion.KeyIn(key, v)) else None
  }

  const RequiredFields: seq<string> := ["jobId", "jobName", "jobUrl"]

  /** Whether the first job holds every required field; None when the
      membership test raises. */
  function HasRequired(first: Value): (r: Option<bool>)
    ensures first.Object? ==> r == Some(forall f :: f in RequiredFields ==> f in first.fields)
  {
    if PyIn("jobId", first).None? then None
    else Some(PyIn("jobId", first).value && PyIn("jobName", first).value && PyIn("jobUrl", first).value)
  }

  /** test_file_format on the parsed file: the top-level shape, then the
      first job's required fields; any exception gives False. */
  function TestFileFormat(data: Option<Value>): (ok: bool)
    ensures data.None? ==> !ok
    ensures ok ==> data.Some? && (data.value.List? || (data.value.Object? && "jobs" in data.value.fields))
    ensures data.Some? && data.value.List? && data.value.items == [] ==> ok
    ensures data.Some? && data.value.List? && data.value.items != [] && data.value.items[0].Object? ==>
      (ok <==> forall f :: f in RequiredFields ==> f in data.value.items[0].fields)
  {
    match data
    case None => false
    case Some(v) =>
      var tested :=
        if v.Object? && "jobs" in v.fields then (if Sized(v.fields["jobs"]) then Some(v.fields["jobs"]) else None)
        else if v.List? then Some(v)
        else None;
      if tested.None? then false
      else
        var jobs := tested.value;
        if !Truthy(jobs) then true
        else if jobs.List? then HasRequired(jobs.items[0]) == Some(true)
        else if jobs.Str? then HasRequired(Str([jobs.s[0]])) == Some(true)
        else false
  }

  // ---------------------------------------------------------------------
  // show_file_stats

  /** `job.get('department') or 'Unknown'`. */
  function DepartmentKey(job: ImportedJob): Value {
    if Truthy(job.department) then job.department else Str("Unknown")
  }

  /** `job.get('location') or 'Unknown'`. */
  function LocationKey(job: ImportedJob): string {
    if job.location.Some? && job.location.value != [] then job.location.value else "Unknown"
  }

  function DepartmentKeys(jobs: seq<ImportedJob>): (ks: seq<Value>)
    ensures |ks| == |jobs| && forall i :: 0 <= i < |jobs| ==> ks[i] == DepartmentKey(jobs[i])
  {
    seq(|jobs|, i requires 0 <= i < |jobs| => DepartmentKey(jobs[i]))
  }

  function LocationKeys(jobs: seq<ImportedJob>): (ks: seq<string>)
    ensures |ks| == |jobs| && forall i :: 0 <= i < |jobs| ==> ks[i] == LocationKey(jobs[i])
  {
    seq(|jobs|, i requires 0 <= i < |jobs| => LocationKey(jobs[i]))
  }

  lemma KeysSnoc(jobs: seq<ImportedJob>, i: int)
    requires 0 <= i < |jobs|
    ensures DepartmentKeys(jobs[..i + 1]) == DepartmentKeys(jobs[..i]) + [DepartmentKey(jobs[i])]
    ensures LocationKeys(jobs[..i + 1]) == LocationKeys(jobs[..i]) + [LocationKey(jobs[i])]
  {
    assert DepartmentKeys(jobs[..i + 1]) == DepartmentKeys(jobs[..i]) + [DepartmentKey(jobs[i])];
    assert LocationKeys(jobs[..i + 1]) == LocationKeys(jobs[..i]) + [LocationKey(jobs[i])];
  }

  /** Lists and dicts cannot be dict keys. */
  predicate Hashable(v: Value) {
    !v.List? && !v.Object?
  }

  /** The (value, count) pairs of the distinct values, in first-occurrence
      order, as dict.items() lists them. */
  function Items<K(==,!new)>(keys: seq<K>): (items: seq<(K, nat)>)
    ensures |items| == |Distinct(keys)|
    ensures forall i :: 0 <= i < |items| ==> items[i] == (Distinct(keys)[i], Count(keys, Distinct(keys)[i]))
  {
    var d := Distinct(keys);
    seq(|d|, i requires 0 <= i < |d| => (d[i], Count(keys, d[i])))
  }

  function CountOf<K>(item: (K, nat)): real {
    item.1 as real
  }

  /** `sorted(d.items(), key=count, reverse=True)[:10]`. */
  function Top10<K(==,!new)>(keys: seq<K>): seq<(K, nat)> {
    PyPrefix(SortDesc(Items(keys), CountOf), 10)
  }

  /** The top list has at most ten entries, highest count first, each the
      count of a value that occurs, without repeating a value; and no value
      left out occurs more often than any value listed. */
  lemma Top10Correct<K(!new)>(keys: seq<K>)
    ensures |Top10(keys)| <= 10
    ensures SortedDesc(Top10(keys), CountOf)
    ensures forall p :: p in Top10(keys) ==> p.0 in keys && p.1 == Count(keys, p.0) && p.1 > 0
    ensures |Top10(keys)| == if |Distinct(keys)| < 10 then |Distinct(keys)| else 10
    ensures forall i, j :: 0 <= i < j < |Top10(keys)| ==> Top10(keys)[i].0 != Top10(keys)[j].0
    ensures forall x, p :: x in keys && (forall q :: q in Top10(keys) ==> q.0 != x) && p in Top10(keys)
                           ==> Count(keys, x) <= p.1
  {
    var sorted := SortDesc(Items(keys), CountOf);
    SortDescCorrect(Items(keys), CountOf);
    Top10Prefix(keys, sorted);
    ItemsFacts(keys, sorted);
    Top10LeftOut(keys, sorted);
  }

  /** The top list is the first min(10, n) entries of the sorted items. */
  lemma Top10Prefix<K(!new)>(keys: seq<K>, sorted: seq<(K, nat)>)
    requires sorted == SortDesc(Items(keys), CountOf)
    requires SortedDesc(sorted, CountOf) && multiset(sorted) == multiset(Items(keys))
    ensures |Top10(keys)| <= |sorted| && Top10(keys) == sorted[..|Top10(keys)|]
    ensures |Top10(keys)| == if |Distinct(keys)| < 10 then |Distinct(keys)| else 10
    ensures SortedDesc(Top10(keys), CountOf)
  {
    assert |sorted| == |Items(keys)| by {
      assert |multiset(sorted)| == |multiset(Items(keys))|;
    }
  }

  /** No value left out of the top list occurs more often than one listed. */
  lemma Top10LeftOut<K(!new)>(keys: seq<K>, sorted: seq<(K, nat)>)
    requires SortedDesc(sorted, CountOf) && multiset(sorted) == multiset(Items(keys))
    requires |Top10(keys)| <= |sorted| && Top10(keys) == sorted[..|Top10(keys)|]
    ensures forall x, p :: x in keys && (forall q :: q in Top10(keys) ==> q.0 != x) && p in Top10(keys)
                           ==> Count(keys, x) <= p.1
  {
    var top := Top10(keys);
    forall x, p | x in keys && (forall q :: q in top ==> q.0 != x) && p in top
      ensures Count(keys, x) <= p.1
    {
      LeftOutBelow(keys, sorted, |top|, x, p);
    }
  }

  /** Every entry of a reordering of the items is a value that occurs with
      its count, and no two entries share a value. */
  lemma ItemsFacts<K(!new)>(keys: seq<K>, sorted: seq<(K, nat)>)
    requires multiset(sorted) == multiset(Items(keys))
    ensures forall p :: p in sorted ==> p.0 in keys && p.1 == Count(keys, p.0) && p.1 > 0
    ensures forall i, j :: 0 <= i < j < |sorted| ==> sorted[i].0 != sorted[j].0
  {
    var items := Items(keys);
    var d := Distinct(keys);
    DistinctOrder(keys);
    forall p | p in sorted ensures p.0 in keys && p.1 == Count(keys, p.0) && p.1 > 0 {
      assert p in multiset(sorted);
      assert p in items;
      var i :| 0 <= i < |items| && items[i] == p;
      assert d[i] in d;
    }
    forall i, j | 0 <= i < j < |items| ensures items[i] != items[j] {
      assert items[i].0 == d[i] && items[j].0 == d[j];
    }
    PermutationNoDuplicates(items, sorted);
    forall i, j | 0 <= i < j < |sorted| ensures sorted[i].0 != sorted[j].0 {
      assert sorted[i] in sorted && sorted[j] in sorted;
      assert sorted[i] != sorted[j];
    }
  }

  /** A value that occurs but is not among the first n entries of the
      sorted items counts no more than any of those entries. */
  lemma LeftOutBelow<K(!new)>(keys: seq<K>, sorted: seq<(K, nat)>, n: nat, x: K, p: (K, nat))
    requires multiset(sorted) == multiset(Items(keys)) && SortedDesc(sorted, CountOf)
    requires n <= |sorted| && x in keys && p in sorted[..n]
    requires forall q :: q in sorted[..n] ==> q.0 != x
    ensures Count(keys, x) <= p.1
  {
    var items := Items(keys);
    var d := Distinct(keys);
    assert x in d;
    var m :| 0 <= m < |d| && d[m] == x;
    assert items[m] == (x, Count(keys, x));
    assert items[m] in multiset(sorted);
    var k :| 0 <= k < |sorted| && sorted[k] == items[m];
    var r :| 0 <= r < n && sorted[..n][r] == p;
    assert forall t :: 0 <= t < n ==> sorted[..n][t] == sorted[t];
    assert k >= n;
    assert CountOf(sorted[r]) >= CountOf(sorted[k]);
  }

  /** The counts of the statistics; None when a department value cannot be
      a dict key, which the stats command reports as an error. */
  datatype FileStats = FileStats(
    total: nat, departments: map<Value, nat>, locations: map<string, nat>,
    topDepartments: seq<(Value, nat)>, topLocations: seq<(string, nat)>)

  /** The counting loop of show_file_stats over the loaded jobs. */
  method ShowFileStats(jobs: seq<ImportedJob>) returns (r: Option<FileStats>)
    ensures r.None? <==> exists i :: 0 <= i < |jobs| && !Hashable(DepartmentKey(jobs[i]))
    ensures r.Some? ==> (
      && r.value.total == |jobs|
      && r.value.departments == Tally(DepartmentKeys(jobs))
      && r.value.locations == Tally(LocationKeys(jobs))
      && r.value.topDepartments == Top10(DepartmentKeys(jobs))
      && r.value.topLocations == Top10(LocationKeys(jobs)))
  {
    var departments: map<Value, nat> := map[];
    var locations: map<string, nat> := map[];
    for i := 0 to |jobs|
      invariant Counted(jobs, i, departments, locations)
    {
      var dept := DepartmentKey(jobs[i]);
      if !Hashable(dept) {
        return None;
      }
      var departments' := Bump(departments, DepartmentKeys(jobs[..i]), dept);
      var locations' := Bump(locations, LocationKeys(jobs[..i]), LocationKey(jobs[i]));
      CountedStep(jobs, i, departments', locations');
      departments, locations := departments', locations';
    }
    CountedAll(jobs, departments, locations);
    r := Some(FileStats(|jobs|, departments, locations,
                        Top10(DepartmentKeys(jobs)), Top10(LocationKeys(jobs))));
  }

  /** The invariant of the counting loop: the first i jobs have hashable
      departments and are tallied by department and by location. */
  predicate Counted(jobs: seq<ImportedJob>, i: int, departments: map<Value, nat>, locations: map<string, nat>)
    requires 0 <= i <= |jobs|
  {
    && (forall j :: 0 <= j < i ==> Hashable(DepartmentKey(jobs[j])))
    && departments == Tally(DepartmentKeys(jobs[..i]))
    && locations == Tally(LocationKeys(jobs[..i]))
  }

  lemma CountedStep(jobs: seq<ImportedJob>, i: int, departments: map<Value, nat>, locations: map<string, nat>)
    requires 0 <= i < |jobs| && Hashable(DepartmentKey(jobs[i]))
    requires (forall j :: 0 <= j < i ==> Hashable(DepartmentKey(jobs[j])))
    requires departments == Tally(DepartmentKeys(jobs[..i]) + [DepartmentKey(jobs[i])])
    requires locations == Tally(LocationKeys(jobs[..i]) + [LocationKey(jobs[i])])
    ensures Counted(jobs, i + 1, departments, locations)
  {
    KeysSnoc(jobs, i);
  }

  lemma CountedAll(jobs: seq<ImportedJob>, departments: map<Value, nat>, locations: map<string, nat>)
    requires Counted(jobs, |jobs|, departments, locations)
    ensures forall j :: 0 <= j < |jobs| ==> Hashable(DepartmentKey(jobs[j]))
    ensures departments == Tally(DepartmentKeys(jobs)) && locations == Tally(LocationKeys(jobs))
  {
    assert jobs[..|jobs|] == jobs;
  }

  /** Every job is counted once: the department counts and the location
      counts each add up to the number of jobs. */
  lemma StatsCountsSum(jobs: seq<ImportedJob>)
    ensures SumCounts(Distinct(DepartmentKeys(jobs)), multiset(DepartmentKeys(jobs))) == |jobs|
    ensures SumCounts(Distinct(LocationKeys(jobs)), multiset(LocationKeys(jobs))) == |jobs|
    ensures forall k :: k in Tally(LocationKeys(jobs)) ==> Tally(LocationKeys(jobs))[k] == Count(LocationKeys(jobs), k)
  {
    TallyTotal(DepartmentKeys(jobs));
    TallyTotal(LocationKeys(jobs));
  }
}
