// Model of soupboss/ingestion.py without its HTTP clients: the Disney
// record normalisation, the per-source field extraction, the company list
// filter and the counting loops of ingest_company_jobs,
// ingest_from_file_list and import_from_file over the store.

module Ingestion {
  import opened Wrappers
  import opened Text
  import opened Json
  import opened Store
  import Collections

  type Fields = map<string, Value>

  // ---------------------------------------------------------------------
  // The company list file

  /** A line of the companies file names a company when, stripped, it is
      not empty and is not a '#' comment. */
  predicate IsCompanyLine(line: string) {
    Strip(line) != [] && !StartsWith(Strip(line), "#")
  }

  /** The company names of a file, in file order. */
  function CompanyNames(lines: seq<string>): seq<string> {
    if lines == [] then []
    else
      var last := lines[|lines| - 1];
      CompanyNames(lines[..|lines| - 1]) + (if IsCompanyLine(last) then [Strip(last)] else [])
  }

  /** The filter works line by line: the names of two consecutive parts of
      a file are the names of the first part followed by those of the
      second, so file order is kept. */
  lemma {:induction false} CompanyNamesAppend(a: seq<string>, b: seq<string>)
    ensures CompanyNames(a + b) == CompanyNames(a) + CompanyNames(b)
    decreases |b|
  {
    if b == [] {
      assert a + b == a;
    } else {
      var b' := b[..|b| - 1];
      assert (a + b)[..|a + b| - 1] == a + b';
      CompanyNamesAppend(a, b');
    }
  }

  /** A name is listed exactly when some line, stripped, is that name and
      names a company. */
  lemma {:induction false} CompanyNamesMembers(lines: seq<string>)
    ensures forall c :: c in CompanyNames(lines) <==>
      exists i :: 0 <= i < |lines| && IsCompanyLine(lines[i]) && Strip(lines[i]) == c
    ensures |CompanyNames(lines)| <= |lines|
  {
    if lines != [] {
      var init := lines[..|lines| - 1];
      var last := lines[|lines| - 1];
      CompanyNamesMembers(init);
      assert CompanyNames(lines) == CompanyNames(init) + (if IsCompanyLine(last) then [Strip(last)] else []);
      forall c | c in CompanyNames(lines)
        ensures exists i :: 0 <= i < |lines| && IsCompanyLine(lines[i]) && Strip(lines[i]) == c
      {
        if c in CompanyNames(init) {
          var i :| 0 <= i < |init| && IsCompanyLine(init[i]) && Strip(init[i]) == c;
          assert lines[i] == init[i];
        } else {
          assert IsCompanyLine(lines[|lines| - 1]) && Strip(lines[|lines| - 1]) == c;
        }
      }
      forall c | (exists i :: 0 <= i < |lines| && IsCompanyLine(lines[i]) && Strip(lines[i]) == c)
        ensures c in CompanyNames(lines)
      {
        var i :| 0 <= i < |lines| && IsCompanyLine(lines[i]) && Strip(lines[i]) == c;
        if i < |lines| - 1 {
          assert init[i] == lines[i];
        }
      }
    }
  }

  /** A company name as the file filter leaves it: non-empty, not a
      comment and without surrounding whitespace. */
  predicate NameShape(c: string) {
    c != [] && c[0] != '#' && !IsSpace(c[0]) && !IsSpace(c[|c| - 1])
  }

  /** A company line, stripped, has that shape. */
  lemma CompanyLineShape(line: string)
    requires IsCompanyLine(line)
    ensures NameShape(Strip(line))
  {
    var c := Strip(line);
    assert !StartsWith(c, "#");
    assert c[..1] == [c[0]];
  }

  /** Every listed name has that shape. */
  lemma {:induction false} CompanyNamesShape(lines: seq<string>)
    ensures forall c :: c in CompanyNames(lines) ==> NameShape(c)
  {
    if lines != [] {
      var init, last := lines[..|lines| - 1], lines[|lines| - 1];
      CompanyNamesShape(init);
      if IsCompanyLine(last) {
        CompanyLineShape(last);
      }
      assert CompanyNames(lines) == CompanyNames(init) + (if IsCompanyLine(last) then [Strip(last)] else []);
    }
  }

  /** _read_companies_file over the lines of the file. */
  method ReadCompaniesFile(lines: seq<string>) returns (companies: seq<string>)
    ensures companies == CompanyNames(lines)
  {
    companies := [];
    for i := 0 to |lines|
      invariant companies == CompanyNames(lines[..i])
    {
      assert lines[..i + 1][..i] == lines[..i];
      var company := Strip(lines[i]);
      if company != [] && !StartsWith(company, "#") {
        companies := companies + [company];
      }
    }
    assert lines[..|lines|] == lines;
  }

  // ---------------------------------------------------------------------
  // Python's str() and the binding of values to TEXT columns

  /** str(v) for the scalar JSON values; None for floats, lists and dicts. */
  function PyStr(v: Value): (r: Option<string>)
    ensures v.Str? ==> r == Some(v.s)
    ensures v.Int? ==> r == Some(IntToString(v.i))
  {
    match v
    case Null => Some("None")
    case Bool(b) => Some(if b then "True" else "False")
    case Int(i) => Some(IntToString(i))
    case Str(s) => Some(s)
    case _ => None
  }

  /** sqlite3 binds a Python int only as a signed 64-bit INTEGER; any
      other int raises OverflowError. */
  predicate SqliteInteger(i: int) {
    -0x8000_0000_0000_0000 <= i < 0x8000_0000_0000_0000
  }

  /** What SQLite keeps when v is bound to a TEXT column: NULL, the text of
      a string, or the decimal text of an integer (a bool binds as 1 or
      0); None when the value is not bound (a list or dict cannot be, nor
      an integer outside the signed 64-bit range). */
  function Cell(v: Value): (r: Option<Option<string>>)
    ensures r == Some(None) <==> v.Null?
    ensures v.Str? ==> r == Some(Some(v.s))
    ensures v.Int? ==> (r.Some? <==> SqliteInteger(v.i))
    ensures v.Int? && r.Some? ==> r.value.Some? && ParseInt(r.value.value) == Some(v.i)
    ensures v.List? || v.Object? ==> r.None?
  {
    match v
    case Null => Some(None)
    case Bool(b) => Some(Some(if b then "1" else "0"))
    case Int(i) =>
      if SqliteInteger(i) then
        IntToStringRoundTrip(i);
        Some(Some(IntToString(i)))
      else None
    case Str(s) => Some(Some(s))
    case _ => None
  }

  /** A job record in the standard shape every source is brought to. */
  datatype JobRecord = JobRecord(
    externalId: Value, title: Value, department: Value, location: Value,
    contentHtml: Value, contentText: Value)

  /** The values of the add_job call for a record. */
  datatype Row = Row(
    externalId: string, title: string, department: Option<string>, location: Option<string>,
    contentHtml: Option<string>, contentText: Option<string>)

  /** The row add_job writes for a record, or None when the call raises:
      title is NOT NULL, and every value must bind. */
  function RowOf(rec: JobRecord): (r: Option<Row>)
    ensures r.Some? <==>
      PyStr(rec.externalId).Some? && Cell(rec.title).Some? && Cell(rec.title).value.Some?
      && Cell(rec.department).Some? && Cell(rec.location).Some?
      && Cell(rec.contentHtml).Some? && Cell(rec.contentText).Some?
    ensures rec.title.Null? ==> r.None?
    ensures r.Some? ==> r.value.externalId == PyStr(rec.externalId).value
  {
    var ext := PyStr(rec.externalId);
    var title := Cell(rec.title);
    var dept := Cell(rec.department);
    var loc := Cell(rec.location);
    var html := Cell(rec.contentHtml);
    var text := Cell(rec.contentText);
    if ext.Some? && title.Some? && title.value.Some? && dept.Some? && loc.Some? && html.Some? && text.Some? then
      Some(Row(ext.value, title.value.value, dept.value, loc.value, html.value, text.value))
    else None
  }

  /** The job stored for a row. */
  function JobOf(row: Row, companyId: int, source: string, raw: Value): Job {
    Job(row.externalId, companyId, source, row.title, row.department, row.location,
        row.contentHtml, row.contentText, raw)
  }

  /** Every job key present in js is still present in js'. */
  predicate KeysKept(js: map<int, Job>, js': map<int, Job>) {
    forall id :: id in js ==> HasJobKey(js', KeyOf(js[id]))
  }

  /** js' is js with one row written. */
  predicate Upserted(js: map<int, Job>, js': map<int, Job>, job: Job) {
    exists id :: id in js' && js'[id] == job && js' == js[id := job]
  }

  /** The record, when it makes a row, has its key in js. */
  predicate SavedIn(js: map<int, Job>, companyId: int, source: string, rec: JobRecord) {
    RowOf(rec).Some? ==> HasJobKey(js, JobKey(RowOf(rec).value.externalId, companyId, source))
  }

  lemma SavedInKept(js: map<int, Job>, js': map<int, Job>)
    requires KeysKept(js, js')
    ensures forall companyId, source, rec :: SavedIn(js, companyId, source, rec) ==> SavedIn(js', companyId, source, rec)
  {
    forall companyId, source, rec | SavedIn(js, companyId, source, rec)
      ensures SavedIn(js', companyId, source, rec)
    {
      if RowOf(rec).Some? {
        var key := JobKey(RowOf(rec).value.externalId, companyId, source);
        var o :| o in js && KeyOf(js[o]) == key;
      }
    }
  }

  lemma KeysKeptTrans(a: map<int, Job>, b: map<int, Job>, c: map<int, Job>)
    requires KeysKept(a, b) && KeysKept(b, c)
    ensures KeysKept(a, c)
  {
    forall id | id in a ensures HasJobKey(c, KeyOf(a[id])) {
      var o :| o in b && KeyOf(b[o]) == KeyOf(a[id]);
    }
  }

  /** The try block around add_job: the row is written when the values
      bind, otherwise the error is reported and nothing changes. */
  method SaveRecord(db: SoupBossDb, companyId: int, source: string, rec: JobRecord, raw: Value)
    returns (saved: bool)
    requires db.Valid()
    modifies db
    ensures db.Valid()
    ensures saved <==> RowOf(rec).Some?
    ensures saved ==> Upserted(old(db.jobs), db.jobs, JobOf(RowOf(rec).value, companyId, source, raw))
    ensures SavedIn(db.jobs, companyId, source, rec)
    ensures forall c, s, rec' :: SavedIn(old(db.jobs), c, s, rec') ==> SavedIn(db.jobs, c, s, rec')
    ensures !saved ==> db.jobs == old(db.jobs) && db.jobSeq == old(db.jobSeq)
    ensures KeysKept(old(db.jobs), db.jobs)
    ensures db.companies == old(db.companies) && db.resumes == old(db.resumes) && db.matches == old(db.matches)
    ensures db.jobEmb == old(db.jobEmb) && db.resumeEmb == old(db.resumeEmb)
    ensures db.companySeq == old(db.companySeq) && db.resumeSeq == old(db.resumeSeq)
  {
    var row := RowOf(rec);
    if row.None? {
      return false;
    }
    var r := row.value;
    var before := db.jobs;
    var id := db.AddJob(r.externalId, companyId, source, r.title, r.department, r.location,
                        r.contentHtml, r.contentText, raw);
    var job := JobOf(r, companyId, source, raw);
    assert db.jobs[id] == job;
    assert KeyOf(job) == JobKey(r.externalId, companyId, source);
    forall o | o in before ensures HasJobKey(db.jobs, KeyOf(before[o])) {
      if o == id {
        assert KeyOf(before[o]) == KeyOf(job);
      } else {
        assert db.jobs[o] == before[o];
      }
    }
    SavedInKept(before, db.jobs);
    saved := true;
  }

  // ---------------------------------------------------------------------
  // Disney records (DisneyDataImporter in this file)

  const SelectPrefix: string := "Select Location"

  /** The first comma-separated part of a location, stripped. */
  function FirstPart(loc: string): (r: string)
    ensures ',' !in r
  {
    var part := Split(loc, ',')[0];
    StripInside(part);
    Strip(part)
  }

  lemma StripInside(s: string)
    ensures forall c :: c in Strip(s) ==> c in s
  {
    var l := LStrip(s);
    var r := RStrip(l);
    Collections.SliceMembers(s, |s| - |l|, |s|);
    Collections.SliceMembers(l, 0, |r|);
    assert Strip(s) == r;
  }

  /** A list entry is used when it is a string that is not the long
      "Select Location" option and its first part is under 50 characters
      (an empty first part is accepted). */
  predicate Acceptable(v: Value) {
    v.Str? && !StartsWith(v.s, SelectPrefix) && |FirstPart(v.s)| < 50
  }

  /** The location picked from a list of locations. */
  function ListLocation(locs: seq<Value>): (r: Option<string>)
    ensures r.Some? ==> |r.value| < 50 && ',' !in r.value
  {
    if locs == [] then None
    else if Acceptable(locs[0]) then Some(FirstPart(locs[0].s))
    else ListLocation(locs[1..])
  }

  /** ListLocation is None exactly when no entry is acceptable. */
  lemma {:induction false} ListLocationNone(locs: seq<Value>)
    ensures ListLocation(locs).None? <==> forall i :: 0 <= i < |locs| ==> !Acceptable(locs[i])
  {
    if locs != [] && !Acceptable(locs[0]) {
      var tail := locs[1..];
      ListLocationNone(tail);
      assert forall i :: 1 <= i < |locs| ==> locs[i] == tail[i - 1];
    }
  }

  /** Otherwise it is the first part of the first acceptable entry. */
  lemma ListLocationFirst(locs: seq<Value>) returns (i: nat)
    requires ListLocation(locs).Some?
    ensures i < |locs| && Acceptable(locs[i]) && ListLocation(locs).value == FirstPart(locs[i].s)
    ensures forall j :: 0 <= j < i ==> !Acceptable(locs[j])
  {
    i := 0;
    while !Acceptable(locs[i])
      invariant i < |locs|
      invariant ListLocation(locs[i..]) == ListLocation(locs)
      invariant forall j :: 0 <= j < i ==> !Acceptable(locs[j])
      decreases |locs| - i
    {
      assert locs[i..][1..] == locs[i + 1..];
      i := i + 1;
    }
    assert locs[i..][0] == locs[i];
  }

  /** The search loop over a list of locations, stopping at the first
      acceptable entry. */
  method FindListLocation(locs: seq<Value>) returns (r: Option<string>)
    ensures r == ListLocation(locs)
  {
    var i := 0;
    while i < |locs|
      invariant 0 <= i <= |locs|
      invariant ListLocation(locs[i..]) == ListLocation(locs)
    {
      var loc := locs[i];
      if loc.Str? && !StartsWith(loc.s, SelectPrefix) {
        var part := FirstPart(loc.s);
        if |part| < 50 {
          assert locs[i..][0] == loc;
          return Some(part);
        }
      }
      assert locs[i..][1..] == locs[i + 1..];
      i := i + 1;
    }
    return None;
  }

  /** The location of a Disney job: from a list, the first acceptable entry;
      from a string, its first part whatever its length; otherwise None. */
  function Location(locations: Value): Option<string> {
    if !Truthy(locations) then None
    else if locations.List? then ListLocation(locations.items)
    else if locations.Str? && !StartsWith(locations.s, SelectPrefix) then Some(FirstPart(locations.s))
    else None
  }

  /** A single location string has no length limit, unlike a list entry. */
  lemma LocationStringUnbounded(s: string)
    requires s != [] && !StartsWith(s, SelectPrefix)
    ensures Location(Str(s)) == Some(FirstPart(s))
    ensures |FirstPart(s)| >= 50 ==> Location(List([Str(s)])).None?
  {
    var locs := [Str(s)];
    assert locs[1..] == [];
    assert Truthy(List(locs));
    if |FirstPart(s)| >= 50 {
      assert !Acceptable(locs[0]);
      assert ListLocation(locs) == ListLocation(locs[1..]);
    }
  }

  /** The values Python's `key in v` is defined on: strings, lists and
      dicts. */
  predicate Searchable(v: Value) {
    v.Str? || v.List? || v.Object?
  }

  /** Python's `key in v`: a substring of a string, an element of a list,
      a key of a dict. */
  predicate KeyIn(key: string, v: Value)
    requires Searchable(v)
  {
    match v
    case Str(s) => Contains(s, key)
    case List(items) => Str(key) in items
    case Object(fields) => key in fields
  }

  /** The department keyword rules, in priority order. */
  function KeywordDepartment(summary: Value): Option<string>
    requires Searchable(summary)
  {
    if KeyIn("Entertainment", summary) then Some("Entertainment")
    else if KeyIn("Technology", summary) || KeyIn("Engineering", summary) then Some("Technology")
    else if KeyIn("Operations", summary) then Some("Operations")
    else if KeyIn("Marketing", summary) then Some("Marketing")
    else None
  }

  /** The keyword rules raise a TypeError: business is falsy and the
      summary is truthy but `in` is not defined on it. */
  predicate DepartmentRaises(business: Value, summary: Value) {
    !Truthy(business) && Truthy(summary) && !Searchable(summary)
  }

  /** department: the business field when truthy; otherwise the first
      keyword rule that matches a non-empty summary; otherwise the business
      value itself (missing, null or empty). None when the keyword test
      raises. */
  function Department(business: Value, summary: Value): (r: Option<Value>)
    ensures r.None? <==> DepartmentRaises(business, summary)
  {
    if Truthy(business) || !Truthy(summary) then Some(business)
    else if !Searchable(summary) then None
    else if KeywordDepartment(summary).Some? then Some(Str(KeywordDepartment(summary).value))
    else Some(business)
  }

  /** The rules' priority: a truthy business always wins; "Entertainment"
      beats every other keyword; "Engineering" counts as "Technology";
      and without business and keyword the department stays falsy. */
  lemma DepartmentPriority(business: Value, summary: Value)
    requires !DepartmentRaises(business, summary)
    ensures Truthy(business) ==> Department(business, summary) == Some(business)
    ensures !Truthy(business) && Truthy(summary) && KeyIn("Entertainment", summary) ==>
      Department(business, summary) == Some(Str("Entertainment"))
    ensures (!Truthy(business) && Truthy(summary) && !KeyIn("Entertainment", summary)
             && KeyIn("Engineering", summary)) ==>
      Department(business, summary) == Some(Str("Technology"))
    ensures !Truthy(business) && Truthy(Department(business, summary).value) ==>
      Department(business, summary).value in
        [Str("Entertainment"), Str("Technology"), Str("Operations"), Str("Marketing")]
    ensures !Truthy(business) && (!Truthy(summary) || KeywordDepartment(summary).None?) ==>
      !Truthy(Department(business, summary).value)
  {
  }

  /** A list summary is searched for whole elements and a dict summary for
      keys, so a list holding "Engineering" or a dict keyed by it gives
      "Technology", and a number as summary makes the rule raise. */
  lemma DepartmentOfContainers()
    ensures Department(Null, List([Str("Engineering")])) == Some(Str("Technology"))
    ensures Department(Null, List([Str("Engineering team")])) == Some(Null)
    ensures Department(Null, Object(map["Marketing" := Null])) == Some(Str("Marketing"))
    ensures Department(Null, Int(7)).None?
    ensures Department(Str("Parks"), Int(7)) == Some(Str("Parks"))
  {
    var items := [Str("Engineering team")];
    assert Str("Entertainment") !in items && Str("Technology") !in items && Str("Engineering") !in items;
    assert Str("Operations") !in items && Str("Marketing") !in items;
    var keys: Fields := map["Marketing" := Null];
    assert "Entertainment" !in keys && "Technology" !in keys && "Engineering" !in keys && "Operations" !in keys;
    assert Truthy(Object(keys)) && KeyIn("Marketing", Object(keys));
    assert KeywordDepartment(Object(keys)) == Some("Marketing");
  }

  /** content_text: None for an empty summary; the converted text,
      stripped; or the raw summary when the conversion raises. toText is
      the HTML-to-text converter, None when it raises (it does on
      anything but a string). */
  function ContentText(summary: Value, toText: string -> Option<string>): Value {
    if !Truthy(summary) then Null
    else if summary.Str? && toText(summary.s).Some? then Str(Strip(toText(summary.s).value))
    else summary
  }

  /** content_text is None exactly when the summary is empty (or missing). */
  lemma ContentTextNullIffEmpty(summary: Value, toText: string -> Option<string>)
    ensures ContentText(summary, toText).Null? <==> !Truthy(summary)
    ensures summary.Str? && toText(summary.s).None? && summary.s != [] ==>
      ContentText(summary, toText) == summary
  {
  }

  /** The external id of a Disney job: str() of jobId, '' when missing. A
      jobId whose str() is not modelled is kept as it is. */
  function DisneyExternalId(job: Fields): Value {
    var id := GetOr(job, "jobId", Str(""));
    match PyStr(id)
    case Some(s) => Str(s)
    case None => id
  }

  lemma DisneyExternalIdCases(job: Fields)
    ensures "jobId" !in job ==> DisneyExternalId(job) == Str("")
    ensures "jobId" in job && job["jobId"].Null? ==> DisneyExternalId(job) == Str("None")
    ensures "jobId" in job && job["jobId"].Int? ==> DisneyExternalId(job) == Str(IntToString(job["jobId"].i))
  {
  }

  /** process_disney_job raises on a job: `.get` fails on anything but a
      dict, and the department rule raises on some summaries. */
  predicate Processable(job: Value) {
    job.Object?
    && !DepartmentRaises(GetOr(job.fields, "business", Null), GetOr(job.fields, "summaryHtml", Str("")))
  }

  /** process_disney_job, stated as a function of the job's fields: None
      when the department rule raises. */
  function DisneyRecord(job: Fields, toText: string -> Option<string>): (r: Option<JobRecord>)
    ensures r.Some? <==> Processable(Object(job))
  {
    var summary := GetOr(job, "summaryHtml", Str(""));
    var loc := Location(GetOr(job, "locations", List([])));
    var department := Department(GetOr(job, "business", Null), summary);
    if department.None? then None
    else
      Some(JobRecord(
        DisneyExternalId(job),
        GetOr(job, "jobName", Str("Unknown Job")),
        department.value,
        if loc.Some? then Str(loc.value) else Null,
        summary,
        ContentText(summary, toText)))
  }

  /** process_disney_job: the same record, with the location found by the
      search loop. */
  method ProcessDisneyJob(job: Fields, toText: string -> Option<string>) returns (rec: Option<JobRecord>)
    ensures rec.Some? <==> Processable(Object(job))
    ensures rec == DisneyRecord(job, toText)
  {
    var jobId := GetOr(job, "jobId", Str(""));
    var externalId := match PyStr(jobId) case Some(s) => Str(s) case None => jobId;
    var locations := GetOr(job, "locations", List([]));
    var summary := GetOr(job, "summaryHtml", Str(""));
    var location: Option<string> := None;
    if Truthy(locations) {
      if locations.List? {
        location := FindListLocation(locations.items);
      } else if locations.Str? && !StartsWith(locations.s, SelectPrefix) {
        location := Some(FirstPart(locations.s));
      }
    }
    var department := Department(GetOr(job, "business", Null), summary);
    if department.None? {
      return None;
    }
    rec := Some(JobRecord(
      externalId,
      GetOr(job, "jobName", Str("Unknown Job")),
      department.value,
      if location.Some? then Str(location.value) else Null,
      summary,
      ContentText(summary, toText)));
  }

  /** load_jobs_from_file on the parsed file (None when it cannot be read
      or parsed): the "jobs" value of an object, whatever it is, a bare
      list, or an empty list. */
  function LoadJobs(data: Option<Value>): (jobs: Value)
    ensures data.Some? && data.value.List? ==> jobs == data.value
    ensures data.Some? && data.value.Object? && "jobs" in data.value.fields ==> jobs == data.value.fields["jobs"]
    ensures data.None? ==> jobs == List([])
  {
    match data
    case None => List([])
    case Some(Object(fields)) => if "jobs" in fields then fields["jobs"] else List([])
    case Some(List(items)) => List(items)
    case Some(_) => List([])
  }

  // ---------------------------------------------------------------------
  // ATS extraction

  datatype Source = Greenhouse | Lever | SmartRecruiters | Disney

  function ParseSource(s: string): (r: Option<Source>)
    ensures r.Some? <==> s in {"greenhouse", "lever", "smartrecruiters", "disney"}
    ensures r == Some(Disney) <==> s == "disney"
  {
    if s == "greenhouse" then Some(Greenhouse)
    else if s == "lever" then Some(Lever)
    else if s == "smartrecruiters" then Some(SmartRecruiters)
    else if s == "disney" then Some(Disney)
    else None
  }

  /** v.get(k) on a dict. */
  function Field(v: Value, k: string): Value
    requires v.Object?
  {
    GetOr(v.fields, k, Null)
  }

  /** _extract_greenhouse_data raises when a truthy 'departments' is not a
      list whose first entry is a dict, or a truthy 'location' is not a
      dict (indexing or `.get` fails on them). */
  predicate GreenhouseRaises(d: Fields) {
    var deps := GetOr(d, "departments", Null);
    var loc := GetOr(d, "location", Null);
    (Truthy(deps) && !(deps.List? && deps.items[0].Object?)) || (Truthy(loc) && !loc.Object?)
  }

  /** _extract_greenhouse_data: None when the details have no 'id' (a
      KeyError) or a nested value is not the dict it is read as; either
      ends the ingestion. */
  function ExtractGreenhouse(d: Fields): (r: Option<JobRecord>)
    ensures r.Some? <==> "id" in d && !GreenhouseRaises(d)
  {
    if "id" !in d || GreenhouseRaises(d) then None
    else
      var deps := GetOr(d, "departments", Null);
      var loc := GetOr(d, "location", Null);
      Some(JobRecord(
        d["id"],
        GetOr(d, "title", Str("Unknown Title")),
        if Truthy(deps) && deps.List? then Field(deps.items[0], "name") else Null,
        if Truthy(loc) then Field(loc, "name") else Null,
        GetOr(d, "content_html", GetOr(d, "content", Null)),
        GetOr(d, "content_text", GetOr(d, "content", Null))))
  }

  /** Greenhouse: the department is the first department's name and None
      for an empty or missing list; the HTML and text fall back to
      'content'. */
  lemma GreenhouseFields(d: Fields)
    requires "id" in d && !GreenhouseRaises(d)
    ensures var r := ExtractGreenhouse(d).value;
      && ("departments" !in d || d["departments"] == List([]) ==> r.department.Null?)
      && (forall first, rest :: "departments" in d && d["departments"] == List([Object(first)] + rest) ==>
            r.department == GetOr(first, "name", Null))
      && ("content_text" !in d ==> r.contentText == GetOr(d, "content", Null))
      && ("content_html" !in d ==> r.contentHtml == GetOr(d, "content", Null))
      && ("title" !in d ==> r.title == Str("Unknown Title"))
  {
  }

  /** _extract_lever_data raises when a truthy 'categories' is not a
      dict. */
  predicate LeverRaises(d: Fields) {
    var categories := GetOr(d, "categories", Object(map[]));
    Truthy(categories) && !categories.Object?
  }

  /** _extract_lever_data: None when the details have no 'id' or the
      categories are not a dict. */
  function ExtractLever(d: Fields): (r: Option<JobRecord>)
    ensures r.Some? <==> "id" in d && !LeverRaises(d)
  {
    if "id" !in d || LeverRaises(d) then None
    else
      var categories := GetOr(d, "categories", Object(map[]));
      var loc := GetOr(d, "location", Null);
      Some(JobRecord(
        d["id"],
        GetOr(d, "text", Str("Unknown Title")),
        if Truthy(categories) then Field(categories, "team") else Null,
        if Truthy(loc) then loc else Null,
        GetOr(d, "description_html", GetOr(d, "description", Null)),
        GetOr(d, "description_text", GetOr(d, "description", Null))))
  }

  /** The SmartRecruiters location raises when neither city nor region is
      truthy and a 'country' is present that is not a dict (even null). */
  predicate SrLocationRaises(loc: Value) {
    Truthy(loc) && loc.Object? && !Truthy(Field(loc, "city")) && !Truthy(Field(loc, "region"))
    && "country" in loc.fields && !loc.fields["country"].Object?
  }

  /** The SmartRecruiters location of a dict: city, else region, else the
      country's label. */
  function SrLocation(loc: Value): Value
    requires !SrLocationRaises(loc)
  {
    if !Truthy(loc) then Null
    else if loc.Object? then
      if Truthy(Field(loc, "city")) then Field(loc, "city")
      else if Truthy(Field(loc, "region")) then Field(loc, "region")
      else Field(GetOr(loc.fields, "country", Object(map[])), "label")
    else if loc.Str? then loc
    else Null
  }

  /** _extract_smartrecruiters_data: None when the details have no 'id' or
      the location's country is read from a value that is not a dict. */
  function ExtractSmartRecruiters(d: Fields): (r: Option<JobRecord>)
    ensures r.Some? <==> "id" in d && !SrLocationRaises(GetOr(d, "location", Null))
  {
    if "id" !in d || SrLocationRaises(GetOr(d, "location", Null)) then None
    else
      var function_ := GetOr(d, "function", Null);
      Some(JobRecord(
        d["id"],
        GetOr(d, "name", Str("Unknown Title")),
        if !Truthy(function_) then Null
        else if function_.Object? then Field(function_, "label")
        else if function_.Str? then function_
        else Null,
        SrLocation(GetOr(d, "location", Null)),
        GetOr(d, "content_html", Null),
        GetOr(d, "content_text", Null)))
  }

  /** SmartRecruiters location fallback: a truthy city wins, then a truthy
      region, then the country label. */
  lemma SmartRecruitersLocation(city: Value, region: Value, country: Fields, rest: Fields)
    requires "city" !in rest && "region" !in rest && "country" !in rest
    ensures var loc := Object(rest["city" := city]["region" := region]["country" := Object(country)]);
      && (Truthy(city) ==> SrLocation(loc) == city)
      && (!Truthy(city) && Truthy(region) ==> SrLocation(loc) == region)
      && (!Truthy(city) && !Truthy(region) ==> SrLocation(loc) == GetOr(country, "label", Null))
  {
    var loc := Object(rest["city" := city]["region" := region]["country" := Object(country)]);
    assert "city" != "region" && "city" != "country" && "region" != "country";
    assert Field(loc, "city") == city;
    assert Field(loc, "region") == region;
    assert GetOr(loc.fields, "country", Object(map[])) == Object(country);
  }

  /** The extraction of a source raises on these details. */
  predicate Raises(src: Source, d: Fields)
    requires src != Disney
  {
    match src
    case Greenhouse => GreenhouseRaises(d)
    case Lever => LeverRaises(d)
    case SmartRecruiters => SrLocationRaises(GetOr(d, "location", Null))
  }

  /** The extractor chosen by the source: None exactly when the details
      have no id or the extractor raises on them. */
  function Extract(src: Source, d: Fields): (r: Option<JobRecord>)
    requires src != Disney
    ensures r.Some? <==> "id" in d && !Raises(src, d)
  {
    match src
    case Greenhouse => ExtractGreenhouse(d)
    case Lever => ExtractLever(d)
    case SmartRecruiters => ExtractSmartRecruiters(d)
  }

  /** Details with an id that the extractors still raise on: a Greenhouse
      department list of strings, a Lever category string, and a
      SmartRecruiters location whose country is null, which is read only
      when city and region are missing. */
  lemma ExtractionRaisesOn()
    ensures Extract(Greenhouse, map["id" := Int(1), "departments" := List([Str("Sales")])]).None?
    ensures Extract(Lever, map["id" := Int(1), "categories" := Str("Sales")]).None?
    ensures Extract(SmartRecruiters, map["id" := Int(1), "location" := Object(map["country" := Null])]).None?
    ensures Extract(SmartRecruiters, map["id" := Int(1), "location" := Object(map["city" := Str("Paris"), "country" := Null])]).Some?
  {
    var paris: Fields := map["city" := Str("Paris"), "country" := Null];
    assert Field(Object(paris), "city") == Str("Paris");
    var nowhere: Fields := map["country" := Null];
    assert Field(Object(nowhere), "city") == Null && Field(Object(nowhere), "region") == Null;
    var d: Fields := map["id" := Int(1), "location" := Object(nowhere)];
    assert "country" in nowhere;
    assert GetOr(d, "location", Null) == Object(nowhere) && Truthy(Object(nowhere));
    assert SrLocationRaises(GetOr(d, "location", Null));
  }

  // ---------------------------------------------------------------------
  // Counting


  /** A detail response is used when it is truthy (None and {} are skipped). */
  predicate Fetched(d: Option<Fields>) {
    d.Some? && d.value != map[]
  }

  /** The number of jobs saved from a list of detail responses, for a
      source whose extraction does not raise on them. */
  function AtsSaved(src: Source, details: seq<Option<Fields>>): (n: nat)
    requires src != Disney
    ensures n <= |details|
  {
    if details == [] then 0
    else AtsSaved(src, details[..|details| - 1]) + (if AtsSaves(src, details[|details| - 1]) then 1 else 0)
  }

  lemma AtsSavedStep(src: Source, details: seq<Option<Fields>>, i: int)
    requires src != Disney && 0 <= i < |details|
    ensures AtsSaved(src, details[..i + 1]) == AtsSaved(src, details[..i]) + (if AtsSaves(src, details[i]) then 1 else 0)
  {
    assert details[..i + 1][..i] == details[..i];
  }

  /** A detail response that is used, extracted and written. */
  predicate AtsSaves(src: Source, d: Option<Fields>)
    requires src != Disney
  {
    Fetched(d) && Extract(src, d.value).Some? && RowOf(Extract(src, d.value).value).Some?
  }

  /** A fetched response that makes extraction raise: it has no id, or a
      nested value is not what the extractor reads it as. */
  predicate Unextractable(src: Source, d: Option<Fields>)
    requires src != Disney
  {
    Fetched(d) && ("id" !in d.value || Raises(src, d.value))
  }

  /** What the remote ATS answers for one company: whether test_company
      succeeds, and the detail response of each listed job, in order. */
  datatype Site = Site(reachable: bool, details: seq<Option<Fields>>)

  datatype IngestError = CompanyLookupFailed | UnsupportedSource(source: string) | ExtractionFailed

  /** The company is registered under the name and source. */
  predicate Registered(cs: map<int, Company>, name: string, source: string) {
    exists id :: id in cs && cs[id].name == Lower(name) && cs[id].source == source
  }

  /** Once its name is present, adding further companies does not change
      whether a company is registered under a source. */
  lemma RegisteredKept(cs: map<int, Company>, cs': map<int, Company>, name: string, source: string)
    requires CompaniesKept(cs, cs') && UniqueNames(cs') && HasName(cs, Lower(name))
    ensures Registered(cs', name, source) <==> Registered(cs, name, source)
    ensures HasName(cs', Lower(name))
  {
    var old_ :| old_ in cs && cs[old_].name == Lower(name);
    assert cs'[old_] == cs[old_];
    if Registered(cs', name, source) {
      var id :| id in cs' && cs'[id].name == Lower(name) && cs'[id].source == source;
      assert id == old_;
    }
  }

  /** The counts ingest_from_file_list records for a company, given the
      companies once it has been added: the listing's counts when the
      company is registered under an ATS source, is reachable and no listed
      job makes extraction raise; (0, 0) when ingestion raises, and for
      the disney source and an unreachable company. */
  predicate Ingested(cs: map<int, Company>, source: string, company: string, site: Site, counts: (nat, nat)) {
    var src := ParseSource(source);
    if Registered(cs, company, source) && src.Some? && src != Some(Disney) && site.reachable
       && forall i :: 0 <= i < |site.details| ==> !Unextractable(src.value, site.details[i])
    then counts == (|site.details|, AtsSaved(src.value, site.details))
    else counts == (0, 0)
  }

  /** One entry for each listed company, each the counts its ingestion
      gives. */
  predicate ResultsCover(results: map<string, (nat, nat)>, companies: seq<string>, source: string,
                         sites: string -> Site, cs: map<int, Company>) {
    results.Keys == (set c | c in companies)
    && forall c :: c in results ==> Ingested(cs, source, c, sites(c), results[c]) && HasName(cs, Lower(c))
  }

  lemma ResultsCoverStep(results: map<string, (nat, nat)>, companies: seq<string>, source: string,
                         sites: string -> Site, cs: map<int, Company>, cs': map<int, Company>,
                         company: string, counts: (nat, nat))
    requires ResultsCover(results, companies, source, sites, cs)
    requires CompaniesKept(cs, cs') && UniqueNames(cs')
    requires Ingested(cs', source, company, sites(company), counts) && HasName(cs', Lower(company))
    ensures ResultsCover(results[company := counts], companies + [company], source, sites, cs')
  {
    forall c | c in results
      ensures Registered(cs', c, source) <==> Registered(cs, c, source)
      ensures HasName(cs', Lower(c))
    {
      RegisteredKept(cs, cs', c, source);
    }
  }

  /** The first n listed jobs that were fetched and extracted have their
      keys stored, when their values make a row. */
  predicate SavedUpTo(js: map<int, Job>, companyId: int, source: string, src: Source,
                      details: seq<Option<Fields>>, n: nat)
    requires src != Disney && n <= |details|
  {
    forall j :: 0 <= j < n && Fetched(details[j]) && Extract(src, details[j].value).Some? ==>
      SavedIn(js, companyId, source, Extract(src, details[j].value).value)
  }

  /** Each of the first n listed jobs that was fetched and extracted has
      its key stored under the company's id. */
  predicate ListingSaved(cs: map<int, Company>, js: map<int, Job>, company: string, source: string,
                         src: Source, details: seq<Option<Fields>>, n: nat)
    requires src != Disney && n <= |details|
  {
    exists id :: id in cs && cs[id].name == Lower(company) && cs[id].source == source
      && SavedUpTo(js, id, source, src, details, n)
  }

  /** The position of the first listed job whose extraction fails. */
  function FirstUnextractable(src: Source, details: seq<Option<Fields>>): (k: Option<nat>)
    requires src != Disney
    ensures k.None? <==> forall j :: 0 <= j < |details| ==> !Unextractable(src, details[j])
    ensures k.Some? ==> k.value < |details| && Unextractable(src, details[k.value])
                        && forall j :: 0 <= j < k.value ==> !Unextractable(src, details[j])
  {
    if details == [] then None
    else if Unextractable(src, details[0]) then Some(0)
    else match FirstUnextractable(src, details[1..])
      case None => None
      case Some(k) => Some(k + 1)
  }

  lemma SavedUpToStep(js: map<int, Job>, js': map<int, Job>, companyId: int, source: string, src: Source,
                      details: seq<Option<Fields>>, i: nat)
    requires src != Disney && i < |details|
    requires SavedUpTo(js, companyId, source, src, details, i)
    requires forall c, s, rec :: SavedIn(js, c, s, rec) ==> SavedIn(js', c, s, rec)
    requires Fetched(details[i]) && Extract(src, details[i].value).Some? ==>
      SavedIn(js', companyId, source, Extract(src, details[i].value).value)
    ensures SavedUpTo(js', companyId, source, src, details, i + 1)
  {
  }

  /** The loop of ingest_company_jobs over the listed jobs. */
  method IngestListed(db: SoupBossDb, companyId: int, source: string, src: Source, details: seq<Option<Fields>>)
    returns (r: Result<(nat, nat), IngestError>)
    requires src != Disney
    requires db.Valid()
    modifies db
    ensures db.Valid()
    ensures r.Err? <==> exists i :: 0 <= i < |details| && Unextractable(src, details[i])
    ensures r.Err? ==> r.error == ExtractionFailed
    ensures r.Err? ==> FirstUnextractable(src, details).Some?
                       && SavedUpTo(db.jobs, companyId, source, src, details, FirstUnextractable(src, details).value)
    ensures r.Ok? ==> r.value == (|details|, AtsSaved(src, details))
    ensures r.Ok? ==> SavedUpTo(db.jobs, companyId, source, src, details, |details|)
    ensures KeysKept(old(db.jobs), db.jobs)
    ensures db.companies == old(db.companies) && db.resumes == old(db.resumes) && db.matches == old(db.matches)
    ensures db.jobEmb == old(db.jobEmb) && db.resumeEmb == old(db.resumeEmb)
    ensures db.companySeq == old(db.companySeq) && db.resumeSeq == old(db.resumeSeq)
  {
    var processed, saved := 0, 0;
    for i := 0 to |details|
      invariant db.Valid()
      invariant processed == i && saved == AtsSaved(src, details[..i])
      invariant forall j :: 0 <= j < i ==> !Unextractable(src, details[j])
      invariant SavedUpTo(db.jobs, companyId, source, src, details, i)
      invariant KeysKept(old(db.jobs), db.jobs)
      invariant db.companies == old(db.companies) && db.resumes == old(db.resumes) && db.matches == old(db.matches)
      invariant db.jobEmb == old(db.jobEmb) && db.resumeEmb == old(db.resumeEmb)
      invariant db.companySeq == old(db.companySeq) && db.resumeSeq == old(db.resumeSeq)
    {
      AtsSavedStep(src, details, i);
      processed := processed + 1;
      var d := details[i];
      if !Fetched(d) {
        SavedUpToStep(db.jobs, db.jobs, companyId, source, src, details, i);
        continue;
      }
      var extracted := Extract(src, d.value);
      if extracted.None? {
        return Err(ExtractionFailed);
      }
      ghost var before := db.jobs;
      var ok := SaveRecord(db, companyId, source, extracted.value, Object(d.value));
      SavedUpToStep(before, db.jobs, companyId, source, src, details, i);
      KeysKeptTrans(old(db.jobs), before, db.jobs);
      if ok {
        saved := saved + 1;
      }
    }
    assert details[..|details|] == details;
    r := Ok((processed, saved));
  }

  /** JobIngester holds the store it writes to. */
  class JobIngester {
    const db: SoupBossDb

    constructor (db: SoupBossDb)
      ensures this.db == db
    {
      this.db := db;
    }

    /** ingest_company_jobs: register the company, then dispatch on the
        source; an unreachable company or an empty listing gives (0, 0),
        otherwise every listed job is processed, the extracted ones are
        stored and the saved ones counted. */
    method IngestCompanyJobs(source: string, company: string, site: Site)
      returns (r: Result<(nat, nat), IngestError>)
      requires db.Valid()
      modifies db
      ensures db.Valid()
      ensures db.companies == InsertCompany(old(db.companies), db.companySeq, Lower(company), source)
      ensures CompaniesKept(old(db.companies), db.companies) && HasName(db.companies, Lower(company))
      ensures r == Err(CompanyLookupFailed) <==> !Registered(db.companies, company, source)
      ensures r == Err(UnsupportedSource(source)) <==>
        Registered(db.companies, company, source) && ParseSource(source).None?
      ensures r.Err? && r.error.UnsupportedSource? ==> r.error.source == source
      ensures ParseSource(source) == Some(Disney) && Registered(db.companies, company, source) ==> r == Ok((0, 0))
      ensures ParseSource(source).Some? && Registered(db.companies, company, source) && !site.reachable ==> r == Ok((0, 0))
      ensures r == Err(ExtractionFailed) <==>
        Registered(db.companies, company, source) && ParseSource(source).Some? && ParseSource(source) != Some(Disney)
        && site.reachable && exists i :: 0 <= i < |site.details| && Unextractable(ParseSource(source).value, site.details[i])
      ensures r.Ok? && site.reachable && ParseSource(source).Some? && ParseSource(source) != Some(Disney) ==>
        r.value == (|site.details|, AtsSaved(ParseSource(source).value, site.details))
        && ListingSaved(db.companies, db.jobs, company, source, ParseSource(source).value, site.details, |site.details|)
      ensures r == Err(ExtractionFailed) ==>
        (ParseSource(source).Some? && ParseSource(source) != Some(Disney)
         && var k := FirstUnextractable(ParseSource(source).value, site.details);
         k.Some? && ListingSaved(db.companies, db.jobs, company, source, ParseSource(source).value, site.details, k.value))
      ensures r.Ok? ==> r.value.1 <= r.value.0
      ensures KeysKept(old(db.jobs), db.jobs)
      ensures db.resumes == old(db.resumes) && db.matches == old(db.matches)
      ensures db.jobEmb == old(db.jobEmb) && db.resumeEmb == old(db.resumeEmb)
    {
      var added := db.AddCompany(company, source);
      InsertCompanyUnique(old(db.companies), old(db.companySeq) + 1, Lower(company), source);
      if added.Err? {
        return Err(CompanyLookupFailed);
      }
      var companyId := added.value;
      var src := ParseSource(source);
      if src.None? {
        return Err(UnsupportedSource(source));
      }
      if src.value == Disney {
        return Ok((0, 0));
      }
      if !site.reachable {
        return Ok((0, 0));
      }
      if site.details == [] {
        assert SavedUpTo(db.jobs, companyId, source, src.value, site.details, 0);
        return Ok((0, 0));
      }
      r := IngestListed(db, companyId, source, src.value, site.details);
      assert r.Ok? ==> SavedUpTo(db.jobs, companyId, source, src.value, site.details, |site.details|);
    }

    /** The try block of ingest_from_file_list: the company's counts, or
        (0, 0) when its ingestion raises. */
    method IngestOrZero(source: string, company: string, site: Site) returns (counts: (nat, nat))
      requires db.Valid()
      modifies db
      ensures db.Valid()
      ensures Ingested(db.companies, source, company, site, counts)
      ensures CompaniesKept(old(db.companies), db.companies) && HasName(db.companies, Lower(company))
      ensures db.resumes == old(db.resumes) && db.matches == old(db.matches)
      ensures db.jobEmb == old(db.jobEmb) && db.resumeEmb == old(db.resumeEmb)
    {
      var r := IngestCompanyJobs(source, company, site);
      counts := if r.Ok? then r.value else (0, 0);
      if r.Err? {
        assert r.error == CompanyLookupFailed || r.error == UnsupportedSource(source) || r.error == ExtractionFailed;
      }
    }

    /** ingest_from_file_list: one entry per listed company (a later
        duplicate overwrites an earlier one), each the counts its ingestion
        gives, or (0, 0) when that ingestion raises. */
    method IngestFromFileList(source: string, lines: seq<string>, sites: string -> Site)
      returns (results: map<string, (nat, nat)>)
      requires db.Valid()
      modifies db
      ensures db.Valid()
      ensures results.Keys == set c | c in CompanyNames(lines)
      ensures forall c :: c in results ==> Ingested(db.companies, source, c, sites(c), results[c])
      ensures CompaniesKept(old(db.companies), db.companies)
      ensures db.resumes == old(db.resumes) && db.matches == old(db.matches)
      ensures db.jobEmb == old(db.jobEmb) && db.resumeEmb == old(db.resumeEmb)
    {
      var companies := ReadCompaniesFile(lines);
      results := map[];
      for i := 0 to |companies|
        invariant db.Valid()
        invariant ResultsCover(results, companies[..i], source, sites, db.companies)
        invariant CompaniesKept(old(db.companies), db.companies)
        invariant db.resumes == old(db.resumes) && db.matches == old(db.matches)
        invariant db.jobEmb == old(db.jobEmb) && db.resumeEmb == old(db.resumeEmb)
      {
        var company := companies[i];
        ghost var before := db.companies;
        var counts := IngestOrZero(source, company, sites(company));
        ResultsCoverStep(results, companies[..i], source, sites, before, db.companies, company, counts);
        Collections.PrefixSnoc(companies, i);
        results := results[company := counts];
      }
      assert companies[..|companies|] == companies;
    }

    /** import_from_file: only the disney source imports from a file; the
        company is registered, the jobs are loaded, a non-zero limit keeps
        the first `limit` of them (Python slicing: a negative limit drops
        that many from the end), and each job is processed and saved; a
        loaded value that is truthy and neither a list nor a string makes
        the import raise, and so does the first job that cannot be
        processed (a character of a string is one), after the jobs before
        it have been saved. */
    method ImportFromFile(source: string, company: string, data: Option<Value>, limit: Option<int>,
                          toText: string -> Option<string>)
      returns (r: Result<(nat, nat), ImportError>)
      requires db.Valid()
      modifies db
      ensures db.Valid()
      ensures r == Err(NotFileSource(source)) <==> source != "disney"
      ensures source != "disney" ==> db.companies == old(db.companies) && db.jobs == old(db.jobs)
      ensures source == "disney" ==>
        db.companies == InsertCompany(old(db.companies), db.companySeq, Lower(company), source)
      ensures r == Err(NoCompany) <==> source == "disney" && !Registered(db.companies, company, source)
      ensures r == Err(NotAList) <==>
        source == "disney" && Registered(db.companies, company, source) && FileJobs(data, limit).None?
      ensures r.Err? && r.error.Unprocessable? ==>
        FileJobs(data, limit).Some? && FirstUnprocessable(FileJobs(data, limit).value) == Some(r.error.index)
        && RecordsSaved(db.companies, db.jobs, company, FileJobs(data, limit).value[..r.error.index], toText)
      ensures r.Ok? ==> FileJobs(data, limit).Some? && var jobs := FileJobs(data, limit).value;
        && (forall j :: 0 <= j < |jobs| ==> Processable(jobs[j]))
        && r.value == (|jobs|, DisneySaved(jobs, toText))
        && RecordsSaved(db.companies, db.jobs, company, jobs, toText)
      ensures (source == "disney" && Registered(db.companies, company, source) && FileJobs(data, limit).Some?
               && FirstUnprocessable(FileJobs(data, limit).value).None?) ==> r.Ok?
      ensures KeysKept(old(db.jobs), db.jobs)
      ensures db.resumes == old(db.resumes) && db.matches == old(db.matches)
      ensures db.jobEmb == old(db.jobEmb) && db.resumeEmb == old(db.resumeEmb)
    {
      if source != "disney" {
        return Err(NotFileSource(source));
      }
      var added := db.AddCompany(company, source);
      if added.Err? {
        return Err(NoCompany);
      }
      var companyId := added.value;
      var loaded := LoadJobs(data);
      if !Truthy(loaded) {
        assert FileJobs(data, limit) == Some([]);
        r := Ok((0, 0));
        assert RecordsSaved(db.companies, db.jobs, company, [], toText) by {
          assert companyId in db.companies;
        }
        return;
      }
      var jobs := FileJobs(data, limit);
      if jobs.None? {
        return Err(NotAList);
      }
      r := ImportJobs(db, companyId, jobs.value, toText);
      assert companyId in db.companies;
    }
  }

  datatype ImportError = NotFileSource(source: string) | NoCompany | NotAList | Unprocessable(index: nat)

  /** The jobs kept by a limit: all of them for None or 0, else jobs[:limit]. */
  function Limited<T>(jobs: seq<T>, limit: Option<int>): seq<T> {
    if limit.Some? && limit.value != 0 then PyPrefix(jobs, limit.value) else jobs
  }

  /** A positive limit keeps exactly the first min(limit, n) jobs, in order. */
  lemma LimitKeepsFirst(jobs: seq<Value>, limit: int)
    requires limit > 0
    ensures Limited(jobs, Some(limit)) == jobs[..if limit < |jobs| then limit else |jobs|]
    ensures |Limited(jobs, Some(limit))| <= limit
  {
  }

  /** Iterating a string: each character as a one-character string. */
  function Chars(s: string): (r: seq<Value>)
    ensures |r| == |s| && forall i :: 0 <= i < |s| ==> r[i] == Str([s[i]])
  {
    seq(|s|, i requires 0 <= i < |s| => Str([s[i]]))
  }

  /** The jobs import_from_file goes through: none when the loaded value is
      falsy, the loaded list or the characters of the loaded string cut by
      the limit, or None when the loaded value is truthy and neither
      (slicing, len() or processing its first key raises). */
  function FileJobs(data: Option<Value>, limit: Option<int>): (r: Option<seq<Value>>)
    ensures r.None? <==> Truthy(LoadJobs(data)) && !LoadJobs(data).List? && !LoadJobs(data).Str?
    ensures r.Some? && LoadJobs(data).List? ==> r.value == Limited(LoadJobs(data).items, limit)
    ensures LoadJobs(data).Str? ==> r.Some? && |r.value| == |Limited(LoadJobs(data).s, limit)|
                                    && forall j :: 0 <= j < |r.value| ==> !Processable(r.value[j])
  {
    var loaded := LoadJobs(data);
    if !Truthy(loaded) then Some([])
    else if loaded.List? then Some(Limited(loaded.items, limit))
    else if loaded.Str? then Some(Limited(Chars(loaded.s), limit))
    else None
  }

  /** A job file that holds a single object instead of a list of jobs makes
      the import raise, while an empty object or an unreadable file imports
      nothing. */
  lemma FileJobsShapes(job: Fields)
    requires job != map[]
    ensures FileJobs(Some(Object(map["jobs" := Object(job)])), None).None?
    ensures FileJobs(Some(Object(map["jobs" := Object(map[])])), None) == Some([])
    ensures FileJobs(None, Some(5)) == Some([])
    ensures FileJobs(Some(Object(map["jobs" := Str("abc")])), Some(-5)) == Some([])
    ensures FileJobs(Some(Object(map["jobs" := Str("abc")])), Some(-1)).Some?
            && FirstUnprocessable(FileJobs(Some(Object(map["jobs" := Str("abc")])), Some(-1)).value) == Some(0)
  {
    var abc := Some(Object(map["jobs" := Str("abc")]));
    assert LoadJobs(abc) == Str("abc");
    assert |Limited("abc", Some(-1))| == 2;
  }

  /** process_disney_job applied to each job of a list of processable
      jobs, in order. */
  function Records(jobs: seq<Value>, toText: string -> Option<string>): (recs: seq<JobRecord>)
    requires forall j :: 0 <= j < |jobs| ==> Processable(jobs[j])
    ensures |recs| == |jobs|
  {
    if jobs == [] then []
    else
      var last := jobs[|jobs| - 1];
      assert Processable(last);
      Records(jobs[..|jobs| - 1], toText) + [DisneyRecord(last.fields, toText).value]
  }

  /** One more job adds its record, and one more saved row when it makes one. */
  lemma RecordsSnoc(jobs: seq<Value>, i: int, toText: string -> Option<string>)
    requires forall j :: 0 <= j < |jobs| ==> Processable(jobs[j])
    requires 0 <= i < |jobs|
    ensures Records(jobs[..i + 1], toText) == Records(jobs[..i], toText) + [DisneyRecord(jobs[i].fields, toText).value]
    ensures var recs := Records(jobs[..i], toText) + [DisneyRecord(jobs[i].fields, toText).value];
      RowCount(recs) == RowCount(recs[..i]) + (if RowOf(recs[i]).Some? then 1 else 0) && recs[..i] == Records(jobs[..i], toText)
  {
    assert jobs[..i + 1][..i] == jobs[..i];
  }

  /** The record of each job sits at the job's position. */
  lemma {:induction false} RecordsInOrder(jobs: seq<Value>, toText: string -> Option<string>)
    requires forall j :: 0 <= j < |jobs| ==> Processable(jobs[j])
    ensures forall j :: 0 <= j < |jobs| ==> Some(Records(jobs, toText)[j]) == DisneyRecord(jobs[j].fields, toText)
  {
    if jobs != [] {
      var init := jobs[..|jobs| - 1];
      RecordsInOrder(init, toText);
      var recs := Records(jobs, toText);
      assert recs == Records(init, toText) + [DisneyRecord(jobs[|jobs| - 1].fields, toText).value];
      forall j | 0 <= j < |jobs|
        ensures Some(recs[j]) == DisneyRecord(jobs[j].fields, toText)
      {
        if j < |init| {
          assert init[j] == jobs[j];
        }
      }
    }
  }

  /** The number of records that make a row. */
  function RowCount(recs: seq<JobRecord>): (n: nat)
    ensures n <= |recs|
  {
    if recs == [] then 0 else RowCount(recs[..|recs| - 1]) + (if RowOf(recs[|recs| - 1]).Some? then 1 else 0)
  }

  /** The number of Disney jobs of a list of processable jobs that are
      saved. */
  function DisneySaved(jobs: seq<Value>, toText: string -> Option<string>): (n: nat)
    requires forall j :: 0 <= j < |jobs| ==> Processable(jobs[j])
    ensures n <= |jobs|
  {
    RowCount(Records(jobs, toText))
  }

  /** Every record of the jobs has its key stored under the company's id,
      when it makes a row. */
  predicate RecordsSaved(cs: map<int, Company>, js: map<int, Job>, company: string, jobs: seq<Value>,
                         toText: string -> Option<string>)
    requires forall j :: 0 <= j < |jobs| ==> Processable(jobs[j])
  {
    exists id :: id in cs && cs[id].name == Lower(company) && cs[id].source == "disney"
      && forall j :: 0 <= j < |jobs| ==> SavedIn(js, id, "disney", Records(jobs, toText)[j])
  }

  /** One iteration of the import loop: process the job, then save it. */
  method ImportOne(db: SoupBossDb, companyId: int, job: Value, toText: string -> Option<string>)
    returns (rec: JobRecord, saved: bool)
    requires db.Valid() && Processable(job)
    modifies db
    ensures db.Valid()
    ensures Some(rec) == DisneyRecord(job.fields, toText)
    ensures saved <==> RowOf(rec).Some?
    ensures SavedIn(db.jobs, companyId, "disney", rec)
    ensures forall c, s, rec :: SavedIn(old(db.jobs), c, s, rec) ==> SavedIn(db.jobs, c, s, rec)
    ensures KeysKept(old(db.jobs), db.jobs)
    ensures db.companies == old(db.companies) && db.resumes == old(db.resumes) && db.matches == old(db.matches)
    ensures db.jobEmb == old(db.jobEmb) && db.resumeEmb == old(db.resumeEmb)
    ensures db.companySeq == old(db.companySeq) && db.resumeSeq == old(db.resumeSeq)
  {
    var processed := ProcessDisneyJob(job.fields, toText);
    rec := processed.value;
    saved := SaveRecord(db, companyId, "disney", rec, job);
  }

  /** The position of the first loaded job that cannot be processed. */
  function FirstUnprocessable(jobs: seq<Value>): (k: Option<nat>)
    ensures k.None? <==> forall j :: 0 <= j < |jobs| ==> Processable(jobs[j])
    ensures k.Some? ==> k.value < |jobs| && !Processable(jobs[k.value])
                        && forall j :: 0 <= j < k.value ==> Processable(jobs[j])
  {
    if jobs == [] then None
    else if !Processable(jobs[0]) then Some(0)
    else match FirstUnprocessable(jobs[1..])
      case None => None
      case Some(k) => Some(k + 1)
  }

  /** The import loop over loaded jobs that can all be processed. */
  method ImportEach(db: SoupBossDb, companyId: int, jobs: seq<Value>, toText: string -> Option<string>)
    returns (saved: nat)
    requires db.Valid()
    requires forall j :: 0 <= j < |jobs| ==> Processable(jobs[j])
    modifies db
    ensures db.Valid()
    ensures saved == DisneySaved(jobs, toText)
    ensures forall j :: 0 <= j < |jobs| ==> SavedIn(db.jobs, companyId, "disney", Records(jobs, toText)[j])
    ensures KeysKept(old(db.jobs), db.jobs)
    ensures db.companies == old(db.companies) && db.resumes == old(db.resumes) && db.matches == old(db.matches)
    ensures db.jobEmb == old(db.jobEmb) && db.resumeEmb == old(db.resumeEmb)
    ensures db.companySeq == old(db.companySeq) && db.resumeSeq == old(db.resumeSeq)
  {
    saved := 0;
    ghost var recs: seq<JobRecord> := [];
    for i := 0 to |jobs|
      invariant db.Valid()
      invariant recs == Records(jobs[..i], toText) && saved == RowCount(recs)
      invariant forall j :: 0 <= j < i ==> SavedIn(db.jobs, companyId, "disney", recs[j])
      invariant KeysKept(old(db.jobs), db.jobs)
      invariant db.companies == old(db.companies) && db.resumes == old(db.resumes) && db.matches == old(db.matches)
      invariant db.jobEmb == old(db.jobEmb) && db.resumeEmb == old(db.resumeEmb)
      invariant db.companySeq == old(db.companySeq) && db.resumeSeq == old(db.resumeSeq)
    {
      ghost var before := db.jobs;
      var rec, ok := ImportOne(db, companyId, jobs[i], toText);
      KeysKeptTrans(old(db.jobs), before, db.jobs);
      RecordsSnoc(jobs, i, toText);
      assert (recs + [rec])[..i] == recs;
      recs := recs + [rec];
      if ok {
        saved := saved + 1;
      }
    }
    assert jobs[..|jobs|] == jobs;
  }

  /** The import loop over the loaded Disney jobs: the jobs are processed
      and saved in order, and the first one that cannot be processed makes
      the import raise, after the jobs before it have been saved. */
  method ImportJobs(db: SoupBossDb, companyId: int, jobs: seq<Value>, toText: string -> Option<string>)
    returns (r: Result<(nat, nat), ImportError>)
    requires db.Valid()
    modifies db
    ensures db.Valid()
    ensures r.Err? ==> r.error.Unprocessable? && FirstUnprocessable(jobs) == Some(r.error.index)
    ensures r.Ok? <==> forall j :: 0 <= j < |jobs| ==> Processable(jobs[j])
    ensures r.Ok? ==> r.value == (|jobs|, DisneySaved(jobs, toText))
    ensures r.Ok? ==> forall j :: 0 <= j < |jobs| ==> SavedIn(db.jobs, companyId, "disney", Records(jobs, toText)[j])
    ensures r.Err? ==> var k := r.error.index;
      forall j :: 0 <= j < k ==> SavedIn(db.jobs, companyId, "disney", Records(jobs[..k], toText)[j])
    ensures KeysKept(old(db.jobs), db.jobs)
    ensures db.companies == old(db.companies) && db.resumes == old(db.resumes) && db.matches == old(db.matches)
    ensures db.jobEmb == old(db.jobEmb) && db.resumeEmb == old(db.resumeEmb)
    ensures db.companySeq == old(db.companySeq) && db.resumeSeq == old(db.resumeSeq)
  {
    var bad := FirstUnprocessable(jobs);
    var k := if bad.Some? then bad.value else |jobs|;
    var saved := ImportEach(db, companyId, jobs[..k], toText);
    if bad.Some? {
      r := Err(Unprocessable(k));
    } else {
      assert jobs[..k] == jobs;
      r := Ok((|jobs|, saved));
    }
  }
}
