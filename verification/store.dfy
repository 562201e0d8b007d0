// The SQLite store of SoupBoss (soupboss/db.py). Each table is a map keyed
// by its UNIQUE constraint, so "at most one row per key" holds by
// construction; INSERT OR REPLACE is a map update and DELETE a map filter.
// AUTOINCREMENT is modelled by one counter per table holding the largest id
// ever handed out (the table's row in sqlite_sequence).
module Store {
  import opened Wrappers
  import opened Text
  import opened Json
  import opened Collections

  /** An embedding as stored: numpy's float32 bytes are modelled as the
      vector itself, so encoding and decoding are the identity. */
  type Vector = seq<real>

  /** (job_id or resume_id, embedding_model): the UNIQUE key of both
      embedding tables. */
  type EmbKey = (int, string)

  /** (resume_id, job_id, embedding_model): the UNIQUE key of match_results. */
  type MatchKey = (int, int, string)

  datatype Company = Company(name: string, source: string, active: bool)

  datatype Job = Job(
    externalId: string, companyId: int, source: string, title: string,
    department: Option<string>, location: Option<string>,
    contentHtml: Option<string>, contentText: Option<string>, rawData: Value)

  datatype Resume = Resume(
    name: string, filePath: string, contentText: Option<string>,
    fileType: string, fileSize: int)

  datatype MatchScore = MatchScore(similarity: real, adjusted: Option<real>)

  /** The UNIQUE (external_id, company_id, source) key of a job row. */
  datatype JobKey = JobKey(externalId: string, companyId: int, source: string)

  function KeyOf(j: Job): JobKey {
    JobKey(j.externalId, j.companyId, j.source)
  }

  /** A row of get_match_results: the match joined with its job, company
      and resume. */
  datatype MatchRow = MatchRow(
    resumeId: int, jobId: int, model: string, similarity: real, adjusted: Option<real>,
    jobTitle: string, jobDepartment: Option<string>, jobLocation: Option<string>,
    companyName: string, resumeName: string)

  /** The lookup after INSERT OR IGNORE in add_company found no row. */
  datatype DbError = NoCompanyRow

  predicate UniqueNames(cs: map<int, Company>) {
    forall a, b :: a in cs && b in cs && cs[a].name == cs[b].name ==> a == b
  }

  predicate UniqueJobKeys(js: map<int, Job>) {
    forall a, b :: a in js && b in js && KeyOf(js[a]) == KeyOf(js[b]) ==> a == b
  }

  predicate IdsUpTo<V>(m: map<int, V>, bound: int) {
    forall id :: id in m ==> 0 < id <= bound
  }

  predicate HasName(cs: map<int, Company>, name: string) {
    exists id :: id in cs && cs[id].name == name
  }

  predicate HasJobKey(js: map<int, Job>, key: JobKey) {
    exists id :: id in js && KeyOf(js[id]) == key
  }

  /** INSERT OR IGNORE INTO companies (name, source): the UNIQUE constraint
      is on the name alone, so a name already present under any source
      leaves the table unchanged. */
  function InsertCompany(cs: map<int, Company>, next: int, name: string, source: string): map<int, Company> {
    if HasName(cs, name) then cs else cs[next := Company(name, source, true)]
  }

  /** Every company of cs is still in cs', unchanged. */
  predicate CompaniesKept(cs: map<int, Company>, cs': map<int, Company>) {
    forall id :: id in cs ==> id in cs' && cs'[id] == cs[id]
  }

  /** Inserting a company keeps names unique and makes the name present. */
  lemma InsertCompanyUnique(cs: map<int, Company>, next: int, name: string, source: string)
    requires UniqueNames(cs) && next !in cs
    ensures UniqueNames(InsertCompany(cs, next, name, source))
    ensures HasName(InsertCompany(cs, next, name, source), name)
  {
    if !HasName(cs, name) {
      var r := InsertCompany(cs, next, name, source);
      assert r[next].name == name;
    }
  }

  /** add_company is idempotent on the table, whatever the source of the
      second call. */
  lemma InsertCompanyIdempotent(cs: map<int, Company>, next: int, next': int, name: string, source: string, source': string)
    ensures var once := InsertCompany(cs, next, name, source);
      InsertCompany(once, next', name, source') == once
  {
    var once := InsertCompany(cs, next, name, source);
    if !HasName(cs, name) {
      assert once[next].name == name;
    }
  }

  /** Embedding rows without the ones owned by id. */
  function DropOwner(emb: map<EmbKey, Vector>, id: int): map<EmbKey, Vector> {
    map k | k in emb && k.0 != id :: emb[k]
  }

  /** Embedding rows whose owner is one of ids. */
  function KeepOwners(emb: map<EmbKey, Vector>, ids: set<int>): map<EmbKey, Vector> {
    map k | k in emb && k.0 in ids :: emb[k]
  }

  function DropResumeMatches(ms: map<MatchKey, MatchScore>, id: int): map<MatchKey, MatchScore> {
    map k | k in ms && k.0 != id :: ms[k]
  }

  /** Ids come from the counters, company names are unique, and job keys
      are unique. */
  ghost predicate Consistent(companies: map<int, Company>, jobs: map<int, Job>, resumes: map<int, Resume>,
                             companySeq: int, jobSeq: int, resumeSeq: int) {
    0 <= companySeq && 0 <= jobSeq && 0 <= resumeSeq
    && IdsUpTo(companies, companySeq) && IdsUpTo(jobs, jobSeq) && IdsUpTo(resumes, resumeSeq)
    && UniqueNames(companies) && UniqueJobKeys(jobs)
  }

  class SoupBossDb {
    var companies: map<int, Company>
    var jobs: map<int, Job>
    var resumes: map<int, Resume>
    var jobEmb: map<EmbKey, Vector>
    var resumeEmb: map<EmbKey, Vector>
    var matches: map<MatchKey, MatchScore>
    var companySeq: int
    var jobSeq: int
    var resumeSeq: int

    /** Ids come from the counters, company names are unique, and job keys
        are unique. No foreign key is enforced (SQLite's default), so
        embeddings and matches may refer to missing rows. */
    ghost predicate Valid()
      reads this
    {
      Consistent(companies, jobs, resumes, companySeq, jobSeq, resumeSeq)
    }

    /** The company, job and resume tables together. */
    ghost function Entities(): (map<int, Company>, map<int, Job>, map<int, Resume>)
      reads this
    {
      (companies, jobs, resumes)
    }

    /** The three AUTOINCREMENT counters. */
    ghost function Counters(): (int, int, int)
      reads this
    {
      (companySeq, jobSeq, resumeSeq)
    }

    /** A freshly created database (_create_tables on a new file). */
    constructor ()
      ensures Valid()
      ensures companies == map[] && jobs == map[] && resumes == map[]
      ensures jobEmb == map[] && resumeEmb == map[] && matches == map[]
      ensures companySeq == 0 && jobSeq == 0 && resumeSeq == 0
    {
      companies, jobs, resumes := map[], map[], map[];
      jobEmb, resumeEmb, matches := map[], map[], map[];
      companySeq, jobSeq, resumeSeq := 0, 0, 0;
    }

    /** add_company: INSERT OR IGNORE the lowercased name, then look the
        company up by name and source; the lookup fails when the name was
        already registered under another source. */
    method AddCompany(name: string, source: string) returns (r: Result<int, DbError>)
      requires Valid()
      modifies this
      ensures Valid()
      ensures var key := Lower(name);
        companySeq == (if HasName(old(companies), key) then old(companySeq) else old(companySeq) + 1)
        && companies == InsertCompany(old(companies), companySeq, key, source)
      ensures r.Ok? <==> exists id :: id in companies && companies[id] == Company(Lower(name), source, companies[id].active)
      ensures r.Ok? ==> (r.value in companies && companies[r.value].name == Lower(name)
                         && companies[r.value].source == source)
      ensures r.Ok? && HasName(old(companies), Lower(name)) ==> r.value in old(companies)
      ensures CompaniesKept(old(companies), companies)
      ensures jobs == old(jobs) && resumes == old(resumes) && matches == old(matches)
      ensures jobEmb == old(jobEmb) && resumeEmb == old(resumeEmb)
      ensures jobSeq == old(jobSeq) && resumeSeq == old(resumeSeq)
    {
      var key := Lower(name);
      InsertCompanyUnique(companies, companySeq + 1, key, source);
      if !HasName(companies, key) {
        companySeq := companySeq + 1;
      }
      companies := InsertCompany(companies, companySeq, key, source);
      if id :| id in companies && companies[id].name == key && companies[id].source == source {
        r := Ok(id);
      } else {
        r := Err(NoCompanyRow);
      }
    }

    /** get_companies: the ids of the (active) companies, ordered by name. */
    method GetCompanies(activeOnly: bool) returns (ids: seq<int>)
      requires Valid()
      ensures NoDuplicates(ids)
      ensures forall id :: id in ids <==> id in companies && (activeOnly ==> companies[id].active)
      ensures forall i, j :: 0 <= i < j < |ids| ==>
                (ids[i] in companies && ids[j] in companies
                 && LexLess(companies[ids[i]].name, companies[ids[j]].name))
    {
      var rest := set id | id in companies && (activeOnly ==> companies[id].active);
      ids := [];
      while rest != {}
        invariant Listing(companies, activeOnly, ids, rest)
        decreases |rest|
      {
        var m0 := MinNameExists(companies, rest);
        var m :| m in rest && forall id :: id in rest ==> LexLeq(companies[m].name, companies[id].name);
        ListingStep(companies, activeOnly, ids, rest, m);
        rest := rest - {m};
        ids := ids + [m];
      }
    }

    /** add_job: UPDATE the row with the same (external_id, company_id,
        source) if there is one, otherwise INSERT a new row; either way the
        id of that row is returned (an UPDATE leaves lastrowid unset, so the
        id is looked up). */
    method AddJob(externalId: string, companyId: int, source: string, title: string,
                  department: Option<string>, location: Option<string>,
                  contentHtml: Option<string>, contentText: Option<string>, rawData: Value)
      returns (id: int)
      requires Valid()
      modifies this
      ensures Valid()
      ensures jobs == old(jobs)[id := Job(externalId, companyId, source, title, department, location, contentHtml, contentText, rawData)]
      ensures id in old(jobs) <==> HasJobKey(old(jobs), JobKey(externalId, companyId, source))
      ensures id in old(jobs) ==> KeyOf(old(jobs)[id]) == JobKey(externalId, companyId, source) && jobSeq == old(jobSeq)
      ensures id !in old(jobs) ==> id == jobSeq == old(jobSeq) + 1
      ensures companies == old(companies) && resumes == old(resumes) && matches == old(matches)
      ensures jobEmb == old(jobEmb) && resumeEmb == old(resumeEmb)
      ensures companySeq == old(companySeq) && resumeSeq == old(resumeSeq)
    {
      var key := JobKey(externalId, companyId, source);
      var job := Job(externalId, companyId, source, title, department, location, contentHtml, contentText, rawData);
      if existing :| existing in jobs && KeyOf(jobs[existing]) == key {
        id := existing;
      } else {
        jobSeq := jobSeq + 1;
        id := jobSeq;
      }
      UpsertKeepsKeysUnique(jobs, id, job);
      jobs := jobs[id := job];
    }

    /** get_job_id: the id of the job with this key, if any. */
    method GetJobId(externalId: string, companyId: int, source: string) returns (r: Option<int>)
      requires Valid()
      ensures r.Some? <==> HasJobKey(jobs, JobKey(externalId, companyId, source))
      ensures r.Some? ==> r.value in jobs && KeyOf(jobs[r.value]) == JobKey(externalId, companyId, source)
    {
      if id :| id in jobs && KeyOf(jobs[id]) == JobKey(externalId, companyId, source) {
        r := Some(id);
      } else {
        r := None;
      }
    }

    /** get_jobs: the jobs joined with their company (a job whose company
        row is missing is not listed), filtered by a truthy company id and
        source. The created_at order is not modelled: the rows come in some
        order. */
    method GetJobs(companyId: int, source: string) returns (ids: seq<int>)
      ensures NoDuplicates(ids)
      ensures forall id :: id in ids <==>
                (id in ListedJobs()
                 && (companyId != 0 ==> jobs[id].companyId == companyId)
                 && (source != "" ==> jobs[id].source == source))
    {
      var rest := set id | id in ListedJobs()
        && (companyId != 0 ==> jobs[id].companyId == companyId)
        && (source != "" ==> jobs[id].source == source);
      ids := Enumerate(rest);
    }

    /** The ids `get_jobs()` returns: jobs whose company exists. */
    function ListedJobs(): set<int>
      reads this
    {
      set id | id in jobs && jobs[id].companyId in companies
    }

    /** get_job_count */
    function JobCount(): nat
      reads this
    {
      |jobs|
    }

    /** add_resume: INSERT with the next id. */
    method AddResume(name: string, filePath: string, contentText: string, fileType: string, fileSize: int)
      returns (id: int)
      requires Valid()
      modifies this
      ensures Valid()
      ensures id == resumeSeq == old(resumeSeq) + 1 && id !in old(resumes)
      ensures resumes == old(resumes)[id := Resume(name, filePath, Some(contentText), fileType, fileSize)]
      ensures companies == old(companies) && jobs == old(jobs) && matches == old(matches)
      ensures jobEmb == old(jobEmb) && resumeEmb == old(resumeEmb)
      ensures companySeq == old(companySeq) && jobSeq == old(jobSeq)
    {
      resumeSeq := resumeSeq + 1;
      id := resumeSeq;
      resumes := resumes[id := Resume(name, filePath, Some(contentText), fileType, fileSize)];
    }

    /** get_resume */
    function GetResume(id: int): Option<Resume>
      reads this
    {
      if id in resumes then Some(resumes[id]) else None
    }

    /** get_resumes: every resume, in some order (created_at is not
        modelled). */
    method GetResumes() returns (ids: seq<int>)
      ensures NoDuplicates(ids) && |ids| == |resumes|
      ensures forall id :: id in ids <==> id in resumes
    {
      ids := Enumerate(resumes.Keys);
    }

    /** get_resume_count */
    function ResumeCount(): nat
      reads this
    {
      |resumes|
    }

    /** delete_resume: removes the resume's embeddings, its match results
        and the resume row, and reports whether the row existed. */
    method DeleteResume(id: int) returns (deleted: bool)
      requires Valid()
      modifies this
      ensures Valid()
      ensures deleted <==> id in old(resumes)
      ensures resumes == old(resumes) - {id}
      ensures resumeEmb == DropOwner(old(resumeEmb), id)
      ensures matches == DropResumeMatches(old(matches), id)
      ensures companies == old(companies) && jobs == old(jobs) && jobEmb == old(jobEmb)
      ensures companySeq == old(companySeq) && jobSeq == old(jobSeq) && resumeSeq == old(resumeSeq)
    {
      resumeEmb := DropOwner(resumeEmb, id);
      matches := DropResumeMatches(matches, id);
      deleted := id in resumes;
      resumes := resumes - {id};
    }

    /** save_job_embedding: INSERT OR REPLACE keyed by (job_id, model). */
    method SaveJobEmbedding(jobId: int, model: string, embedding: Vector)
      requires Valid()
      modifies this
      ensures Valid()
      ensures jobEmb == old(jobEmb)[(jobId, model) := embedding]
      ensures JobEmbedding(jobId, model) == Some(embedding)
      ensures companies == old(companies) && jobs == old(jobs) && resumes == old(resumes)
      ensures resumeEmb == old(resumeEmb) && matches == old(matches)
      ensures companySeq == old(companySeq) && jobSeq == old(jobSeq) && resumeSeq == old(resumeSeq)
    {
      jobEmb := jobEmb[(jobId, model) := embedding];
    }

    /** save_resume_embedding: INSERT OR REPLACE keyed by (resume_id, model). */
    method SaveResumeEmbedding(resumeId: int, model: string, embedding: Vector)
      requires Valid()
      modifies this
      ensures Valid()
      ensures resumeEmb == old(resumeEmb)[(resumeId, model) := embedding]
      ensures ResumeEmbedding(resumeId, model) == Some(embedding)
      ensures companies == old(companies) && jobs == old(jobs) && resumes == old(resumes)
      ensures jobEmb == old(jobEmb) && matches == old(matches)
      ensures companySeq == old(companySeq) && jobSeq == old(jobSeq) && resumeSeq == old(resumeSeq)
    {
      resumeEmb := resumeEmb[(resumeId, model) := embedding];
    }

    /** get_job_embedding: the stored vector for (job_id, model), or None. */
    function JobEmbedding(jobId: int, model: string): Option<Vector>
      reads this
    {
      if (jobId, model) in jobEmb then Some(jobEmb[(jobId, model)]) else None
    }

    /** get_resume_embedding */
    function ResumeEmbedding(resumeId: int, model: string): Option<Vector>
      reads this
    {
      if (resumeId, model) in resumeEmb then Some(resumeEmb[(resumeId, model)]) else None
    }

    /** save_match_result: INSERT OR REPLACE keyed by (resume_id, job_id,
        model). */
    method SaveMatchResult(resumeId: int, jobId: int, similarity: real, model: string, adjusted: Option<real>)
      requires Valid()
      modifies this
      ensures Valid()
      ensures matches == old(matches)[(resumeId, jobId, model) := MatchScore(similarity, adjusted)]
      ensures companies == old(companies) && jobs == old(jobs) && resumes == old(resumes)
      ensures jobEmb == old(jobEmb) && resumeEmb == old(resumeEmb)
      ensures companySeq == old(companySeq) && jobSeq == old(jobSeq) && resumeSeq == old(resumeSeq)
    {
      matches := matches[(resumeId, jobId, model) := MatchScore(similarity, adjusted)];
    }

    /** The match rows that survive the joins with jobs, companies and
        resumes, restricted to one resume when resumeId is truthy. */
    function JoinedMatches(resumeId: int): set<MatchKey>
      reads this
    {
      set k | k in matches && k.1 in jobs && jobs[k.1].companyId in companies && k.0 in resumes
        && (resumeId != 0 ==> k.0 == resumeId)
    }

    function Row(k: MatchKey): MatchRow
      reads this
      requires k in JoinedMatches(0)
    {
      var j := jobs[k.1];
      MatchRow(k.0, k.1, k.2, matches[k].similarity, matches[k].adjusted,
               j.title, j.department, j.location, companies[j.companyId].name, resumes[k.0].name)
    }

    /** get_match_results: the joined rows, highest similarity first, at
        most limit of them (SQLite reads a negative LIMIT as no limit). */
    method GetMatchResults(resumeId: int, limit: int) returns (rows: seq<MatchRow>)
      ensures |rows| == if 0 <= limit < |JoinedMatches(resumeId)| then limit else |JoinedMatches(resumeId)|
      ensures forall i :: 0 <= i < |rows| ==>
        var k := (rows[i].resumeId, rows[i].jobId, rows[i].model);
        k in JoinedMatches(resumeId) && rows[i] == Row(k)
      ensures forall i, j :: 0 <= i < j < |rows| ==> rows[i].similarity >= rows[j].similarity
      ensures forall i, j :: 0 <= i < j < |rows| ==>
        (rows[i].resumeId, rows[i].jobId, rows[i].model) != (rows[j].resumeId, rows[j].jobId, rows[j].model)
      ensures forall k, i ::
                (k in JoinedMatches(resumeId) && 0 <= i < |rows|
                 && (forall j :: 0 <= j < |rows| ==> (rows[j].resumeId, rows[j].jobId, rows[j].model) != k))
                ==> matches[k].similarity <= rows[i].similarity
    {
      var joined := JoinedMatches(resumeId);
      var ms := matches;
      var keys := SelectTop(joined, k => if k in ms then ms[k].similarity else 0.0, limit);
      rows := [];
      for i := 0 to |keys|
        invariant |rows| == i
        invariant forall t :: 0 <= t < i ==> rows[t] == Row(keys[t])
      {
        rows := rows + [Row(keys[i])];
      }
    }

    /** clear_jobs: job_embeddings, match_results and jobs. */
    method ClearJobs()
      requires Valid()
      modifies this
      ensures Valid()
      ensures jobEmb == map[] && matches == map[] && jobs == map[]
      ensures companies == old(companies) && resumes == old(resumes) && resumeEmb == old(resumeEmb)
      ensures companySeq == old(companySeq) && jobSeq == old(jobSeq) && resumeSeq == old(resumeSeq)
    {
      jobEmb := map[];
      matches := map[];
      jobs := map[];
    }

    /** clear_resumes: resume_embeddings, match_results and resumes. */
    method ClearResumes()
      requires Valid()
      modifies this
      ensures Valid()
      ensures resumeEmb == map[] && matches == map[] && resumes == map[]
      ensures companies == old(companies) && jobs == old(jobs) && jobEmb == old(jobEmb)
      ensures companySeq == old(companySeq) && jobSeq == old(jobSeq) && resumeSeq == old(resumeSeq)
    {
      resumeEmb := map[];
      matches := map[];
      resumes := map[];
    }

    /** clear_embeddings: both embedding tables and match_results. */
    method ClearEmbeddings()
      requires Valid()
      modifies this
      ensures Valid()
      ensures jobEmb == map[] && resumeEmb == map[] && matches == map[]
      ensures companies == old(companies) && jobs == old(jobs) && resumes == old(resumes)
      ensures companySeq == old(companySeq) && jobSeq == old(jobSeq) && resumeSeq == old(resumeSeq)
    {
      jobEmb := map[];
      resumeEmb := map[];
      matches := map[];
    }

    /** reset_database: all six tables; the id counters are kept. */
    method ResetDatabase()
      requires Valid()
      modifies this
      ensures Valid()
      ensures companies == map[] && jobs == map[] && resumes == map[]
      ensures jobEmb == map[] && resumeEmb == map[] && matches == map[]
      ensures companySeq == old(companySeq) && jobSeq == old(jobSeq) && resumeSeq == old(resumeSeq)
    {
      matches := map[];
      jobEmb := map[];
      resumeEmb := map[];
      jobs := map[];
      resumes := map[];
      companies := map[];
    }
  }

  /** The invariant of the get_companies ordering loop: the selected
      companies are split between the ids listed so far, in increasing
      name order, and the rest, all of whose names come after them. */
  ghost predicate Listing(cs: map<int, Company>, activeOnly: bool, ids: seq<int>, rest: set<int>) {
    && (forall id :: id in rest ==> id in cs && (activeOnly ==> cs[id].active))
    && (forall id :: id in cs && (activeOnly ==> cs[id].active) <==> id in rest || id in ids)
    && (forall id :: id in rest ==> id !in ids)
    && NoDuplicates(ids)
    && (forall i :: 0 <= i < |ids| ==> ids[i] in cs)
    && (forall i, j :: 0 <= i < j < |ids| ==> LexLess(cs[ids[i]].name, cs[ids[j]].name))
    && (forall i, id :: 0 <= i < |ids| && id in rest ==> LexLess(cs[ids[i]].name, cs[id].name))
  }

  /** Moving the company with the least name from the rest to the end of
      the list keeps the invariant. */
  lemma ListingStep(cs: map<int, Company>, activeOnly: bool, ids: seq<int>, rest: set<int>, m: int)
    requires UniqueNames(cs) && Listing(cs, activeOnly, ids, rest)
    requires m in rest && forall id :: id in rest ==> LexLeq(cs[m].name, cs[id].name)
    ensures Listing(cs, activeOnly, ids + [m], rest - {m})
  {
    forall id | id in rest && id != m
      ensures LexLess(cs[m].name, cs[id].name)
    {
      assert cs[m].name != cs[id].name;
      assert LexLeq(cs[m].name, cs[id].name);
    }
    var ids' := ids + [m];
    var rest' := rest - {m};
    forall i, id | 0 <= i < |ids'| && id in rest'
      ensures LexLess(cs[ids'[i]].name, cs[id].name)
    {
      if i < |ids| {
        assert ids'[i] == ids[i];
      }
    }
  }

  lemma {:induction false} MinNameExists(cs: map<int, Company>, s: set<int>) returns (m: int)
    requires s != {}
    requires forall id :: id in s ==> id in cs
    ensures m in s && forall id :: id in s ==> LexLeq(cs[m].name, cs[id].name)
    decreases |s|
  {
    var x := Pick(s);
    if s - {x} == {} {
      m := x;
      assert forall id :: id in s && id != x ==> id in s - {x};
    } else {
      var m' := MinNameExists(cs, s - {x});
      LexLeqTotal(cs[x].name, cs[m'].name);
      m := if LexLeq(cs[m'].name, cs[x].name) then m' else x;
      forall id | id in s ensures LexLeq(cs[m].name, cs[id].name) {
        if id != x {
          assert id in s - {x};
          LexLeqTrans(cs[m].name, cs[m'].name, cs[id].name);
        }
      }
    }
  }

  /** Writing a job under its own key's id, or under a fresh id when the key
      is new, keeps job keys unique. */
  lemma UpsertKeepsKeysUnique(js: map<int, Job>, id: int, job: Job)
    requires UniqueJobKeys(js)
    requires (id in js && KeyOf(js[id]) == KeyOf(job)) || (id !in js && !HasJobKey(js, KeyOf(job)))
    ensures UniqueJobKeys(js[id := job])
  {
    var r := js[id := job];
    assert forall o :: o in js && o != id ==> KeyOf(js[o]) != KeyOf(job);
    forall a, b | a in r && b in r && KeyOf(r[a]) == KeyOf(r[b]) ensures a == b {
      if a != id && b != id {
        assert r[a] == js[a] && r[b] == js[b];
      }
    }
  }

  /** The elements of a finite set in some order: the order of rows a query
      without ORDER BY returns. */
  method Enumerate<T(==)>(s: set<T>) returns (xs: seq<T>)
    ensures NoDuplicates(xs)
    ensures forall x :: x in xs <==> x in s
    ensures |xs| == |s|
  {
    xs := [];
    var rest := s;
    while rest != {}
      invariant forall x :: x in s <==> x in rest || x in xs
      invariant |rest| + |xs| == |s|
      invariant forall x :: x in rest ==> x !in xs
      invariant NoDuplicates(xs)
      decreases |rest|
    {
      var x :| x in rest;
      rest := rest - {x};
      xs := xs + [x];
    }
  }
}
