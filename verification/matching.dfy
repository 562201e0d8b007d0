// The intelligence engine (soupboss/matching.py): the pipeline that fills
// the embedding tables, the matcher that scores every resume against every
// job, and the engine that wires the two to one store. Cosine similarity is
// a parameter: its floating-point computation is not modelled.
module Matching {
  import opened Wrappers
  import opened Text
  import opened Collections
  import opened Store
  import opened Embeddings

  /** Characters of job content kept before the "..." marker. */
  const MaxContent := 8000

  /** Python's truthiness of an optional string column. */
  predicate Filled(s: Option<string>) {
    s.Some? && s.value != []
  }

  /** The description part of a job's text: content_text, or content_html
      when content_text is falsy; cut to MaxContent characters plus "..."
      when longer; None when both are falsy. */
  function JobBody(job: Job): (r: Option<string>)
    ensures r.Some? <==> Filled(job.contentText) || Filled(job.contentHtml)
    ensures r.Some? ==> r.value != [] && |r.value| <= MaxContent + 3
    ensures r.Some? ==>
              var c := if Filled(job.contentText) then job.contentText.value else job.contentHtml.value;
              (|c| <= MaxContent && r.value == c)
              || (|c| > MaxContent && r.value == c[..MaxContent] + "...")
  {
    var content := if Filled(job.contentText) then job.contentText else job.contentHtml;
    if !Filled(content) then None
    else if |content.value| > MaxContent then Some(content.value[..MaxContent] + "...")
    else content
  }

  /** The parts _prepare_job_text joins: the title twice (labelled, then
      bare) when it is non-empty, the labelled department and location when
      present, then the body. */
  function JobTextParts(job: Job): (parts: seq<string>)
    ensures forall i :: 0 <= i < |parts| ==> parts[i] != []
    ensures |parts| == (if job.title != [] then 2 else 0) + (if Filled(job.department) then 1 else 0)
                       + (if Filled(job.location) then 1 else 0) + (if JobBody(job).Some? then 1 else 0)
    ensures job.title != [] ==> parts[0] == "Job Title: " + job.title && parts[1] == job.title
    ensures JobBody(job).Some? ==> parts[|parts| - 1] == JobBody(job).value
  {
    (if job.title != [] then ["Job Title: " + job.title, job.title] else [])
    + (if Filled(job.department) then ["Department: " + job.department.value] else [])
    + (if Filled(job.location) then ["Location: " + job.location.value] else [])
    + (if JobBody(job).Some? then [JobBody(job).value] else [])
  }

  /** _prepare_job_text: the parts joined by blank lines. */
  function JobText(job: Job): string {
    Join("\n\n", JobTextParts(job))
  }

  /** The job text starts with the labelled title, ends with the body, and
      is empty only when the job has nothing to say. */
  lemma JobTextShape(job: Job)
    ensures job.title != [] ==> StartsWith(JobText(job), "Job Title: " + job.title)
    ensures JobBody(job).Some? ==> EndsWith(JobText(job), JobBody(job).value)
    ensures JobText(job) == [] <==>
              job.title == [] && !Filled(job.department) && !Filled(job.location) && JobBody(job).None?
  {
    var parts := JobTextParts(job);
    JoinEmpty("\n\n", parts);
    if parts != [] {
      JoinStartsWith("\n\n", parts);
      JoinEndsWith("\n\n", parts);
    }
  }

  /** The ids among `ids` that have a row in `m`, in order, repeats kept:
      the rows fetched one id at a time. */
  function Present<V>(ids: seq<int>, m: map<int, V>): (r: seq<int>)
    ensures forall id :: id in r <==> id in ids && id in m
    ensures |r| <= |ids|
  {
    if ids == [] then []
    else
      var last := ids[|ids| - 1];
      Present(ids[..|ids| - 1], m) + (if last in m then [last] else [])
  }

  /** The fetched ids that still need an embedding for the model: all of
      them when forced, otherwise those without one, in order. */
  function Pending(fetched: seq<int>, emb: map<EmbKey, Vector>, model: string, force: bool): (r: seq<int>)
    ensures forall id :: id in r <==> id in fetched && (force || (id, model) !in emb)
    ensures |r| <= |fetched|
    ensures force ==> r == fetched
  {
    if fetched == [] then []
    else
      var last := fetched[|fetched| - 1];
      Pending(fetched[..|fetched| - 1], emb, model, force)
      + (if force || (last, model) !in emb then [last] else [])
  }

  /** The text each job row is embedded from. */
  function JobTexts(jobs: map<int, Job>): map<int, Option<string>> {
    map id | id in jobs :: Some(JobText(jobs[id]))
  }

  /** The text each resume row is embedded from (its content_text). */
  function ResumeTexts(resumes: map<int, Resume>): map<int, Option<string>> {
    map id | id in resumes :: resumes[id].contentText
  }

  /** What a ready client gives for each id: None for an id without a
      row. */
  function Outcomes(server: Server, cmodel: string, texts: map<int, Option<string>>): int -> Option<Vector> {
    k => if k in texts then EmbeddingOf(server, cmodel, true, texts[k]) else None
  }

  /** The successful outcomes for the given ids, by id. */
  function Collected(ids: seq<int>, f: int -> Option<Vector>): (r: map<int, Vector>)
    ensures forall k :: k in r <==> k in ids && f(k).Some?
    ensures forall k :: k in r ==> r[k] == f(k).value
  {
    map k | k in ids && f(k).Some? :: f(k).value
  }

  lemma CollectedSnoc(ids: seq<int>, id: int, f: int -> Option<Vector>)
    ensures Collected(ids + [id], f) == if f(id).Some? then Collected(ids, f)[id := f(id).value] else Collected(ids, f)
  {
    assert forall k :: k in ids + [id] <==> k in ids || k == id;
  }

  /** The vectors a ready client produces for the given ids. */
  function Vectors(server: Server, cmodel: string, texts: map<int, Option<string>>, ids: seq<int>): (r: map<int, Vector>)
    ensures forall id :: id in r <==> id in ids && id in texts && EmbeddingOf(server, cmodel, true, texts[id]).Some?
    ensures forall id :: id in r ==> r[id] == EmbeddingOf(server, cmodel, true, texts[id]).value
  {
    Collected(ids, Outcomes(server, cmodel, texts))
  }

  /** How many of the ids, repeats counted, get a vector. */
  function Successes(server: Server, cmodel: string, texts: map<int, Option<string>>, ids: seq<int>): (n: nat)
    ensures n <= |ids|
  {
    if ids == [] then 0
    else
      var last := ids[|ids| - 1];
      Successes(server, cmodel, texts, ids[..|ids| - 1])
      + (if Outcomes(server, cmodel, texts)(last).Some? then 1 else 0)
  }

  /** The embedding table after saving each vector under the model. */
  function SaveAll(emb: map<EmbKey, Vector>, model: string, vecs: map<int, Vector>): (r: map<EmbKey, Vector>)
    ensures forall k :: k in r <==> k in emb || (k.1 == model && k.0 in vecs)
    ensures forall k :: k in r ==> r[k] == if k.1 == model && k.0 in vecs then vecs[k.0] else emb[k]
  {
    TaggedMembers(vecs.Keys, model);
    map k | k in emb.Keys + (set id | id in vecs :: (id, model))
      :: if k.1 == model && k.0 in vecs then vecs[k.0] else emb[k]
  }

  lemma TaggedMembers(ids: set<int>, model: string)
    ensures forall k :: k in (set id | id in ids :: (id, model)) <==> k.1 == model && k.0 in ids
  {
    forall k: EmbKey | k.1 == model && k.0 in ids ensures k in (set id | id in ids :: (id, model)) {
      var id := k.0;
      assert id in ids && k == (id, model);
    }
  }

  /** Saving one more vector is one more upsert. */
  lemma SaveAllUpdate(emb: map<EmbKey, Vector>, model: string, vecs: map<int, Vector>, id: int, v: Vector)
    ensures SaveAll(emb, model, vecs[id := v]) == SaveAll(emb, model, vecs)[(id, model) := v]
  {
  }

  lemma VectorsSnoc(server: Server, cmodel: string, texts: map<int, Option<string>>, ids: seq<int>, id: int)
    ensures var e := Outcomes(server, cmodel, texts)(id);
      Vectors(server, cmodel, texts, ids + [id])
      == if e.Some? then Vectors(server, cmodel, texts, ids)[id := e.value] else Vectors(server, cmodel, texts, ids)
  {
    CollectedSnoc(ids, id, Outcomes(server, cmodel, texts));
  }

  lemma SuccessesSnoc(server: Server, cmodel: string, texts: map<int, Option<string>>, ids: seq<int>, id: int)
    ensures Successes(server, cmodel, texts, ids + [id])
         == Successes(server, cmodel, texts, ids) + (if Outcomes(server, cmodel, texts)(id).Some? then 1 else 0)
  {
    assert (ids + [id])[..|ids|] == ids;
  }

  /** Re-running without force after a run in which every pending item got
      its vector finds nothing left to do, for any fetch of the same rows. */
  lemma {:induction false} RerunFindsNothing(fetched: seq<int>, fetched': seq<int>, emb: map<EmbKey, Vector>,
                                             model: string, force: bool, vecs: map<int, Vector>)
    requires forall id :: id in Pending(fetched, emb, model, force) ==> id in vecs
    requires forall id :: id in fetched' ==> id in fetched
    ensures Pending(fetched', SaveAll(emb, model, vecs), model, false) == []
    decreases |fetched'|
  {
    if fetched' != [] {
      var pre := fetched'[..|fetched'| - 1];
      var last := fetched'[|fetched'| - 1];
      assert last in fetched;
      if (last, model) !in emb {
        assert last in Pending(fetched, emb, model, force);
      }
      assert (last, model) in SaveAll(emb, model, vecs);
      RerunFindsNothing(fetched, pre, emb, model, force, vecs);
    }
  }

  /** A forced run redoes every fetched item. */
  lemma ForceProcessesAll(fetched: seq<int>, emb: map<EmbKey, Vector>, model: string)
    ensures Pending(fetched, emb, model, true) == fetched
  {
  }

  /** Fetches the rows for the given ids one at a time. */
  method FetchPresent<V>(ids: seq<int>, m: map<int, V>) returns (r: seq<int>)
    ensures r == Present(ids, m)
  {
    r := [];
    for i := 0 to |ids|
      invariant r == Present(ids[..i], m)
    {
      assert ids[..i + 1][..i] == ids[..i];
      if ids[i] in m {
        r := r + [ids[i]];
      }
    }
    assert ids[..|ids|] == ids;
  }

  /** The loop that keeps the items needing an embedding. */
  method FilterPending(fetched: seq<int>, emb: map<EmbKey, Vector>, model: string, force: bool) returns (r: seq<int>)
    ensures r == Pending(fetched, emb, model, force)
  {
    r := [];
    for i := 0 to |fetched|
      invariant r == Pending(fetched[..i], emb, model, force)
    {
      assert fetched[..i + 1][..i] == fetched[..i];
      if force || (fetched[i], model) !in emb {
        r := r + [fetched[i]];
      }
    }
    assert fetched[..|fetched|] == fetched;
  }

  /** round(with / max(total, 1) * 100, 1) before rounding. */
  function CoveragePercent(with: nat, total: nat): (r: real)
    ensures r >= 0.0
    ensures with == 0 ==> r == 0.0
    ensures with <= total ==> r <= 100.0
    ensures 0 < total && with == total ==> r == 100.0
  {
    var d := if total > 1 then total else 1;
    assert with <= total ==> with <= d || total == 0;
    (with as real) / (d as real) * 100.0
  }

  /** The rows of an embedding table written for one model. */
  function ModelRows(emb: map<EmbKey, Vector>, model: string): set<EmbKey> {
    set k | k in emb && k.1 == model
  }

  lemma {:induction false} TaggedCard(ids: set<int>, model: string)
    ensures |set id | id in ids :: (id, model)| == |ids|
    decreases |ids|
  {
    if ids != {} {
      var x := Pick(ids);
      TaggedCard(ids - {x}, model);
      assert (set id | id in ids :: (id, model)) == (set id | id in ids - {x} :: (id, model)) + {(x, model)};
    }
  }

  lemma {:induction false} SubsetCard(a: set<int>, b: set<int>)
    requires a <= b
    ensures |a| <= |b|
    decreases |b|
  {
    if b != {} {
      var x := Pick(b);
      SubsetCard(a - {x}, b - {x});
    }
  }

  /** Without orphan embeddings the table has at most one row per owner and
      model, so coverage cannot pass 100%. */
  lemma CoverageWithoutOrphans<V>(emb: map<EmbKey, Vector>, owners: map<int, V>, model: string)
    requires forall k :: k in emb ==> k.0 in owners
    ensures |ModelRows(emb, model)| <= |owners|
    ensures CoveragePercent(|ModelRows(emb, model)|, |owners|) <= 100.0
  {
    var ids := set k | k in ModelRows(emb, model) :: k.0;
    TaggedMembers(ids, model);
    assert ModelRows(emb, model) == set id | id in ids :: (id, model);
    TaggedCard(ids, model);
    SubsetCard(ids, owners.Keys);
  }

  datatype Coverage = Coverage(total: nat, withEmbeddings: nat, percent: real)

  datatype EmbeddingStats = EmbeddingStats(model: string, jobs: Coverage, resumes: Coverage)

  /** EmbeddingPipeline: fills the embedding tables of one store for one
      model name; its client asks the server for its own model. */
  class EmbeddingPipeline {
    const db: SoupBossDb
    const client: EmbeddingClient
    const modelName: string

    /** The constructor refuses a client whose model is not ready, so a
        pipeline always has a ready client. */
    ghost predicate Valid()
      reads this, db, client
    {
      db.Valid() && client.modelReady == Some(true)
    }

    constructor (db: SoupBossDb, client: EmbeddingClient, modelName: string)
      requires db.Valid() && client.modelReady == Some(true)
      ensures this.db == db && this.client == client && this.modelName == modelName
      ensures Valid()
    {
      this.db := db;
      this.client := client;
      this.modelName := modelName;
    }

    /** One text through generate_embeddings_batch on the ready client. */
    method EmbedText(text: Option<string>) returns (e: Option<Vector>)
      requires client.modelReady == Some(true)
      modifies client
      ensures client.modelReady == Some(true)
      ensures e == EmbeddingOf(client.server, client.model, true, text)
    {
      var es := client.GenerateEmbeddingsBatch([text]);
      e := es[0];
    }

    /** generate_job_embeddings: fetch the jobs (the given ids one by one,
        or every listed job), keep those that need an embedding, embed each
        one's text and save the vectors that come back; a failed item is
        skipped. The count is the number of saves. */
    method GenerateJobEmbeddings(jobIds: seq<int>, force: bool)
      returns (count: nat, ghost fetched: seq<int>, ghost processed: seq<int>)
      requires Valid()
      modifies db, client
      ensures Valid()
      ensures jobIds != [] ==> fetched == Present(jobIds, old(db.jobs))
      ensures jobIds == [] ==> NoDuplicates(fetched) && forall id :: id in fetched <==> id in old(db.ListedJobs())
      ensures processed == Pending(fetched, old(db.jobEmb), modelName, force)
      ensures count == Successes(client.server, client.model, JobTexts(old(db.jobs)), processed)
      ensures db.jobEmb == SaveAll(old(db.jobEmb), modelName,
                                   Vectors(client.server, client.model, JobTexts(old(db.jobs)), processed))
      ensures db.Entities() == old(db.Entities()) && db.Counters() == old(db.Counters())
      ensures db.resumeEmb == old(db.resumeEmb) && db.matches == old(db.matches)
      ensures client.modelReady == old(client.modelReady)
    {
      var ids: seq<int>;
      if jobIds != [] {
        ids := FetchPresent(jobIds, db.jobs);
      } else {
        ids := db.GetJobs(0, "");
      }
      fetched := ids;
      var pending := FilterPending(ids, db.jobEmb, modelName, force);
      processed := pending;
      count := SaveJobVectors(pending);
    }

    /** The job table after the pending ids in done were embedded and
        saved, with count of them saved and nothing else changed. */
    ghost predicate JobsSaved(emb0: map<EmbKey, Vector>, texts: map<int, Option<string>>,
                              entities: (map<int, Company>, map<int, Job>, map<int, Resume>), counters: (int, int, int),
                              others: (map<EmbKey, Vector>, map<MatchKey, MatchScore>), done: seq<int>, count: nat)
      reads this, db, client
    {
      && Valid() && texts == JobTexts(db.jobs)
      && db.Entities() == entities && db.Counters() == counters && (db.resumeEmb, db.matches) == others
      && count == Successes(client.server, client.model, texts, done)
      && db.jobEmb == SaveAll(emb0, modelName, Vectors(client.server, client.model, texts, done))
    }

    /** One pending job: embed its text, save the vector that comes
        back and count it. */
    method SaveJobVector(ghost emb0: map<EmbKey, Vector>, ghost texts: map<int, Option<string>>,
                         ghost entities: (map<int, Company>, map<int, Job>, map<int, Resume>), ghost counters: (int, int, int),
                         ghost others: (map<EmbKey, Vector>, map<MatchKey, MatchScore>),
                         ghost done: seq<int>, id: int, count: nat) returns (count': nat)
      requires JobsSaved(emb0, texts, entities, counters, others, done, count) && id in db.jobs
      modifies db, client
      ensures JobsSaved(emb0, texts, entities, counters, others, done + [id], count')
    {
      var e := EmbedText(Some(JobText(db.jobs[id])));
      assert texts[id] == Some(JobText(db.jobs[id]));
      VectorsSnoc(client.server, client.model, texts, done, id);
      SuccessesSnoc(client.server, client.model, texts, done, id);
      count' := count;
      if e.Some? {
        SaveAllUpdate(emb0, modelName, Vectors(client.server, client.model, texts, done), id, e.value);
        db.SaveJobEmbedding(id, modelName, e.value);
        count' := count + 1;
      }
    }

    /** The loop of generate_job_embeddings over the pending ids. */
    method SaveJobVectors(pending: seq<int>) returns (count: nat)
      requires Valid()
      requires forall id :: id in pending ==> id in db.jobs
      modifies db, client
      ensures Valid()
      ensures count == Successes(client.server, client.model, JobTexts(old(db.jobs)), pending)
      ensures db.jobEmb == SaveAll(old(db.jobEmb), modelName,
                                  Vectors(client.server, client.model, JobTexts(old(db.jobs)), pending))
      ensures db.Entities() == old(db.Entities()) && db.Counters() == old(db.Counters())
      ensures db.resumeEmb == old(db.resumeEmb) && db.matches == old(db.matches)
    {
      ghost var texts, entities, counters := JobTexts(db.jobs), db.Entities(), db.Counters();
      ghost var others := (db.resumeEmb, db.matches);
      count := 0;
      for i := 0 to |pending|
        invariant JobsSaved(old(db.jobEmb), texts, entities, counters, others, pending[..i], count)
      {
        PrefixSnoc(pending, i);
        count := SaveJobVector(old(db.jobEmb), texts, entities, counters, others, pending[..i], pending[i], count);
      }
      assert pending[..|pending|] == pending;
    }

    /** generate_resume_embeddings: the same steps over resumes, whose text
        is their content_text. */
    method GenerateResumeEmbeddings(resumeIds: seq<int>, force: bool)
      returns (count: nat, ghost fetched: seq<int>, ghost processed: seq<int>)
      requires Valid()
      modifies db, client
      ensures Valid()
      ensures resumeIds != [] ==> fetched == Present(resumeIds, old(db.resumes))
      ensures resumeIds == [] ==> NoDuplicates(fetched) && forall id :: id in fetched <==> id in old(db.resumes)
      ensures processed == Pending(fetched, old(db.resumeEmb), modelName, force)
      ensures count == Successes(client.server, client.model, ResumeTexts(old(db.resumes)), processed)
      ensures db.resumeEmb == SaveAll(old(db.resumeEmb), modelName,
                                      Vectors(client.server, client.model, ResumeTexts(old(db.resumes)), processed))
      ensures db.Entities() == old(db.Entities()) && db.Counters() == old(db.Counters())
      ensures db.jobEmb == old(db.jobEmb) && db.matches == old(db.matches)
      ensures client.modelReady == old(client.modelReady)
    {
      var ids: seq<int>;
      if resumeIds != [] {
        ids := FetchPresent(resumeIds, db.resumes);
      } else {
        ids := db.GetResumes();
      }
      fetched := ids;
      var pending := FilterPending(ids, db.resumeEmb, modelName, force);
      processed := pending;
      count := SaveResumeVectors(pending);
    }

    /** One pending resume: embed its text, save the vector that comes
        back and count it. */
    method SaveResumeVector(ghost emb0: map<EmbKey, Vector>, ghost texts: map<int, Option<string>>,
                           ghost done: seq<int>, id: int, count: nat) returns (count': nat)
      requires Valid() && id in db.resumes && texts == ResumeTexts(db.resumes)
      requires count == Successes(client.server, client.model, texts, done)
      requires db.resumeEmb == SaveAll(emb0, modelName, Vectors(client.server, client.model, texts, done))
      modifies db, client
      ensures Valid()
      ensures count' == Successes(client.server, client.model, texts, done + [id])
      ensures db.resumeEmb == SaveAll(emb0, modelName, Vectors(client.server, client.model, texts, done + [id]))
      ensures db.resumes == old(db.resumes)
      ensures db.Entities() == old(db.Entities()) && db.Counters() == old(db.Counters())
      ensures db.jobEmb == old(db.jobEmb) && db.matches == old(db.matches)
    {
      var e := EmbedText(db.resumes[id].contentText);
      assert texts[id] == db.resumes[id].contentText;
      VectorsSnoc(client.server, client.model, texts, done, id);
      SuccessesSnoc(client.server, client.model, texts, done, id);
      count' := count;
      if e.Some? {
        SaveAllUpdate(emb0, modelName, Vectors(client.server, client.model, texts, done), id, e.value);
        db.SaveResumeEmbedding(id, modelName, e.value);
        count' := count + 1;
      }
    }

    /** The loop of generate_resume_embeddings over the pending ids. */
    method SaveResumeVectors(pending: seq<int>) returns (count: nat)
      requires Valid()
      requires forall id :: id in pending ==> id in db.resumes
      modifies db, client
      ensures Valid()
      ensures count == Successes(client.server, client.model, ResumeTexts(old(db.resumes)), pending)
      ensures db.resumeEmb == SaveAll(old(db.resumeEmb), modelName,
                                  Vectors(client.server, client.model, ResumeTexts(old(db.resumes)), pending))
      ensures db.Entities() == old(db.Entities()) && db.Counters() == old(db.Counters())
      ensures db.jobEmb == old(db.jobEmb) && db.matches == old(db.matches)
    {
      ghost var texts := ResumeTexts(db.resumes);
      count := 0;
      for i := 0 to |pending|
        invariant Valid()
        invariant db.resumes == old(db.resumes)
        invariant db.Entities() == old(db.Entities()) && db.Counters() == old(db.Counters())
        invariant db.jobEmb == old(db.jobEmb) && db.matches == old(db.matches)
        invariant count == Successes(client.server, client.model, texts, pending[..i])
        invariant db.resumeEmb == SaveAll(old(db.resumeEmb), modelName, Vectors(client.server, client.model, texts, pending[..i]))
      {
        PrefixSnoc(pending, i);
        count := SaveResumeVector(old(db.resumeEmb), texts, pending[..i], pending[i], count);
      }
      assert pending[..|pending|] == pending;
    }

    /** get_embedding_stats: row counts and coverage for both sides; the
        total counts every row, with or without content. */
    method GetEmbeddingStats() returns (s: EmbeddingStats)
      ensures s.model == modelName
      ensures s.jobs.total == |db.jobs| && s.jobs.withEmbeddings == |ModelRows(db.jobEmb, modelName)|
      ensures s.resumes.total == |db.resumes| && s.resumes.withEmbeddings == |ModelRows(db.resumeEmb, modelName)|
      ensures s.jobs.percent == CoveragePercent(s.jobs.withEmbeddings, s.jobs.total)
      ensures s.resumes.percent == CoveragePercent(s.resumes.withEmbeddings, s.resumes.total)
    {
      var jt := |db.jobs|;
      var jw := |ModelRows(db.jobEmb, modelName)|;
      var rt := |db.resumes|;
      var rw := |ModelRows(db.resumeEmb, modelName)|;
      s := EmbeddingStats(modelName, Coverage(jt, jw, CoveragePercent(jw, jt)),
                          Coverage(rt, rw, CoveragePercent(rw, rt)));
    }
  }

  /** Builds the pipeline as its constructor does: the server must answer
      the listing and the client's model must be ready, otherwise the
      construction raises (None). */
  method NewPipeline(db: SoupBossDb, modelName: string, server: Server, clientModel: string)
    returns (r: Option<EmbeddingPipeline>)
    requires db.Valid()
    ensures r.Some? <==> Available(server, clientModel)
    ensures r.Some? ==> fresh(r.value) && fresh(r.value.client) && r.value.Valid()
                        && r.value.db == db && r.value.modelName == modelName
                        && r.value.client.server == server && r.value.client.model == clientModel
  {
    var client := new EmbeddingClient(server, clientModel);
    if server.listing.None? {
      return None;
    }
    var ready := client.EnsureModelReady();
    if !ready {
      return None;
    }
    var p := new EmbeddingPipeline(db, client, modelName);
    r := Some(p);
  }

  /** A resume row joined with its embedding for the model. */
  datatype ResumeRow = ResumeRow(id: int, name: string, embedding: Vector)

  /** A job row joined with its company's name and its embedding. */
  datatype JobRow = JobRow(id: int, title: string, department: Option<string>, location: Option<string>,
                           companyName: string, embedding: Vector)

  datatype MatchResult = MatchResult(
    resumeId: int, resumeName: string, jobId: int, jobTitle: string, companyName: string,
    similarity: real, adjusted: Option<real>, department: Option<string>, location: Option<string>)

  function Score(m: MatchResult): real {
    m.similarity
  }

  function ResumeIds(rows: seq<ResumeRow>): seq<int> {
    seq(|rows|, i requires 0 <= i < |rows| => rows[i].id)
  }

  function JobIds(rows: seq<JobRow>): seq<int> {
    seq(|rows|, i requires 0 <= i < |rows| => rows[i].id)
  }

  /** The result for one resume and one job. */
  function Pair(r: ResumeRow, j: JobRow, cosine: (Vector, Vector) -> real): MatchResult {
    MatchResult(r.id, r.name, j.id, j.title, j.companyName, cosine(r.embedding, j.embedding), None,
                j.department, j.location)
  }

  /** One resume against each job, in job order. */
  function RowsFor(r: ResumeRow, js: seq<JobRow>, cosine: (Vector, Vector) -> real): (out: seq<MatchResult>)
    ensures |out| == |js|
    ensures forall b :: 0 <= b < |js| ==> out[b] == Pair(r, js[b], cosine)
  {
    if js == [] then [] else RowsFor(r, js[..|js| - 1], cosine) + [Pair(r, js[|js| - 1], cosine)]
  }

  /** All pairs, resume-major: the order of the nested loops. */
  function Pairs(rs: seq<ResumeRow>, js: seq<JobRow>, cosine: (Vector, Vector) -> real): seq<MatchResult> {
    if rs == [] then [] else Pairs(rs[..|rs| - 1], js, cosine) + RowsFor(rs[|rs| - 1], js, cosine)
  }

  lemma {:induction false} PairsLength(rs: seq<ResumeRow>, js: seq<JobRow>, cosine: (Vector, Vector) -> real)
    ensures |Pairs(rs, js, cosine)| == |rs| * |js|
    decreases |rs|
  {
    if rs != [] {
      var pre := rs[..|rs| - 1];
      PairsLength(pre, js, cosine);
      assert |rs| * |js| == |pre| * |js| + |js| by {
        assert |rs| == |pre| + 1;
      }
    }
  }

  /** Every resume is paired with every job. */
  lemma {:induction false} PairsCover(rs: seq<ResumeRow>, js: seq<JobRow>, cosine: (Vector, Vector) -> real)
    ensures forall a, b :: 0 <= a < |rs| && 0 <= b < |js| ==> Pair(rs[a], js[b], cosine) in Pairs(rs, js, cosine)
    decreases |rs|
  {
    if rs != [] {
      var pre := rs[..|rs| - 1];
      PairsCover(pre, js, cosine);
      var p := Pairs(pre, js, cosine);
      var q := RowsFor(rs[|rs| - 1], js, cosine);
      assert Pairs(rs, js, cosine) == p + q;
      forall a, b | 0 <= a < |rs| && 0 <= b < |js| ensures Pair(rs[a], js[b], cosine) in p + q {
        if a < |pre| {
          assert rs[a] == pre[a];
          assert Pair(pre[a], js[b], cosine) in p;
        } else {
          assert q[b] == Pair(rs[a], js[b], cosine);
        }
      }
    }
  }

  /** Nothing but those pairs. */
  lemma {:induction false} PairsOnly(rs: seq<ResumeRow>, js: seq<JobRow>, cosine: (Vector, Vector) -> real)
    ensures forall x :: x in Pairs(rs, js, cosine) ==>
              exists a, b :: 0 <= a < |rs| && 0 <= b < |js| && x == Pair(rs[a], js[b], cosine)
    decreases |rs|
  {
    if rs != [] {
      var pre := rs[..|rs| - 1];
      PairsOnly(pre, js, cosine);
      var p := Pairs(pre, js, cosine);
      var q := RowsFor(rs[|rs| - 1], js, cosine);
      assert Pairs(rs, js, cosine) == p + q;
      forall x | x in p + q ensures exists a, b :: 0 <= a < |rs| && 0 <= b < |js| && x == Pair(rs[a], js[b], cosine) {
        if x in p {
          var a, b :| 0 <= a < |pre| && 0 <= b < |js| && x == Pair(pre[a], js[b], cosine);
          assert rs[a] == pre[a];
        } else {
          var b :| 0 <= b < |q| && q[b] == x;
          assert x == Pair(rs[|rs| - 1], js[b], cosine);
        }
      }
    }
  }

  /** Exactly |rs| * |js| results: one for each resume and job, and nothing
      else. */
  lemma PairsComplete(rs: seq<ResumeRow>, js: seq<JobRow>, cosine: (Vector, Vector) -> real)
    ensures |Pairs(rs, js, cosine)| == |rs| * |js|
    ensures forall a, b :: 0 <= a < |rs| && 0 <= b < |js| ==> Pair(rs[a], js[b], cosine) in Pairs(rs, js, cosine)
    ensures forall x :: x in Pairs(rs, js, cosine) ==>
              exists a, b :: 0 <= a < |rs| && 0 <= b < |js| && x == Pair(rs[a], js[b], cosine)
  {
    PairsLength(rs, js, cosine);
    PairsCover(rs, js, cosine);
    PairsOnly(rs, js, cosine);
  }

  /** The match table after saving each result of one resume, in order. */
  function SaveRow(ms: map<MatchKey, MatchScore>, r: ResumeRow, js: seq<JobRow>, model: string,
                   cosine: (Vector, Vector) -> real): map<MatchKey, MatchScore> {
    if js == [] then ms
    else
      var j := js[|js| - 1];
      SaveRow(ms, r, js[..|js| - 1], model, cosine)[(r.id, j.id, model) := MatchScore(cosine(r.embedding, j.embedding), None)]
  }

  /** The match table after saving every pair, resume-major. */
  function SavePairs(ms: map<MatchKey, MatchScore>, rs: seq<ResumeRow>, js: seq<JobRow>, model: string,
                     cosine: (Vector, Vector) -> real): map<MatchKey, MatchScore> {
    if rs == [] then ms
    else SaveRow(SavePairs(ms, rs[..|rs| - 1], js, model, cosine), rs[|rs| - 1], js, model, cosine)
  }

  /** The ids of a prefix are among the ids of the whole. */
  lemma JobIdsPrefix(js: seq<JobRow>, n: nat)
    requires n <= |js|
    ensures JobIds(js[..n]) == JobIds(js)[..n]
    ensures forall x :: x in JobIds(js[..n]) ==> x in JobIds(js)
  {
    assert JobIds(js[..n]) == JobIds(js)[..n];
  }

  lemma ResumeIdsPrefix(rs: seq<ResumeRow>, n: nat)
    requires n <= |rs|
    ensures ResumeIds(rs[..n]) == ResumeIds(rs)[..n]
    ensures forall x :: x in ResumeIds(rs[..n]) ==> x in ResumeIds(rs)
  {
    assert ResumeIds(rs[..n]) == ResumeIds(rs)[..n];
  }

  /** A row of saves upserts exactly the keys of its pairs. */
  lemma {:induction false} SaveRowContents(ms: map<MatchKey, MatchScore>, r: ResumeRow, js: seq<JobRow>, model: string,
                                           cosine: (Vector, Vector) -> real)
    requires NoDuplicates(JobIds(js))
    ensures var m := SaveRow(ms, r, js, model, cosine);
      (forall b :: 0 <= b < |js| ==> (r.id, js[b].id, model) in m
                                     && m[(r.id, js[b].id, model)] == MatchScore(cosine(r.embedding, js[b].embedding), None))
      && (forall k :: k in m ==> k in ms || (k.0 == r.id && k.1 in JobIds(js) && k.2 == model))
      && (forall k :: k in ms && !(k.0 == r.id && k.1 in JobIds(js) && k.2 == model) ==> k in m && m[k] == ms[k])
    decreases |js|
  {
    if js != [] {
      var n := |js| - 1;
      var pre := js[..n];
      var j := js[n];
      var ids := JobIds(js);
      JobIdsPrefix(js, n);
      assert ids[n] == j.id;
      SaveRowContents(ms, r, pre, model, cosine);
      var m0 := SaveRow(ms, r, pre, model, cosine);
      var m := SaveRow(ms, r, js, model, cosine);
      assert m == m0[(r.id, j.id, model) := MatchScore(cosine(r.embedding, j.embedding), None)];
      forall b | 0 <= b < |js|
        ensures (r.id, js[b].id, model) in m
        ensures m[(r.id, js[b].id, model)] == MatchScore(cosine(r.embedding, js[b].embedding), None)
      {
        if b < n {
          assert js[b] == pre[b];
          assert ids[b] != ids[n];
        }
      }
    }
  }

  /** Saving every pair upserts exactly the pair keys, each with its own
      score and no adjusted score, and keeps every other row. */
  lemma SavePairsContents(ms: map<MatchKey, MatchScore>, rs: seq<ResumeRow>, js: seq<JobRow>,
                          model: string, cosine: (Vector, Vector) -> real)
    requires NoDuplicates(ResumeIds(rs)) && NoDuplicates(JobIds(js))
    ensures var m := SavePairs(ms, rs, js, model, cosine);
      (forall a, b :: 0 <= a < |rs| && 0 <= b < |js| ==>
            (rs[a].id, js[b].id, model) in m
            && m[(rs[a].id, js[b].id, model)] == MatchScore(cosine(rs[a].embedding, js[b].embedding), None))
      && (forall k :: k in m ==> k in ms || (k.0 in ResumeIds(rs) && k.1 in JobIds(js) && k.2 == model))
      && (forall k :: k in ms && !(k.0 in ResumeIds(rs) && k.1 in JobIds(js) && k.2 == model) ==> k in m && m[k] == ms[k])
  {
    SavePairsCovers(ms, rs, js, model, cosine);
    SavePairsOnlyPairs(ms, rs, js, model, cosine);
    SavePairsKeepsOthers(ms, rs, js, model, cosine);
  }

  lemma {:induction false} SavePairsCovers(ms: map<MatchKey, MatchScore>, rs: seq<ResumeRow>, js: seq<JobRow>,
                                           model: string, cosine: (Vector, Vector) -> real)
    requires NoDuplicates(ResumeIds(rs)) && NoDuplicates(JobIds(js))
    ensures var m := SavePairs(ms, rs, js, model, cosine);
      forall a, b :: 0 <= a < |rs| && 0 <= b < |js| ==>
            (rs[a].id, js[b].id, model) in m
            && m[(rs[a].id, js[b].id, model)] == MatchScore(cosine(rs[a].embedding, js[b].embedding), None)
    decreases |rs|
  {
    if rs != [] {
      var n := |rs| - 1;
      var pre := rs[..n];
      var r := rs[n];
      var ids := ResumeIds(rs);
      ResumeIdsPrefix(rs, n);
      assert ids[n] == r.id;
      SavePairsCovers(ms, pre, js, model, cosine);
      var mid := SavePairs(ms, pre, js, model, cosine);
      SaveRowContents(mid, r, js, model, cosine);
      var m := SavePairs(ms, rs, js, model, cosine);
      assert m == SaveRow(mid, r, js, model, cosine);
      forall a, b | 0 <= a < |rs| && 0 <= b < |js|
        ensures (rs[a].id, js[b].id, model) in m
        ensures m[(rs[a].id, js[b].id, model)] == MatchScore(cosine(rs[a].embedding, js[b].embedding), None)
      {
        if a < n {
          assert rs[a] == pre[a];
          assert ids[a] != ids[n];
        }
      }
    }
  }

  lemma {:induction false} SavePairsOnlyPairs(ms: map<MatchKey, MatchScore>, rs: seq<ResumeRow>, js: seq<JobRow>,
                                              model: string, cosine: (Vector, Vector) -> real)
    requires NoDuplicates(JobIds(js))
    ensures var m := SavePairs(ms, rs, js, model, cosine);
      forall k :: k in m ==> k in ms || (k.0 in ResumeIds(rs) && k.1 in JobIds(js) && k.2 == model)
    decreases |rs|
  {
    if rs != [] {
      var n := |rs| - 1;
      var pre := rs[..n];
      ResumeIdsPrefix(rs, n);
      assert ResumeIds(rs)[n] == rs[n].id;
      SavePairsOnlyPairs(ms, pre, js, model, cosine);
      SaveRowContents(SavePairs(ms, pre, js, model, cosine), rs[n], js, model, cosine);
    }
  }

  lemma {:induction false} SavePairsKeepsOthers(ms: map<MatchKey, MatchScore>, rs: seq<ResumeRow>, js: seq<JobRow>,
                                                model: string, cosine: (Vector, Vector) -> real)
    requires NoDuplicates(JobIds(js))
    ensures var m := SavePairs(ms, rs, js, model, cosine);
      forall k :: k in ms && !(k.0 in ResumeIds(rs) && k.1 in JobIds(js) && k.2 == model) ==> k in m && m[k] == ms[k]
    decreases |rs|
  {
    if rs != [] {
      var n := |rs| - 1;
      var pre := rs[..n];
      ResumeIdsPrefix(rs, n);
      assert ResumeIds(rs)[n] == rs[n].id;
      SavePairsKeepsOthers(ms, pre, js, model, cosine);
      SaveRowContents(SavePairs(ms, pre, js, model, cosine), rs[n], js, model, cosine);
    }
  }

  /** With no jobs there is nothing to save. */
  lemma {:induction false} SavePairsNoJobs(ms: map<MatchKey, MatchScore>, rs: seq<ResumeRow>, model: string,
                                           cosine: (Vector, Vector) -> real)
    ensures SavePairs(ms, rs, [], model, cosine) == ms
    decreases |rs|
  {
    if rs != [] {
      SavePairsNoJobs(ms, rs[..|rs| - 1], model, cosine);
    }
  }

  /** SimilarityMatcher over one store and one model name. */
  class SimilarityMatcher {
    const db: SoupBossDb
    const modelName: string

    constructor (db: SoupBossDb, modelName: string)
      ensures this.db == db && this.modelName == modelName
    {
      this.db := db;
      this.modelName := modelName;
    }

    /** The resumes with an embedding for the model, restricted to ids when
        that list is non-empty. */
    function ResumeSet(ids: seq<int>): set<int>
      reads this, db
    {
      set id | id in db.resumes && (id, modelName) in db.resumeEmb && (ids == [] || id in ids)
    }

    /** The jobs with an embedding for the model whose company exists,
        restricted to ids when that list is non-empty. */
    function JobSet(ids: seq<int>): set<int>
      reads this, db
    {
      set id | id in db.jobs && db.jobs[id].companyId in db.companies && (id, modelName) in db.jobEmb
               && (ids == [] || id in ids)
    }

    function ResumeRowOf(id: int): ResumeRow
      reads this, db
      requires id in db.resumes && (id, modelName) in db.resumeEmb
    {
      ResumeRow(id, db.resumes[id].name, db.resumeEmb[(id, modelName)])
    }

    function JobRowOf(id: int): JobRow
      reads this, db
      requires id in db.jobs && db.jobs[id].companyId in db.companies && (id, modelName) in db.jobEmb
    {
      var j := db.jobs[id];
      JobRow(id, j.title, j.department, j.location, db.companies[j.companyId].name, db.jobEmb[(id, modelName)])
    }

    /** _get_resumes_with_embeddings: one row per resume of ResumeSet, in
        the order the query returns them. */
    method ResumesWithEmbeddings(ids: seq<int>) returns (rows: seq<ResumeRow>)
      ensures NoDuplicates(ResumeIds(rows))
      ensures forall id :: id in ResumeIds(rows) <==> id in ResumeSet(ids)
      ensures forall i :: 0 <= i < |rows| ==> rows[i].id in ResumeSet(ids) && rows[i] == ResumeRowOf(rows[i].id)
    {
      var order := Enumerate(ResumeSet(ids));
      assert forall t :: 0 <= t < |order| ==> order[t] in ResumeSet(ids);
      rows := [];
      for i := 0 to |order|
        invariant ResumeIds(rows) == order[..i]
        invariant forall t :: 0 <= t < i ==> rows[t] == ResumeRowOf(order[t])
      {
        rows := rows + [ResumeRowOf(order[i])];
      }
      assert order[..|order|] == order;
    }

    /** _get_jobs_with_embeddings */
    method JobsWithEmbeddings(ids: seq<int>) returns (rows: seq<JobRow>)
      ensures NoDuplicates(JobIds(rows))
      ensures forall id :: id in JobIds(rows) <==> id in JobSet(ids)
      ensures forall i :: 0 <= i < |rows| ==> rows[i].id in JobSet(ids) && rows[i] == JobRowOf(rows[i].id)
    {
      var order := Enumerate(JobSet(ids));
      assert forall t :: 0 <= t < |order| ==> order[t] in JobSet(ids);
      rows := [];
      for i := 0 to |order|
        invariant JobIds(rows) == order[..i]
        invariant forall t :: 0 <= t < i ==> rows[t] == JobRowOf(order[t])
      {
        rows := rows + [JobRowOf(order[i])];
      }
      assert order[..|order|] == order;
    }

    /** The inner loop of calculate_similarity_batch: one resume against
        each job, each pair saved as it is computed when asked. */
    method ScoreRow(r: ResumeRow, js: seq<JobRow>, save: bool, cosine: (Vector, Vector) -> real)
      returns (row: seq<MatchResult>)
      requires db.Valid()
      modifies db
      ensures db.Valid()
      ensures row == RowsFor(r, js, cosine)
      ensures save ==> db.matches == SaveRow(old(db.matches), r, js, modelName, cosine)
      ensures !save ==> db.matches == old(db.matches)
      ensures db.Entities() == old(db.Entities()) && db.Counters() == old(db.Counters())
      ensures db.jobEmb == old(db.jobEmb) && db.resumeEmb == old(db.resumeEmb)
    {
      row := [];
      for b := 0 to |js|
        invariant db.Valid()
        invariant db.Entities() == old(db.Entities()) && db.Counters() == old(db.Counters())
        invariant db.jobEmb == old(db.jobEmb) && db.resumeEmb == old(db.resumeEmb)
        invariant row == RowsFor(r, js[..b], cosine)
        invariant save ==> db.matches == SaveRow(old(db.matches), r, js[..b], modelName, cosine)
        invariant !save ==> db.matches == old(db.matches)
      {
        assert js[..b + 1][..b] == js[..b];
        var m := Pair(r, js[b], cosine);
        row := row + [m];
        if save {
          db.SaveMatchResult(r.id, js[b].id, m.similarity, modelName, None);
        }
      }
      assert js[..|js|] == js;
    }

    /** The outer loop of calculate_similarity_batch, before sorting. */
    method ScoreAll(rs: seq<ResumeRow>, js: seq<JobRow>, save: bool, cosine: (Vector, Vector) -> real)
      returns (results: seq<MatchResult>)
      requires db.Valid()
      modifies db
      ensures db.Valid()
      ensures results == Pairs(rs, js, cosine)
      ensures save ==> db.matches == SavePairs(old(db.matches), rs, js, modelName, cosine)
      ensures !save ==> db.matches == old(db.matches)
      ensures db.Entities() == old(db.Entities()) && db.Counters() == old(db.Counters())
      ensures db.jobEmb == old(db.jobEmb) && db.resumeEmb == old(db.resumeEmb)
    {
      results := [];
      for a := 0 to |rs|
        invariant db.Valid()
        invariant db.Entities() == old(db.Entities()) && db.Counters() == old(db.Counters())
        invariant db.jobEmb == old(db.jobEmb) && db.resumeEmb == old(db.resumeEmb)
        invariant results == Pairs(rs[..a], js, cosine)
        invariant save ==> db.matches == SavePairs(old(db.matches), rs[..a], js, modelName, cosine)
        invariant !save ==> db.matches == old(db.matches)
      {
        assert rs[..a + 1][..a] == rs[..a];
        var row := ScoreRow(rs[a], js, save, cosine);
        results := results + row;
      }
      assert rs[..|rs|] == rs;
    }

    /** The resumes and jobs a batch scores: each with an embedding for
        this model (and jobs with their company), restricted to the given
        ids when there are any, each listed once with its current row. */
    ghost predicate Selected(resumeIds: seq<int>, jobIds: seq<int>, rrows: seq<ResumeRow>, jrows: seq<JobRow>)
      reads this, db
    {
      && NoDuplicates(ResumeIds(rrows)) && (forall id :: id in ResumeIds(rrows) <==> id in ResumeSet(resumeIds))
      && NoDuplicates(JobIds(jrows)) && (forall id :: id in JobIds(jrows) <==> id in JobSet(jobIds))
      && (forall i :: 0 <= i < |rrows| ==> rrows[i].id in ResumeSet(resumeIds) && rrows[i] == ResumeRowOf(rrows[i].id))
      && (forall i :: 0 <= i < |jrows| ==> jrows[i].id in JobSet(jobIds) && jrows[i] == JobRowOf(jrows[i].id))
    }

    /** calculate_similarity_batch: every selected resume against every
        selected job, saved one pair at a time when asked, then sorted by
        score, highest first, ties in computation order. Nothing is
        computed when either side is empty. */
    method CalculateSimilarityBatch(resumeIds: seq<int>, jobIds: seq<int>, save: bool,
                                    cosine: (Vector, Vector) -> real)
      returns (results: seq<MatchResult>, ghost rrows: seq<ResumeRow>, ghost jrows: seq<JobRow>)
      requires db.Valid()
      modifies db
      ensures db.Valid()
      ensures old(Selected(resumeIds, jobIds, rrows, jrows))
      ensures results == SortDesc(Pairs(rrows, jrows, cosine), Score)
      ensures save ==> db.matches == SavePairs(old(db.matches), rrows, jrows, modelName, cosine)
      ensures !save ==> db.matches == old(db.matches)
      ensures db.Entities() == old(db.Entities()) && db.Counters() == old(db.Counters())
      ensures db.jobEmb == old(db.jobEmb) && db.resumeEmb == old(db.resumeEmb)
    {
      var rs := ResumesWithEmbeddings(resumeIds);
      var js := JobsWithEmbeddings(jobIds);
      rrows, jrows := rs, js;
      assert Selected(resumeIds, jobIds, rrows, jrows);
      results := ScoreBatch(rs, js, save, cosine);
      results := SortDesc(results, Score);
    }

    /** The scoring part of calculate_similarity_batch, which returns
        early, computing and saving nothing, when either side is empty. */
    method ScoreBatch(rs: seq<ResumeRow>, js: seq<JobRow>, save: bool, cosine: (Vector, Vector) -> real)
      returns (results: seq<MatchResult>)
      requires db.Valid()
      modifies db
      ensures db.Valid()
      ensures results == Pairs(rs, js, cosine)
      ensures save ==> db.matches == SavePairs(old(db.matches), rs, js, modelName, cosine)
      ensures !save ==> db.matches == old(db.matches)
      ensures db.Entities() == old(db.Entities()) && db.Counters() == old(db.Counters())
      ensures db.jobEmb == old(db.jobEmb) && db.resumeEmb == old(db.resumeEmb)
    {
      if rs == [] || js == [] {
        PairsLength(rs, js, cosine);
        if js == [] {
          SavePairsNoJobs(db.matches, rs, modelName, cosine);
        }
        return [];
      }
      results := ScoreAll(rs, js, save, cosine);
    }

    /** The match rows of one resume for this model that survive the joins
        with resumes, jobs and companies. */
    function TopMatchKeys(resumeId: int): set<MatchKey>
      reads this, db
    {
      set k | k in db.JoinedMatches(0) && k.0 == resumeId && k.2 == modelName
    }

    function ResultOf(k: MatchKey): (r: MatchResult)
      reads this, db
      requires k in db.JoinedMatches(0)
      ensures r.resumeId == k.0 && r.jobId == k.1 && r.similarity == db.matches[k].similarity
    {
      var row := db.Row(k);
      MatchResult(row.resumeId, row.resumeName, row.jobId, row.jobTitle, row.companyName,
                  row.similarity, row.adjusted, row.jobDepartment, row.jobLocation)
    }

    /** The result rows of the selected keys, in order. */
    method RowsOf(top: seq<MatchKey>) returns (results: seq<MatchResult>)
      requires forall t :: 0 <= t < |top| ==> top[t] in db.JoinedMatches(0)
      ensures |results| == |top|
      ensures forall t :: 0 <= t < |top| ==> results[t] == ResultOf(top[t])
    {
      results := [];
      for i := 0 to |top|
        invariant |results| == i
        invariant forall t :: 0 <= t < i ==> results[t] == ResultOf(top[t])
      {
        results := results + [ResultOf(top[i])];
      }
    }

    /** get_top_matches: a read-only query returning at most limit rows for
        the resume and model, highest score first, none left out that
        scores higher than one returned. */
    method GetTopMatches(resumeId: int, limit: int) returns (results: seq<MatchResult>)
      ensures |results| == if 0 <= limit < |TopMatchKeys(resumeId)| then limit else |TopMatchKeys(resumeId)|
      ensures forall i :: 0 <= i < |results| ==>
                var k := (results[i].resumeId, results[i].jobId, modelName);
                results[i].resumeId == resumeId && k in TopMatchKeys(resumeId) && results[i] == ResultOf(k)
      ensures forall i, j :: 0 <= i < j < |results| ==>
                results[i].similarity >= results[j].similarity && results[i].jobId != results[j].jobId
      ensures forall k, i ::
                (k in TopMatchKeys(resumeId) && 0 <= i < |results|
                 && (forall j :: 0 <= j < |results| ==> results[j].jobId != k.1))
                ==> db.matches[k].similarity <= results[i].similarity
    {
      var keys := TopMatchKeys(resumeId);
      var ms := db.matches;
      var score := (k: MatchKey) => if k in ms then ms[k].similarity else 0.0;
      var top := SelectTop(keys, score, limit);
      assert forall t :: 0 <= t < |top| ==> top[t] in keys && top[t] in db.JoinedMatches(0);
      results := RowsOf(top);
      TopRows(resumeId, top, results, score);
    }

    /** The rows of the selected keys, in the selection's order, are this
        resume's rows, by decreasing score, one per job, and outscore every
        row left out. */
    lemma TopRows(resumeId: int, top: seq<MatchKey>, results: seq<MatchResult>, score: MatchKey -> real)
      requires forall k :: k in db.matches ==> score(k) == db.matches[k].similarity
      requires NoDuplicates(top) && SortedDesc(top, score)
      requires forall t :: 0 <= t < |top| ==> top[t] in TopMatchKeys(resumeId)
      requires forall k, i :: k in TopMatchKeys(resumeId) && k !in top && 0 <= i < |top| ==> score(k) <= score(top[i])
      requires |results| == |top| && forall t :: 0 <= t < |top| ==> results[t] == ResultOf(top[t])
      ensures forall i :: 0 <= i < |results| ==>
                var k := (results[i].resumeId, results[i].jobId, modelName);
                results[i].resumeId == resumeId && k in TopMatchKeys(resumeId) && results[i] == ResultOf(k)
      ensures forall i, j :: 0 <= i < j < |results| ==>
                results[i].similarity >= results[j].similarity && results[i].jobId != results[j].jobId
      ensures forall k, i ::
                (k in TopMatchKeys(resumeId) && 0 <= i < |results|
                 && (forall j :: 0 <= j < |results| ==> results[j].jobId != k.1))
                ==> db.matches[k].similarity <= results[i].similarity
    {
      forall t | 0 <= t < |top| ensures top[t] == (results[t].resumeId, results[t].jobId, modelName) {
        assert top[t] in TopMatchKeys(resumeId);
      }
      forall i, j | 0 <= i < j < |results|
        ensures results[i].similarity >= results[j].similarity && results[i].jobId != results[j].jobId
      {
        assert score(top[i]) >= score(top[j]);
        assert top[i] != top[j];
      }
      forall k, i | k in TopMatchKeys(resumeId) && 0 <= i < |results| && (forall j :: 0 <= j < |results| ==> results[j].jobId != k.1)
        ensures db.matches[k].similarity <= results[i].similarity
      {
        assert score(k) <= score(top[i]);
      }
    }
  }

  /** IntelligenceEngine: a pipeline and a matcher sharing one store and
      one model name. */
  class IntelligenceEngine {
    const pipeline: EmbeddingPipeline
    const matcher: SimilarityMatcher

    ghost predicate Valid()
      reads this, pipeline, pipeline.db, pipeline.client, matcher
    {
      pipeline.Valid() && matcher.db == pipeline.db && matcher.modelName == pipeline.modelName
    }

    constructor (pipeline: EmbeddingPipeline)
      requires pipeline.Valid()
      ensures this.pipeline == pipeline && fresh(matcher)
      ensures Valid()
    {
      this.pipeline := pipeline;
      matcher := new SimilarityMatcher(pipeline.db, pipeline.modelName);
    }

    /** generate_all_embeddings: jobs first, then resumes, both over every
        row; each side's table changes only by its own run. */
    method GenerateAllEmbeddings(force: bool)
      returns (jobCount: nat, resumeCount: nat,
               ghost jobsFetched: seq<int>, ghost jobsDone: seq<int>,
               ghost resumesFetched: seq<int>, ghost resumesDone: seq<int>)
      requires Valid()
      modifies pipeline.db, pipeline.client
      ensures Valid()
      ensures var db := pipeline.db; var c := pipeline.client;
        (forall id :: id in jobsFetched <==> id in old(db.ListedJobs()))
        && (forall id :: id in resumesFetched <==> id in old(db.resumes))
        && jobsDone == Pending(jobsFetched, old(db.jobEmb), pipeline.modelName, force)
        && resumesDone == Pending(resumesFetched, old(db.resumeEmb), pipeline.modelName, force)
        && jobCount == Successes(c.server, c.model, JobTexts(old(db.jobs)), jobsDone)
        && resumeCount == Successes(c.server, c.model, ResumeTexts(old(db.resumes)), resumesDone)
        && db.jobEmb == SaveAll(old(db.jobEmb), pipeline.modelName, Vectors(c.server, c.model, JobTexts(old(db.jobs)), jobsDone))
        && db.resumeEmb == SaveAll(old(db.resumeEmb), pipeline.modelName,
                                   Vectors(c.server, c.model, ResumeTexts(old(db.resumes)), resumesDone))
        && db.Entities() == old(db.Entities()) && db.matches == old(db.matches)
    {
      jobCount, jobsFetched, jobsDone := pipeline.GenerateJobEmbeddings([], force);
      resumeCount, resumesFetched, resumesDone := pipeline.GenerateResumeEmbeddings([], force);
    }

    /** run_matching: the batch with saving on. */
    method RunMatching(resumeIds: seq<int>, jobIds: seq<int>, cosine: (Vector, Vector) -> real)
      returns (results: seq<MatchResult>, ghost rrows: seq<ResumeRow>, ghost jrows: seq<JobRow>)
      requires Valid()
      modifies pipeline.db
      ensures Valid()
      ensures old(matcher.Selected(resumeIds, jobIds, rrows, jrows))
      ensures results == SortDesc(Pairs(rrows, jrows, cosine), Score)
      ensures pipeline.db.matches == SavePairs(old(pipeline.db.matches), rrows, jrows, pipeline.modelName, cosine)
      ensures NoDuplicates(ResumeIds(rrows)) && NoDuplicates(JobIds(jrows))
      ensures pipeline.db.Entities() == old(pipeline.db.Entities()) && pipeline.db.Counters() == old(pipeline.db.Counters())
      ensures pipeline.db.jobEmb == old(pipeline.db.jobEmb) && pipeline.db.resumeEmb == old(pipeline.db.resumeEmb)
    {
      results, rrows, jrows := matcher.CalculateSimilarityBatch(resumeIds, jobIds, true, cosine);
    }

    /** get_resume_matches: the matcher's top matches for the resume. */
    method GetResumeMatches(resumeId: int, limit: int) returns (results: seq<MatchResult>)
      requires Valid()
      ensures |results| == if 0 <= limit < |matcher.TopMatchKeys(resumeId)| then limit else |matcher.TopMatchKeys(resumeId)|
      ensures forall i :: 0 <= i < |results| ==>
                var k := (results[i].resumeId, results[i].jobId, matcher.modelName);
                results[i].resumeId == resumeId && k in matcher.TopMatchKeys(resumeId) && results[i] == matcher.ResultOf(k)
      ensures forall i, j :: 0 <= i < j < |results| ==>
                results[i].similarity >= results[j].similarity && results[i].jobId != results[j].jobId
      ensures forall k, i ::
                (k in matcher.TopMatchKeys(resumeId) && 0 <= i < |results|
                 && (forall j :: 0 <= j < |results| ==> results[j].jobId != k.1))
                ==> matcher.db.matches[k].similarity <= results[i].similarity
    {
      results := matcher.GetTopMatches(resumeId, limit);
    }
  }
}
