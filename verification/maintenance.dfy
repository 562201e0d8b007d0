// Model of soupboss/maintenance.py: the DataManager's clearing, reset,
// integrity check and orphan cleanup over the store.

module Maintenance {
  import opened Wrappers
  import opened Store
  import Collections

  /** Job embeddings whose job row no longer exists. */
  function OrphanEmbeddings(emb: map<EmbKey, Vector>, owners: set<int>): (r: set<EmbKey>)
    ensures forall k :: k in r <==> k in emb && k.0 !in owners
  {
    set k | k in emb && k.0 !in owners
  }

  /** Match results that reference a missing job or a missing resume. */
  function OrphanMatches(ms: map<MatchKey, MatchScore>, jobIds: set<int>, resumeIds: set<int>): (r: set<MatchKey>)
    ensures forall k :: k in r <==> k in ms && (k.1 !in jobIds || k.0 !in resumeIds)
  {
    set k | k in ms && (k.1 !in jobIds || k.0 !in resumeIds)
  }

  /** The match results whose job and resume both exist. */
  function KeepLinked(ms: map<MatchKey, MatchScore>, jobIds: set<int>, resumeIds: set<int>): (r: map<MatchKey, MatchScore>)
    ensures OrphanMatches(r, jobIds, resumeIds) == {}
    ensures r.Keys == ms.Keys - OrphanMatches(ms, jobIds, resumeIds)
    ensures forall k :: k in r ==> r[k] == ms[k]
  {
    map k | k in ms && k.1 in jobIds && k.0 in resumeIds :: ms[k]
  }

  /** Embeddings kept by the orphan cleanup lose exactly the orphans. */
  lemma KeepOwnersDropsOrphans(emb: map<EmbKey, Vector>, owners: set<int>)
    ensures KeepOwners(emb, owners).Keys == emb.Keys - OrphanEmbeddings(emb, owners)
    ensures OrphanEmbeddings(KeepOwners(emb, owners), owners) == {}
    ensures forall k :: k in KeepOwners(emb, owners) ==> KeepOwners(emb, owners)[k] == emb[k]
  {
  }

  /** A DELETE's rowcount: removing a subset of the keys shrinks the table
      by the size of that subset. */
  lemma DeletedRows<K, V>(m: map<K, V>, kept: map<K, V>, dropped: set<K>)
    requires dropped <= m.Keys && kept.Keys == m.Keys - dropped
    ensures |kept| == |m| - |dropped|
  {
    assert m.Keys == kept.Keys + dropped;
    assert kept.Keys * dropped == {};
    assert |kept.Keys + dropped| == |kept.Keys| + |dropped|;
  }

  /** One finding of validate_data_integrity. */
  datatype Issue =
    | IntegrityFailed
    | OrphanJobEmbeddings(count: nat)
    | OrphanResumeEmbeddings(count: nat)
    | OrphanMatchResults(count: nat)

  /** The issue list in the order the checks run; a count of zero adds
      nothing. integrityOk is the answer of PRAGMA integrity_check. */
  function Issues(integrityOk: bool, jobOrphans: nat, resumeOrphans: nat, matchOrphans: nat): (r: seq<Issue>)
    ensures r == [] <==> integrityOk && jobOrphans == 0 && resumeOrphans == 0 && matchOrphans == 0
    ensures (IntegrityFailed in r) <==> !integrityOk
    ensures jobOrphans > 0 <==> OrphanJobEmbeddings(jobOrphans) in r
    ensures resumeOrphans > 0 <==> OrphanResumeEmbeddings(resumeOrphans) in r
    ensures matchOrphans > 0 <==> OrphanMatchResults(matchOrphans) in r
    ensures |r| <= 4
  {
    (if integrityOk then [] else [IntegrityFailed])
    + (if jobOrphans > 0 then [OrphanJobEmbeddings(jobOrphans)] else [])
    + (if resumeOrphans > 0 then [OrphanResumeEmbeddings(resumeOrphans)] else [])
    + (if matchOrphans > 0 then [OrphanMatchResults(matchOrphans)] else [])
  }

  /** How many rows each DELETE of cleanup_orphaned_data removed. */
  datatype Cleaned = Cleaned(jobEmbeddings: nat, resumeEmbeddings: nat, matches: nat, total: nat)

  class DataManager {
    const db: SoupBossDb

    constructor (db: SoupBossDb)
      ensures this.db == db
    {
      this.db := db;
    }

    /** clear_jobs_data: when confirmation is asked for and declined,
        returns false and nothing changes; otherwise deletes match results,
        job embeddings and jobs. */
    method ClearJobsData(confirm: bool, answer: bool) returns (done: bool)
      requires db.Valid()
      modifies db
      ensures db.Valid()
      ensures done <==> !confirm || answer
      ensures !done ==> db.Entities() == old(db.Entities()) && db.jobEmb == old(db.jobEmb)
                        && db.resumeEmb == old(db.resumeEmb) && db.matches == old(db.matches)
      ensures done ==> db.matches == map[] && db.jobEmb == map[] && db.jobs == map[]
      ensures db.companies == old(db.companies) && db.resumes == old(db.resumes) && db.resumeEmb == old(db.resumeEmb)
      ensures db.Counters() == old(db.Counters())
    {
      if confirm && !answer {
        return false;
      }
      db.matches := map[];
      db.jobEmb := map[];
      db.jobs := map[];
      done := true;
    }

    /** clear_resumes_data: match results, resume embeddings and resumes. */
    method ClearResumesData(confirm: bool, answer: bool) returns (done: bool)
      requires db.Valid()
      modifies db
      ensures db.Valid()
      ensures done <==> !confirm || answer
      ensures !done ==> db.Entities() == old(db.Entities()) && db.jobEmb == old(db.jobEmb)
                        && db.resumeEmb == old(db.resumeEmb) && db.matches == old(db.matches)
      ensures done ==> db.matches == map[] && db.resumeEmb == map[] && db.resumes == map[]
      ensures db.companies == old(db.companies) && db.jobs == old(db.jobs) && db.jobEmb == old(db.jobEmb)
      ensures db.Counters() == old(db.Counters())
    {
      if confirm && !answer {
        return false;
      }
      db.matches := map[];
      db.resumeEmb := map[];
      db.resumes := map[];
      done := true;
    }

    /** clear_embeddings_cache: match results and both embedding tables;
        jobs and resumes remain. */
    method ClearEmbeddingsCache(confirm: bool, answer: bool) returns (done: bool)
      requires db.Valid()
      modifies db
      ensures db.Valid()
      ensures done <==> !confirm || answer
      ensures !done ==> db.jobEmb == old(db.jobEmb) && db.resumeEmb == old(db.resumeEmb) && db.matches == old(db.matches)
      ensures done ==> db.matches == map[] && db.jobEmb == map[] && db.resumeEmb == map[]
      ensures db.Entities() == old(db.Entities()) && db.Counters() == old(db.Counters())
    {
      if confirm && !answer {
        return false;
      }
      db.matches := map[];
      db.jobEmb := map[];
      db.resumeEmb := map[];
      done := true;
    }

    /** clear_match_results: only the match results. */
    method ClearMatchResults(confirm: bool, answer: bool) returns (done: bool)
      requires db.Valid()
      modifies db
      ensures db.Valid()
      ensures done <==> !confirm || answer
      ensures db.matches == if done then map[] else old(db.matches)
      ensures db.Entities() == old(db.Entities()) && db.Counters() == old(db.Counters())
      ensures db.jobEmb == old(db.jobEmb) && db.resumeEmb == old(db.resumeEmb)
    {
      if confirm && !answer {
        return false;
      }
      db.matches := map[];
      done := true;
    }

    /** reset_system: all six tables and the AUTOINCREMENT counters
        (DELETE FROM sqlite_sequence), so new ids start again at 1. */
    method ResetSystem(confirm: bool, answer: bool) returns (done: bool)
      requires db.Valid()
      modifies db
      ensures db.Valid()
      ensures done <==> !confirm || answer
      ensures !done ==> db.Entities() == old(db.Entities()) && db.Counters() == old(db.Counters())
                        && db.jobEmb == old(db.jobEmb) && db.resumeEmb == old(db.resumeEmb) && db.matches == old(db.matches)
      ensures done ==> db.companies == map[] && db.jobs == map[] && db.resumes == map[]
                       && db.jobEmb == map[] && db.resumeEmb == map[] && db.matches == map[]
                       && db.Counters() == (0, 0, 0)
    {
      if confirm && !answer {
        return false;
      }
      db.matches := map[];
      db.resumeEmb := map[];
      db.jobEmb := map[];
      db.resumes := map[];
      db.jobs := map[];
      db.companies := map[];
      db.companySeq, db.jobSeq, db.resumeSeq := 0, 0, 0;
      done := true;
    }

    /** The three orphan counts validate_data_integrity queries. */
    function OrphanCounts(): (r: (nat, nat, nat))
      reads db
      ensures r.0 == |OrphanEmbeddings(db.jobEmb, db.jobs.Keys)|
      ensures r.1 == |OrphanEmbeddings(db.resumeEmb, db.resumes.Keys)|
      ensures r.2 == |OrphanMatches(db.matches, db.jobs.Keys, db.resumes.Keys)|
    {
      (|OrphanEmbeddings(db.jobEmb, db.jobs.Keys)|,
       |OrphanEmbeddings(db.resumeEmb, db.resumes.Keys)|,
       |OrphanMatches(db.matches, db.jobs.Keys, db.resumes.Keys)|)
    }

    /** validate_data_integrity: true iff no issue was found, that is the
        integrity check passed and no embedding or match result refers to
        a missing job or resume. */
    method ValidateDataIntegrity(integrityOk: bool) returns (ok: bool, issues: seq<Issue>)
      ensures ok <==> issues == []
      ensures ok <==> integrityOk
                      && (forall k :: k in db.jobEmb ==> k.0 in db.jobs)
                      && (forall k :: k in db.resumeEmb ==> k.0 in db.resumes)
                      && (forall k :: k in db.matches ==> k.1 in db.jobs && k.0 in db.resumes)
      ensures |issues| <= 4
    {
      var counts := OrphanCounts();
      issues := Issues(integrityOk, counts.0, counts.1, counts.2);
      ok := issues == [];
      if ok {
        assert OrphanEmbeddings(db.jobEmb, db.jobs.Keys) == {};
        assert OrphanEmbeddings(db.resumeEmb, db.resumes.Keys) == {};
        assert OrphanMatches(db.matches, db.jobs.Keys, db.resumes.Keys) == {};
      } else if integrityOk {
        if counts.0 > 0 {
          var k := Collections.Pick(OrphanEmbeddings(db.jobEmb, db.jobs.Keys));
        } else if counts.1 > 0 {
          var k := Collections.Pick(OrphanEmbeddings(db.resumeEmb, db.resumes.Keys));
        } else {
          var k := Collections.Pick(OrphanMatches(db.matches, db.jobs.Keys, db.resumes.Keys));
        }
      }
    }

    /** DELETE FROM job_embeddings WHERE job_id NOT IN (SELECT id FROM
        jobs), with its rowcount. */
    method DeleteOrphanJobEmbeddings() returns (n: nat)
      modifies db
      ensures n == |OrphanEmbeddings(old(db.jobEmb), db.jobs.Keys)|
      ensures db.jobEmb == KeepOwners(old(db.jobEmb), db.jobs.Keys)
      ensures |db.jobEmb| + n == |old(db.jobEmb)|
      ensures OrphanEmbeddings(db.jobEmb, db.jobs.Keys) == {}
      ensures db.resumeEmb == old(db.resumeEmb) && db.matches == old(db.matches)
      ensures db.Entities() == old(db.Entities()) && db.Counters() == old(db.Counters())
    {
      var orphans := OrphanEmbeddings(db.jobEmb, db.jobs.Keys);
      KeepOwnersDropsOrphans(db.jobEmb, db.jobs.Keys);
      DeletedRows(db.jobEmb, KeepOwners(db.jobEmb, db.jobs.Keys), orphans);
      n := |orphans|;
      db.jobEmb := KeepOwners(db.jobEmb, db.jobs.Keys);
    }

    /** DELETE FROM resume_embeddings WHERE resume_id NOT IN (SELECT id
        FROM resumes), with its rowcount. */
    method DeleteOrphanResumeEmbeddings() returns (n: nat)
      modifies db
      ensures n == |OrphanEmbeddings(old(db.resumeEmb), db.resumes.Keys)|
      ensures db.resumeEmb == KeepOwners(old(db.resumeEmb), db.resumes.Keys)
      ensures |db.resumeEmb| + n == |old(db.resumeEmb)|
      ensures OrphanEmbeddings(db.resumeEmb, db.resumes.Keys) == {}
      ensures db.jobEmb == old(db.jobEmb) && db.matches == old(db.matches)
      ensures db.Entities() == old(db.Entities()) && db.Counters() == old(db.Counters())
    {
      var orphans := OrphanEmbeddings(db.resumeEmb, db.resumes.Keys);
      KeepOwnersDropsOrphans(db.resumeEmb, db.resumes.Keys);
      DeletedRows(db.resumeEmb, KeepOwners(db.resumeEmb, db.resumes.Keys), orphans);
      n := |orphans|;
      db.resumeEmb := KeepOwners(db.resumeEmb, db.resumes.Keys);
    }

    /** DELETE FROM match_results WHERE job_id NOT IN (SELECT id FROM jobs)
        OR resume_id NOT IN (SELECT id FROM resumes), with its rowcount. */
    method DeleteOrphanMatches() returns (n: nat)
      modifies db
      ensures n == |OrphanMatches(old(db.matches), db.jobs.Keys, db.resumes.Keys)|
      ensures db.matches == KeepLinked(old(db.matches), db.jobs.Keys, db.resumes.Keys)
      ensures |db.matches| + n == |old(db.matches)|
      ensures OrphanMatches(db.matches, db.jobs.Keys, db.resumes.Keys) == {}
      ensures db.jobEmb == old(db.jobEmb) && db.resumeEmb == old(db.resumeEmb)
      ensures db.Entities() == old(db.Entities()) && db.Counters() == old(db.Counters())
    {
      var orphans := OrphanMatches(db.matches, db.jobs.Keys, db.resumes.Keys);
      DeletedRows(db.matches, KeepLinked(db.matches, db.jobs.Keys, db.resumes.Keys), orphans);
      n := |orphans|;
      db.matches := KeepLinked(db.matches, db.jobs.Keys, db.resumes.Keys);
    }

    /** cleanup_orphaned_data: deletes the orphaned job embeddings, resume
        embeddings and match results; each count is the DELETE's rowcount
        and the total is their sum. Afterwards no orphan is left. */
    method CleanupOrphanedData() returns (c: Cleaned)
      requires db.Valid()
      modifies db
      ensures db.Valid()
      ensures c.jobEmbeddings == |OrphanEmbeddings(old(db.jobEmb), old(db.jobs.Keys))|
      ensures c.resumeEmbeddings == |OrphanEmbeddings(old(db.resumeEmb), old(db.resumes.Keys))|
      ensures c.matches == |OrphanMatches(old(db.matches), old(db.jobs.Keys), old(db.resumes.Keys))|
      ensures c.total == c.jobEmbeddings + c.resumeEmbeddings + c.matches
      ensures db.jobEmb == KeepOwners(old(db.jobEmb), db.jobs.Keys)
      ensures db.resumeEmb == KeepOwners(old(db.resumeEmb), db.resumes.Keys)
      ensures db.matches == KeepLinked(old(db.matches), db.jobs.Keys, db.resumes.Keys)
      ensures OrphanCounts() == (0, 0, 0)
      ensures |db.jobEmb| + |db.resumeEmb| + |db.matches| + c.total
              == |old(db.jobEmb)| + |old(db.resumeEmb)| + |old(db.matches)|
      ensures db.Entities() == old(db.Entities()) && db.Counters() == old(db.Counters())
    {
      var jobs := DeleteOrphanJobEmbeddings();
      var resumes := DeleteOrphanResumeEmbeddings();
      var matches := DeleteOrphanMatches();
      c := Cleaned(jobs, resumes, matches, jobs + resumes + matches);
    }
  }

  /** Running the cleanup and then the validation (with a passing
      integrity check) reports no issue. */
  method CleanupThenValidate(m: DataManager) returns (ok: bool)
    requires m.db.Valid()
    modifies m.db
    ensures ok
  {
    var _ := m.CleanupOrphanedData();
    var issues;
    ok, issues := m.ValidateDataIntegrity(true);
  }
}
