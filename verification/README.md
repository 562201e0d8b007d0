# SoupBoss in Dafny

SoupBoss matches resumes against job postings. It ingests postings from
applicant-tracking systems (Greenhouse, Lever, SmartRecruiters) and from
Disney job files. It embeds the text of every job and resume with a
locally served embedding model and caches the vectors in SQLite. It then
scores resume/job pairs by cosine similarity and stores the scores.

This project models the core of that system and proves properties of the
model:

- the SQLite store: tables keyed as in their UNIQUE constraints, upserts,
  the clear, reset and delete operations, and the maintenance layer over
  them (orphan cleanup, integrity validation);
- the embedding client: text cleaning, the memoised readiness flag, and
  single and batch generation;
- the embedding pipeline: the job text it embeds, the
  "needs an embedding unless forced" filter, and the coverage statistics;
- the similarity matcher: all-pairs scoring with per-pair upserts, the
  stable descending sort, and the top-matches query;
- the model evaluator: candidate selection, sampled similarities, top-10
  average, diversity, coverage, and the choice of winners across models;
- configuration: defaults, the recursive merge, typed environment
  overrides, get/set/reset, and validation;
- resume file validation, naming, preview and statistics;
- ingestion: the company list, the ATS and Disney record normalisation,
  and the counting of processed and saved jobs;
- export: HTML escaping, score bands, format dispatch, default file names,
  and the resume JSON export;
- the standalone Disney file importer and the Disney Workday scraper's pure
  helpers (sanitiser, dotted paths, dedup, URL path fixing, record
  normalisation, the retry loop).

Each Python module is one Dafny module: `store.dfy` (db.py),
`maintenance.dfy`, `embeddings.dfy`, `matching.dfy`, `evaluation.dfy`
(embedding_evaluation.py), `config.dfy`, `resumes.dfy`, `ingestion.dfy`,
`export.dfy`, `disney_importer.dfy` (ref_data/disney_data_importer.py) and
`workday_scraper.dfy` (ref_data/disney_workday_scraper.py). Shared modules
model what Python gives the code for free:

- `wrappers.dfy`: Option and Result;
- `json.dfy`: JSON values and `dict.get`;
- `text.dfy`: `split`, `strip`, `lower`, `rfind`, `replace`, `str(int)`,
  `int(str)` and string ordering;
- `collections.dfy`: stable `sorted(..., reverse=True)`, order-preserving
  dedup, dict counting and top-k selection.

Classes stand where the source keeps state that it updates in place:

- `Store.SoupBossDb` holds one map per table, plus one AUTOINCREMENT
  counter per table with an integer key;
- `Embeddings.EmbeddingClient` holds the readiness cache;
- `Matching.EmbeddingPipeline`, `Matching.SimilarityMatcher`,
  `Matching.IntelligenceEngine`, `Maintenance.DataManager`,
  `Config.ConfigManager`, `Ingestion.JobIngester` and
  `Evaluation.ModelEvaluator` wrap them as in the source.

Loops in the source are `while`/`for` loops here, proved against
specification functions (`Vectors`, `Successes`, `SaveAll`, `Pairs`,
`SortDesc`, `Tally`, `Records`, `Distinct`, ...), which the lemmas then
relate to what the source promises.

Things made abstract:

- The remote embedding server is a `Server` value: the model listing (or
  its failure), whether a pull succeeds, and an embedding oracle from
  model and text to an optional vector.
- Cosine similarity in the matcher is a function parameter `cosine`. The
  evaluator's dot product and norm are the parameters `dot` and `norm`.
- Time measurements are the parameter `elapsed`.
- Environment variables are a map.
- A parsed JSON file is an `Option<Value>` (None when it cannot be read or
  parsed), and HTML-to-text conversion is a partial function `toText`.
- A file on disk is a `PathInfo` record.
- Unicode NFC normalisation is a function parameter `nfc`.
- Each remote ATS company is a `Site` value.

### Behaviour the model makes explicit

- Zero norms. The matcher divides by the norms with no guard; here it calls
  `cosine` for every pair, whatever the vectors. The evaluator returns 0.0
  when the product of the norms is 0 (`Evaluation.SampleSimilarity`).
- Coverage denominators. The pipeline's coverage counts every job or
  resume row. The evaluator's counts only rows with non-null content. So
  one embedding out of two rows reads as 50% in one and, when the other
  row has no content, as 100% in the other
  (`Evaluation.CoverageDenominatorsDiffer`). The evaluator's percentage can
  exceed 100 when embeddings exist for rows without content.
- The null-content filter. The pipeline embeds every fetched row, so a
  resume with NULL content is processed and yields no vector. The
  evaluator selects only rows whose content is not NULL
  (`Evaluation.Candidates`).
- The evaluator embeds a job's stored `content_text`, not the composed
  job text of the pipeline (`Evaluation.JobContents`).
- Two Disney location rules. `ingestion.py` accepts a list entry whose
  first comma-part is empty, while the standalone importer skips it. For
  `[", Orlando"]` one gives `""` and the other gives nothing
  (`DisneyImporter.ListLocationDiffers`). They agree whenever no accepted
  entry has an empty first part (`DisneyImporter.ListLocationAgrees`).
- The diversity query does not filter the match rows by the model being
  evaluated. It ranks, per resume, the match rows of any model whose job
  and resume both have an embedding for this model, and counts the
  distinct jobs among each resume's top ten of them.
- add_company with a name already stored under another source inserts
  nothing (the UNIQUE constraint is on the name alone). Its lookup by
  (name, source) then finds no row, which is an error
  (`Store.SoupBossDb.AddCompany`).
- Where ingestion raises. `.get` on a truthy value that is not a dict,
  `in` on a number, and slicing or iterating a truthy "jobs" value that
  is neither a list nor a string all raise in the source; a string is
  iterated character by character, and processing a character raises, so
  a string raises unless the limit slices it to "". The model returns an
  error in exactly those cases (`Ingestion.Extract`,
  `Ingestion.Department`, `Ingestion.FileJobs`,
  `Ingestion.JobIngester.ImportFromFile`),
  and ingest_from_file_list then records (0, 0) for that company
  (`Ingestion.JobIngester.IngestOrZero`).
- Where configuration raises. A configuration file that is unreadable
  for a reason other than a missing file or bad JSON, or whose top level
  is not an object, makes loading fail (`Config.LoadConfig`); a truthy
  database path that is not a string makes validation fail on `Path()`
  (`Config.ConfigManager.ValidateConfig`).
- A resume embedding that comes back None reaches `save_resume_embedding`
  only through the batch call. There the store call raises, the loop's
  `except` skips the item, and nothing is saved; the model gives the same
  outcome (`Matching.Vectors`).

## Model

| member | source | states |
|---|---|---|
| Store.SoupBossDb.constructor | soupboss/db.py:34-133 | A new database has six empty tables and all id counters at zero. |
| Store.InsertCompanyUnique | soupboss/db.py:42 | INSERT OR IGNORE into companies keeps company names unique and leaves the name present. |
| Store.InsertCompanyIdempotent | soupboss/db.py:147-158 | Inserting the same name a second time, under any source, changes nothing. |
| Store.UpsertKeepsKeysUnique | soupboss/db.py:66 | Updating the row that has the key, or inserting a key that is absent, keeps (external_id, company_id, source) unique. |
| Store.SoupBossDb.AddCompany | soupboss/db.py:147-158 | Stores the lowercased name unless the name exists; returns an id exactly when a row with that name and source exists, and the existing id when the name was already there; all other tables are unchanged. |
| Store.SoupBossDb.GetCompanies | soupboss/db.py:160-169 | Lists each company once (active ones only when asked), ordered by name. |
| Store.SoupBossDb.AddJob | soupboss/db.py:172-201 | Updates the row with the same (external_id, company_id, source) and returns its id, or inserts under the next id; only the jobs table changes. |
| Store.SoupBossDb.GetJobId | soupboss/db.py:203-211 | Finds an id exactly when a job with that key exists, and the id is that job's. |
| Store.SoupBossDb.GetJobs | soupboss/db.py:213-238 | Lists exactly the jobs whose company row exists (a plain join, whatever the company's status) matching the optional company and source filters. |
| Store.SoupBossDb.AddResume | soupboss/db.py:247-256 | Inserts the resume under a fresh id from the counter; only the resumes table changes. |
| Store.SoupBossDb.GetResumes | soupboss/db.py:258-262 | Lists every resume id exactly once. |
| Store.SoupBossDb.DeleteResume | soupboss/db.py:277-284 | Removes the resume, its embeddings of every model and its match results, and nothing else; reports whether the row existed. |
| Store.SoupBossDb.SaveJobEmbedding | soupboss/db.py:287-295 | INSERT OR REPLACE keyed by (job_id, model): the vector replaces any earlier one and is what get_job_embedding then returns. |
| Store.SoupBossDb.SaveResumeEmbedding | soupboss/db.py:297-305 | The same for (resume_id, model) and get_resume_embedding. |
| Store.SoupBossDb.SaveMatchResult | soupboss/db.py:332-341 | INSERT OR REPLACE keyed by (resume_id, job_id, model): one score per key, the last one saved. |
| Store.SoupBossDb.GetMatchResults | soupboss/db.py:343-370 | Returns min(limit, matching rows) joined rows, each key once, highest score first, and no row left out scores higher than one returned. |
| Store.SoupBossDb.ClearJobs | soupboss/db.py:373-379 | Empties match results, job embeddings and jobs; companies, resumes and resume embeddings are unchanged. |
| Store.SoupBossDb.ClearResumes | soupboss/db.py:381-387 | Empties match results, resume embeddings and resumes; the job side is unchanged. |
| Store.SoupBossDb.ClearEmbeddings | soupboss/db.py:389-395 | Empties both embedding tables and match results; jobs, resumes and companies are unchanged. |
| Store.SoupBossDb.ResetDatabase | soupboss/db.py:397-406 | Empties all six tables; the id counters are kept. |
| Maintenance.OrphanEmbeddings | soupboss/maintenance.py:322-341 | The embedding rows whose owner id is not among the existing rows. |
| Maintenance.OrphanMatches | soupboss/maintenance.py:343-349 | The match rows that reference a missing job or a missing resume. |
| Maintenance.KeepLinked | soupboss/maintenance.py:384-393 | Deleting the orphan matches leaves no orphan match and keeps every other row and its score. |
| Maintenance.KeepOwnersDropsOrphans | soupboss/maintenance.py:370-383 | Deleting orphan embeddings removes exactly the orphans and keeps every other vector. |
| Maintenance.DeletedRows | soupboss/maintenance.py:370-393 | The rowcount of a delete is the number of rows that disappear. |
| Maintenance.Issues | soupboss/maintenance.py:309-361 | The issue list is empty exactly when the integrity check passes and all three orphan counts are zero, with one issue per failing check. |
| Maintenance.DataManager.constructor | soupboss/maintenance.py:102-251 | The manager works on the given database. |
| Maintenance.DataManager.ClearJobsData | soupboss/maintenance.py:102-128 | A declined confirmation changes nothing; otherwise match results, job embeddings and jobs are emptied and resumes, resume embeddings and companies are kept. |
| Maintenance.DataManager.ClearResumesData | soupboss/maintenance.py:130-156 | A declined confirmation changes nothing; otherwise match results, resume embeddings and resumes are emptied and the job side is kept. |
| Maintenance.DataManager.ClearEmbeddingsCache | soupboss/maintenance.py:158-185 | A declined confirmation changes nothing; otherwise both embedding tables and match results are emptied and jobs and resumes are kept. |
| Maintenance.DataManager.ClearMatchResults | soupboss/maintenance.py:187-208 | Empties only match results, and only when confirmed. |
| Maintenance.DataManager.ResetSystem | soupboss/maintenance.py:210-251 | A declined confirmation changes nothing; otherwise all six tables are emptied and the id sequences restart at zero. |
| Maintenance.DataManager.OrphanCounts | soupboss/maintenance.py:322-349 | The three counts validate_data_integrity checks are the sizes of the three orphan sets. |
| Maintenance.DataManager.ValidateDataIntegrity | soupboss/maintenance.py:309-361 | Returns True exactly when the issue list is empty, which is exactly when the integrity check passes and every embedding and match row refers to existing rows. |
| Maintenance.DataManager.DeleteOrphanJobEmbeddings | soupboss/maintenance.py:370-374 | Removes exactly the job embeddings whose job is gone, keeps every other vector, and returns the number removed; nothing else changes. |
| Maintenance.DataManager.DeleteOrphanResumeEmbeddings | soupboss/maintenance.py:377-381 | The same for resume embeddings whose resume is gone. |
| Maintenance.DataManager.DeleteOrphanMatches | soupboss/maintenance.py:384-389 | Removes exactly the match rows whose job or resume is gone, keeps the others with their scores, and returns the number removed. |
| Maintenance.DataManager.CleanupOrphanedData | soupboss/maintenance.py:363-409 | Deletes exactly the orphan embeddings and orphan matches, reports each count and their sum as the total, and leaves all three orphan counts at zero. |
| Maintenance.CleanupThenValidate | soupboss/maintenance.py:309-409 | After cleanup, validation finds no orphan rows (given a passing integrity check). |
| Embeddings.CleanText | soupboss/embeddings.py:138-153 | The cleaned text is whitespace-collapsed, at most 30003 characters long, and empty for None or "". |
| Embeddings.CleanTextContents | soupboss/embeddings.py:144-151 | Text that fits keeps exactly the words of the input; longer text is its first 30000 collapsed characters followed by "...". |
| Embeddings.TruncatedCollapsed | soupboss/embeddings.py:149-151 | Truncating a collapsed text and appending "..." keeps it collapsed. |
| Embeddings.CleanTextIdempotent | soupboss/embeddings.py:138-153 | Cleaning an already cleaned text returns it unchanged. |
| Embeddings.CollapsedBlank | soupboss/embeddings.py:97 | A cleaned text is blank after strip exactly when it is empty. |
| Embeddings.BlankTextHasNoEmbedding | soupboss/embeddings.py:91-100 | A whitespace-only text never gets an embedding. |
| Embeddings.NotReadyHasNoEmbedding | soupboss/embeddings.py:91-93 | When the model is not ready every text gets None. |
| Embeddings.EmbeddingsOf | soupboss/embeddings.py:115-136 | The batch result has one slot per input, in input order, each the single-text result. |
| Embeddings.ReadyAfter | soupboss/embeddings.py:49-87 | A cached readiness value is returned as is; otherwise readiness is true exactly when the model or "model:latest" is listed or a pull succeeds, and a failed listing gives false. |
| Embeddings.EmbeddingClient.constructor | soupboss/embeddings.py:20-37 | A new client has no cached readiness and has not contacted the server. |
| Embeddings.EmbeddingClient.EnsureModelReady | soupboss/embeddings.py:49-87 | The first call asks the server once and caches the answer; every later call returns the cached value without asking again. |
| Embeddings.EmbeddingClient.GenerateEmbedding | soupboss/embeddings.py:89-113 | Returns None when the model is not ready, the cleaned text is blank, or the server gives no (or an empty) vector, and the server's vector otherwise; it never fails. |
| Embeddings.EmbeddingClient.GenerateEmbeddingsBatch | soupboss/embeddings.py:115-136 | Same length and order as the input, each slot the single-text result; all None when the model is not ready. |
| Embeddings.EmbeddingClient.EmbedEach | soupboss/embeddings.py:127-134 | The per-text loop of the batch call: each slot is that text's result. |
| Matching.JobBody | soupboss/matching.py:207-212 | The body is content_text, else content_html; a body over 8000 characters becomes its first 8000 followed by "..."; None when both are empty. |
| Matching.JobTextParts | soupboss/matching.py:189-214 | The non-empty parts in order: "Job Title: t" and t when the title is non-empty, then department and location when present, then the body last. |
| Matching.JobTextShape | soupboss/matching.py:189-214 | The joined job text starts with "Job Title: t", ends with the body, and is empty only when the job has nothing to say. |
| Matching.Present | soupboss/matching.py:65-72 | The requested ids that have a row, in request order. |
| Matching.FetchPresent | soupboss/matching.py:65-72 | The fetch loop over requested ids computes exactly that. |
| Matching.Pending | soupboss/matching.py:81-88 | Without force, the fetched ids lacking an embedding for the pipeline's model; with force, all of them. |
| Matching.FilterPending | soupboss/matching.py:81-88 | The filtering loop computes exactly that. |
| Matching.ForceProcessesAll | soupboss/matching.py:83 | A forced run processes every fetched item. |
| Matching.RerunFindsNothing | soupboss/matching.py:81-88 | After a run whose every processed item got a vector, an unforced rerun over the same or fewer items finds nothing to do. |
| Matching.Vectors | soupboss/matching.py:97-117 | The vector each processed id obtains, for exactly the ids whose text gets an embedding. |
| Matching.Successes | soupboss/matching.py:92-120 | The number of processed items that got a vector, at most the number processed. |
| Matching.SaveAll | soupboss/matching.py:112 | Saving the vectors replaces the model's row for each id that got one and keeps every other row. |
| Matching.CoveragePercent | soupboss/matching.py:229-258 | Coverage never divides by zero, is 0 with no embeddings, is at most 100 when rows outnumber embeddings, and is 100 when every row has one. |
| Matching.CoverageWithoutOrphans | soupboss/matching.py:229-258 | Without orphan embeddings the model's embedding count is at most the row count, so coverage is at most 100. |
| Matching.EmbeddingPipeline.constructor | soupboss/matching.py:39-51 | The pipeline uses the given store, client and model name. |
| Matching.NewPipeline | soupboss/matching.py:39-51 | A pipeline is created exactly when the model is available; creation fails otherwise. |
| Matching.EmbeddingPipeline.EmbedText | soupboss/matching.py:103-109 | One text through the batch call gives that text's embedding result. |
| Matching.EmbeddingPipeline.GenerateJobEmbeddings | soupboss/matching.py:53-120 | Fetches the requested (or all listed) jobs, processes the pending ones, stores a vector for each success and nothing else, and returns the number of successes. |
| Matching.EmbeddingPipeline.SaveJobVector | soupboss/matching.py:97-117 | One loop step keeps the invariant: stored rows and count reflect exactly the items done so far. |
| Matching.EmbeddingPipeline.SaveJobVectors | soupboss/matching.py:92-120 | The loop stores a vector for each processed job that gets one and counts those successes. |
| Matching.EmbeddingPipeline.GenerateResumeEmbeddings | soupboss/matching.py:122-187 | The same for resumes, embedding each resume's content_text. |
| Matching.EmbeddingPipeline.SaveResumeVector | soupboss/matching.py:164-184 | One step of the resume loop keeps the stored rows and count in step with the items done. |
| Matching.EmbeddingPipeline.SaveResumeVectors | soupboss/matching.py:159-187 | The resume loop stores a vector per success and counts them. |
| Matching.EmbeddingPipeline.GetEmbeddingStats | soupboss/matching.py:224-260 | Totals count every row, the counts with embeddings count the model's rows, and each percentage is CoveragePercent of the two. |
| Matching.RowsFor | soupboss/matching.py:307-325 | One resume against each job, in job order. |
| Matching.PairsLength | soupboss/matching.py:306-325 | The nested loops yield resumes times jobs results. |
| Matching.PairsCover | soupboss/matching.py:306-325 | Every (resume, job) pair has its result. |
| Matching.PairsOnly | soupboss/matching.py:306-325 | Every result is the result of some (resume, job) pair. |
| Matching.PairsComplete | soupboss/matching.py:306-325 | Exactly one result per pair: the count, coverage and nothing else. |
| Matching.SaveRowContents | soupboss/matching.py:328-331 | Saving one resume's row stores its score against each job and keeps every other match row. |
| Matching.SavePairsContents | soupboss/matching.py:328-331 | After all pairs are saved, each pair's score is stored for the model and every other match row is kept. |
| Matching.SavePairsCovers | soupboss/matching.py:328-331 | Every pair's score is stored. |
| Matching.SavePairsOnlyPairs | soupboss/matching.py:328-331 | Saving adds no row outside the pairs. |
| Matching.SavePairsKeepsOthers | soupboss/matching.py:328-331 | Rows of other pairs or other models are unchanged. |
| Matching.SavePairsNoJobs | soupboss/matching.py:295-297 | With no jobs nothing is saved. |
| Matching.SimilarityMatcher.constructor | soupboss/matching.py:266-271 | The matcher uses the given store and model name. |
| Matching.SimilarityMatcher.ResumesWithEmbeddings | soupboss/matching.py:383-414 | Exactly the requested (or all) resumes that have an embedding for the model, each once, with that embedding. |
| Matching.SimilarityMatcher.JobsWithEmbeddings | soupboss/matching.py:416-449 | Exactly the requested (or all) jobs with a company and an embedding for the model, each once, with that embedding. |
| Matching.SimilarityMatcher.ScoreRow | soupboss/matching.py:307-331 | The inner loop yields one resume's results in job order and, when saving, upserts each pair. |
| Matching.SimilarityMatcher.ScoreAll | soupboss/matching.py:306-331 | The nested loops yield all pairs, resume-major, and upsert each one when saving. |
| Matching.SimilarityMatcher.ScoreBatch | soupboss/matching.py:291-331 | With no resume or no job nothing is computed or saved; otherwise all pairs are scored, resume-major, and upserted when saving. |
| Matching.SimilarityMatcher.CalculateSimilarityBatch | soupboss/matching.py:273-338 | Scores exactly the selected resumes and jobs (`Selected`, in the store as it was), returns every pair's score stably sorted highest first (ties keep computation order), and when asked stores each pair's score for the model. |
| Matching.SimilarityMatcher.ResultOf | soupboss/matching.py:364-374 | A joined match row becomes a result with its ids and score. |
| Matching.SimilarityMatcher.RowsOf | soupboss/matching.py:362-375 | The rows are converted one for one, in order. |
| Matching.SimilarityMatcher.GetTopMatches | soupboss/matching.py:340-377 | At most `limit` rows, all for the resume and model, each job once, highest score first, no omitted row scoring higher; the store is not changed. |
| Matching.IntelligenceEngine.constructor | soupboss/matching.py:466-474 | The engine wraps a pipeline and a fresh matcher. |
| Matching.IntelligenceEngine.GenerateAllEmbeddings | soupboss/matching.py:476-480 | Runs the job pass and then the resume pass over all rows, with the counts and stored vectors of each. |
| Matching.IntelligenceEngine.RunMatching | soupboss/matching.py:482-489 | Scores every pair of the selected resumes and jobs for the pipeline's model, returns them highest first and stores each pair's score, changing no entity, counter or embedding. |
| Matching.IntelligenceEngine.GetResumeMatches | soupboss/matching.py:491-493 | At most `limit` rows of the resume for the pipeline's model, each job once, highest first, no omitted row scoring higher; the store is not changed. |
| Evaluation.JobContents | soupboss/embedding_evaluation.py:104-113 | The evaluator embeds each job's stored content_text. |
| Evaluation.CandidatesAfterSave | soupboss/embedding_evaluation.py:103-126 | After a run, the unforced selection is the earlier one minus the rows that got a vector. |
| Evaluation.RerunSelectsNothing | soupboss/embedding_evaluation.py:103-126 | When every selected row got a vector, an unforced rerun selects nothing. |
| Evaluation.Durations | soupboss/embedding_evaluation.py:141-162 | One timing sample per processed item, in order, whether or not it got a vector. |
| Evaluation.SumBounds | soupboss/embedding_evaluation.py:207 | A sum of n values in [lo, hi] lies in [n·lo, n·hi]. |
| Evaluation.MeanBounds | soupboss/embedding_evaluation.py:207 | The mean of values in [lo, hi] lies in [lo, hi]. |
| Evaluation.Top10Avg | soupboss/embedding_evaluation.py:207 | The top-10 average is 0.0 for no scores. |
| Evaluation.Top10AvgBounds | soupboss/embedding_evaluation.py:207 | The top-10 average lies within the scores' bounds. |
| Evaluation.Top10AvgOfSorted | soupboss/embedding_evaluation.py:207 | On descending scores the average is at most the best score and at least every score after the tenth. |
| Evaluation.SampleSimilarity | soupboss/embedding_evaluation.py:278-281 | 0.0 when the product of the norms is 0, otherwise the dot product divided by that product. |
| Evaluation.DiversityPct | soupboss/embedding_evaluation.py:316 | Non-negative, 0 without distinct jobs, and at most 100 when the distinct jobs are no more than the embedded ones. |
| Evaluation.CoveragePct | soupboss/embedding_evaluation.py:220-221 | 0 for an empty denominator, at most 100 when embeddings are no more than rows with content, 100 when equal. |
| Evaluation.ModelCoverage | soupboss/embedding_evaluation.py:220-222 | The average of the two percentages, at most 100 when each is, and 0 when both denominators are empty. |
| Evaluation.CoverageDenominatorsDiffer | soupboss/embedding_evaluation.py:214-222 | The same single embedding reads 50% in the pipeline (all rows) and 100% in the evaluator (rows with content). |
| Evaluation.TopTen | soupboss/embedding_evaluation.py:294-305 | One resume's rows ranked at most tenth: min(10, rows) distinct rows of the resume, none left out scoring above one kept, and all of them when there are ten or fewer. |
| Evaluation.JobsOfAdd | soupboss/embedding_evaluation.py:294-306 | The resumes' chosen rows contribute their jobs to the distinct set one resume at a time. |
| Evaluation.SmallResumesCounted | soupboss/embedding_evaluation.py:294-316 | Every job of a resume with at most ten rows is counted. |
| Evaluation.CountedJobsHaveRows | soupboss/embedding_evaluation.py:294-316 | Every counted job comes from a match row. |
| Evaluation.OwnersCard | soupboss/db.py:93 | A model's embedding rows have distinct owners, one per row. |
| Evaluation.ArgMax | soupboss/embedding_evaluation.py:343-344 | max(key=...) picks the first element with the largest key. |
| Evaluation.ArgMin | soupboss/embedding_evaluation.py:345 | min(key=...) picks the first element with the smallest key. |
| Evaluation.Timed | soupboss/embedding_evaluation.py:358-361 | The evaluations that measured a positive time. |
| Evaluation.Scores | soupboss/embedding_evaluation.py:351-355 | The top-10 scores of the evaluations, in order. |
| Evaluation.Times | soupboss/embedding_evaluation.py:358-360 | The average times of the evaluations, in order. |
| Evaluation.BestName | soupboss/embedding_evaluation.py:343-344 | The name of the first evaluation with the highest key. |
| Evaluation.FastestName | soupboss/embedding_evaluation.py:345 | The name of the first evaluation with the lowest key. |
| Evaluation.ScoreRange | soupboss/embedding_evaluation.py:351-355 | The minimum and maximum top-10 scores, both attained. |
| Evaluation.SpeedRange | soupboss/embedding_evaluation.py:357-361 | Present exactly when some evaluation timed something, and then bounds every positive time. |
| Evaluation.Compare | soupboss/embedding_evaluation.py:339-370 | Winners are chosen independently (max score, max diversity, min time, first wins ties) along with the score and speed ranges. |
| Evaluation.ModelsToCompare | soupboss/embedding_evaluation.py:322-323 | An empty request means all available models. |
| Evaluation.ReadyModels | soupboss/embedding_evaluation.py:330-337 | Exactly the requested models that are available, in order; the others are skipped. |
| Evaluation.Names | soupboss/embedding_evaluation.py:330-333 | The model name of each evaluation, in order. |
| Evaluation.SampleSize | soupboss/embedding_evaluation.py:271-286 | Five resumes with twenty scores each make at most 100 scores. |
| Evaluation.RowScores | soupboss/embedding_evaluation.py:274-281 | One score per drawn job, in order. |
| Evaluation.BestTwentyHighest | soupboss/embedding_evaluation.py:284-285 | The kept scores are min(20, n) of the row's scores, sorted descending, and none left out is above one kept. |
| Evaluation.SampleLength | soupboss/embedding_evaluation.py:270-286 | Each drawn resume adds min(20, jobs) scores. |
| Evaluation.SampleWithin | soupboss/embedding_evaluation.py:270-286 | Every sampled score is one of its resume's row scores. |
| Evaluation.ModelEvaluator.DrawIsSample | soupboss/embedding_evaluation.py:238-289 | The first five resumes and first 100 jobs, scored and sorted, make a sample. |
| Evaluation.ModelEvaluator.EmptyDrawIsSample | soupboss/embedding_evaluation.py:251-267 | With no embedded resume or no embedded job the sample is empty. |
| Evaluation.ModelEvaluator.constructor | soupboss/embedding_evaluation.py:58-60 | The evaluator keeps the given server, model list and numeric functions; its store stands for the default database every evaluation opens. |
| Evaluation.ModelEvaluator.ResumeTopScores | soupboss/embedding_evaluation.py:274-286 | One sampled resume's scores against the sampled jobs, sorted, of which the best min(20, jobs) are kept. |
| Evaluation.ModelEvaluator.ScoreSample | soupboss/embedding_evaluation.py:270-286 | The best twenty (or fewer) scores of each sampled resume, one resume after the other. |
| Evaluation.ModelEvaluator.SampleSimilarities | soupboss/embedding_evaluation.py:238-289 | At most five resumes and 100 jobs drawn, the best min(20, jobs) scores of each resume, all sorted descending, every score a pair's similarity; empty when there are no resumes or no jobs. |
| Evaluation.ModelEvaluator.CalculateDiversity | soupboss/embedding_evaluation.py:291-317 | The distinct jobs among each resume's top ten rows, over max(1, the model's embedded jobs) times 100, between 0 and 100. |
| Evaluation.ModelEvaluator.PickedAreEmbedded | soupboss/embedding_evaluation.py:294-316 | The counted jobs are no more than the model's embedded jobs, which keeps diversity at most 100. |
| Evaluation.ModelEvaluator.EmbeddingDimension | soupboss/embedding_evaluation.py:194-202 | 0 with no job embedding for the model, otherwise the length of one of them. |
| Evaluation.ModelEvaluator.CalculateModelMetrics | soupboss/embedding_evaluation.py:181-236 | The model's embedded job and resume counts, the dimension of one of its job vectors, the top-10 average of the sample, the diversity, the coverage and int(diversity × jobs / 100), with the time left at zero for the caller. |
| Evaluation.ModelEvaluator.Measure | soupboss/embedding_evaluation.py:194-211 | The dimension of one of the model's job vectors (0 without one), a sample of each resume's best twenty scores, and the diversity of the top-ten rows, each as its own operation promises. |
| Evaluation.ModelEvaluator.MetricsOfHold | soupboss/embedding_evaluation.py:181-236 | Measurements that meet their contracts make an evaluation whose every field is what the source reports. |
| Evaluation.ModelEvaluator.EmbedJob | soupboss/embedding_evaluation.py:141-153 | One job step records its time and stores its vector only when there is one. |
| Evaluation.ModelEvaluator.SaveJobVector | soupboss/embedding_evaluation.py:149-151 | A None embedding is not stored; a vector replaces the row. |
| Evaluation.ModelEvaluator.EmbedResume | soupboss/embedding_evaluation.py:156-168 | One resume step records its time and stores its vector only when there is one. |
| Evaluation.ModelEvaluator.SaveResumeVector | soupboss/embedding_evaluation.py:164-166 | A None embedding is not stored; a vector replaces the row. |
| Evaluation.ModelEvaluator.EmbedOne | soupboss/embedding_evaluation.py:145 | One text's embedding through a ready client. |
| Evaluation.ModelEvaluator.EmbedJobs | soupboss/embedding_evaluation.py:141-153 | The job loop: one time per job, and a stored vector for exactly the jobs that got one. |
| Evaluation.ModelEvaluator.EmbedResumes | soupboss/embedding_evaluation.py:156-168 | The resume loop: one time per resume, and a stored vector for exactly the resumes that got one. |
| Evaluation.ModelEvaluator.GenerateForModel | soupboss/embedding_evaluation.py:89-179 | Fails exactly when the model is not available; otherwise embeds exactly the selected rows, stores their vectors, and reports the metrics with the mean of all per-item times. |
| Evaluation.ModelEvaluator.CompareModels | soupboss/embedding_evaluation.py:319-370 | Fails exactly when no requested model can be evaluated; otherwise evaluates the ready models in order and picks the winners; only the embedding rows of the requested models change. |
| Evaluation.OnlyModelsStep | soupboss/embedding_evaluation.py:330-337 | Runs that change some models' rows and then one more model's change only those models' rows. |
| Evaluation.ModelEvaluator.EvaluateOne | soupboss/embedding_evaluation.py:330-337 | One model's evaluation succeeds exactly when it is available, carries its name, and changes only that model's embedding rows. |
| Evaluation.ModelEvaluator.EvaluateAll | soupboss/embedding_evaluation.py:330-337 | The evaluations of exactly the ready models, in order, changing only their embedding rows. |
| Config.DeepCopy | soupboss/config.py:104-114 | The copy equals the original, so merging into it never changes the defaults. |
| Config.Merge | soupboss/config.py:116-126 | The merged keys are the union, and a key only in the base keeps its value. |
| Config.UntouchedLookup | soupboss/config.py:116-126 | A path the override does not reach is absent from the override. |
| Config.MergeOverrideWins | soupboss/config.py:121-124 | A non-dict override value replaces the base value at its path. |
| Config.MergeKeepsBase | soupboss/config.py:116-126 | A path the override does not reach keeps the base value. |
| Config.MergeEmpty | soupboss/config.py:116-126 | Merging an empty override changes nothing. |
| Config.MergeSelf | soupboss/config.py:116-126 | Merging a configuration with itself gives it back. |
| Config.Rows | soupboss/config.py:131-165 | Each row of one section of the environment table names its variable, section and key. |
| Config.Flatten | soupboss/config.py:131-165 | Flattening the table keeps each row's section. |
| Config.FlattenDistinct | soupboss/config.py:131-165 | Distinct sections with distinct keys give rows that override distinct settings. |
| Config.EnvMappingsDistinct | soupboss/config.py:131-165 | No two environment variables override the same setting. |
| Config.CoerceKeepsKind | soupboss/config.py:171-180 | The conversion is chosen by the current value's type, bool first: a bool stays bool, an int int, a float float, anything else becomes the raw string. |
| Config.CoerceBool | soupboss/config.py:174 | "YES" reads as true and "0" as false. |
| Config.CoerceIntRoundTrip | soupboss/config.py:176 | An integer's decimal text converts back to that integer. |
| Config.CoerceIntRejectsBlank | soupboss/config.py:176-182 | Empty or blank text is not an integer and keeps the old value. |
| Config.PutLookup | soupboss/config.py:175-180 | Writing config[section][key] changes that setting and no other path. |
| Config.Step | soupboss/config.py:167-182 | One variable: an error when it is set but its setting is missing, otherwise the converted value (or the old one when conversion fails) at its setting and nothing else changed. |
| Config.StepPreserves | soupboss/config.py:167-182 | One loop step keeps the loop's invariant. |
| Config.StepKeepsPresent | soupboss/config.py:167-182 | A successful step means no variable handled so far targets a missing setting. |
| Config.StepSettings | soupboss/config.py:167-182 | After a step, the settings handled so far hold their overridden values and the rest their original ones. |
| Config.StepFrame | soupboss/config.py:167-182 | Paths that no handled variable targets are unchanged. |
| Config.ApplyMappings | soupboss/config.py:167-184 | The loop fails exactly when a set variable targets a missing setting; otherwise each targeted setting holds its overridden value and every other path is unchanged. |
| Config.ApplyEnvOverrides | soupboss/config.py:128-184 | The same for the full environment table (stated once as `EnvApplied`). |
| Config.LoadConfig | soupboss/config.py:81-125 | An error when the file cannot be read for a reason other than a missing file or bad JSON, and an error when its top level is not an object; otherwise the environment table applied (`EnvApplied`) to the defaults with the file's sections merged over them (`Layered`), each layer winning over the one below; an undecodable file contributes nothing. |
| Config.FileSections | soupboss/config.py:91-97 | The file contributes sections exactly when json.load produced an object. |
| Config.FileOverDefault | soupboss/config.py:84-93 | A non-dict file value wins over the default; a path the file does not reach keeps the default. |
| Config.Issues | soupboss/config.py:245-278 | The directory issue is reported exactly when the path is truthy and its directory is inaccessible; the list is empty exactly when the directory check and all four value checks pass. |
| Config.IssuesNameFailures | soupboss/config.py:259-276 | Each value issue is reported exactly when its own check fails: a port that is not an int in 1..65535, a timeout that is not a positive number, a format other than csv/json/html, a threshold that is not a number in [0, 1]. |
| Config.ConfigManager.constructor | soupboss/config.py:72-79 | The manager holds the loaded configuration. |
| Config.ConfigManager.GetSection | soupboss/config.py:186-190 | A missing section reads as {}. |
| Config.ConfigManager.GetKey | soupboss/config.py:186-190 | A missing key reads as None; a section that is not a dict fails. |
| Config.ConfigManager.Set | soupboss/config.py:192-203 | Sets the one key (creating the section), leaves every other setting unchanged, and returns the save result. |
| Config.ConfigManager.ResetToDefaults | soupboss/config.py:240-243 | The configuration becomes the defaults. |
| Config.ConfigManager.ValidateConfig | soupboss/config.py:245-278 | Raises (an error) exactly when a checked section is not a dictionary or the database path is truthy and not a string; otherwise returns no issue exactly when every checked setting is valid. |
| Config.DefaultPort | soupboss/config.py:35-37 | The default port is 11434 and the default timeout 30. |
| Config.DefaultFormat | soupboss/config.py:43 | The default export format is csv. |
| Config.DefaultThreshold | soupboss/config.py:59 | The default similarity threshold is 0.0. |
| Config.DefaultsAreValid | soupboss/config.py:24-70 | The default configuration passes validation. |
| Resumes.ValidateFile | soupboss/resumes.py:80-98 | The first failing check, in order: missing, not a file, unsupported extension (any case), over 10 MiB, empty; None when all pass. |
| Resumes.GetFileInfo | soupboss/resumes.py:281-296 | No information for a missing file. |
| Resumes.FileInfoAgreesWithValidation | soupboss/resumes.py:281-296 | A regular file passes validation exactly when its information says supported, not too large and not empty; exactly 10 MiB is accepted and one byte more is not. |
| Resumes.SupportedIgnoresCase | soupboss/resumes.py:88 | The letter case of the extension does not matter. |
| Resumes.FileTypeOfSupported | soupboss/resumes.py:59 | The file type is the lowercased extension without its dot. |
| Resumes.ProcessResumeFile | soupboss/resumes.py:28-78 | Stores a resume exactly when the file validates and the extracted text is not blank, under the given name or else the file stem; otherwise nothing changes. |
| Resumes.Preview | soupboss/resumes.py:246-265 | Content that fits is returned unchanged; longer content gives a prefix of at most max_length characters followed by "...". |
| Resumes.PreviewCut | soupboss/resumes.py:256-265 | The prefix ends just after the last '.' or newline beyond 70% of the window, or is the whole window when there is none. |
| Resumes.GetResumePreview | soupboss/resumes.py:246-265 | None for a missing resume, an error for NULL content, the preview otherwise. |
| Resumes.Types | soupboss/resumes.py:345-347 | The file type of each resume, in order. |
| Resumes.Summarise | soupboss/resumes.py:335-358 | The counting loop: the total, a count per file type, and the total size. |
| Resumes.StatsCountsSum | soupboss/resumes.py:345-352 | The per-type counts are the numbers of resumes of each type and add up to the total. |
| Resumes.GetStats | soupboss/resumes.py:335-358 | The total is the number of resumes; the count of each type is the number of resumes of that type, for exactly the types present, and the counts add up to the total; the size is the sum of the content sizes. |
| Ingestion.CompanyNamesAppend | soupboss/ingestion.py:635-651 | The filter works line by line, keeping file order. |
| Ingestion.CompanyNamesMembers | soupboss/ingestion.py:635-651 | A name is listed exactly when some line, stripped, is that name and is neither empty nor a comment. |
| Ingestion.CompanyLineShape | soupboss/ingestion.py:641-643 | A kept line, stripped, is non-empty, not a comment, and has no surrounding whitespace. |
| Ingestion.CompanyNamesShape | soupboss/ingestion.py:635-651 | Every listed name has that shape. |
| Ingestion.ReadCompaniesFile | soupboss/ingestion.py:635-651 | The reading loop yields exactly the company names, in file order. |
| Ingestion.PyStr | soupboss/ingestion.py:467 | str() of a string is itself and of an integer its decimal text. |
| Ingestion.Cell | soupboss/db.py:172-201 | A JSON value as an SQL cell: None for null, the text for a string, an integer bound exactly when it is in the signed 64-bit range (its text reads back as it), and unbindable for lists and dicts. |
| Ingestion.RowOf | soupboss/ingestion.py:465-479 | The row add_job writes, present exactly when every value binds (so not for an integer sqlite3 rejects with OverflowError) and the title is not null. |
| Ingestion.SavedInKept | soupboss/db.py:172-201 | A saved key stays saved when later writes keep keys. |
| Ingestion.KeysKeptTrans | soupboss/db.py:172-201 | Keeping keys composes over successive writes. |
| Ingestion.SaveRecord | soupboss/ingestion.py:465-479 | The row is written (an upsert by key) exactly when its values bind; otherwise nothing changes. |
| Ingestion.FirstPart | soupboss/ingestion.py:355-357 | The first comma-separated part, stripped, contains no comma. |
| Ingestion.ListLocation | soupboss/ingestion.py:351-358 | A location from a list is under 50 characters and has no comma. |
| Ingestion.ListLocationNone | soupboss/ingestion.py:351-358 | No location exactly when no entry is a string not starting with "Select Location" whose first part is under 50 characters. |
| Ingestion.ListLocationFirst | soupboss/ingestion.py:351-358 | Otherwise it is the first part of the first such entry. |
| Ingestion.FindListLocation | soupboss/ingestion.py:353-358 | The search loop, with its break, computes exactly that. |
| Ingestion.LocationStringUnbounded | soupboss/ingestion.py:359-362 | A single location string gives its first part with no length check, unlike a list entry. |
| Ingestion.Department | soupboss/ingestion.py:373-382 | No department exactly when the keyword rule raises: business falsy, summary truthy and neither a string, a list nor a dict. |
| Ingestion.DepartmentOfContainers | soupboss/ingestion.py:375-382 | `in` on a list summary matches whole elements and on a dict its keys, so ["Engineering"] gives "Technology", ["Engineering team"] keeps the falsy business, {"Marketing": ...} gives "Marketing", and a number raises unless business is truthy. |
| Ingestion.DepartmentPriority | soupboss/ingestion.py:373-382 | When the rule does not raise: a truthy business wins; "Entertainment" beats the other keywords; "Engineering" counts as "Technology"; a department found by keyword is one of the four keywords; without business or keyword the department stays falsy. |
| Ingestion.ContentTextNullIffEmpty | soupboss/ingestion.py:365-370 | content_text is None exactly when the summary is empty; a failed conversion keeps the raw HTML. |
| Ingestion.DisneyExternalIdCases | soupboss/ingestion.py:341 | external_id is '' without jobId, "None" for a null one, and the decimal text of an integer one. |
| Ingestion.DisneyRecord | soupboss/ingestion.py:338-393 | The record of a job is defined exactly when the job is processable. |
| Ingestion.ProcessDisneyJob | soupboss/ingestion.py:338-393 | None exactly when the job cannot be processed (the department rule raises); otherwise the normalised record, with the location found by the search loop. |
| Ingestion.LoadJobs | soupboss/ingestion.py:316-336 | A list file gives its items; an object with "jobs" gives that value, whatever it is; an unreadable file gives no jobs. |
| Ingestion.ParseSource | soupboss/ingestion.py:413-424 | Exactly greenhouse, lever, smartrecruiters and disney are sources. |
| Ingestion.ExtractGreenhouse | soupboss/ingestion.py:484-493 | A record exactly when the details have an id and neither a truthy departments value that is not a list starting with a dict nor a truthy location that is not a dict makes `.get` raise. |
| Ingestion.GreenhouseFields | soupboss/ingestion.py:484-493 | The department is the first department's name (None when there is none), the texts fall back to `content`, and the title defaults to "Unknown Title". |
| Ingestion.ExtractLever | soupboss/ingestion.py:495-510 | A record exactly when the details have an id and a truthy categories value is a dict. |
| Ingestion.ExtractSmartRecruiters | soupboss/ingestion.py:512-542 | A record exactly when the details have an id and the location fallback does not reach a country value that is present but not a dict. |
| Ingestion.SmartRecruitersLocation | soupboss/ingestion.py:524-533 | The location falls back from city to region to the country label. |
| Ingestion.Extract | soupboss/ingestion.py:457-462 | The extractor chosen by source yields a record exactly when the details have an id and that extractor does not raise on them. |
| Ingestion.ExtractionRaisesOn | soupboss/ingestion.py:484-533 | Details with an id on which extraction still raises: Greenhouse departments of strings, a Lever category string, a SmartRecruiters location with a null country and no city; with a city the country is never read. |
| Ingestion.AtsSaved | soupboss/ingestion.py:447-479 | The number of saved jobs is at most the number listed. |
| Ingestion.IngestListed | soupboss/ingestion.py:441-482 | Fails exactly when some fetched details lack an id or make extraction raise, and then every extracted job before the first such item is stored; otherwise processed is the number listed, saved counts the rows written, and every extracted job whose row binds is stored under its key. |
| Ingestion.FirstUnextractable | soupboss/ingestion.py:447-462 | The first listed job whose extraction fails, and none exactly when every fetched job extracts. |
| Ingestion.JobIngester.constructor | soupboss/ingestion.py:399-400 | The ingester works on the given database. |
| Ingestion.JobIngester.IngestCompanyJobs | soupboss/ingestion.py:402-482 | Registers the lowercased name and keeps every company row; a lookup error when the name is held under another source, an error naming an unknown source, (0, 0) for disney or an unreachable company, an extraction error exactly when some listed job raises, with the extracted jobs before the first such one stored, and otherwise the listed and saved counts with every extracted job stored. |
| Ingestion.JobIngester.IngestOrZero | soupboss/ingestion.py:556-566 | Exactly the listing's counts when the company is registered under an ATS source, reachable and no job raises; (0, 0) in every other case. |
| Ingestion.JobIngester.IngestFromFileList | soupboss/ingestion.py:544-566 | One entry per listed company, each exactly the counts its ingestion gives in the final store, or (0, 0) when it raises; no company row is lost. |
| Ingestion.RegisteredKept | soupboss/ingestion.py:556-566 | Adding later companies does not change whether an earlier one is registered under a source. |
| Ingestion.ResultsCoverStep | soupboss/ingestion.py:552-566 | One more company's counts extend the results, and the earlier entries stay exact in the grown store. |
| Ingestion.JobIngester.ImportFromFile | soupboss/ingestion.py:568-633 | Rejects every source but disney; no company is a failure; an unreadable or falsy file imports (0, 0); a truthy value that is neither a list nor a string raises; a string's characters are the jobs, so it raises at the first character and imports (0, 0) when the limit cuts it to nothing; with a limit, the first `limit` jobs; processed counts them, saved counts the rows written and every record is stored; the first job that cannot be processed stops the import after the jobs before it are stored. |
| Ingestion.LimitKeepsFirst | soupboss/ingestion.py:597-598 | A positive limit keeps exactly the first min(limit, n) jobs in order. |
| Ingestion.FileJobs | soupboss/ingestion.py:591-607 | The jobs the import iterates: none for a falsy value, the limited list for a list, for a string as many one-character strings as the limited string has characters, none of them processable, and a failure exactly for a truthy value that is neither a list nor a string. |
| Ingestion.FileJobsShapes | soupboss/ingestion.py:591-607 | A single job object under "jobs" raises, while an empty object or an unreadable file imports nothing; "abc" with limit -5 imports nothing, and with limit -1 fails at the first character. |
| Ingestion.Records | soupboss/ingestion.py:608-613 | One record per processable job, in order. |
| Ingestion.RecordsInOrder | soupboss/ingestion.py:608-613 | The record of each job sits at the job's position and is that job's DisneyRecord. |
| Ingestion.RowCount | soupboss/ingestion.py:600-615 | The number of records that make a row is at most the number of records. |
| Ingestion.DisneySaved | soupboss/ingestion.py:600-615 | The number of saved Disney jobs is at most the number of jobs. |
| Ingestion.ImportOne | soupboss/ingestion.py:608-630 | One iteration processes the job into its DisneyRecord, stores the row when the values bind, keeps every earlier stored key, and changes nothing else. |
| Ingestion.FirstUnprocessable | soupboss/ingestion.py:608-613 | The position of the first loaded job that cannot be processed, with every job before it processable; None exactly when all are. |
| Ingestion.ImportEach | soupboss/ingestion.py:608-630 | The loop over processable jobs stores each job's record and counts the rows written. |
| Ingestion.ImportJobs | soupboss/ingestion.py:608-633 | Succeeds exactly when all jobs can be processed, with the processed and saved counts and every record stored; otherwise it fails at the first job that cannot, after the jobs before it are stored. |
| Export.HtmlEscape | soupboss/export.py:745-754 | Falsy input gives "", other text its character-by-character escaping. |
| Export.ReplaceChainOne | soupboss/export.py:749-754 | Because '&' is replaced first, the chain turns one character into exactly its own entity. |
| Export.ReplaceChainConcat | soupboss/export.py:749-754 | The chain escapes the two halves of a text independently. |
| Export.ReplaceChainIsEscaped | soupboss/export.py:749-754 | The five chained replacements equal character-by-character escaping. |
| Export.EscapedConcat | soupboss/export.py:749-754 | Escaping distributes over concatenation. |
| Export.EscapedHasNoMarkup | soupboss/export.py:749-754 | The escaped text contains no raw '<', '>', '"' or "'", and each '&' begins an entity. |
| Export.EscapedPlain | soupboss/export.py:749-754 | Text without & < > " ' is unchanged. |
| Export.Entity | soupboss/export.py:749-754 | Reading an entity consumes at least one character. |
| Export.EntityOfEscaped | soupboss/export.py:749-754 | An escaped special character reads back as that character. |
| Export.UnescapeOne | soupboss/export.py:749-754 | One escaped character reads back. |
| Export.UnescapeEscaped | soupboss/export.py:749-754 | Escaping loses nothing: unescaping gives the original text back. |
| Export.ScoreBand | soupboss/export.py:305-306 | High exactly at 0.6 and above, low exactly below 0.4, medium in between, all on the unrounded score (the cell shows it to three decimals). |
| Export.ScoreBandMonotone | soupboss/export.py:305-306 | A higher score never gets a lower band. |
| Export.ParseFormat | soupboss/export.py:66-73 | Exactly csv, json and html select a writer. |
| Export.FormatRoundTrip | soupboss/export.py:66-73 | A writer's name selects that writer, and a selected writer's name is the format. |
| Export.Dispatch | soupboss/export.py:51-73 | No results give "" before any format check; with results an unknown format is an error. |
| Export.MatchQuery | soupboss/export.py:46-49 | A resume id selects that resume's matches with a default limit of 50; otherwise all matches with 100. |
| Export.DefaultMatchesPath | soupboss/export.py:56-59 | The default name is soupboss_matches, then _resume_<id> when a non-zero resume id is given, then _<timestamp> and the format as extension. |
| Export.PathAffixes | soupboss/export.py:58-59 | The parts of a name built from pieces are its prefixes and suffix. |
| Export.ExportedAdjusted | soupboss/export.py:167 | A missing or zero adjusted score is exported as None. |
| Export.ExportMatchResults | soupboss/export.py:28-73 | "" exactly when the query finds nothing; an error exactly for an unknown format when results exist. |
| Export.SummaryFormat | soupboss/export.py:143-148 | Summary reports accept only html and json. |
| Export.EscapeNoAngle | soupboss/export.py:745-754 | An escaped cell contains no angle bracket. |
| Export.RowCells | soupboss/export.py:312-316 | The five text cells of a report row contain no angle bracket. |
| Export.MatchTableRows | soupboss/export.py:303-317 | The loop appends one row per result, ranked from 1 in result order. |
| Export.ExportResumesJson | soupboss/export.py:474-493 | Each exported record has the input record's fields without content_text, with the same values; the count and timestamp are reported. |
| DisneyImporter.ListLocation | ref_data/disney_data_importer.py:85-100 | A location from a list is non-empty, under 50 characters and comma-free, and is absent exactly when no entry is usable. |
| DisneyImporter.FindLocation | ref_data/disney_data_importer.py:89-100 | The filtering loop, with its break, computes exactly that. |
| DisneyImporter.ListLocationImpliesIngestion | ref_data/disney_data_importer.py:85-100 | Whenever the importer finds a location in a list, ingestion finds one too. |
| DisneyImporter.ListLocationAgrees | ref_data/disney_data_importer.py:94-98 | When no entry ingestion accepts has an empty first part, both rules agree. |
| DisneyImporter.LeadingCommaEmpty | ref_data/disney_data_importer.py:93-96 | A location starting with a comma has an empty first part. |
| DisneyImporter.ListLocationDiffers | ref_data/disney_data_importer.py:94-98 | For [", Orlando"] ingestion gives "" and the importer gives nothing. |
| DisneyImporter.JobRecord | ref_data/disney_data_importer.py:73-138 | The importer's record is defined exactly when the job is processable. |
| DisneyImporter.ProcessDisneyJob | ref_data/disney_data_importer.py:73-138 | None exactly when the job cannot be processed (the department rule raises); otherwise the normalised record, with the location found by the filtering loop. |
| DisneyImporter.RecordMatchesIngestion | ref_data/disney_data_importer.py:73-138 | Both records are defined for the same jobs; then they agree on id, title, department and texts, and on the location when no accepted entry has an empty first part. |
| DisneyImporter.FileJobs | ref_data/disney_data_importer.py:45-53 | The jobs of {"jobs": [...]} or of a bare list; anything else is an error. |
| DisneyImporter.LoadJobsFromFile | ref_data/disney_data_importer.py:38-71 | Succeeds exactly when every job can be processed, giving each job's record in order; otherwise fails at the first job that cannot. |
| DisneyImporter.HasRequired | ref_data/disney_data_importer.py:160-161 | A dict job has the required fields exactly when jobId, jobName and jobUrl are all present. |
| DisneyImporter.TestFileFormat | ref_data/disney_data_importer.py:140-171 | False for a wrong top-level shape or a first job lacking a required field; an empty list passes. |
| DisneyImporter.DepartmentKeys | ref_data/disney_data_importer.py:185 | Each job's department, or 'Unknown', in order. |
| DisneyImporter.LocationKeys | ref_data/disney_data_importer.py:188 | Each job's location, or 'Unknown', in order. |
| DisneyImporter.Items | ref_data/disney_data_importer.py:192 | The (value, count) pairs of the distinct values, in first-occurrence order. |
| DisneyImporter.Top10Correct | ref_data/disney_data_importer.py:192-197 | At most ten entries, distinct values, highest count first, each a value that occurs with its count, no value left out counting more than one listed, and ten whenever ten values occur. |
| DisneyImporter.ShowFileStats | ref_data/disney_data_importer.py:173-207 | The counting loop: the total and a count per department and location, and the two top-10 lists; an unhashable department stops it. |
| DisneyImporter.StatsCountsSum | ref_data/disney_data_importer.py:182-189 | The department counts and the location counts each add up to the number of jobs. |
| WorkdayScraper.CleanString | ref_data/disney_workday_scraper.py:107-121 | None stays None; otherwise the NFC text with NBSP made a space and zero-width characters removed. |
| WorkdayScraper.CleanStringSteps | ref_data/disney_workday_scraper.py:112-116 | The guarded replacements equal character-by-character sanitising. |
| WorkdayScraper.ChainOne | ref_data/disney_workday_scraper.py:112-116 | On one character the replacements give its sanitised form. |
| WorkdayScraper.ChainConcat | ref_data/disney_workday_scraper.py:112-116 | The replacements work on the two halves of a text independently. |
| WorkdayScraper.ChainIsSanitized | ref_data/disney_workday_scraper.py:112-116 | The unguarded chain equals sanitising. |
| WorkdayScraper.SanitizedIsClean | ref_data/disney_workday_scraper.py:112-116 | The result contains no NBSP and no zero-width character, and is no longer than the input. |
| WorkdayScraper.SanitizedPlain | ref_data/disney_workday_scraper.py:112-116 | Text without them is unchanged. |
| WorkdayScraper.CleanObjShape | ref_data/disney_workday_scraper.py:123-130 | Cleaning keeps the same dict keys, list lengths and non-string values, and cleans every string. |
| WorkdayScraper.WalkAppend | ref_data/disney_workday_scraper.py:235-242 | Walking a path in two pieces is walking it whole. |
| WorkdayScraper.WalkOne | ref_data/disney_workday_scraper.py:235-242 | A one-segment path is a plain lookup. |
| WorkdayScraper.GetPath | ref_data/disney_workday_scraper.py:235-242 | The stepping loop gives the value at the dotted path, or None as soon as a segment is missing or a value is not a dict. |
| WorkdayScraper.WdGetNested | ref_data/disney_workday_scraper.py:584-591 | The same walk with the default for a missing segment. |
| WorkdayScraper.SplitDotted | ref_data/disney_workday_scraper.py:237 | A dotted name without a dot is one segment; "a.b" is two. |
| WorkdayScraper.DottedColumn | ref_data/disney_workday_scraper.py:235-242 | A column "a.b" reads field b of the nested dict a. |
| WorkdayScraper.Dedup | ref_data/disney_workday_scraper.py:283-287 | Keeps each string at its first occurrence: no duplicates, the same elements, first-occurrence order. |
| WorkdayScraper.EnsureEnPath | ref_data/disney_workday_scraper.py:295-304 | A path with "/en/search-jobs" is unchanged; otherwise "/search-jobs" becomes "/en/search-jobs", an empty or "/" path becomes "/en/search-jobs", and a missing scheme or host gets the default. |
| WorkdayScraper.FixPathFacts | ref_data/disney_workday_scraper.py:298-302 | A fixed search path contains "/en/search-jobs". |
| WorkdayScraper.ReplaceIntroduces | ref_data/disney_workday_scraper.py:299 | Replacing an occurring pattern leaves the replacement in the text. |
| WorkdayScraper.EnsureEnPathIdempotent | ref_data/disney_workday_scraper.py:295-304 | Fixing a fixed URL changes nothing. |
| WorkdayScraper.SortedStrings | ref_data/disney_workday_scraper.py:464 | sorted() of a set: strictly ascending and holding exactly the set's elements. |
| WorkdayScraper.CollectUrls | ref_data/disney_workday_scraper.py:464-466 | Sorted, duplicate-free URLs from the collected set, the first max_items of them when a limit is given, all of them otherwise. |
| WorkdayScraper.JoinLocations | ref_data/disney_workday_scraper.py:600 | "/".join works exactly on a string or a list of strings; one string joins to itself. |
| WorkdayScraper.DisplayId | ref_data/disney_workday_scraper.py:596-597 | The first bullet field when that list is non-empty, else jobId. |
| WorkdayScraper.JobUrl | ref_data/disney_workday_scraper.py:601-606 | Host plus externalPath when it is truthy, else jobUrl. |
| WorkdayScraper.LocationsText | ref_data/disney_workday_scraper.py:600 | locationsText when truthy, else the joined locations when truthy, else None; joining a list with a non-string fails. |
| WorkdayScraper.DetailOf | ref_data/disney_workday_scraper.py:608-615 | With a detail document, each detail field read under jobPostingInfo; without one, all None. |
| WorkdayScraper.WdNormalize | ref_data/disney_workday_scraper.py:593-634 | The normalised record from the list item and its detail, every field stated; it fails exactly when joining the locations fails. |
| WorkdayScraper.DoRequest | ref_data/disney_workday_scraper.py:161-201 | The retry loop gives the outcome of the attempt that ends it. |
| WorkdayScraper.AttemptsSpec | ref_data/disney_workday_scraper.py:171-201 | At most retries+2 calls; every earlier call failed or returned a retry status; the result is the first other response, or the last attempt's (an error when it raised). |
| Text.CollapseWhitespace | soupboss/embeddings.py:144 | `" ".join(s.split())` is collapsed and keeps the words of the input. |
| Text.WordsOfJoin | soupboss/embeddings.py:144 | Splitting words joined by single spaces gives them back. |
| Text.CollapsedIsFixpoint | soupboss/embeddings.py:144 | A collapsed text collapses to itself. |
| Text.BlankHasNoWords | soupboss/embeddings.py:144 | A whitespace-only text has no words. |
| Text.Strip | soupboss/ingestion.py:641 | strip() is empty exactly for whitespace-only text and otherwise has no whitespace at either end. |
| Text.SplitJoin | soupboss/ingestion.py:355 | Joining the parts of split(c) with c restores the text. |
| Text.RFind | soupboss/resumes.py:258-259 | rfind gives the last index of the character, or -1. |
| Text.PyPrefix | soupboss/resumes.py:257 | s[:n] for negative and non-negative n. |
| Text.IntToStringRoundTrip | soupboss/config.py:176 | int(str(i)) == i. |
| Text.Words | soupboss/embeddings.py:144 | str.split() with no argument: each part is a non-empty run without whitespace. |
| Text.LStrip | soupboss/ingestion.py:641 | lstrip(): the suffix left after the leading whitespace, starting with a non-space character. |
| Text.RStrip | soupboss/ingestion.py:641 | rstrip(): the prefix left before the trailing whitespace, ending with a non-space character. |
| Text.StripEnds | soupboss/ingestion.py:641 | rstrip after lstrip keeps a non-space first character and is empty exactly for whitespace-only text. |
| Text.StripUntrimmed | soupboss/ingestion.py:641 | Text with no whitespace at either end strips to itself. |
| Text.IndexOf | soupboss/ingestion.py:355 | The position of the first occurrence of the separator, or the length when it does not occur. |
| Text.Split | soupboss/ingestion.py:355 | split(c): at least one part, the first part runs up to the first c, and no part contains c. |
| Text.Lower | soupboss/resumes.py:59 | lower() maps each character and keeps the length. |
| Text.NatToString | soupboss/ingestion.py:467 | str() of a natural number: non-empty and all digits. |
| Text.ParseUnsigned | soupboss/config.py:176 | int() reads back str() of a natural number. |
| Text.ParseNegative | soupboss/config.py:176 | int() reads back str() of a negative number. |
| Collections.SortDescCorrect | soupboss/matching.py:334 | sort(reverse=True) gives a descending permutation of its input. |
| Collections.SortDescStable | soupboss/matching.py:334 | Elements with equal keys keep their input order. |
| Collections.DistinctOrder | ref_data/disney_workday_scraper.py:335-338 | Dedup leaves no duplicates and keeps first-occurrence order. |
| Collections.TallyTotal | ref_data/disney_data_importer.py:182-189 | The counts of the distinct values add up to the number of elements. |
| Collections.Bump | ref_data/disney_data_importer.py:186 | `d[x] = d.get(x, 0) + 1` keeps d the tally of the values seen. |
| Collections.SelectTop | soupboss/db.py:366 | ORDER BY score DESC LIMIT n: min(n, rows) distinct rows, highest first, none left out scoring higher. |
| Collections.SortDesc | soupboss/matching.py:334 | Sorting keeps the length; correctness and stability are the two lemmas. |
| Collections.Distinct | ref_data/disney_workday_scraper.py:283-287 | Dedup keeps exactly the elements of its input. |
| Collections.Tally | ref_data/disney_data_importer.py:182-189 | The counting dict has a key for exactly the values that occur. |
| Collections.SelectedAll | soupboss/db.py:366 | A duplicate-free selection as large as the key set holds every key. |
| Json.Get | soupboss/ingestion.py:341 | dict.get: a value exactly when the key is present, and then that key's value. |
| Store.Enumerate | soupboss/db.py:258-262 | Listing a table yields every row key exactly once. |
| Store.MinNameExists | soupboss/db.py:166 | Among the listed companies one has the smallest name, which ORDER BY name puts first. |
| Ingestion.StripInside | soupboss/ingestion.py:355-357 | Stripping adds no character, so a stripped part stays comma-free. |
| WorkdayScraper.LeastString | ref_data/disney_workday_scraper.py:464 | A non-empty set of strings has a least element. |
| WorkdayScraper.NoDotSplit | ref_data/disney_workday_scraper.py:237 | A name without a dot splits into itself alone. |
| Matching.Collected | soupboss/matching.py:383-449 | The vectors found for the listed ids, for exactly the ids that have one. |

## Left out

- Network and remote I/O: the ATS clients and their listing calls, the
  Ollama HTTP calls, and Workday and HTML fetching and parsing. Each is an
  oracle value here (`Server`, `Site`, the `respond` function of
  `WorkdayScraper.DoRequest`, the collected URL set).
- Concurrency and time: the rate limiter, thread pools, backoff sleeps and
  Rich progress output are not modelled; time measurements are the
  `elapsed` parameter.
- Floating point: vector norms, cosine, mean, stdev and rounding are
  exact reals or parameters. The matcher's cosine is a parameter with no
  precondition, so the zero-norm NaN and the numpy error on vectors of
  different lengths are not modelled.
- Matching.SimilarityMatcher.CalculateSimilarityBatch: does not model the
  numpy error on vectors of different lengths (the results saved before
  it stay saved) or a NaN score from a zero norm.
- Evaluation.ModelEvaluator.CalculateModelMetrics: score_variance (the
  standard deviation of the sample) is not computed.
- Evaluation.ModelEvaluator.SampleSimilarities: `ORDER BY RANDOM()` is
  modelled as an arbitrary sample of the right size, not a uniform one.
- `_get_available_models` of the evaluator is not modelled; the available
  model list is a constructor argument.
- Vector encoding: float32 blobs (`tobytes`/`frombuffer`) are modelled as
  the identity on `seq<real>`, so the loss of precision on storing is not
  captured.
- SQL row order without ORDER BY (and the created_at order of
  get_jobs/get_resumes) is not fixed: listings return every row once in
  an unspecified order.
- Python dict order is not modelled: dicts are maps, except where the
  source's output depends on insertion order (`DisneyImporter.Items`
  keeps first-occurrence order).
- `"/".join` of a dict of locations joins its keys in Python; the model
  treats any non-string, non-list value as a failure.
- WorkdayScraper.JobUrl: the host is a parameter (the
  `_wd_host_from_base` parsing of the base URL is not modelled), and a
  non-string truthy externalPath is rendered through the `show`
  parameter for str().
- WorkdayScraper.EnsureEnPath works on a parsed URL record; urlsplit and
  urlunsplit, `normalize_pager_href`, `with_query_param` and the pager's
  p=1 filter are not modelled.
- Unicode NFC normalisation is the parameter `nfc`.
- Ingestion.PyStr, Ingestion.Cell, Ingestion.RowOf: str() of a float, a
  list or a dict, and the binding of a float by sqlite3, are not modelled
  (floating-point text formatting); a job holding such a value where a
  row needs text is treated as making no row, where the source writes it.
- Text.Lower: maps only 'A' to 'Z'; Python's lower() applies the full
  Unicode case map, which can also change the length ('İ').
- Text.ParseInt: reads ASCII digits only; Python's int() also accepts
  non-ASCII Unicode decimal digits (Arabic-Indic, fullwidth and the like).
- Store.SoupBossDb.AddCompany: the name key is lowercased by Text.Lower,
  so names that differ only in non-ASCII letter case are two companies
  here and one in the source.
- Evaluation.ModelEvaluator.SampleSimilarities: the cosine's dot product
  is total; np.dot raises ValueError when a drawn resume vector and job
  vector differ in length, which the model does not represent.
- Evaluation.ModelEvaluator.GenerateForModel: does not model the np.dot
  error of the sample on vectors of different lengths; in the source it
  escapes after the new embeddings are saved, so the call fails where the
  model reports metrics.
- Evaluation.ModelEvaluator.EvaluateOne: does not model the np.dot error
  on vectors of different lengths, which makes compare_models skip the
  model (its saved embeddings stay); here such a model is evaluated.
- Evaluation.ModelEvaluator.EvaluateAll: inherits the EvaluateOne gap: a
  model whose stored vectors differ in length is kept here and skipped in
  the source.
- Evaluation.ModelEvaluator.CompareModels: inherits the same gap, so it
  can report a winner (or succeed) where the source skips that model (or
  raises "No models could be evaluated").
- Evaluation.ModelEvaluator.CompareModels: each evaluation's metrics are
  stated by GenerateForModel for the store right after that model's run,
  and are not restated for the store at the end of the comparison.
- Evaluation.ModelEvaluator.constructor: the store argument of
  `__init__` is kept but never read; every evaluation opens the default
  database, which the evaluator's store stands for.
- Resumes.Preview: the 70% test compares with the exact real product
  max_length * 0.7, while the source compares with its float value; for
  max_length 90 that product is 62.99999999999999, so a break at index 63
  cuts the preview in the source and not here. The default max_length of
  500 gives 350.0 exactly and is unaffected.
- Resumes.PreviewCut: the same exact 70% test as Resumes.Preview.
- DisneyImporter.ShowFileStats: department keys are counted as distinct
  JSON values, while a Python dict merges equal numbers of different
  types (true, 1 and 1.0; false, 0 and 0.0) into one bucket shown under
  the first key seen, so such files give different counts and top-10s.
- HTML-to-text conversion (html2text), PDF/DOCX extraction and the regex
  cleanup of extracted text are parameters or left out.
- File writers: the CSV, JSON and HTML files that export writes (other
  than the resume JSON record stripping and the match-table rows), and
  the summary report's data gathering.
- Config: saving the file, the dotenv edits, and display_config.
- Maintenance: backups, VACUUM and the database statistics.
- The debug printing of `_clean_string` and of the scraper.
- The CLI, the web application, the process-management scripts and the
  speed-test harnesses.
