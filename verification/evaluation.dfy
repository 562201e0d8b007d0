// The embedding-model evaluator (soupboss/embedding_evaluation.py): embed
// every row with content for one model, then score the model by a sample
// of similarities, by how many distinct jobs reach the resumes' top ten,
// and by coverage; compare several models and pick the winners.
//
// Dot product, norm and the duration of one embedding call are parameters:
// their floating-point and wall-clock values are not modelled. The random
// sample order (ORDER BY RANDOM()) is the arbitrary order of Enumerate.
module Evaluation {
  import opened Wrappers
  import opened Collections
  import opened Store
  import opened Embeddings
  import opened Matching

  function Min(a: int, b: int): int {
    if a <= b then a else b
  }

  /** The sort key of a plain score. */
  function Id(x: real): real {
    x
  }

  // ---------------------------------------------------------------------
  // Candidate selection
  // ---------------------------------------------------------------------

  /** The text each job row is embedded from here: its content_text as
      stored, not the composed job text of the pipeline. */
  function JobContents(jobs: map<int, Job>): (r: map<int, Option<string>>)
    ensures r.Keys == jobs.Keys
  {
    map id | id in jobs :: jobs[id].contentText
  }

  /** The rows generate_embeddings_for_model selects: content_text is not
      NULL and, unless forced, the LEFT JOIN finds no embedding for the
      model. */
  function Candidates(texts: map<int, Option<string>>, emb: map<EmbKey, Vector>, model: string, force: bool): set<int> {
    set id | id in texts && texts[id].Some? && (force || (id, model) !in emb)
  }

  /** After the vectors of a run are saved, an unforced run selects exactly
      the candidates that got no vector. */
  lemma CandidatesAfterSave(texts: map<int, Option<string>>, emb: map<EmbKey, Vector>, model: string,
                            vecs: map<int, Vector>)
    ensures Candidates(texts, SaveAll(emb, model, vecs), model, false)
         == Candidates(texts, emb, model, false) - vecs.Keys
  {
    var after := Candidates(texts, SaveAll(emb, model, vecs), model, false);
    var wanted := Candidates(texts, emb, model, false) - vecs.Keys;
    forall id | id in after ensures id in wanted {
      assert (id, model) !in SaveAll(emb, model, vecs);
    }
    forall id | id in wanted ensures id in after {
      assert (id, model) !in SaveAll(emb, model, vecs);
    }
  }

  /** A run in which every candidate got a vector leaves nothing for an
      unforced rerun, whether or not it was forced. */
  lemma RerunSelectsNothing(texts: map<int, Option<string>>, emb: map<EmbKey, Vector>, model: string, force: bool,
                            vecs: map<int, Vector>)
    requires forall id :: id in Candidates(texts, emb, model, force) ==> id in vecs
    ensures Candidates(texts, SaveAll(emb, model, vecs), model, false) == {}
  {
    CandidatesAfterSave(texts, emb, model, vecs);
    forall id | id in Candidates(texts, emb, model, false) ensures id in vecs {
      assert id in Candidates(texts, emb, model, force);
    }
  }

  /** The measured duration of each embedding call, in processing order. */
  function Durations(elapsed: (string, Option<string>) -> real, model: string, texts: map<int, Option<string>>,
                     ids: seq<int>): (r: seq<real>)
    ensures |r| == |ids|
    ensures forall t :: 0 <= t < |ids| ==> r[t] == elapsed(model, if ids[t] in texts then texts[ids[t]] else None)
  {
    if ids == [] then []
    else
      var last := ids[|ids| - 1];
      Durations(elapsed, model, texts, ids[..|ids| - 1]) + [elapsed(model, if last in texts then texts[last] else None)]
  }

  // ---------------------------------------------------------------------
  // Means
  // ---------------------------------------------------------------------

  function Sum(s: seq<real>): real {
    if s == [] then 0.0 else Sum(s[..|s| - 1]) + s[|s| - 1]
  }

  /** statistics.mean */
  function Mean(s: seq<real>): real
    requires s != []
  {
    Sum(s) / (|s| as real)
  }

  lemma {:induction false} SumBounds(s: seq<real>, lo: real, hi: real)
    requires forall i :: 0 <= i < |s| ==> lo <= s[i] <= hi
    ensures lo * (|s| as real) <= Sum(s) <= hi * (|s| as real)
    decreases |s|
  {
    if s != [] {
      var n := |s| - 1;
      SumBounds(s[..n], lo, hi);
      assert (|s| as real) == (n as real) + 1.0;
      assert lo * (|s| as real) == lo * (n as real) + lo;
      assert hi * (|s| as real) == hi * (n as real) + hi;
    }
  }

  /** A mean lies between any lower and upper bound of its scores. */
  lemma MeanBounds(s: seq<real>, lo: real, hi: real)
    requires s != []
    requires forall i :: 0 <= i < |s| ==> lo <= s[i] <= hi
    ensures lo <= Mean(s) <= hi
  {
    SumBounds(s, lo, hi);
    var n := |s| as real;
    var q := Sum(s) / n;
    assert n > 0.0;
    assert q * n == Sum(s);
    assert lo * n <= q * n <= hi * n;
    CancelPositive(lo, q, n);
    CancelPositive(q, hi, n);
  }

  /** A positive factor can be cancelled from both sides of <=. */
  lemma CancelPositive(a: real, b: real, n: real)
    requires n > 0.0 && a * n <= b * n
    ensures a <= b
  {
  }

  /** top_10_avg: the mean of the first ten scores, of all of them when
      there are fewer, and 0.0 when there are none. */
  function Top10Avg(scores: seq<real>): (r: real)
    ensures scores == [] ==> r == 0.0
  {
    if |scores| >= 10 then Mean(scores[..10]) else if scores != [] then Mean(scores) else 0.0
  }

  /** The average lies within the range of the scores it averages. */
  lemma Top10AvgBounds(scores: seq<real>, lo: real, hi: real)
    requires scores != []
    requires forall i :: 0 <= i < |scores| ==> lo <= scores[i] <= hi
    ensures lo <= Top10Avg(scores) <= hi
  {
    if |scores| >= 10 {
      MeanBounds(scores[..10], lo, hi);
    } else {
      MeanBounds(scores, lo, hi);
    }
  }

  /** Over scores sorted highest first, the top-ten average is at most the
      best score and at least every score below the tenth. */
  lemma Top10AvgOfSorted(scores: seq<real>)
    requires SortedDesc(scores, Id)
    ensures scores != [] ==> Top10Avg(scores) <= scores[0]
    ensures forall j :: 10 <= j < |scores| ==> scores[j] <= Top10Avg(scores)
  {
    if |scores| >= 10 {
      var w := scores[..10];
      assert forall i :: 0 <= i < 10 ==> w[i] == scores[i] && Id(scores[0]) >= Id(scores[i]) >= Id(scores[9]);
      MeanBounds(w, scores[9], scores[0]);
      forall j | 10 <= j < |scores| ensures scores[j] <= Top10Avg(scores) {
        assert Id(scores[9]) >= Id(scores[j]);
      }
    } else if scores != [] {
      assert forall i :: 0 <= i < |scores| ==> Id(scores[0]) >= Id(scores[i]) || i == 0;
      MeanBounds(scores, scores[|scores| - 1], scores[0]);
    }
  }

  // ---------------------------------------------------------------------
  // Similarity, diversity and coverage formulas
  // ---------------------------------------------------------------------

  /** The evaluator's cosine: dot / (|a| |b|), and 0.0 when the product of
      the norms is zero. */
  function SampleSimilarity(a: Vector, b: Vector, dot: (Vector, Vector) -> real, norm: Vector -> real): (s: real)
    ensures norm(a) * norm(b) == 0.0 ==> s == 0.0
    ensures norm(a) * norm(b) != 0.0 ==> s * (norm(a) * norm(b)) == dot(a, b)
  {
    var d := norm(a) * norm(b);
    if d != 0.0 then dot(a, b) / d else 0.0
  }

  /** diversity_percentage: distinct jobs over max(1, embedded jobs), in
      percent. */
  function DiversityPct(distinct: nat, embedded: nat): (r: real)
    ensures r >= 0.0
    ensures distinct <= embedded ==> r <= 100.0
    ensures distinct == 0 ==> r == 0.0
  {
    var d := if embedded > 1 then embedded else 1;
    assert distinct <= embedded ==> distinct <= d || embedded == 0;
    (distinct as real) / (d as real) * 100.0
  }

  /** One side's coverage: embedded rows over rows with content, 0 when no
      row has content. */
  function CoveragePct(embedded: nat, possible: nat): (r: real)
    ensures possible == 0 ==> r == 0.0
    ensures r >= 0.0
    ensures embedded <= possible ==> r <= 100.0
    ensures 0 < possible && embedded == possible ==> r == 100.0
  {
    if possible > 0 then (embedded as real) / (possible as real) * 100.0 else 0.0
  }

  /** coverage_percentage: the average of the job and resume coverages. */
  function ModelCoverage(jobsEmbedded: nat, jobsPossible: nat, resumesEmbedded: nat, resumesPossible: nat): (r: real)
    ensures r >= 0.0
    ensures jobsEmbedded <= jobsPossible && resumesEmbedded <= resumesPossible ==> r <= 100.0
    ensures jobsPossible == 0 && resumesPossible == 0 ==> r == 0.0
  {
    (CoveragePct(jobsEmbedded, jobsPossible) + CoveragePct(resumesEmbedded, resumesPossible)) / 2.0
  }

  /** The pipeline's coverage divides by every job row, the evaluator's by
      the rows with content: one embedded job beside one job without
      content reads 50% in the one and 100% in the other. */
  lemma CoverageDenominatorsDiffer()
    ensures Matching.CoveragePercent(1, 2) == 50.0
    ensures CoveragePct(1, 1) == 100.0
  {
  }

  // ---------------------------------------------------------------------
  // Top-ten rows per resume
  // ---------------------------------------------------------------------

  function Similarity(ms: map<MatchKey, MatchScore>, k: MatchKey): real {
    if k in ms then ms[k].similarity else 0.0
  }

  /** The rows of one resume. */
  function RowsOf(rows: set<MatchKey>, r: int): set<MatchKey> {
    set k | k in rows && k.0 == r
  }

  /** The rows of the same resume that score strictly higher than k. */
  function Above(rows: set<MatchKey>, ms: map<MatchKey, MatchScore>, k: MatchKey): set<MatchKey> {
    set k' | k' in rows && k'.0 == k.0 && Similarity(ms, k') > Similarity(ms, k)
  }

  /** ROW_NUMBER() OVER (PARTITION BY resume ORDER BY score DESC) <= 10:
      fewer than ten rows of the same resume score higher. */
  predicate InTopTen(rows: set<MatchKey>, ms: map<MatchKey, MatchScore>, k: MatchKey) {
    k in rows && |Above(rows, ms, k)| < 10
  }

  /** A choice of the rows of resume r that ROW_NUMBER() numbers 1 to 10:
      min(10, n) distinct rows of r, none of the rows left out scoring
      above a row kept. Ties are broken arbitrarily, as SQL leaves them. */
  ghost predicate IsTopOf(rows: set<MatchKey>, ms: map<MatchKey, MatchScore>, r: int, top: seq<MatchKey>) {
    |top| == Min(10, |RowsOf(rows, r)|)
    && NoDuplicates(top)
    && (forall t :: t in top ==> t in RowsOf(rows, r))
    && (forall k, t :: k in RowsOf(rows, r) && k !in top && t in top ==> Similarity(ms, k) <= Similarity(ms, t))
  }

  /** One resume's top ten rows, highest first. */
  method TopTen(rows: set<MatchKey>, ms: map<MatchKey, MatchScore>, r: int) returns (top: seq<MatchKey>)
    ensures IsTopOf(rows, ms, r, top)
    ensures forall t :: t in top ==> t.0 == r && InTopTen(rows, ms, t)
    ensures |RowsOf(rows, r)| <= 10 ==> forall k :: k in RowsOf(rows, r) ==> k in top
  {
    var mine := RowsOf(rows, r);
    var score := (k: MatchKey) => Similarity(ms, k);
    top := SelectTop(mine, score, 10);
    forall i | 0 <= i < |top| ensures InTopTen(rows, ms, top[i]) {
      var t := top[i];
      assert t in mine;
      assert forall k :: k in mine && k !in top ==> score(k) <= score(t);
      assert forall j :: i <= j < |top| ==> score(top[j]) <= score(t);
      forall k | k in Above(rows, ms, t) ensures k in top[..i] {
        assert k in mine && score(k) > score(t);
        assert k in top;
        var j :| 0 <= j < |top| && top[j] == k;
        assert j < i;
        assert top[..i][j] == k;
      }
      ElementsCard(top[..i]);
      SubsetCardinality(Above(rows, ms, t), set x | x in top[..i]);
    }
    if |mine| <= 10 {
      SelectedAll(top, mine);
    }
  }

  /** The resumes that have rows. */
  function Resumes(rows: set<MatchKey>): set<int> {
    set k | k in rows :: k.0
  }

  /** One top-ten choice for every resume that has rows. */
  ghost predicate IsTopChoice(rows: set<MatchKey>, ms: map<MatchKey, MatchScore>, tops: map<int, seq<MatchKey>>) {
    tops.Keys == Resumes(rows) && forall r :: r in tops ==> IsTopOf(rows, ms, r, tops[r])
  }

  /** The distinct jobs of the chosen rows. */
  function JobsOf(tops: map<int, seq<MatchKey>>): set<int> {
    set r, t | r in tops && t in tops[r] :: t.1
  }

  /** Choosing the rows of one more resume adds their jobs. */
  lemma JobsOfAdd(tops: map<int, seq<MatchKey>>, r: int, top: seq<MatchKey>)
    requires r !in tops
    ensures JobsOf(tops[r := top]) == JobsOf(tops) + set t | t in top :: t.1
  {
    var t2 := tops[r := top];
    forall j | j in JobsOf(t2) ensures j in JobsOf(tops) + set t | t in top :: t.1 {
      var r': int, t: MatchKey :| r' in t2 && t in t2[r'] && t.1 == j;
      if r' != r {
        assert r' in tops && t in tops[r'];
      }
    }
    forall j | j in JobsOf(tops) ensures j in JobsOf(t2) {
      var r': int, t: MatchKey :| r' in tops && t in tops[r'] && t.1 == j;
      assert r' in t2 && t in t2[r'];
    }
    forall j | j in (set t | t in top :: t.1) ensures j in JobsOf(t2) {
      var t: MatchKey :| t in top && t.1 == j;
      assert r in t2 && t in t2[r];
    }
  }

  /** A resume with at most ten rows has all of them chosen, so every job
      it was matched with is counted. */
  lemma SmallResumesCounted(rows: set<MatchKey>, ms: map<MatchKey, MatchScore>, tops: map<int, seq<MatchKey>>, k: MatchKey)
    requires IsTopChoice(rows, ms, tops)
    requires k in rows && |RowsOf(rows, k.0)| <= 10
    ensures k.1 in JobsOf(tops)
  {
    assert k.0 in Resumes(rows);
    var top := tops[k.0];
    SelectedAll(top, RowsOf(rows, k.0));
    assert k in RowsOf(rows, k.0);
    assert k in top;
  }

  /** Every counted job comes from a row of the given set. */
  lemma CountedJobsHaveRows(rows: set<MatchKey>, ms: map<MatchKey, MatchScore>, tops: map<int, seq<MatchKey>>, j: int)
    requires IsTopChoice(rows, ms, tops) && j in JobsOf(tops)
    ensures exists k :: k in rows && k.1 == j
  {
    var r: int, t: MatchKey :| r in tops && t in tops[r] && t.1 == j;
    assert t in RowsOf(rows, r);
  }

  /** The loop state of _calculate_diversity after the resumes of done. */
  ghost predicate Chosen(rows: set<MatchKey>, ms: map<MatchKey, MatchScore>, done: seq<int>,
                         tops: map<int, seq<MatchKey>>, picked: set<int>) {
    tops.Keys == (set x | x in done)
    && (forall r :: r in tops ==> IsTopOf(rows, ms, r, tops[r]))
    && picked == JobsOf(tops)
  }

  lemma ChosenStep(rows: set<MatchKey>, ms: map<MatchKey, MatchScore>, owners: seq<int>, i: int,
                   tops: map<int, seq<MatchKey>>, picked: set<int>, top: seq<MatchKey>)
    requires NoDuplicates(owners) && 0 <= i < |owners|
    requires Chosen(rows, ms, owners[..i], tops, picked) && IsTopOf(rows, ms, owners[i], top)
    ensures Chosen(rows, ms, owners[..i + 1], tops[owners[i] := top], picked + set t | t in top :: t.1)
  {
    assert owners[..i + 1] == owners[..i] + [owners[i]];
    assert owners[i] !in owners[..i];
    JobsOfAdd(tops, owners[i], top);
  }

  /** The ids of a set of rows keyed by (id, model). */
  function Owners(keys: set<EmbKey>): set<int> {
    set k | k in keys :: k.0
  }

  /** The rows of one model have distinct owners. */
  lemma OwnersCard(emb: map<EmbKey, Vector>, model: string)
    ensures |Owners(ModelRows(emb, model))| == |ModelRows(emb, model)|
  {
    var ids := Owners(ModelRows(emb, model));
    TaggedMembers(ids, model);
    assert ModelRows(emb, model) == set id | id in ids :: (id, model);
    TaggedCard(ids, model);
  }

  // ---------------------------------------------------------------------
  // Evaluations and their comparison
  // ---------------------------------------------------------------------

  /** ModelEvaluation, without the score variance and the processing time
      (floating-point and wall-clock values). */
  datatype ModelEvaluation = ModelEvaluation(
    modelName: string, totalJobs: nat, totalResumes: nat, avgEmbeddingTime: real,
    embeddingDimension: nat, top10AvgScore: real, coveragePercentage: real,
    uniqueMatchesTop10: int, diversityScore: real)

  /** unique_matches_top_10: int() of the diversity times the job count over
      100. The diversity is never negative, so int()'s truncation is the
      floor. */
  function UniqueMatches(diversity: real, totalJobs: nat): int {
    (diversity * (totalJobs as real) / 100.0).Floor
  }

  /** The first index holding the largest key, as Python's max keeps the
      first of equal items. */
  function ArgMax<T>(xs: seq<T>, key: T -> real): (i: nat)
    requires xs != []
    ensures i < |xs|
    ensures forall j :: 0 <= j < |xs| ==> key(xs[j]) <= key(xs[i])
    ensures forall j :: 0 <= j < i ==> key(xs[j]) < key(xs[i])
    decreases |xs|
  {
    if |xs| == 1 then 0
    else
      var p := ArgMax(xs[..|xs| - 1], key);
      if key(xs[|xs| - 1]) > key(xs[p]) then |xs| - 1 else p
  }

  /** The first index holding the smallest key, as Python's min does. */
  function ArgMin<T>(xs: seq<T>, key: T -> real): (i: nat)
    requires xs != []
    ensures i < |xs|
    ensures forall j :: 0 <= j < |xs| ==> key(xs[i]) <= key(xs[j])
    ensures forall j :: 0 <= j < i ==> key(xs[i]) < key(xs[j])
  {
    ArgMax(xs, x => -key(x))
  }

  function Score(e: ModelEvaluation): real {
    e.top10AvgScore
  }

  function Diversity(e: ModelEvaluation): real {
    e.diversityScore
  }

  function AvgTime(e: ModelEvaluation): real {
    e.avgEmbeddingTime
  }

  /** The evaluations that timed something. */
  function Timed(es: seq<ModelEvaluation>): (r: seq<ModelEvaluation>)
    ensures forall e :: e in r <==> e in es && e.avgEmbeddingTime > 0.0
  {
    if es == [] then []
    else
      var last := es[|es| - 1];
      Timed(es[..|es| - 1]) + (if last.avgEmbeddingTime > 0.0 then [last] else [])
  }

  datatype Range = Range(low: real, high: real, avg: real)

  /** ComparisonResult with its summary, less the evaluation date. */
  datatype Comparison = Comparison(
    models: seq<ModelEvaluation>, bestByScore: string, bestByDiversity: string, bestBySpeed: string,
    modelsCompared: nat, scoreRange: Range, speedRange: Option<Range>)

  function Scores(es: seq<ModelEvaluation>): (r: seq<real>)
    ensures |r| == |es| && forall i :: 0 <= i < |es| ==> r[i] == es[i].top10AvgScore
  {
    if es == [] then [] else Scores(es[..|es| - 1]) + [es[|es| - 1].top10AvgScore]
  }

  function Times(es: seq<ModelEvaluation>): (r: seq<real>)
    ensures |r| == |es| && forall i :: 0 <= i < |es| ==> r[i] == es[i].avgEmbeddingTime
  {
    if es == [] then [] else Times(es[..|es| - 1]) + [es[|es| - 1].avgEmbeddingTime]
  }

  /** name is the model of the first evaluation with the largest key. */
  ghost predicate IsBest(es: seq<ModelEvaluation>, name: string, key: ModelEvaluation -> real) {
    exists i :: 0 <= i < |es| && name == es[i].modelName
      && (forall j :: 0 <= j < |es| ==> key(es[j]) <= key(es[i]))
      && (forall j :: 0 <= j < i ==> key(es[j]) < key(es[i]))
  }

  /** name is the model of the first evaluation with the smallest key. */
  ghost predicate IsFastest(es: seq<ModelEvaluation>, name: string, key: ModelEvaluation -> real) {
    exists i :: 0 <= i < |es| && name == es[i].modelName
      && (forall j :: 0 <= j < |es| ==> key(es[i]) <= key(es[j]))
      && (forall j :: 0 <= j < i ==> key(es[i]) < key(es[j]))
  }

  function BestName(es: seq<ModelEvaluation>, key: ModelEvaluation -> real): (name: string)
    requires es != []
    ensures IsBest(es, name, key)
  {
    var i := ArgMax(es, key);
    assert 0 <= i < |es| && es[i].modelName == es[i].modelName;
    es[i].modelName
  }

  function FastestName(es: seq<ModelEvaluation>, key: ModelEvaluation -> real): (name: string)
    requires es != []
    ensures IsFastest(es, name, key)
  {
    var i := ArgMin(es, key);
    assert 0 <= i < |es| && es[i].modelName == es[i].modelName;
    es[i].modelName
  }

  /** score_range: the smallest, largest and mean top-ten average. */
  function ScoreRange(es: seq<ModelEvaluation>): (r: Range)
    requires es != []
    ensures forall e :: e in es ==> r.low <= e.top10AvgScore <= r.high
    ensures exists e :: e in es && e.top10AvgScore == r.low
    ensures exists e :: e in es && e.top10AvgScore == r.high
  {
    var lo := ArgMin(es, Score);
    var hi := ArgMax(es, Score);
    assert es[lo] in es && es[hi] in es;
    Range(es[lo].top10AvgScore, es[hi].top10AvgScore, Mean(Scores(es)))
  }

  /** speed_range: over the evaluations that timed something, or None
      when none did. */
  function SpeedRange(es: seq<ModelEvaluation>): (r: Option<Range>)
    ensures r.Some? <==> exists e :: e in es && e.avgEmbeddingTime > 0.0
    ensures r.Some? ==> forall e :: e in es && e.avgEmbeddingTime > 0.0 ==>
              r.value.low <= e.avgEmbeddingTime <= r.value.high
  {
    var timed := Timed(es);
    if timed == [] then None
    else
      var lo := ArgMin(timed, AvgTime);
      var hi := ArgMax(timed, AvgTime);
      assert forall e :: e in timed ==> exists j :: 0 <= j < |timed| && timed[j] == e;
      assert timed[0] in timed;
      Some(Range(timed[lo].avgEmbeddingTime, timed[hi].avgEmbeddingTime, Mean(Times(timed))))
  }

  /** The winners and the summary of compare_models over the evaluations
      that succeeded. */
  function Compare(es: seq<ModelEvaluation>): (c: Comparison)
    requires es != []
    ensures c.models == es && c.modelsCompared == |es|
    ensures IsBest(es, c.bestByScore, Score)
    ensures IsBest(es, c.bestByDiversity, Diversity)
    ensures IsFastest(es, c.bestBySpeed, AvgTime)
    ensures forall e :: e in es ==> c.scoreRange.low <= e.top10AvgScore <= c.scoreRange.high
    ensures c.speedRange.Some? <==> exists e :: e in es && e.avgEmbeddingTime > 0.0
  {
    Comparison(es, BestName(es, Score), BestName(es, Diversity), FastestName(es, AvgTime), |es|,
               ScoreRange(es), SpeedRange(es))
  }

  /** compare_models: an empty list means every available model. */
  function ModelsToCompare(requested: seq<string>, available: seq<string>): (r: seq<string>)
    ensures requested != [] ==> r == requested
    ensures requested == [] ==> r == available
  {
    if requested == [] then available else requested
  }

  /** The names of the models of a list that a fresh client finds ready. */
  function ReadyModels(server: Server, models: seq<string>): (r: seq<string>)
    ensures forall m :: m in r <==> m in models && Available(server, m)
    ensures |r| <= |models|
  {
    if models == [] then []
    else
      var last := models[|models| - 1];
      ReadyModels(server, models[..|models| - 1]) + (if Available(server, last) then [last] else [])
  }

  function Names(es: seq<ModelEvaluation>): (r: seq<string>)
    ensures |r| == |es| && forall i :: 0 <= i < |es| ==> r[i] == es[i].modelName
  {
    if es == [] then [] else Names(es[..|es| - 1]) + [es[|es| - 1].modelName]
  }

  lemma ReadyModelsStep(server: Server, models: seq<string>, i: int)
    requires 0 <= i < |models|
    ensures ReadyModels(server, models[..i + 1])
         == ReadyModels(server, models[..i]) + (if Available(server, models[i]) then [models[i]] else [])
  {
    assert models[..i + 1][..i] == models[..i];
  }

  lemma NamesSnoc(es: seq<ModelEvaluation>, e: ModelEvaluation)
    ensures Names(es + [e]) == Names(es) + [e.modelName]
  {
    assert (es + [e])[..|es|] == es;
  }

  /** At most 5 resumes times at most 20 jobs. */
  lemma SampleSize(resumes: nat, jobs: nat)
    requires resumes <= 5 && jobs <= 20
    ensures resumes * jobs <= 100
  {
    assert resumes * jobs <= 5 * jobs;
  }

  /** `resume_scores.sort(reverse=True)` followed by `[:20]`. */
  function BestTwenty(row: seq<real>): seq<real> {
    var sorted := SortDesc(row, Id);
    sorted[..Min(20, |sorted|)]
  }

  /** The similarity of a resume's vector with job j's vector for the
      model (0.0 for a job without one, which the sample never draws). */
  function JobScore(je: map<EmbKey, Vector>, model: string, rv: Vector, j: int,
                    dot: (Vector, Vector) -> real, norm: Vector -> real): real {
    if (j, model) in je then SampleSimilarity(rv, je[(j, model)], dot, norm) else 0.0
  }

  /** One resume's scores against the jobs js, in the order of js. */
  function RowScores(je: map<EmbKey, Vector>, model: string, rv: Vector, js: seq<int>,
                     dot: (Vector, Vector) -> real, norm: Vector -> real): (row: seq<real>)
    ensures |row| == |js|
  {
    if js == [] then []
    else RowScores(je, model, rv, js[..|js| - 1], dot, norm) + [JobScore(je, model, rv, js[|js| - 1], dot, norm)]
  }

  /** Resume r's vector for the model ([] for a resume without one, which
      the sample never draws). */
  function ResumeVector(re: map<EmbKey, Vector>, model: string, r: int): Vector {
    if (r, model) in re then re[(r, model)] else []
  }

  /** The best twenty scores of resume r against the jobs js. */
  function ResumeBest(re: map<EmbKey, Vector>, je: map<EmbKey, Vector>, model: string, r: int, js: seq<int>,
                      dot: (Vector, Vector) -> real, norm: Vector -> real): seq<real> {
    BestTwenty(RowScores(je, model, ResumeVector(re, model, r), js, dot, norm))
  }

  /** The best twenty scores of each resume of rs, one resume after the
      other. */
  function SampleOf(re: map<EmbKey, Vector>, je: map<EmbKey, Vector>, model: string, rs: seq<int>, js: seq<int>,
                    dot: (Vector, Vector) -> real, norm: Vector -> real): seq<real> {
    if rs == [] then []
    else SampleOf(re, je, model, rs[..|rs| - 1], js, dot, norm) + ResumeBest(re, je, model, rs[|rs| - 1], js, dot, norm)
  }

  /** Each drawn resume adds min(20, |js|) scores. */
  lemma {:induction false} SampleLength(re: map<EmbKey, Vector>, je: map<EmbKey, Vector>, model: string,
                                        rs: seq<int>, js: seq<int>, dot: (Vector, Vector) -> real, norm: Vector -> real)
    ensures |SampleOf(re, je, model, rs, js, dot, norm)| == |rs| * Min(20, |js|)
    decreases |rs|
  {
    if rs != [] {
      SampleLength(re, je, model, rs[..|rs| - 1], js, dot, norm);
      BestTwentyHighest(RowScores(je, model, ResumeVector(re, model, rs[|rs| - 1]), js, dot, norm));
      assert (|rs| - 1) * Min(20, |js|) + Min(20, |js|) == |rs| * Min(20, |js|);
    }
  }

  /** Every sampled score is one of its resume's row scores, so a pool that
      holds every row score holds the sample. */
  lemma {:induction false} SampleWithin(re: map<EmbKey, Vector>, je: map<EmbKey, Vector>, model: string,
                                        rs: seq<int>, js: seq<int>, dot: (Vector, Vector) -> real,
                                        norm: Vector -> real, pool: set<real>)
    requires forall r, x :: r in rs && x in RowScores(je, model, ResumeVector(re, model, r), js, dot, norm) ==> x in pool
    ensures forall x :: x in SampleOf(re, je, model, rs, js, dot, norm) ==> x in pool
    decreases |rs|
  {
    if rs != [] {
      var r := rs[|rs| - 1];
      assert r in rs;
      assert forall r' :: r' in rs[..|rs| - 1] ==> r' in rs;
      SampleWithin(re, je, model, rs[..|rs| - 1], js, dot, norm, pool);
      var row := RowScores(je, model, ResumeVector(re, model, r), js, dot, norm);
      BestTwentyHighest(row);
      forall x | x in BestTwenty(row) ensures x in pool {
        assert x in multiset(row);
      }
    }
  }

  /** No job drawn means no score, whatever resumes were drawn. */
  lemma {:induction false} EmptySample(re: map<EmbKey, Vector>, je: map<EmbKey, Vector>, model: string,
                                       rs: seq<int>, dot: (Vector, Vector) -> real, norm: Vector -> real)
    ensures SampleOf(re, je, model, rs, [], dot, norm) == []
    decreases |rs|
  {
    if rs != [] {
      EmptySample(re, je, model, rs[..|rs| - 1], dot, norm);
    }
  }

  /** A prefix of a sorted sequence is sorted, and no element after it is
      above an element in it. */
  lemma SortedPrefix(sorted: seq<real>, m: int)
    requires SortedDesc(sorted, Id) && 0 <= m <= |sorted|
    ensures SortedDesc(sorted[..m], Id)
    ensures forall x, t :: x in sorted[m..] && t in sorted[..m] ==> x <= t
  {
    forall x, t | x in sorted[m..] && t in sorted[..m] ensures x <= t {
      var j :| 0 <= j < |sorted| - m && sorted[m..][j] == x;
      var i :| 0 <= i < m && sorted[..m][i] == t;
      assert sorted[m + j] == x && sorted[i] == t;
    }
  }

  /** The kept scores are twenty (or all) of the row's scores, highest
      first, and no score left out is above one kept. */
  lemma BestTwentyHighest(row: seq<real>)
    ensures |BestTwenty(row)| == Min(20, |row|)
    ensures SortedDesc(BestTwenty(row), Id)
    ensures multiset(BestTwenty(row)) <= multiset(row)
    ensures forall x, t :: x in multiset(row) - multiset(BestTwenty(row)) && t in BestTwenty(row) ==> x <= t
  {
    var sorted := SortDesc(row, Id);
    SortDescCorrect(row, Id);
    var m := Min(20, |sorted|);
    assert |sorted| == |row| by {
      assert |multiset(sorted)| == |multiset(row)|;
    }
    SortedPrefix(sorted, m);
    Halves(sorted, m);
    KeptAboveRest(multiset(row), sorted[..m], sorted[m..]);
  }

  /** Splitting the scores into kept and rest, where nothing in rest is
      above anything kept, leaves every dropped score below the kept ones. */
  lemma KeptAboveRest(whole: multiset<real>, kept: seq<real>, rest: seq<real>)
    requires whole == multiset(kept) + multiset(rest)
    requires forall x, t :: x in rest && t in kept ==> x <= t
    ensures multiset(kept) <= whole
    ensures forall x, t :: x in whole - multiset(kept) && t in kept ==> x <= t
  {
    assert whole - multiset(kept) == multiset(rest);
    forall x, t | x in whole - multiset(kept) && t in kept ensures x <= t {
      assert x in multiset(rest);
      assert x in rest;
    }
  }

  lemma Halves(s: seq<real>, m: int)
    requires 0 <= m <= |s|
    ensures multiset(s) == multiset(s[..m]) + multiset(s[m..])
  {
    assert s == s[..m] + s[m..];
  }

  /** Only the rows of the listed models can change, and no row is
      removed. */
  ghost predicate OnlyModels(before: map<EmbKey, Vector>, after: map<EmbKey, Vector>, models: seq<string>) {
    (forall k :: k in before ==> k in after)
    && forall k: EmbKey :: k.1 !in models ==> (k in after <==> k in before) && (k in after ==> after[k] == before[k])
  }

  /** Runs that change the rows of some models, then of one more, change
      the rows of those models only. */
  lemma OnlyModelsStep(a: map<EmbKey, Vector>, b: map<EmbKey, Vector>, c: map<EmbKey, Vector>,
                       models: seq<string>, model: string)
    requires OnlyModels(a, b, models) && OnlyModels(b, c, [model])
    ensures OnlyModels(a, c, models + [model])
  {
  }

  /** EmbeddingModelEvaluator over one store and one server. The list of
      available models, the dot product, the norm and the duration of an
      embedding call are given to it. */
  class ModelEvaluator {
    const db: SoupBossDb
    const server: Server
    const availableModels: seq<string>
    const dot: (Vector, Vector) -> real
    const norm: Vector -> real
    const elapsed: (string, Option<string>) -> real

    constructor (db: SoupBossDb, server: Server, availableModels: seq<string>, dot: (Vector, Vector) -> real,
                 norm: Vector -> real, elapsed: (string, Option<string>) -> real)
      ensures this.db == db && this.server == server && this.availableModels == availableModels
      ensures this.dot == dot && this.norm == norm && this.elapsed == elapsed
    {
      this.db := db;
      this.server := server;
      this.availableModels := availableModels;
      this.dot := dot;
      this.norm := norm;
      this.elapsed := elapsed;
    }

    /** Resumes that exist and have an embedding for the model. */
    function SampledResumes(model: string): set<int>
      reads this, db
    {
      set id | id in db.resumes && (id, model) in db.resumeEmb
    }

    /** Jobs that exist and have an embedding for the model. */
    function SampledJobs(model: string): set<int>
      reads this, db
    {
      set id | id in db.jobs && (id, model) in db.jobEmb
    }

    /** Every similarity a sampled resume and a sampled job can have. */
    function PairScores(model: string): set<real>
      reads this, db
    {
      set r, j | r in SampledResumes(model) && j in SampledJobs(model)
        :: SampleSimilarity(db.resumeEmb[(r, model)], db.jobEmb[(j, model)], dot, norm)
    }

    /** The random draw: at most 5 distinct embedded resumes and, when one
        was drawn, at most 100 distinct embedded jobs. */
    ghost predicate SampleChoice(model: string, rs: seq<int>, js: seq<int>)
      reads this, db
    {
      NoDuplicates(rs) && NoDuplicates(js)
      && (forall r :: r in rs ==> r in SampledResumes(model))
      && (forall j :: j in js ==> j in SampledJobs(model))
      && |rs| == Min(5, |SampledResumes(model)|)
      && (rs != [] ==> |js| == Min(100, |SampledJobs(model)|))
    }

    /** What _calculate_sample_similarities promises: for some draw of
        resumes and jobs, the best 20 scores of each drawn resume, all
        sorted highest first. */
    ghost predicate IsSample(model: string, scores: seq<real>)
      reads this, db
    {
      |scores| == Min(5, |SampledResumes(model)|) * Min(20, |SampledJobs(model)|)
      && |scores| <= 100
      && (SampledResumes(model) == {} || SampledJobs(model) == {} ==> scores == [])
      && SortedDesc(scores, Id)
      && (forall i :: 0 <= i < |scores| ==> scores[i] in PairScores(model))
      && exists rs, js :: SampleChoice(model, rs, js) && scores == SortDesc(SampleOf(db.resumeEmb, db.jobEmb, model, rs, js, dot, norm), Id)
    }

    /** The match rows whose job and resume both have an embedding for the
        model (the match's own model is not filtered). */
    function QualifyingRows(model: string): set<MatchKey>
      reads this, db
    {
      set k | k in db.matches && (k.1, model) in db.jobEmb && (k.0, model) in db.resumeEmb
    }

    /** What _calculate_diversity's DISTINCT job ids are: the jobs of a
        top-ten choice of rows for every resume with qualifying rows. */
    ghost predicate IsTopTenJobs(model: string, picked: set<int>)
      reads this, db
    {
      exists tops :: IsTopChoice(QualifyingRows(model), db.matches, tops) && picked == JobsOf(tops)
    }

    /** The rows with content_text, the denominators of the coverage. */
    function JobsWithContent(): set<int>
      reads this, db
    {
      set id | id in db.jobs && db.jobs[id].contentText.Some?
    }

    function ResumesWithContent(): set<int>
      reads this, db
    {
      set id | id in db.resumes && db.resumes[id].contentText.Some?
    }

    /** What _calculate_model_metrics reports for the model. */
    ghost predicate MetricsHold(model: string, m: ModelEvaluation, scores: seq<real>, picked: set<int>)
      reads this, db
    {
      m.modelName == model
      && m.totalJobs == |ModelRows(db.jobEmb, model)| && m.totalResumes == |ModelRows(db.resumeEmb, model)|
      && (ModelRows(db.jobEmb, model) == {} ==> m.embeddingDimension == 0)
      && (ModelRows(db.jobEmb, model) != {} ==>
            exists k :: k in ModelRows(db.jobEmb, model) && m.embeddingDimension == |db.jobEmb[k]|)
      && IsSample(model, scores) && m.top10AvgScore == Top10Avg(scores)
      && m.coveragePercentage == ModelCoverage(m.totalJobs, |JobsWithContent()|,
                                               m.totalResumes, |ResumesWithContent()|)
      && IsTopTenJobs(model, picked)
      && m.diversityScore == DiversityPct(|picked|, m.totalJobs)
      && 0.0 <= m.diversityScore <= 100.0
      && m.uniqueMatchesTop10 == UniqueMatches(m.diversityScore, m.totalJobs)
    }

    /** The scores of one resume against the sampled jobs, best 20 first. */
    method ResumeTopScores(model: string, r: int, jdata: seq<int>) returns (top: seq<real>)
      requires r in SampledResumes(model)
      requires forall j :: j in jdata ==> j in SampledJobs(model)
      ensures top == ResumeBest(db.resumeEmb, db.jobEmb, model, r, jdata, dot, norm)
    {
      var rv := db.resumeEmb[(r, model)];
      assert rv == ResumeVector(db.resumeEmb, model, r);
      var row: seq<real> := [];
      for b := 0 to |jdata|
        invariant row == RowScores(db.jobEmb, model, rv, jdata[..b], dot, norm)
      {
        var j := jdata[b];
        assert j in jdata;
        var s := SampleSimilarity(rv, db.jobEmb[(j, model)], dot, norm);
        assert jdata[..b + 1][..b] == jdata[..b];
        row := row + [s];
      }
      assert jdata[..|jdata|] == jdata;
      var sorted := SortDesc(row, Id);
      top := sorted[..Min(20, |sorted|)];
    }

    /** A resume's scores against sampled jobs are pair scores. */
    lemma {:induction false} RowScoresIn(model: string, r: int, js: seq<int>)
      requires r in SampledResumes(model)
      requires forall j :: j in js ==> j in SampledJobs(model)
      ensures forall x :: x in RowScores(db.jobEmb, model, ResumeVector(db.resumeEmb, model, r), js, dot, norm) ==> x in PairScores(model)
      decreases |js|
    {
      if js != [] {
        var j := js[|js| - 1];
        assert j in js;
        assert forall j' :: j' in js[..|js| - 1] ==> j' in js;
        RowScoresIn(model, r, js[..|js| - 1]);
      }
    }

    /** The sorted scores of a draw are pair scores. */
    lemma DrawWithin(model: string, rs: seq<int>, js: seq<int>, scores: seq<real>)
      requires forall r :: r in rs ==> r in SampledResumes(model)
      requires forall j :: j in js ==> j in SampledJobs(model)
      requires scores == SortDesc(SampleOf(db.resumeEmb, db.jobEmb, model, rs, js, dot, norm), Id)
      ensures forall i :: 0 <= i < |scores| ==> scores[i] in PairScores(model)
    {
      var all := SampleOf(db.resumeEmb, db.jobEmb, model, rs, js, dot, norm);
      forall r, x | r in rs && x in RowScores(db.jobEmb, model, ResumeVector(db.resumeEmb, model, r), js, dot, norm)
        ensures x in PairScores(model)
      {
        RowScoresIn(model, r, js);
      }
      SampleWithin(db.resumeEmb, db.jobEmb, model, rs, js, dot, norm, PairScores(model));
      SortDescCorrect(all, Id);
      forall i | 0 <= i < |scores| ensures scores[i] in PairScores(model) {
        assert scores[i] in multiset(all);
      }
    }

    /** The sorted scores of a draw have the size the sample promises. */
    lemma DrawSize(model: string, rs: seq<int>, js: seq<int>, scores: seq<real>)
      requires |rs| <= 5
      requires scores == SortDesc(SampleOf(db.resumeEmb, db.jobEmb, model, rs, js, dot, norm), Id)
      ensures |scores| == |rs| * Min(20, |js|) <= 100
      ensures SortedDesc(scores, Id)
    {
      var all := SampleOf(db.resumeEmb, db.jobEmb, model, rs, js, dot, norm);
      SampleLength(db.resumeEmb, db.jobEmb, model, rs, js, dot, norm);
      SortDescCorrect(all, Id);
      SampleSize(|rs|, Min(20, |js|));
    }

    /** The draw of SampleSimilarities and its sorted scores make a
        sample. */
    lemma DrawIsSample(model: string, rall: seq<int>, jall: seq<int>, n: int, m: int, scores: seq<real>)
      requires NoDuplicates(rall) && (forall r :: r in rall <==> r in SampledResumes(model)) && |rall| == |SampledResumes(model)|
      requires NoDuplicates(jall) && (forall j :: j in jall <==> j in SampledJobs(model)) && |jall| == |SampledJobs(model)|
      requires n == Min(5, |rall|) && m == Min(100, |jall|) && 0 < n && 0 < m
      requires scores == SortDesc(SampleOf(db.resumeEmb, db.jobEmb, model, rall[..n], jall[..m], dot, norm), Id)
      ensures IsSample(model, scores)
    {
      var rs, js := rall[..n], jall[..m];
      PrefixDistinct(rall, n);
      PrefixDistinct(jall, m);
      DrawSize(model, rs, js, scores);
      DrawWithin(model, rs, js, scores);
      assert SampleChoice(model, rs, js);
    }

    /** With no embedded resume or no embedded job the sample is empty. */
    lemma EmptyDrawIsSample(model: string, rall: seq<int>)
      requires NoDuplicates(rall) && (forall r :: r in rall <==> r in SampledResumes(model)) && |rall| == |SampledResumes(model)|
      requires SampledResumes(model) == {} || SampledJobs(model) == {}
      ensures IsSample(model, [])
    {
      var rs := rall[..Min(5, |rall|)];
      PrefixDistinct(rall, |rs|);
      EmptySample(db.resumeEmb, db.jobEmb, model, rs, dot, norm);
      assert SampleChoice(model, rs, []);
      assert SortDesc(SampleOf(db.resumeEmb, db.jobEmb, model, rs, [], dot, norm), Id) == [];
    }

    /** The best 20 scores of each sampled resume, one resume after the
        other. */
    method ScoreSample(model: string, rdata: seq<int>, jdata: seq<int>) returns (all: seq<real>)
      requires forall r :: r in rdata ==> r in SampledResumes(model)
      requires forall j :: j in jdata ==> j in SampledJobs(model)
      ensures all == SampleOf(db.resumeEmb, db.jobEmb, model, rdata, jdata, dot, norm)
    {
      all := [];
      for i := 0 to |rdata|
        invariant all == SampleOf(db.resumeEmb, db.jobEmb, model, rdata[..i], jdata, dot, norm)
      {
        assert rdata[i] in rdata;
        assert rdata[..i + 1][..i] == rdata[..i];
        var top := ResumeTopScores(model, rdata[i], jdata);
        all := all + top;
      }
      assert rdata[..|rdata|] == rdata;
    }

    /** _calculate_sample_similarities */
    method SampleSimilarities(model: string) returns (scores: seq<real>)
      ensures IsSample(model, scores)
    {
      var rall := Enumerate(SampledResumes(model));
      var rdata := rall[..Min(10, |rall|)];
      if rdata == [] {
        EmptyDrawIsSample(model, rall);
        return [];
      }
      var jall := Enumerate(SampledJobs(model));
      var jdata := jall[..Min(100, |jall|)];
      var n := Min(5, |rdata|);
      if jdata == [] {
        EmptyDrawIsSample(model, rall);
        return [];
      }
      assert rdata[..n] == rall[..n];
      PrefixDistinct(rall, n);
      PrefixDistinct(jall, |jdata|);
      var all := ScoreSample(model, rdata[..n], jdata);
      scores := SortDesc(all, Id);
      DrawIsSample(model, rall, jall, n, |jdata|, scores);
    }

    /** _calculate_diversity: the distinct jobs of the resumes' top ten
        rows, as a percentage of the model's embedded jobs. */
    method CalculateDiversity(model: string) returns (d: real, picked: set<int>)
      ensures IsTopTenJobs(model, picked)
      ensures d == DiversityPct(|picked|, |ModelRows(db.jobEmb, model)|)
      ensures 0.0 <= d <= 100.0
    {
      var rows := QualifyingRows(model);
      var ms := db.matches;
      var owners := Enumerate(Resumes(rows));
      picked := {};
      ghost var tops: map<int, seq<MatchKey>> := map[];
      for i := 0 to |owners|
        invariant Chosen(rows, ms, owners[..i], tops, picked)
      {
        var top := TopTen(rows, ms, owners[i]);
        ChosenStep(rows, ms, owners, i, tops, picked, top);
        tops := tops[owners[i] := top];
        picked := picked + set t | t in top :: t.1;
      }
      assert owners[..|owners|] == owners;
      assert IsTopChoice(rows, ms, tops);
      PickedAreEmbedded(model, picked, tops);
      d := DiversityPct(|picked|, |ModelRows(db.jobEmb, model)|);
    }

    /** Every counted job has an embedding row for the model, so the count
        is at most the model's embedded jobs. */
    lemma PickedAreEmbedded(model: string, picked: set<int>, tops: map<int, seq<MatchKey>>)
      requires IsTopChoice(QualifyingRows(model), db.matches, tops) && picked == JobsOf(tops)
      ensures |picked| <= |ModelRows(db.jobEmb, model)|
    {
      forall j | j in picked ensures j in Owners(ModelRows(db.jobEmb, model)) {
        CountedJobsHaveRows(QualifyingRows(model), db.matches, tops, j);
        var k :| k in QualifyingRows(model) && k.1 == j;
        assert (j, model) in ModelRows(db.jobEmb, model);
      }
      SubsetCardinality(picked, Owners(ModelRows(db.jobEmb, model)));
      OwnersCard(db.jobEmb, model);
    }

    /** The dimension of some job embedding of the model, 0 without one
        (LIMIT 1 without ORDER BY picks any row). */
    method EmbeddingDimension(model: string) returns (dim: nat)
      ensures ModelRows(db.jobEmb, model) == {} ==> dim == 0
      ensures ModelRows(db.jobEmb, model) != {} ==>
                exists k :: k in ModelRows(db.jobEmb, model) && dim == |db.jobEmb[k]|
    {
      var rows := Enumerate(ModelRows(db.jobEmb, model));
      if rows == [] {
        return 0;
      }
      assert rows[0] in rows;
      dim := |db.jobEmb[rows[0]]|;
    }

    /** _calculate_model_metrics, with avg_embedding_time left at 0.0 for
        the caller. */
    method CalculateModelMetrics(model: string) returns (m: ModelEvaluation, ghost scores: seq<real>, ghost picked: set<int>)
      ensures MetricsHold(model, m, scores, picked)
      ensures m.avgEmbeddingTime == 0.0
    {
      var dim, s, div, p := Measure(model);
      m := MetricsOf(model, dim, s, div);
      MetricsOfHold(model, dim, s, div, p);
      scores, picked := s, p;
    }

    /** The three measurements of _calculate_model_metrics, each meeting
        its own contract. They only read the store, so their order does
        not matter. */
    method Measure(model: string) returns (dim: nat, s: seq<real>, div: real, p: set<int>)
      ensures ModelRows(db.jobEmb, model) == {} ==> dim == 0
      ensures ModelRows(db.jobEmb, model) != {} ==> exists k :: k in ModelRows(db.jobEmb, model) && dim == |db.jobEmb[k]|
      ensures IsSample(model, s)
      ensures IsTopTenJobs(model, p) && div == DiversityPct(|p|, |ModelRows(db.jobEmb, model)|) && 0.0 <= div <= 100.0
    {
      div, p := CalculateDiversity(model);
      dim := EmbeddingDimension(model);
      s := SampleSimilarities(model);
    }

    /** The evaluation _calculate_model_metrics builds from the dimension,
        the sample and the diversity it measured. */
    function MetricsOf(model: string, dim: nat, s: seq<real>, div: real): ModelEvaluation
      reads this, db
    {
      var totalJobs := |ModelRows(db.jobEmb, model)|;
      var totalResumes := |ModelRows(db.resumeEmb, model)|;
      ModelEvaluation(model, totalJobs, totalResumes, 0.0, dim, Top10Avg(s),
                      ModelCoverage(totalJobs, |JobsWithContent()|, totalResumes, |ResumesWithContent()|),
                      UniqueMatches(div, totalJobs), div)
    }

    /** Measurements that meet their own contracts make metrics that hold. */
    lemma MetricsOfHold(model: string, dim: nat, s: seq<real>, div: real, p: set<int>)
      requires ModelRows(db.jobEmb, model) == {} ==> dim == 0
      requires ModelRows(db.jobEmb, model) != {} ==> exists k :: k in ModelRows(db.jobEmb, model) && dim == |db.jobEmb[k]|
      requires IsSample(model, s)
      requires IsTopTenJobs(model, p) && div == DiversityPct(|p|, |ModelRows(db.jobEmb, model)|) && 0.0 <= div <= 100.0
      ensures MetricsHold(model, MetricsOf(model, dim, s, div), s, p)
    {
    }

    /** One step of the job loop: embed, time the call, save the vector. */
    method EmbedJob(client: EmbeddingClient, texts: map<int, Option<string>>, ghost start: map<EmbKey, Vector>,
                   ghost done: seq<int>, id: int) returns (t: real)
      requires db.Valid() && client.modelReady == Some(true) && id in texts
      requires db.jobEmb == SaveAll(start, client.model, Vectors(client.server, client.model, texts, done))
      modifies db, client
      ensures db.Valid() && client.modelReady == Some(true)
      ensures t == elapsed(client.model, texts[id])
      ensures db.jobEmb == SaveAll(start, client.model, Vectors(client.server, client.model, texts, done + [id]))
      ensures db.jobs == old(db.jobs) && db.resumes == old(db.resumes) && db.companies == old(db.companies)
      ensures db.resumeEmb == old(db.resumeEmb) && db.matches == old(db.matches) && db.Counters() == old(db.Counters())
    {
      ghost var vecs := Vectors(client.server, client.model, texts, done);
      var e := EmbedOne(client, texts[id]);
      t := elapsed(client.model, texts[id]);
      VectorsSnoc(client.server, client.model, texts, done, id);
      if e.Some? {
        SaveAllUpdate(start, client.model, vecs, id, e.value);
      }
      SaveJobVector(id, client.model, e);
    }

    /** Stores a vector that came back; nothing is stored for None. */
    method SaveJobVector(id: int, model: string, e: Option<Vector>)
      requires db.Valid()
      modifies db
      ensures db.Valid()
      ensures db.jobEmb == if e.Some? then old(db.jobEmb)[(id, model) := e.value] else old(db.jobEmb)
      ensures db.jobs == old(db.jobs) && db.resumes == old(db.resumes) && db.companies == old(db.companies)
      ensures db.resumeEmb == old(db.resumeEmb) && db.matches == old(db.matches) && db.Counters() == old(db.Counters())
    {
      if e.Some? {
        db.SaveJobEmbedding(id, model, e.value);
      }
    }

    /** One step of the resume loop: embed, time the call, save the vector. */
    method EmbedResume(client: EmbeddingClient, texts: map<int, Option<string>>, ghost start: map<EmbKey, Vector>,
                   ghost done: seq<int>, id: int) returns (t: real)
      requires db.Valid() && client.modelReady == Some(true) && id in texts
      requires db.resumeEmb == SaveAll(start, client.model, Vectors(client.server, client.model, texts, done))
      modifies db, client
      ensures db.Valid() && client.modelReady == Some(true)
      ensures t == elapsed(client.model, texts[id])
      ensures db.resumeEmb == SaveAll(start, client.model, Vectors(client.server, client.model, texts, done + [id]))
      ensures db.jobs == old(db.jobs) && db.resumes == old(db.resumes) && db.companies == old(db.companies)
      ensures db.jobEmb == old(db.jobEmb) && db.matches == old(db.matches) && db.Counters() == old(db.Counters())
    {
      ghost var vecs := Vectors(client.server, client.model, texts, done);
      var e := EmbedOne(client, texts[id]);
      t := elapsed(client.model, texts[id]);
      VectorsSnoc(client.server, client.model, texts, done, id);
      if e.Some? {
        SaveAllUpdate(start, client.model, vecs, id, e.value);
      }
      SaveResumeVector(id, client.model, e);
    }

    method SaveResumeVector(id: int, model: string, e: Option<Vector>)
      requires db.Valid()
      modifies db
      ensures db.Valid()
      ensures db.resumeEmb == if e.Some? then old(db.resumeEmb)[(id, model) := e.value] else old(db.resumeEmb)
      ensures db.jobs == old(db.jobs) && db.resumes == old(db.resumes) && db.companies == old(db.companies)
      ensures db.jobEmb == old(db.jobEmb) && db.matches == old(db.matches) && db.Counters() == old(db.Counters())
    {
      if e.Some? {
        db.SaveResumeEmbedding(id, model, e.value);
      }
    }

    /** One call of generate_embedding on a ready client. */
    method EmbedOne(client: EmbeddingClient, text: Option<string>) returns (e: Option<Vector>)
      requires client.modelReady == Some(true)
      modifies client
      ensures client.modelReady == Some(true)
      ensures e == EmbeddingOf(client.server, client.model, true, text)
    {
      e := client.GenerateEmbedding(text);
    }

    /** The job loop of generate_embeddings_for_model: embed each
        candidate's content, time every call, save the vectors that come
        back. */
    method EmbedJobs(client: EmbeddingClient, texts: map<int, Option<string>>, ids: seq<int>)
      returns (times: seq<real>)
      requires db.Valid() && client.modelReady == Some(true)
      requires forall id :: id in ids ==> id in texts
      modifies db, client
      ensures db.Valid() && client.modelReady == Some(true)
      ensures times == Durations(elapsed, client.model, texts, ids)
      ensures db.jobEmb == SaveAll(old(db.jobEmb), client.model, Vectors(client.server, client.model, texts, ids))
      ensures db.jobs == old(db.jobs) && db.resumes == old(db.resumes) && db.companies == old(db.companies)
      ensures db.Counters() == old(db.Counters())
      ensures db.resumeEmb == old(db.resumeEmb) && db.matches == old(db.matches)
    {
      for i := 0 to |ids|
        invariant db.Valid() && client.modelReady == Some(true)
        invariant db.Counters() == old(db.Counters())
        invariant db.resumeEmb == old(db.resumeEmb) && db.matches == old(db.matches)
        invariant db.jobs == old(db.jobs) && db.resumes == old(db.resumes) && db.companies == old(db.companies)
        invariant db.jobEmb == SaveAll(old(db.jobEmb), client.model, Vectors(client.server, client.model, texts, ids[..i]))
      {
        var id := ids[i];
        assert ids[..i + 1] == ids[..i] + [id];
        assert id in ids;
        var _ := EmbedJob(client, texts, old(db.jobEmb), ids[..i], id);
      }
      assert ids[..|ids|] == ids;
      assert db.Entities() == old(db.Entities());
      times := Durations(elapsed, client.model, texts, ids);
    }

    /** The resume loop of generate_embeddings_for_model. */
    method EmbedResumes(client: EmbeddingClient, texts: map<int, Option<string>>, ids: seq<int>)
      returns (times: seq<real>)
      requires db.Valid() && client.modelReady == Some(true)
      requires forall id :: id in ids ==> id in texts
      modifies db, client
      ensures db.Valid() && client.modelReady == Some(true)
      ensures times == Durations(elapsed, client.model, texts, ids)
      ensures db.resumeEmb == SaveAll(old(db.resumeEmb), client.model, Vectors(client.server, client.model, texts, ids))
      ensures db.jobs == old(db.jobs) && db.resumes == old(db.resumes) && db.companies == old(db.companies)
      ensures db.Counters() == old(db.Counters())
      ensures db.jobEmb == old(db.jobEmb) && db.matches == old(db.matches)
    {
      for i := 0 to |ids|
        invariant db.Valid() && client.modelReady == Some(true)
        invariant db.Counters() == old(db.Counters())
        invariant db.jobEmb == old(db.jobEmb) && db.matches == old(db.matches)
        invariant db.jobs == old(db.jobs) && db.resumes == old(db.resumes) && db.companies == old(db.companies)
        invariant db.resumeEmb == SaveAll(old(db.resumeEmb), client.model, Vectors(client.server, client.model, texts, ids[..i]))
      {
        var id := ids[i];
        assert ids[..i + 1] == ids[..i] + [id];
        assert id in ids;
        var _ := EmbedResume(client, texts, old(db.resumeEmb), ids[..i], id);
      }
      assert ids[..|ids|] == ids;
      assert db.Entities() == old(db.Entities());
      times := Durations(elapsed, client.model, texts, ids);
    }

    /** generate_embeddings_for_model: fails when the model is not ready;
        otherwise embeds the candidates (jobs, then resumes), saves every
        vector that comes back, and reports the metrics of the new state
        with the mean duration of the calls made. */
    method GenerateForModel(model: string, force: bool)
      returns (r: Result<ModelEvaluation, string>, ghost jobsDone: seq<int>, ghost resumesDone: seq<int>,
               ghost scores: seq<real>, ghost picked: set<int>)
      requires db.Valid()
      modifies db
      ensures db.Valid()
      ensures r.Err? <==> !Available(server, model)
      ensures r.Err? ==> db.jobEmb == old(db.jobEmb) && db.resumeEmb == old(db.resumeEmb)
      ensures db.Entities() == old(db.Entities()) && db.matches == old(db.matches)
      ensures r.Ok? ==>
        (forall id :: id in jobsDone <==> id in Candidates(JobContents(old(db.jobs)), old(db.jobEmb), model, force))
        && (forall id :: id in resumesDone <==> id in Candidates(ResumeTexts(old(db.resumes)), old(db.resumeEmb), model, force))
        && db.jobEmb == SaveAll(old(db.jobEmb), model, Vectors(server, model, JobContents(old(db.jobs)), jobsDone))
        && db.resumeEmb == SaveAll(old(db.resumeEmb), model, Vectors(server, model, ResumeTexts(old(db.resumes)), resumesDone))
        && MetricsHold(model, r.value.(avgEmbeddingTime := 0.0), scores, picked)
        && r.value.avgEmbeddingTime
           == MeanOrZero(Durations(elapsed, model, JobContents(old(db.jobs)), jobsDone)
                         + Durations(elapsed, model, ResumeTexts(old(db.resumes)), resumesDone))
    {
      var client := new EmbeddingClient(server, model);
      var ready := client.EnsureModelReady();
      if !ready {
        r, jobsDone, resumesDone, scores, picked := Err("Model " + model + " is not available"), [], [], [], {};
        return;
      }
      var jobTexts := JobContents(db.jobs);
      var resumeTexts := ResumeTexts(db.resumes);
      var jobIds := Enumerate(Candidates(jobTexts, db.jobEmb, model, force));
      var resumeIds := Enumerate(Candidates(resumeTexts, db.resumeEmb, model, force));
      var jt := EmbedJobs(client, jobTexts, jobIds);
      var rt := EmbedResumes(client, resumeTexts, resumeIds);
      var m;
      m, scores, picked := CalculateModelMetrics(model);
      var avg := MeanOrZero(jt + rt);
      r := Ok(m.(avgEmbeddingTime := avg));
      jobsDone, resumesDone := jobIds, resumeIds;
    }

    /** One iteration of compare_models: the evaluation of one model,
        which adds or replaces embedding rows of that model only. */
    method EvaluateOne(model: string, force: bool) returns (e: Result<ModelEvaluation, string>)
      requires db.Valid()
      modifies db
      ensures db.Valid()
      ensures e.Ok? <==> Available(server, model)
      ensures e.Ok? ==> e.value.modelName == model
      ensures db.Entities() == old(db.Entities()) && db.matches == old(db.matches)
      ensures OnlyModels(old(db.jobEmb), db.jobEmb, [model])
      ensures OnlyModels(old(db.resumeEmb), db.resumeEmb, [model])
    {
      var r, _, _, _, _ := GenerateForModel(model, force);
      e := r;
    }

    /** What evaluating the listed models leaves of the store: the same
        companies, jobs, resumes and matches, and embedding rows changed
        for those models only. */
    ghost predicate Kept(entities: (map<int, Company>, map<int, Job>, map<int, Resume>),
                         matches: map<MatchKey, MatchScore>, je: map<EmbKey, Vector>,
                         re: map<EmbKey, Vector>, models: seq<string>)
      reads this, db
    {
      db.Entities() == entities && db.matches == matches
      && OnlyModels(je, db.jobEmb, models) && OnlyModels(re, db.resumeEmb, models)
    }

    /** The loop of compare_models: the evaluations of the models that
        succeed, in list order. */
    method EvaluateAll(models: seq<string>, force: bool) returns (evals: seq<ModelEvaluation>)
      requires db.Valid()
      modifies db
      ensures db.Valid()
      ensures Names(evals) == ReadyModels(server, models)
      ensures Kept(old(db.Entities()), old(db.matches), old(db.jobEmb), old(db.resumeEmb), models)
    {
      evals := [];
      ghost var ents, ms, je, re := db.Entities(), db.matches, db.jobEmb, db.resumeEmb;
      for i := 0 to |models|
        invariant db.Valid()
        invariant Names(evals) == ReadyModels(server, models[..i])
        invariant Kept(ents, ms, je, re, models[..i])
      {
        ReadyModelsStep(server, models, i);
        ghost var je1, re1 := db.jobEmb, db.resumeEmb;
        var e := EvaluateOne(models[i], force);
        OnlyModelsStep(je, je1, db.jobEmb, models[..i], models[i]);
        OnlyModelsStep(re, re1, db.resumeEmb, models[..i], models[i]);
        assert models[..i + 1] == models[..i] + [models[i]];
        if e.Ok? {
          NamesSnoc(evals, e.value);
          evals := evals + [e.value];
        }
      }
      assert models[..|models|] == models;
    }

    /** compare_models: evaluates each model in turn, skipping those that
        fail; no success at all is an error, otherwise the winners are
        picked by Compare. */
    method CompareModels(requested: seq<string>, force: bool) returns (r: Result<Comparison, string>)
      requires db.Valid()
      modifies db
      ensures db.Valid()
      ensures r.Err? <==> ReadyModels(server, ModelsToCompare(requested, availableModels)) == []
      ensures r.Ok? ==> Names(r.value.models) == ReadyModels(server, ModelsToCompare(requested, availableModels))
      ensures r.Ok? ==> r.value == Compare(r.value.models)
      ensures Kept(old(db.Entities()), old(db.matches), old(db.jobEmb), old(db.resumeEmb),
                   ModelsToCompare(requested, availableModels))
    {
      var models := ModelsToCompare(requested, availableModels);
      var evals := EvaluateAll(models, force);
      if evals == [] {
        return Err("No models could be evaluated");
      }
      r := Ok(Compare(evals));
    }
  }

  /** mean(embedding_times) when something was timed, else 0.0. */
  function MeanOrZero(times: seq<real>): real {
    if times == [] then 0.0 else Mean(times)
  }
}
