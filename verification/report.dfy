/**
 The report (`main_process` and the command-line clamp): every query's
 candidates become output rows in the order the queries were first seen,
 and a query counts as classified when its first candidate is not the
 sentinel.
 */
module Report {
  import opened Loaders
  import opened Paf
  import opened Ranker
  import opened Classify

  /** The fewest and most candidates per query the command line accepts. */
  const MinCandidates: int := 1
  const MaxCandidates: int := 10

  /** The `--max-candidates` validation: values below 1 become 1, values
      above 10 become 10, the others pass unchanged. */
  function ClampCandidates(k: int): (r: int)
    ensures MinCandidates <= r <= MaxCandidates
    ensures MinCandidates <= k <= MaxCandidates ==> r == k
    ensures k < MinCandidates ==> r == MinCandidates
    ensures k > MaxCandidates ==> r == MaxCandidates
  {
    if k < MinCandidates then MinCandidates
    else if k > MaxCandidates then MaxCandidates
    else k
  }

  /** Clamping twice is clamping once, and clamping keeps the order of the
      requested values. */
  lemma ClampIdempotentMonotone(k: int, k': int)
    ensures ClampCandidates(ClampCandidates(k)) == ClampCandidates(k)
    ensures k <= k' ==> ClampCandidates(k) <= ClampCandidates(k')
  {
  }

  /** One line of the output table (the confidence before `.4f` formatting). */
  datatype Row = Row(query: string, confidence: real, lineage: string, level: string)

  /** The rows of one query's candidates, in order. */
  function CandidateRows(query: string, cs: seq<Candidate>): (rows: seq<Row>)
    ensures |rows| == |cs|
    ensures forall i :: 0 <= i < |cs| ==> rows[i] == Row(query, cs[i].confidence, cs[i].lineage, cs[i].level)
  {
    if |cs| == 0 then []
    else
      var c := cs[|cs| - 1];
      CandidateRows(query, cs[..|cs| - 1]) + [Row(query, c.confidence, c.lineage, c.level)]
  }

  /** The rows written for one query: its first `k` candidates. */
  function QueryRows(r: QueryResult, k: int): seq<Row>
  {
    CandidateRows(r.query, Take(r.candidates, k))
  }

  /** All rows written, query after query. */
  function Rows(results: seq<QueryResult>, k: int): seq<Row>
  {
    if |results| == 0 then []
    else Rows(results[..|results| - 1], k) + QueryRows(results[|results| - 1], k)
  }

  /** The query's first candidate is not the sentinel lineage. */
  predicate IsClassified(r: QueryResult)
  {
    |r.candidates| > 0 && r.candidates[0].lineage != Unknown.lineage
  }

  /** The positions, among the first `n`, of the classified queries. */
  function ClassifiedAmong(results: seq<QueryResult>, n: nat): set<nat>
    requires n <= |results|
  {
    set i: nat | i < n && IsClassified(results[i])
  }

  /** Every query has a first candidate to look at (`lineages[0]`). */
  predicate AllHaveCandidates(results: seq<QueryResult>)
  {
    forall i :: 0 <= i < |results| ==> |results[i].candidates| > 0
  }

  /** The inner loop of `main_process`: one row per candidate shown. */
  method EmitRows(query: string, shown: seq<Candidate>) returns (rows: seq<Row>)
    ensures rows == CandidateRows(query, shown)
  {
    rows := [];
    var j := 0;
    while j < |shown|
      invariant 0 <= j <= |shown|
      invariant rows == CandidateRows(query, shown[..j])
    {
      var c := shown[j];
      rows := rows + [Row(query, c.confidence, c.lineage, c.level)];
      assert shown[..j + 1][..j] == shown[..j];
      j := j + 1;
    }
    assert shown[..j] == shown;
  }

  /** One more query adds its position to the classified ones exactly when it
      is classified. */
  lemma ClassifiedStep(results: seq<QueryResult>, i: nat)
    requires i < |results|
    ensures ClassifiedAmong(results, i + 1)
              == ClassifiedAmong(results, i) + (if IsClassified(results[i]) then {i} else {})
    ensures |ClassifiedAmong(results, i + 1)|
              == |ClassifiedAmong(results, i)| + (if IsClassified(results[i]) then 1 else 0)
  {
    var before := ClassifiedAmong(results, i);
    assert i !in before;
  }

  /** Among the first `n` queries at most `n` are classified. */
  lemma {:induction false} ClassifiedBounded(results: seq<QueryResult>, n: nat)
    requires n <= |results|
    ensures |ClassifiedAmong(results, n)| <= n
  {
    if n > 0 {
      ClassifiedBounded(results, n - 1);
      ClassifiedStep(results, n - 1);
    } else {
      assert ClassifiedAmong(results, n) == {};
    }
  }

  /** One more query adds its rows after all the others. */
  lemma RowsStep(results: seq<QueryResult>, i: nat, k: int)
    requires i < |results|
    ensures Rows(results[..i + 1], k) == Rows(results[..i], k) + QueryRows(results[i], k)
  {
    assert results[..i + 1][..i] == results[..i];
  }

  /** The output loop of `main_process`: the rows of each query's first `k`
      candidates, query after query, and the number of queries classified. */
  method EmitReport(results: seq<QueryResult>, k: int) returns (rows: seq<Row>, classified: nat)
    requires AllHaveCandidates(results)
    ensures rows == Rows(results, k)
    ensures classified == |ClassifiedAmong(results, |results|)|
    ensures classified <= |results|
  {
    rows := [];
    classified := 0;
    var i := 0;
    while i < |results|
      invariant 0 <= i <= |results|
      invariant rows == Rows(results[..i], k)
      invariant classified == |ClassifiedAmong(results, i)|
    {
      var r := results[i];
      ClassifiedStep(results, i);
      if r.candidates[0].lineage != Unknown.lineage {
        classified := classified + 1;
      }
      var more := EmitRows(r.query, Take(r.candidates, k));
      RowsStep(results, i, k);
      rows := rows + more;
      i := i + 1;
    }
    assert results[..i] == results;
    ClassifiedBounded(results, |results|);
  }

  /** How many candidates the results hold in all. */
  function TotalCandidates(results: seq<QueryResult>): nat
  {
    if |results| == 0 then 0
    else TotalCandidates(results[..|results| - 1]) + |results[|results| - 1].candidates|
  }

  /** Every query has between 1 and `k` candidates. */
  predicate WithinLimit(results: seq<QueryResult>, k: int)
  {
    forall i :: 0 <= i < |results| ==> 1 <= |results[i].candidates| <= k
  }

  /** When every query already holds between 1 and `k` candidates, the
      `[:k]` cut at output drops nothing: one row per candidate. */
  lemma {:induction false} RowCount(results: seq<QueryResult>, k: int)
    requires WithinLimit(results, k)
    ensures |Rows(results, k)| == TotalCandidates(results)
    decreases |results|
  {
    if |results| > 0 {
      var init := results[..|results| - 1];
      assert forall i :: 0 <= i < |init| ==> init[i] == results[i];
      RowCount(init, k);
    }
  }

  /** Between 1 and `k` candidates per query make between `n` and `k * n`
      candidates over `n` queries. */
  lemma {:induction false} CandidateBounds(results: seq<QueryResult>, k: int)
    requires WithinLimit(results, k)
    ensures |results| <= TotalCandidates(results) <= k * |results|
    decreases |results|
  {
    if |results| > 0 {
      var init := results[..|results| - 1];
      assert forall i :: 0 <= i < |init| ==> init[i] == results[i];
      CandidateBounds(init, k);
      MulSucc(k, |init|);
    }
  }

  lemma MulSucc(k: int, n: nat)
    ensures k * (n + 1) == k * n + k
  {
  }

  // ---------------------------------------------------------------------
  // The whole classification.

  /** `process_query` over every parsed query (`Pool.map` keeps the order of
      its tasks): one result per query, under the query's own id, in the
      order the queries were parsed, each with 1 to `k` candidates. */
  function ClassifyAll(qs: seq<QueryHits>, counts: map<string, nat>, taxonomy: map<string, string>,
                       hierarchy: map<string, string>, k: int): (rs: seq<QueryResult>)
    ensures ResultIds(rs) == Ids(qs)
    ensures k >= 1 ==> WithinLimit(rs, k)
  {
    IdsPointwise(qs);
    seq(|qs|, i requires 0 <= i < |qs| => ProcessQuery(qs[i].query, qs[i].hits, counts, taxonomy, hierarchy, k))
  }

  /** The results of a whole run: both tables loaded, the alignments parsed,
      every query classified. */
  function Results(taxonomyRows: seq<TaxonomyRow>, hierarchyRows: seq<HierarchyRow>,
                   lines: seq<string>, toInt: string -> int, k: int): seq<QueryResult>
  {
    var paf := ParsePaf(lines, toInt);
    ClassifyAll(paf.queries, paf.counts, LoadTaxonomy(taxonomyRows), LoadHierarchy(hierarchyRows), k)
  }

  /** The ids of results, in order. */
  function ResultIds(rs: seq<QueryResult>): (ids: seq<string>)
    ensures |ids| == |rs|
    ensures forall i :: 0 <= i < |rs| ==> ids[i] == rs[i].query
  {
    seq(|rs|, i requires 0 <= i < |rs| => rs[i].query)
  }

  lemma {:induction false} IdsPointwise(qs: seq<QueryHits>)
    ensures |Ids(qs)| == |qs|
    ensures forall i :: 0 <= i < |qs| ==> Ids(qs)[i] == qs[i].query
    decreases |qs|
  {
    if |qs| > 0 {
      IdsPointwise(qs[1..]);
      assert forall i :: 1 <= i < |qs| ==> qs[i] == qs[1..][i - 1];
    }
  }

  /** A run reports every query that has at least one usable alignment line,
      once each, in the order of its first such line, each with between 1
      and `k` candidates when `k` is at least 1. */
  lemma ResultsMeaning(taxonomyRows: seq<TaxonomyRow>, hierarchyRows: seq<HierarchyRow>,
                       lines: seq<string>, toInt: string -> int, k: int)
    ensures ResultIds(Results(taxonomyRows, hierarchyRows, lines, toInt, k)) == FirstSeen(Records(lines, toInt))
    ensures k >= 1 ==> WithinLimit(Results(taxonomyRows, hierarchyRows, lines, toInt, k), k)
  {
    var paf := ParsePaf(lines, toInt);
    ParsePafMeaning(lines, toInt);
    IdsPointwise(paf.queries);
  }

  /** `main_process` after the command-line clamp: the rows written and the
      number of queries classified. */
  method Run(taxonomyRows: seq<TaxonomyRow>, hierarchyRows: seq<HierarchyRow>,
             lines: seq<string>, toInt: string -> int, requested: int)
    returns (rows: seq<Row>, classified: nat, queries: nat)
    ensures var k := ClampCandidates(requested);
            var rs := Results(taxonomyRows, hierarchyRows, lines, toInt, k);
            && queries == |FirstSeen(Records(lines, toInt))|
            && rows == Rows(rs, k)
            && |rows| == TotalCandidates(rs)
            && queries <= |rows| <= k * queries
            && classified == |ClassifiedAmong(rs, |rs|)|
            && classified <= queries
  {
    var k := ClampCandidates(requested);
    var rs := Results(taxonomyRows, hierarchyRows, lines, toInt, k);
    ResultsMeaning(taxonomyRows, hierarchyRows, lines, toInt, k);
    RowCount(rs, k);
    CandidateBounds(rs, k);
    rows, classified := EmitReport(rs, k);
    queries := |rs|;
  }
}
