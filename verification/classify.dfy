/**
 Per-query classification (`process_query`): an exact self-hit the taxonomy
 knows decides the query outright when its TaxID has a lineage; otherwise
 the query's hits are weighed and ranked.
 */
module Classify {
  import opened Wrappers
  import opened Paf
  import opened Rank
  import opened Weights
  import opened Ranker

  /** The candidates proposed for one query. */
  datatype QueryResult = QueryResult(query: string, candidates: seq<Candidate>)

  /** The hit counts as an exact match the taxonomy knows. */
  predicate ExactKnown(h: Hit, taxonomy: map<string, string>)
  {
    h.exact && h.ref in taxonomy
  }

  /** The reference of the first hit that is exact and known to the
      taxonomy (`exact_matches[0]`), if any. */
  function FirstExact(hits: seq<Hit>, taxonomy: map<string, string>): (r: Option<string>)
    ensures r.None? <==> forall i :: 0 <= i < |hits| ==> !ExactKnown(hits[i], taxonomy)
    ensures r.Some? ==> (exists i :: 0 <= i < |hits| && ExactKnown(hits[i], taxonomy) && hits[i].ref == r.value
                           && (forall j :: 0 <= j < i ==> !ExactKnown(hits[j], taxonomy)))
  {
    if |hits| == 0 then None
    else if ExactKnown(hits[0], taxonomy) then Some(hits[0].ref)
    else
      var r := FirstExact(hits[1..], taxonomy);
      assert forall i :: 1 <= i < |hits| ==> hits[i] == hits[1..][i - 1];
      if r.Some? then
        var i :| 0 <= i < |hits[1..]| && ExactKnown(hits[1..][i], taxonomy) && hits[1..][i].ref == r.value
                 && forall j :: 0 <= j < i ==> !ExactKnown(hits[1..][j], taxonomy);
        assert ExactKnown(hits[i + 1], taxonomy) && forall j :: 0 <= j < i + 1 ==> !ExactKnown(hits[j], taxonomy);
        r
      else r
  }

  /** The weighted path: aggregation followed by ranking. */
  function WeightedPath(hits: seq<Hit>, counts: map<string, nat>, taxonomy: map<string, string>,
                        hierarchy: map<string, string>, maxCandidates: int): seq<Candidate>
  {
    var w := CalculateWeighted(hits, counts, taxonomy);
    GetTopLineages(w.weights, w.total, hierarchy, maxCandidates)
  }

  /** `process_query`. */
  function ProcessQuery(query: string, hits: seq<Hit>, counts: map<string, nat>, taxonomy: map<string, string>,
                        hierarchy: map<string, string>, maxCandidates: int): (r: QueryResult)
    ensures r.query == query
    ensures maxCandidates >= 1 ==> 1 <= |r.candidates| <= maxCandidates
    ensures SortedDesc(r.candidates)
  {
    var exact := FirstExact(hits, taxonomy);
    if exact.Some? && taxonomy[exact.value] in hierarchy then
      var lineage := hierarchy[taxonomy[exact.value]];
      QueryResult(query, [Candidate(lineage, DetermineLevel(lineage), 1.0)])
    else
      QueryResult(query, WeightedPath(hits, counts, taxonomy, hierarchy, maxCandidates))
  }

  /** The shortcut: when the first exact known hit's TaxID has a lineage,
      the query gets that lineage alone with confidence 1, whatever hits come
      before (none exact and known) or after it. */
  lemma ExactShortcut(query: string, pre: seq<Hit>, h: Hit, post: seq<Hit>, counts: map<string, nat>,
                      taxonomy: map<string, string>, hierarchy: map<string, string>, maxCandidates: int)
    requires forall i :: 0 <= i < |pre| ==> !ExactKnown(pre[i], taxonomy)
    requires ExactKnown(h, taxonomy) && taxonomy[h.ref] in hierarchy
    ensures var lineage := hierarchy[taxonomy[h.ref]];
            ProcessQuery(query, pre + [h] + post, counts, taxonomy, hierarchy, maxCandidates).candidates
              == [Candidate(lineage, DetermineLevel(lineage), 1.0)]
  {
    FirstExactAfter(pre, h, post, taxonomy);
  }

  /** The first exact known hit is found past hits that are not. */
  lemma {:induction false} FirstExactAfter(pre: seq<Hit>, h: Hit, post: seq<Hit>, taxonomy: map<string, string>)
    requires forall i :: 0 <= i < |pre| ==> !ExactKnown(pre[i], taxonomy)
    requires ExactKnown(h, taxonomy)
    ensures FirstExact(pre + [h] + post, taxonomy) == Some(h.ref)
    decreases |pre|
  {
    var s := pre + [h] + post;
    if |pre| == 0 {
      assert s[0] == h;
    } else {
      assert s[0] == pre[0];
      assert s[1..] == pre[1..] + [h] + post;
      FirstExactAfter(pre[1..], h, post, taxonomy);
    }
  }

  /** The fall-through: with no exact known hit, or with a first one whose
      TaxID has no lineage, the result is the weighted path's, and later
      exact hits are not consulted. */
  lemma FallThrough(query: string, hits: seq<Hit>, counts: map<string, nat>, taxonomy: map<string, string>,
                    hierarchy: map<string, string>, maxCandidates: int)
    requires FirstExact(hits, taxonomy).None? || taxonomy[FirstExact(hits, taxonomy).value] !in hierarchy
    ensures ProcessQuery(query, hits, counts, taxonomy, hierarchy, maxCandidates).candidates
              == WeightedPath(hits, counts, taxonomy, hierarchy, maxCandidates)
  {
  }

  /** When the first exact known hit's TaxID has no lineage, the weighted
      path decides, whatever exact hits with lineages come after it. */
  lemma LaterExactIgnored(query: string, pre: seq<Hit>, h: Hit, post: seq<Hit>, counts: map<string, nat>,
                          taxonomy: map<string, string>, hierarchy: map<string, string>, maxCandidates: int)
    requires forall i :: 0 <= i < |pre| ==> !ExactKnown(pre[i], taxonomy)
    requires ExactKnown(h, taxonomy) && taxonomy[h.ref] !in hierarchy
    ensures ProcessQuery(query, pre + [h] + post, counts, taxonomy, hierarchy, maxCandidates).candidates
              == WeightedPath(pre + [h] + post, counts, taxonomy, hierarchy, maxCandidates)
  {
    FirstExactAfter(pre, h, post, taxonomy);
  }

  /** A query none of whose references the taxonomy knows gets exactly the
      sentinel. */
  lemma AllUnknownGivesSentinel(query: string, hits: seq<Hit>, counts: map<string, nat>, taxonomy: map<string, string>,
                                hierarchy: map<string, string>, maxCandidates: int)
    requires forall i :: 0 <= i < |hits| ==> hits[i].ref !in taxonomy
    ensures ProcessQuery(query, hits, counts, taxonomy, hierarchy, maxCandidates).candidates == [Unknown]
  {
    NoKnownHitsWeighNothing(hits, counts, taxonomy);
  }

  lemma {:induction false} NoKnownHitsWeighNothing(hits: seq<Hit>, counts: map<string, nat>, taxonomy: map<string, string>)
    requires forall i :: 0 <= i < |hits| ==> hits[i].ref !in taxonomy
    ensures CalculateWeighted(hits, counts, taxonomy) == Weighted([], 0.0)
    decreases |hits|
  {
    if |hits| > 0 {
      var init := hits[..|hits| - 1];
      assert forall i :: 0 <= i < |init| ==> init[i] == hits[i];
      NoKnownHitsWeighNothing(init, counts, taxonomy);
    }
  }

  /** A query whose only hit is known, carries weight and maps to a TaxID
      with a lineage gets that lineage alone with confidence 1, on whichever
      path. */
  lemma SoleContributor(query: string, h: Hit, counts: map<string, nat>, taxonomy: map<string, string>,
                        hierarchy: map<string, string>, maxCandidates: int)
    requires h.ref in taxonomy && taxonomy[h.ref] in hierarchy
    requires HitWeight(h, counts) != 0.0 && maxCandidates >= 1
    ensures var lineage := hierarchy[taxonomy[h.ref]];
            ProcessQuery(query, [h], counts, taxonomy, hierarchy, maxCandidates).candidates
              == [Candidate(lineage, DetermineLevel(lineage), 1.0)]
  {
    var t := taxonomy[h.ref];
    var w := HitWeight(h, counts);
    if !h.exact {
      assert FirstExact([h], taxonomy).None?;
      SingleHitWeighs(h, counts, taxonomy);
      SingleWeightRanks(t, w, hierarchy, maxCandidates);
    }
  }

  lemma SingleHitWeighs(h: Hit, counts: map<string, nat>, taxonomy: map<string, string>)
    requires h.ref in taxonomy
    ensures CalculateWeighted([h], counts, taxonomy) == Weighted([TaxWeight(taxonomy[h.ref], HitWeight(h, counts))], HitWeight(h, counts))
  {
    assert [h][..0] == [];
  }

  lemma SingleWeightRanks(t: string, w: real, hierarchy: map<string, string>, maxCandidates: int)
    requires t in hierarchy && w != 0.0 && maxCandidates >= 1
    ensures GetTopLineages([TaxWeight(t, w)], w, hierarchy, maxCandidates)
              == [Candidate(hierarchy[t], DetermineLevel(hierarchy[t]), 1.0)]
  {
    var ws := [TaxWeight(t, w)];
    assert ws[1..] == [];
    assert w / w == 1.0;
    var c := Candidate(hierarchy[t], DetermineLevel(hierarchy[t]), 1.0);
    assert Score(ws, w, hierarchy) == [c];
    assert [c][1..] == [];
  }
}
