/**
 The evidence aggregator (`calculate_weighted_lineage`): a query's hits
 turned into per-TaxID weights, each hit weighing its coverage times the
 abundance of its reference.

 Python's `taxid_weights` is a dict, so it iterates in first-insertion order;
 that order decides ties in the ranker, so the weights are kept here as a
 sequence of (TaxID, weight) entries in that order.
 */
module Weights {
  import opened Paf

  /** The accumulated weight of one TaxID. */
  datatype TaxWeight = TaxWeight(taxid: string, weight: real)

  /** The per-TaxID weights, in first-encounter order, and their grand total. */
  datatype Weighted = Weighted(weights: seq<TaxWeight>, total: real)

  /** `ref_abundance.get(ref, 1)`: the abundance of a reference, 1 when the
      table has no entry for it. */
  function Abundance(counts: map<string, nat>, ref: string): nat
  {
    if ref in counts then counts[ref] else 1
  }

  /** The weight one hit contributes. */
  function HitWeight(h: Hit, counts: map<string, nat>): real
  {
    h.coverage * Abundance(counts, h.ref) as real
  }

  /** The TaxIDs of the entries, in order. */
  function Taxids(ws: seq<TaxWeight>): seq<string>
  {
    if |ws| == 0 then [] else [ws[0].taxid] + Taxids(ws[1..])
  }

  /** No TaxID has two entries. */
  predicate Distinct(ids: seq<string>)
  {
    forall i, j :: 0 <= i < j < |ids| ==> ids[i] != ids[j]
  }

  /** The weight recorded for `t`, 0 when it has no entry. */
  function WeightOf(ws: seq<TaxWeight>, t: string): real
  {
    if |ws| == 0 then 0.0
    else if ws[0].taxid == t then ws[0].weight
    else WeightOf(ws[1..], t)
  }

  /** The sum of all recorded weights. */
  function SumWeights(ws: seq<TaxWeight>): real
  {
    if |ws| == 0 then 0.0 else ws[0].weight + SumWeights(ws[1..])
  }

  /** `taxid_weights[t] += w`: adds to an existing entry, or appends a new one
      after all the others. */
  function Accumulate(ws: seq<TaxWeight>, t: string, w: real): (r: seq<TaxWeight>)
    ensures Taxids(r) == if t in Taxids(ws) then Taxids(ws) else Taxids(ws) + [t]
    ensures forall t' :: WeightOf(r, t') == WeightOf(ws, t') + (if t' == t then w else 0.0)
    ensures SumWeights(r) == SumWeights(ws) + w
  {
    if |ws| == 0 then [TaxWeight(t, w)]
    else if ws[0].taxid == t then [ws[0].(weight := ws[0].weight + w)] + ws[1..]
    else
      var rest := Accumulate(ws[1..], t, w);
      assert ([ws[0]] + rest)[1..] == rest;
      [ws[0]] + rest
  }

  /** `calculate_weighted_lineage`: the hits in order, those whose reference
      the taxonomy does not know skipped, each other one adding its weight to
      its reference's TaxID and to the grand total. */
  function CalculateWeighted(hits: seq<Hit>, counts: map<string, nat>, taxonomy: map<string, string>): Weighted
  {
    if |hits| == 0 then Weighted([], 0.0)
    else Absorb(CalculateWeighted(hits[..|hits| - 1], counts, taxonomy), hits[|hits| - 1], counts, taxonomy)
  }

  /** One iteration of the loop over the hits. */
  function Absorb(acc: Weighted, h: Hit, counts: map<string, nat>, taxonomy: map<string, string>): Weighted
  {
    if h.ref !in taxonomy then acc
    else
      var w := HitWeight(h, counts);
      Weighted(Accumulate(acc.weights, taxonomy[h.ref], w), acc.total + w)
  }

  // ---------------------------------------------------------------------
  // Reference definitions: what the hits say about each TaxID, stated
  // without the accumulator.

  /** The summed weight of the hits whose reference maps to TaxID `t`. */
  function Evidence(hits: seq<Hit>, counts: map<string, nat>, taxonomy: map<string, string>, t: string): real
  {
    if |hits| == 0 then 0.0
    else
      var h := hits[|hits| - 1];
      Evidence(hits[..|hits| - 1], counts, taxonomy, t)
      + (if h.ref in taxonomy && taxonomy[h.ref] == t then HitWeight(h, counts) else 0.0)
  }

  /** The summed weight of all hits whose reference the taxonomy knows. */
  function KnownEvidence(hits: seq<Hit>, counts: map<string, nat>, taxonomy: map<string, string>): real
  {
    if |hits| == 0 then 0.0
    else
      var h := hits[|hits| - 1];
      KnownEvidence(hits[..|hits| - 1], counts, taxonomy) + (if h.ref in taxonomy then HitWeight(h, counts) else 0.0)
  }

  /** The TaxIDs the known hits map to. */
  function KnownTaxids(hits: seq<Hit>, taxonomy: map<string, string>): set<string>
  {
    set i | 0 <= i < |hits| && hits[i].ref in taxonomy :: taxonomy[hits[i].ref]
  }

  /** The TaxIDs the known hits map to, each once, in the order of the first
      known hit that maps to it. */
  function FirstKnown(hits: seq<Hit>, taxonomy: map<string, string>): (ids: seq<string>)
    ensures Distinct(ids)
    ensures forall t :: t in ids <==> t in KnownTaxids(hits, taxonomy)
  {
    if |hits| == 0 then []
    else
      var init := hits[..|hits| - 1];
      var h := hits[|hits| - 1];
      var ids := FirstKnown(init, taxonomy);
      assert forall i :: 0 <= i < |init| ==> init[i] == hits[i];
      if h.ref !in taxonomy then
        assert KnownTaxids(hits, taxonomy) == KnownTaxids(init, taxonomy);
        ids
      else
        assert KnownTaxids(hits, taxonomy) == KnownTaxids(init, taxonomy) + {taxonomy[h.ref]};
        if taxonomy[h.ref] in ids then ids else ids + [taxonomy[h.ref]]
  }

  /** Hit `p` is known and its reference maps to TaxID `t`. */
  predicate MapsTo(hits: seq<Hit>, taxonomy: map<string, string>, p: int, t: string)
  {
    0 <= p < |hits| && hits[p].ref in taxonomy && taxonomy[hits[p].ref] == t
  }

  /** `FirstKnown` lists the TaxIDs in first-encounter order: for `i < j`,
      some known hit maps to the `i`-th TaxID before any maps to the `j`-th. */
  lemma {:induction false} FirstKnownOrder(hits: seq<Hit>, taxonomy: map<string, string>, i: nat, j: nat)
    requires i < j < |FirstKnown(hits, taxonomy)|
    ensures var ids := FirstKnown(hits, taxonomy);
            exists p :: MapsTo(hits, taxonomy, p, ids[i]) && forall q :: 0 <= q <= p ==> !MapsTo(hits, taxonomy, q, ids[j])
    decreases |hits|
  {
    var init := hits[..|hits| - 1];
    var h := hits[|hits| - 1];
    var ids := FirstKnown(hits, taxonomy);
    var old_ids := FirstKnown(init, taxonomy);
    assert forall q :: 0 <= q < |init| ==> init[q] == hits[q];
    if j < |old_ids| {
      assert ids[..|old_ids|] == old_ids;
      FirstKnownOrder(init, taxonomy, i, j);
      var p :| MapsTo(init, taxonomy, p, old_ids[i]) && forall q :: 0 <= q <= p ==> !MapsTo(init, taxonomy, q, old_ids[j]);
      assert ids[i] == old_ids[i] && ids[j] == old_ids[j];
      assert MapsTo(hits, taxonomy, p, ids[i]);
      forall q | 0 <= q <= p
        ensures !MapsTo(hits, taxonomy, q, ids[j])
      {
        assert !MapsTo(init, taxonomy, q, old_ids[j]);
        assert hits[q] == init[q];
      }
    } else {
      assert ids == old_ids + [taxonomy[h.ref]];
      var t := ids[j];
      assert t !in KnownTaxids(init, taxonomy);
      assert ids[i] in KnownTaxids(init, taxonomy);
      var p :| 0 <= p < |init| && init[p].ref in taxonomy && taxonomy[init[p].ref] == ids[i];
      assert MapsTo(hits, taxonomy, p, ids[i]);
      forall q | 0 <= q <= p
        ensures !MapsTo(hits, taxonomy, q, t)
      {
        assert hits[q] == init[q];
        assert MapsTo(hits, taxonomy, q, t) ==> t in KnownTaxids(init, taxonomy);
      }
    }
  }

  /** `Taxids` lists each element once. */
  lemma {:induction false} TaxidsMembers(ws: seq<TaxWeight>, t: string)
    ensures t in Taxids(ws) <==> exists i :: 0 <= i < |ws| && ws[i].taxid == t
    decreases |ws|
  {
    if |ws| > 0 {
      TaxidsMembers(ws[1..], t);
      if t != ws[0].taxid && t in Taxids(ws) {
        assert t in Taxids(ws[1..]);
        var i :| 0 <= i < |ws[1..]| && ws[1..][i].taxid == t;
        assert ws[i + 1].taxid == t;
      }
      if exists i :: 0 <= i < |ws| && ws[i].taxid == t {
        var i :| 0 <= i < |ws| && ws[i].taxid == t;
        if i > 0 {
          assert ws[1..][i - 1].taxid == t;
        }
      }
    }
  }

  /** What the aggregation produces is what the hits say: one entry per TaxID
      that some known hit maps to and no other, each carrying exactly the
      summed weight of its hits, and a grand total equal both to the sum of
      the entries and to the summed weight of all known hits. */
  lemma WeightedMeaning(hits: seq<Hit>, counts: map<string, nat>, taxonomy: map<string, string>)
    ensures var r := CalculateWeighted(hits, counts, taxonomy);
            && Distinct(Taxids(r.weights))
            && (forall t :: t in Taxids(r.weights) <==> t in KnownTaxids(hits, taxonomy))
            && (forall t :: WeightOf(r.weights, t) == Evidence(hits, counts, taxonomy, t))
            && r.total == SumWeights(r.weights)
            && r.total == KnownEvidence(hits, counts, taxonomy)
  {
    WeightedEntries(hits, counts, taxonomy);
    WeightedAmounts(hits, counts, taxonomy);
    WeightedTotal(hits, counts, taxonomy);
  }

  lemma {:induction false} WeightedEntries(hits: seq<Hit>, counts: map<string, nat>, taxonomy: map<string, string>)
    ensures var r := CalculateWeighted(hits, counts, taxonomy);
            && Distinct(Taxids(r.weights))
            && (forall t :: t in Taxids(r.weights) <==> t in KnownTaxids(hits, taxonomy))
    decreases |hits|
  {
    if |hits| > 0 {
      var init := hits[..|hits| - 1];
      var h := hits[|hits| - 1];
      WeightedEntries(init, counts, taxonomy);
      assert forall i :: 0 <= i < |init| ==> init[i] == hits[i];
      if h.ref in taxonomy {
        assert KnownTaxids(hits, taxonomy) == KnownTaxids(init, taxonomy) + {taxonomy[h.ref]};
      } else {
        assert KnownTaxids(hits, taxonomy) == KnownTaxids(init, taxonomy);
      }
    }
  }

  lemma {:induction false} WeightedAmounts(hits: seq<Hit>, counts: map<string, nat>, taxonomy: map<string, string>)
    ensures forall t :: WeightOf(CalculateWeighted(hits, counts, taxonomy).weights, t) == Evidence(hits, counts, taxonomy, t)
    decreases |hits|
  {
    if |hits| > 0 {
      WeightedAmounts(hits[..|hits| - 1], counts, taxonomy);
    }
  }

  lemma {:induction false} WeightedTotal(hits: seq<Hit>, counts: map<string, nat>, taxonomy: map<string, string>)
    ensures var r := CalculateWeighted(hits, counts, taxonomy);
            && r.total == SumWeights(r.weights)
            && r.total == KnownEvidence(hits, counts, taxonomy)
    decreases |hits|
  {
    if |hits| > 0 {
      WeightedTotal(hits[..|hits| - 1], counts, taxonomy);
    }
  }

  /** The weights come in the order their TaxIDs were first met among the
      known hits: this is the order the ranker breaks ties by. */
  lemma {:induction false} WeightedOrder(hits: seq<Hit>, counts: map<string, nat>, taxonomy: map<string, string>)
    ensures Taxids(CalculateWeighted(hits, counts, taxonomy).weights) == FirstKnown(hits, taxonomy)
    decreases |hits|
  {
    if |hits| > 0 {
      WeightedOrder(hits[..|hits| - 1], counts, taxonomy);
    }
  }

  /** Hits whose reference the taxonomy does not know are ignored: adding one
      anywhere changes nothing. */
  lemma {:induction false} UnknownHitIgnored(pre: seq<Hit>, h: Hit, post: seq<Hit>, counts: map<string, nat>, taxonomy: map<string, string>)
    requires h.ref !in taxonomy
    ensures CalculateWeighted(pre + [h] + post, counts, taxonomy) == CalculateWeighted(pre + post, counts, taxonomy)
    decreases |post|
  {
    var s1 := pre + [h] + post;
    var s2 := pre + post;
    if |post| == 0 {
      assert s1[..|s1| - 1] == pre;
      assert s1[|s1| - 1] == h;
      assert s2 == pre;
    } else {
      var post0 := post[..|post| - 1];
      var last := post[|post| - 1];
      UnknownHitIgnored(pre, h, post0, counts, taxonomy);
      assert s1[..|s1| - 1] == pre + [h] + post0;
      assert s1[|s1| - 1] == last;
      assert s2[..|s2| - 1] == pre + post0;
      assert s2[|s2| - 1] == last;
      assert CalculateWeighted(s1, counts, taxonomy)
          == Absorb(CalculateWeighted(pre + [h] + post0, counts, taxonomy), last, counts, taxonomy);
      assert CalculateWeighted(s2, counts, taxonomy)
          == Absorb(CalculateWeighted(pre + post0, counts, taxonomy), last, counts, taxonomy);
    }
  }

  /** Every recorded weight is non-negative. */
  predicate NonNegative(ws: seq<TaxWeight>)
  {
    forall i :: 0 <= i < |ws| ==> ws[i].weight >= 0.0
  }

  /** With non-negative coverages every weight, and so the total, is
      non-negative. */
  lemma {:induction false} WeightsNonNegative(hits: seq<Hit>, counts: map<string, nat>, taxonomy: map<string, string>)
    requires forall i :: 0 <= i < |hits| ==> hits[i].coverage >= 0.0
    ensures NonNegative(CalculateWeighted(hits, counts, taxonomy).weights)
    ensures CalculateWeighted(hits, counts, taxonomy).total >= 0.0
    decreases |hits|
  {
    if |hits| > 0 {
      var init := hits[..|hits| - 1];
      assert forall i :: 0 <= i < |init| ==> init[i] == hits[i];
      WeightsNonNegative(init, counts, taxonomy);
      var h := hits[|hits| - 1];
      if h.ref in taxonomy {
        var acc := CalculateWeighted(init, counts, taxonomy);
        HitWeightNonNegative(h, counts);
        AccumulateNonNegative(acc.weights, taxonomy[h.ref], HitWeight(h, counts));
      }
    }
  }

  lemma HitWeightNonNegative(h: Hit, counts: map<string, nat>)
    requires h.coverage >= 0.0
    ensures HitWeight(h, counts) >= 0.0
  {
    var a := Abundance(counts, h.ref) as real;
    assert a >= 0.0;
    assert h.coverage * a >= 0.0;
  }

  lemma {:induction false} AccumulateNonNegative(ws: seq<TaxWeight>, t: string, w: real)
    requires w >= 0.0 && NonNegative(ws)
    ensures NonNegative(Accumulate(ws, t, w))
    decreases |ws|
  {
    if |ws| > 0 {
      var r := Accumulate(ws, t, w);
      if ws[0].taxid != t {
        AccumulateNonNegative(ws[1..], t, w);
        assert r[1..] == Accumulate(ws[1..], t, w);
      } else {
        assert r[1..] == ws[1..];
      }
      assert r[0].weight >= 0.0;
      assert forall i :: 1 <= i < |r| ==> r[i] == r[1..][i - 1];
    }
  }
}
