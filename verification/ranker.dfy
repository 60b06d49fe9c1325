/**
 The lineage ranker (`get_top_lineages`): weighted TaxIDs turned into
 candidates (lineage, level, confidence), sorted by descending confidence
 with ties kept in first-encounter order, and cut to the first K.
 */
module Ranker {
  import opened Rank
  import opened Weights

  /** One proposed classification of a query. */
  datatype Candidate = Candidate(lineage: string, level: string, confidence: real)

  /** The candidate reported when there is no usable evidence. */
  const Unknown: Candidate := Candidate("Unknown", Root, 0.0)

  /** One candidate per weighted TaxID that has a lineage, in the order of
      the weights; its confidence is its share of the total. */
  function Score(ws: seq<TaxWeight>, total: real, hierarchy: map<string, string>): (cs: seq<Candidate>)
    requires total != 0.0
    ensures |cs| <= |ws|
    ensures |cs| == 0 <==> forall i :: 0 <= i < |ws| ==> ws[i].taxid !in hierarchy
  {
    if |ws| == 0 then []
    else
      var rest := Score(ws[1..], total, hierarchy);
      assert forall i :: 1 <= i < |ws| ==> ws[i] == ws[1..][i - 1];
      ScoreOne(ws[0], total, hierarchy) + rest
  }

  /** The candidate, if any, one weighted TaxID contributes. */
  function ScoreOne(w: TaxWeight, total: real, hierarchy: map<string, string>): seq<Candidate>
    requires total != 0.0
  {
    if w.taxid in hierarchy then [Scored(w, total, hierarchy)] else []
  }

  /** The candidate a weighted TaxID with a lineage yields. */
  function Scored(w: TaxWeight, total: real, hierarchy: map<string, string>): Candidate
    requires total != 0.0 && w.taxid in hierarchy
  {
    Candidate(hierarchy[w.taxid], DetermineLevel(hierarchy[w.taxid]), w.weight / total)
  }

  /** Scoring keeps the order of the weights: one more weighted TaxID adds
      its candidate, if it has a lineage, after all the others. */
  lemma {:induction false} ScoreSnoc(ws: seq<TaxWeight>, w: TaxWeight, total: real, hierarchy: map<string, string>)
    requires total != 0.0
    ensures Score(ws + [w], total, hierarchy) == Score(ws, total, hierarchy) + ScoreOne(w, total, hierarchy)
    decreases |ws|
  {
    var s := ws + [w];
    if |ws| > 0 {
      assert s[0] == ws[0] && s[1..] == ws[1..] + [w];
      ScoreSnoc(ws[1..], w, total, hierarchy);
      var head := ScoreOne(ws[0], total, hierarchy);
      var tail := ScoreOne(w, total, hierarchy);
      var mid := Score(ws[1..], total, hierarchy);
      assert Score(s[1..], total, hierarchy) == mid + tail;
      assert Score(s, total, hierarchy) == head + (mid + tail);
      assert Score(ws, total, hierarchy) == head + mid;
      assert head + (mid + tail) == (head + mid) + tail;
    } else {
      assert s[1..] == [];
    }
  }

  /** A candidate is scored exactly when some weighted TaxID with a lineage
      yields it. */
  lemma {:induction false} ScoreMembers(ws: seq<TaxWeight>, total: real, hierarchy: map<string, string>, c: Candidate)
    requires total != 0.0
    ensures c in Score(ws, total, hierarchy) <==>
              exists i :: 0 <= i < |ws| && ws[i].taxid in hierarchy && c == Scored(ws[i], total, hierarchy)
    decreases |ws|
  {
    if |ws| > 0 {
      ScoreMembers(ws[1..], total, hierarchy, c);
      assert forall i :: 1 <= i < |ws| ==> ws[i] == ws[1..][i - 1];
      if exists i :: 0 <= i < |ws| && ws[i].taxid in hierarchy && c == Scored(ws[i], total, hierarchy) {
        var i :| 0 <= i < |ws| && ws[i].taxid in hierarchy && c == Scored(ws[i], total, hierarchy);
        if i > 0 {
          assert ws[1..][i - 1] == ws[i];
        }
      }
    }
  }

  /** Confidences never increase along the sequence. */
  predicate SortedDesc(cs: seq<Candidate>)
  {
    forall i, j :: 0 <= i < j < |cs| ==> cs[i].confidence >= cs[j].confidence
  }

  /** The candidates of one confidence, in order. */
  function WithConfidence(cs: seq<Candidate>, conf: real): seq<Candidate>
  {
    if |cs| == 0 then []
    else (if cs[0].confidence == conf then [cs[0]] else []) + WithConfidence(cs[1..], conf)
  }

  /** Puts `c` ahead of the first candidate of equal or lower confidence. */
  function Insert(c: Candidate, cs: seq<Candidate>): (r: seq<Candidate>)
    ensures |r| == |cs| + 1 && (r[0] == c || (|cs| > 0 && r[0] == cs[0]))
  {
    if |cs| == 0 || c.confidence >= cs[0].confidence then
      [c] + cs
    else
      [cs[0]] + Insert(c, cs[1..])
  }

  /** Inserting into a descending sequence keeps it descending. */
  lemma {:induction false} InsertSorted(c: Candidate, cs: seq<Candidate>)
    requires SortedDesc(cs)
    ensures SortedDesc(Insert(c, cs))
    decreases |cs|
  {
    if |cs| > 0 && c.confidence < cs[0].confidence {
      var rest := Insert(c, cs[1..]);
      assert SortedDesc(cs[1..]);
      InsertSorted(c, cs[1..]);
      assert rest[0].confidence <= cs[0].confidence;
      var r := [cs[0]] + rest;
      assert forall j :: 1 <= j < |r| ==> r[j] == rest[j - 1];
    }
  }

  /** Inserting adds `c` and nothing else. */
  lemma {:induction false} InsertPermutes(c: Candidate, cs: seq<Candidate>)
    ensures multiset(Insert(c, cs)) == multiset(cs) + multiset{c}
    decreases |cs|
  {
    if |cs| > 0 && c.confidence < cs[0].confidence {
      InsertPermutes(c, cs[1..]);
      assert cs == [cs[0]] + cs[1..];
    }
  }

  /** Inserting keeps every confidence class in order, `c` at its head. */
  lemma {:induction false} InsertStable(c: Candidate, cs: seq<Candidate>, conf: real)
    ensures WithConfidence(Insert(c, cs), conf) == (if c.confidence == conf then [c] else []) + WithConfidence(cs, conf)
    decreases |cs|
  {
    var r := Insert(c, cs);
    if |cs| == 0 || c.confidence >= cs[0].confidence {
      assert r == [c] + cs;
      assert r[1..] == cs;
    } else {
      var rest := Insert(c, cs[1..]);
      assert r == [cs[0]] + rest;
      assert r[1..] == rest;
      InsertStable(c, cs[1..], conf);
      var head := if cs[0].confidence == conf then [cs[0]] else [];
      assert WithConfidence(r, conf) == head + WithConfidence(rest, conf);
      assert WithConfidence(cs, conf) == head + WithConfidence(cs[1..], conf);
      assert c.confidence == conf ==> head == [];
    }
  }

  /** `list.sort(key=confidence, reverse=True)`: a stable sort by descending
      confidence, as an insertion sort. */
  function SortDesc(cs: seq<Candidate>): (r: seq<Candidate>)
    ensures SortedDesc(r)
    ensures |r| == |cs|
  {
    if |cs| == 0 then []
    else
      var rest := SortDesc(cs[1..]);
      InsertSorted(cs[0], rest);
      Insert(cs[0], rest)
  }

  /** The sort is a permutation: the same candidates, as often each. */
  lemma {:induction false} SortPermutes(cs: seq<Candidate>)
    ensures multiset(SortDesc(cs)) == multiset(cs)
    decreases |cs|
  {
    if |cs| > 0 {
      SortPermutes(cs[1..]);
      InsertPermutes(cs[0], SortDesc(cs[1..]));
      assert cs == [cs[0]] + cs[1..];
    }
  }

  /** The sort is stable: the candidates of any one confidence come out in
      the order they went in. */
  lemma {:induction false} SortStable(cs: seq<Candidate>, conf: real)
    ensures WithConfidence(SortDesc(cs), conf) == WithConfidence(cs, conf)
    decreases |cs|
  {
    if |cs| > 0 {
      SortStable(cs[1..], conf);
      InsertStable(cs[0], SortDesc(cs[1..]), conf);
    }
  }

  /** Python's slice `s[:k]`, negative `k` counting from the end. */
  function Take(cs: seq<Candidate>, k: int): (r: seq<Candidate>)
    ensures k >= 0 ==> |r| == if k < |cs| then k else |cs|
    ensures k < 0 ==> |r| == if |cs| + k > 0 then |cs| + k else 0
    ensures r == cs[..|r|]
  {
    if k >= 0 then (if k < |cs| then cs[..k] else cs)
    else if |cs| + k > 0 then cs[..|cs| + k]
    else []
  }

  /** `get_top_lineages`: the sentinel when the total is 0 or no weighted
      TaxID has a lineage, otherwise the first `maxOptions` candidates by
      descending confidence. */
  function GetTopLineages(ws: seq<TaxWeight>, total: real, hierarchy: map<string, string>, maxOptions: int): (r: seq<Candidate>)
    ensures total == 0.0 ==> r == [Unknown]
    ensures (forall i :: 0 <= i < |ws| ==> ws[i].taxid !in hierarchy) ==> r == [Unknown]
    ensures maxOptions >= 1 ==> 1 <= |r| <= maxOptions
    ensures SortedDesc(r)
    ensures (total != 0.0 && exists i :: 0 <= i < |ws| && ws[i].taxid in hierarchy) ==>
              r == Take(SortDesc(Score(ws, total, hierarchy)), maxOptions)
  {
    if total == 0.0 then [Unknown]
    else
      var scores := Score(ws, total, hierarchy);
      if |scores| == 0 then [Unknown]
      else Take(SortDesc(scores), maxOptions)
  }

  // ---------------------------------------------------------------------
  // Confidences.

  /** Every confidence lies in [0, 1]. */
  predicate Bounded(cs: seq<Candidate>)
  {
    forall i :: 0 <= i < |cs| ==> 0.0 <= cs[i].confidence <= 1.0
  }

  /** A non-negative weight is at most the sum of non-negative weights. */
  lemma {:induction false} WeightBelowSum(ws: seq<TaxWeight>, i: nat)
    requires NonNegative(ws) && i < |ws|
    ensures ws[i].weight <= SumWeights(ws)
    decreases |ws|
  {
    assert forall j :: 1 <= j < |ws| ==> ws[j] == ws[1..][j - 1];
    if i > 0 {
      WeightBelowSum(ws[1..], i - 1);
    }
    SumNonNegative(ws[1..]);
  }

  lemma {:induction false} SumNonNegative(ws: seq<TaxWeight>)
    requires NonNegative(ws)
    ensures SumWeights(ws) >= 0.0
    decreases |ws|
  {
    if |ws| > 0 {
      assert forall j :: 1 <= j < |ws| ==> ws[j] == ws[1..][j - 1];
      SumNonNegative(ws[1..]);
    }
  }

  /** With non-negative weights whose sum is the (positive) total, every
      returned confidence lies in [0, 1]. */
  lemma TopLineagesBounded(ws: seq<TaxWeight>, total: real, hierarchy: map<string, string>, maxOptions: int)
    requires NonNegative(ws) && total == SumWeights(ws)
    ensures Bounded(GetTopLineages(ws, total, hierarchy, maxOptions))
  {
    var r := GetTopLineages(ws, total, hierarchy, maxOptions);
    if total != 0.0 && exists i :: 0 <= i < |ws| && ws[i].taxid in hierarchy {
      var scores := Score(ws, total, hierarchy);
      var sorted := SortDesc(scores);
      SortPermutes(scores);
      forall j | 0 <= j < |r| ensures 0.0 <= r[j].confidence <= 1.0 {
        assert r[j] == sorted[j];
        assert r[j] in multiset(sorted);
        assert r[j] in scores;
        ScoreMembers(ws, total, hierarchy, r[j]);
        var i :| 0 <= i < |ws| && ws[i].taxid in hierarchy && r[j] == Scored(ws[i], total, hierarchy);
        WeightBelowSum(ws, i);
        SumNonNegative(ws);
        ShareBounded(ws[i].weight, total);
      }
    }
  }

  lemma ShareBounded(w: real, total: real)
    requires 0.0 <= w <= total && total != 0.0
    ensures 0.0 <= w / total <= 1.0
  {
  }

  /** The confidence of every weighted TaxID, lineage or not. */
  function Confidences(ws: seq<TaxWeight>, total: real): (r: seq<real>)
    requires total != 0.0
    ensures |r| == |ws|
    ensures forall i :: 0 <= i < |ws| ==> r[i] * total == ws[i].weight
  {
    seq(|ws|, i requires 0 <= i < |ws| => ws[i].weight / total)
  }

  function SumReals(xs: seq<real>): real
  {
    if |xs| == 0 then 0.0 else xs[0] + SumReals(xs[1..])
  }

  lemma {:induction false} SumOfShares(ws: seq<TaxWeight>, total: real)
    requires total != 0.0
    ensures SumReals(Confidences(ws, total)) * total == SumWeights(ws)
    decreases |ws|
  {
    if |ws| > 0 {
      SumOfShares(ws[1..], total);
      var cs := Confidences(ws, total);
      assert cs[1..] == Confidences(ws[1..], total);
      assert (cs[0] + SumReals(cs[1..])) * total == cs[0] * total + SumReals(cs[1..]) * total;
    }
  }

  /** When the total is the sum of the weights and is not 0, the confidences
      of all weighted TaxIDs, before any is dropped or cut, sum to 1. */
  lemma ConfidencesSumToOne(ws: seq<TaxWeight>, total: real)
    requires total != 0.0 && total == SumWeights(ws)
    ensures SumReals(Confidences(ws, total)) == 1.0
  {
    SumOfShares(ws, total);
    var s := SumReals(Confidences(ws, total));
    assert s * total == 1.0 * total;
  }

  // ---------------------------------------------------------------------
  // Ties.

  /** The result is a prefix of a permutation of the scored candidates, and
      equal confidences keep the order of the weights: the candidates of any
      one confidence come out in their scored order, which is the weights'
      order (`ScoreSnoc`), which is the order their TaxIDs were first met
      among the known hits (`WeightedOrder`). */
  lemma TiesKeepEncounterOrder(ws: seq<TaxWeight>, total: real, hierarchy: map<string, string>, maxOptions: int)
    requires total != 0.0 && exists i :: 0 <= i < |ws| && ws[i].taxid in hierarchy
    ensures var sorted := SortDesc(Score(ws, total, hierarchy));
            var r := GetTopLineages(ws, total, hierarchy, maxOptions);
            && r == sorted[..|r|]
            && multiset(sorted) == multiset(Score(ws, total, hierarchy))
            && forall conf :: WithConfidence(sorted, conf) == WithConfidence(Score(ws, total, hierarchy), conf)
  {
    SortPermutes(Score(ws, total, hierarchy));
    forall conf {
      SortStable(Score(ws, total, hierarchy), conf);
    }
  }
}
