/**
 The alignment parser (`parse_paf_file`): one pass over the lines of a PAF
 file that groups hits by query, in the order queries are first seen, and
 counts how many records cite each reference.

 Python's `int()` on the two length fields is the parameter `toInt`; what it
 does on malformed text is not part of this model.
 */
module Paf {
  import opened Wrappers
  import opened PyStr

  /** Coverage at or above this, with query id equal to reference id, makes a
      hit exact. */
  const ExactThreshold: real := 0.99

  /** The fewest tab-separated fields a usable line has. */
  const MinFields: nat := 11

  /** One alignment of a query against a reference. */
  datatype Hit = Hit(ref: string, coverage: real, exact: bool)

  /** One usable line: the query it belongs to and the hit it contributes. */
  datatype Record = Record(query: string, hit: Hit)

  /** The hits of one query, in file order. */
  datatype QueryHits = QueryHits(query: string, hits: seq<Hit>)

  /** What the parse produces: the queries in first-encounter order, and the
      number of records citing each reference. */
  datatype PafResult = PafResult(queries: seq<QueryHits>, counts: map<string, nat>)

  /** The share of a query of length `queryLen` that an aligned block of
      length `alignLen` covers; 0 for a query of length 0 or less. */
  function Coverage(queryLen: int, alignLen: int): (c: real)
    ensures queryLen > 0 ==> c * queryLen as real == alignLen as real
    ensures queryLen <= 0 ==> c == 0.0
    ensures queryLen > 0 && 0 <= alignLen ==> c >= 0.0
    ensures queryLen > 0 && 0 <= alignLen <= queryLen ==> c <= 1.0
  {
    if queryLen > 0 then alignLen as real / queryLen as real else 0.0
  }

  /** The tab-separated fields of a line, after stripping it. */
  function Fields(line: string): seq<string>
  {
    Split(Strip(line), '\t')
  }

  /** One line of the file: nothing when it has fewer than 11 fields,
      otherwise the record its fields 0, 1, 5 and 10 describe. */
  function ParseLine(line: string, toInt: string -> int): (r: Option<Record>)
    ensures r.None? <==> |Fields(line)| < MinFields
    ensures r.Some? ==> r.value.query == Fields(line)[0] && r.value.hit.ref == Fields(line)[5]
    ensures r.Some? ==> r.value.hit.coverage == Coverage(toInt(Fields(line)[1]), toInt(Fields(line)[10]))
    ensures r.Some? ==> (r.value.hit.exact <==> Fields(line)[0] == Fields(line)[5] && r.value.hit.coverage >= ExactThreshold)
  {
    var parts := Fields(line);
    if |parts| < MinFields then None
    else
      var queryId := parts[0];
      var refId := parts[5];
      var coverage := Coverage(toInt(parts[1]), toInt(parts[10]));
      Some(Record(queryId, Hit(refId, coverage, queryId == refId && coverage >= ExactThreshold)))
  }

  /** The ids of the queries, in order. */
  function Ids(qs: seq<QueryHits>): seq<string>
  {
    if |qs| == 0 then [] else [qs[0].query] + Ids(qs[1..])
  }

  /** The hits recorded for `q`; none when `q` was never seen. */
  function Lookup(qs: seq<QueryHits>, q: string): seq<Hit>
  {
    if |qs| == 0 then []
    else if qs[0].query == q then qs[0].hits
    else Lookup(qs[1..], q)
  }

  /** The number of hits over all queries. */
  function TotalHits(qs: seq<QueryHits>): nat
  {
    if |qs| == 0 then 0 else |qs[0].hits| + TotalHits(qs[1..])
  }

  /** `query_map[q].append(h)`: the hit goes at the end of `q`'s list, and a
      query not seen before is added after all the others. */
  function AddHit(qs: seq<QueryHits>, q: string, h: Hit): (r: seq<QueryHits>)
    ensures forall q' :: Lookup(r, q') == Lookup(qs, q') + (if q' == q then [h] else [])
    ensures Ids(r) == if q in Ids(qs) then Ids(qs) else Ids(qs) + [q]
    ensures TotalHits(r) == TotalHits(qs) + 1
  {
    if |qs| == 0 then [QueryHits(q, [h])]
    else if qs[0].query == q then [qs[0].(hits := qs[0].hits + [h])] + qs[1..]
    else
      var rest := AddHit(qs[1..], q, h);
      assert ([qs[0]] + rest)[1..] == rest;
      [qs[0]] + rest
  }

  /** The count of a reference, 0 when absent (a `defaultdict(int)` read). */
  function Count(counts: map<string, nat>, ref: string): nat
  {
    if ref in counts then counts[ref] else 0
  }

  /** The parse state after one more line, given what the line parsed to. */
  function Apply(st: PafResult, rec: Option<Record>): PafResult
  {
    match rec
    case None => st
    case Some(r) =>
      PafResult(AddHit(st.queries, r.query, r.hit),
                st.counts[r.hit.ref := Count(st.counts, r.hit.ref) + 1])
  }

  /** `parse_paf_file` over the lines of the file, in order. */
  function ParsePaf(lines: seq<string>, toInt: string -> int): PafResult
  {
    if |lines| == 0 then PafResult([], map[])
    else Apply(ParsePaf(lines[..|lines| - 1], toInt), ParseLine(lines[|lines| - 1], toInt))
  }

  /** A line with fewer than 11 fields changes nothing; any other line adds
      exactly one hit, at the end of its query's list, and exactly 1 to its
      reference's count, leaving every other query and count as it was. */
  lemma ParseOneMoreLine(lines: seq<string>, line: string, toInt: string -> int)
    ensures var before := ParsePaf(lines, toInt);
            var after := ParsePaf(lines + [line], toInt);
            match ParseLine(line, toInt)
            case None => after == before
            case Some(rec) =>
              && Lookup(after.queries, rec.query) == Lookup(before.queries, rec.query) + [rec.hit]
              && (forall q :: q != rec.query ==> Lookup(after.queries, q) == Lookup(before.queries, q))
              && Count(after.counts, rec.hit.ref) == Count(before.counts, rec.hit.ref) + 1
              && (forall ref :: ref != rec.hit.ref ==> Count(after.counts, ref) == Count(before.counts, ref))
              && TotalHits(after.queries) == TotalHits(before.queries) + 1
  {
    assert (lines + [line])[..|lines|] == lines;
  }

  // ---------------------------------------------------------------------
  // Reference definitions: the usable records of a file, and what they say
  // about each query and reference, stated without the accumulators.

  /** The records of the usable lines, in file order. */
  function Records(lines: seq<string>, toInt: string -> int): seq<Record>
  {
    if |lines| == 0 then []
    else
      Records(lines[..|lines| - 1], toInt)
      + match ParseLine(lines[|lines| - 1], toInt) case None => [] case Some(r) => [r]
  }

  /** The hits of the records of query `q`, in order. */
  function HitsOf(recs: seq<Record>, q: string): seq<Hit>
  {
    if |recs| == 0 then []
    else HitsOf(recs[..|recs| - 1], q) + (if recs[|recs| - 1].query == q then [recs[|recs| - 1].hit] else [])
  }

  /** How many records cite reference `ref`. */
  function Citations(recs: seq<Record>, ref: string): nat
  {
    if |recs| == 0 then 0
    else Citations(recs[..|recs| - 1], ref) + (if recs[|recs| - 1].hit.ref == ref then 1 else 0)
  }

  /** The distinct query ids of the records, each where it first occurs. */
  function FirstSeen(recs: seq<Record>): (ids: seq<string>)
    ensures forall i, j :: 0 <= i < j < |ids| ==> ids[i] != ids[j]
    ensures forall q :: q in ids <==> exists k :: 0 <= k < |recs| && recs[k].query == q
  {
    if |recs| == 0 then []
    else
      var init := recs[..|recs| - 1];
      var ids := FirstSeen(init);
      var q := recs[|recs| - 1].query;
      assert forall k :: 0 <= k < |init| ==> init[k] == recs[k];
      if q in ids then ids else ids + [q]
  }

  /** Record `p` belongs to query `q`. */
  predicate RecordOf(recs: seq<Record>, p: int, q: string)
  {
    0 <= p < |recs| && recs[p].query == q
  }

  /** `FirstSeen` lists the queries in first-encounter order: for `i < j`,
      some record of the `i`-th query comes before any record of the `j`-th. */
  lemma {:induction false} FirstSeenOrder(recs: seq<Record>, i: nat, j: nat)
    requires i < j < |FirstSeen(recs)|
    ensures var ids := FirstSeen(recs);
            exists p :: RecordOf(recs, p, ids[i]) && forall q :: 0 <= q <= p ==> !RecordOf(recs, q, ids[j])
    decreases |recs|
  {
    var init := recs[..|recs| - 1];
    var ids := FirstSeen(recs);
    var old_ids := FirstSeen(init);
    assert forall k :: 0 <= k < |init| ==> init[k] == recs[k];
    if j < |old_ids| {
      assert ids[..|old_ids|] == old_ids;
      FirstSeenOrder(init, i, j);
      var p :| RecordOf(init, p, old_ids[i]) && forall q :: 0 <= q <= p ==> !RecordOf(init, q, old_ids[j]);
      assert ids[i] == old_ids[i] && ids[j] == old_ids[j];
      assert RecordOf(recs, p, ids[i]);
      forall q | 0 <= q <= p
        ensures !RecordOf(recs, q, ids[j])
      {
        assert !RecordOf(init, q, old_ids[j]);
        assert recs[q] == init[q];
      }
    } else {
      assert ids == old_ids + [recs[|recs| - 1].query];
      var t := ids[j];
      assert t !in old_ids;
      assert ids[i] in old_ids;
      var p :| 0 <= p < |init| && init[p].query == ids[i];
      assert RecordOf(recs, p, ids[i]);
      forall q | 0 <= q <= p
        ensures !RecordOf(recs, q, t)
      {
        assert recs[q] == init[q];
        assert RecordOf(recs, q, t) ==> t in old_ids;
      }
    }
  }

  /** Some key of a non-empty table. */
  ghost function AnyKey(m: map<string, nat>): (k: string)
    requires |m| > 0
    ensures k in m
  {
    var k :| k in m; k
  }

  /** The sum of all counts of a reference-count table. */
  ghost function SumCounts(m: map<string, nat>): nat
    decreases |m|
  {
    if |m| == 0 then 0
    else
      var k := AnyKey(m);
      assert |m.Keys - {k}| == |m.Keys| - 1;
      m[k] + SumCounts(m - {k})
  }

  /** Any one count can be taken out of the sum first. */
  lemma {:induction false} SumCountsRemove(m: map<string, nat>, k: string)
    requires k in m
    ensures SumCounts(m) == m[k] + SumCounts(m - {k})
    decreases |m|
  {
    var k' := AnyKey(m);
    if k' != k {
      var m1 := m - {k'};
      var m2 := m - {k};
      assert |m1.Keys| < |m.Keys| by {
        assert m1.Keys == m.Keys - {k'};
      }
      assert |m2.Keys| < |m.Keys| by {
        assert m2.Keys == m.Keys - {k};
      }
      SumCountsRemove(m1, k);
      SumCountsRemove(m2, k');
      assert m1 - {k} == m2 - {k'};
    }
  }

  /** Adding 1 to one count adds 1 to the sum. */
  lemma SumCountsIncrement(m: map<string, nat>, k: string)
    ensures SumCounts(m[k := Count(m, k) + 1]) == SumCounts(m) + 1
  {
    var m' := m[k := Count(m, k) + 1];
    SumCountsRemove(m', k);
    assert m' - {k} == m - {k};
    if k in m {
      SumCountsRemove(m, k);
    } else {
      assert m - {k} == m;
    }
  }

  /** What the parse produces is what the records say: each query's list is
      exactly its records' hits in file order, the queries come in
      first-encounter order, and each reference's count is the number of
      records citing it (a reference no record cites has no entry). */
  lemma {:induction false} ParsePafMeaning(lines: seq<string>, toInt: string -> int)
    ensures var p := ParsePaf(lines, toInt);
            var recs := Records(lines, toInt);
            && (forall q :: Lookup(p.queries, q) == HitsOf(recs, q))
            && Ids(p.queries) == FirstSeen(recs)
            && (forall ref :: Count(p.counts, ref) == Citations(recs, ref))
            && (forall ref :: ref in p.counts ==> p.counts[ref] > 0)
    decreases |lines|
  {
    if |lines| > 0 {
      var init := lines[..|lines| - 1];
      ParsePafMeaning(init, toInt);
      var recs := Records(lines, toInt);
      var recs0 := Records(init, toInt);
      match ParseLine(lines[|lines| - 1], toInt)
      case None =>
        assert recs == recs0;
      case Some(r) =>
        assert recs == recs0 + [r];
        assert recs[..|recs| - 1] == recs0;
    }
  }

  /** Every record is one hit: the number of hits over all queries is the
      number of usable lines. */
  lemma {:induction false} HitsMatchRecords(lines: seq<string>, toInt: string -> int)
    ensures TotalHits(ParsePaf(lines, toInt).queries) == |Records(lines, toInt)|
    decreases |lines|
  {
    if |lines| > 0 {
      HitsMatchRecords(lines[..|lines| - 1], toInt);
    }
  }

  /** Every record is one citation: the sum of all reference counts equals
      the number of hits over all queries. */
  lemma {:induction false} CountsMatchHits(lines: seq<string>, toInt: string -> int)
    ensures SumCounts(ParsePaf(lines, toInt).counts) == TotalHits(ParsePaf(lines, toInt).queries)
    decreases |lines|
  {
    if |lines| > 0 {
      var init := lines[..|lines| - 1];
      CountsMatchHits(init, toInt);
      ApplyBalanced(ParsePaf(init, toInt), ParseLine(lines[|lines| - 1], toInt));
    }
  }

  /** One more record adds one hit and one citation. */
  lemma ApplyBalanced(st: PafResult, rec: Option<Record>)
    requires SumCounts(st.counts) == TotalHits(st.queries)
    ensures SumCounts(Apply(st, rec).counts) == TotalHits(Apply(st, rec).queries)
  {
    if rec.Some? {
      SumCountsIncrement(st.counts, rec.value.hit.ref);
    }
  }
}
