# HYMET2 classification engine, in Dafny

This project models the taxonomic classifier of HYMET2,
`scripts/classificationminimap.py`, and proves properties of the model.
The classifier works in five stages:

1. It loads two tables: reference identifier → TaxID, and TaxID → lineage.
2. It parses the query-vs-reference alignments of a PAF file, grouping the
   hits by query and counting how often each reference is hit.
3. It classifies each query. An exact self-hit whose TaxID has a lineage
   decides the query outright. Otherwise each hit weighs coverage ×
   reference abundance, the weights are summed per TaxID, and the TaxIDs
   are ranked by their share of the total.
4. It resolves each lineage's taxonomic level: the deepest rank named
   anywhere in a `;`-separated list of `rank:name` tokens.
5. It writes up to K rows per query and counts the classified queries.

Modules, one per stage of the program:

| file | module | models |
|---|---|---|
| `wrappers.dfy` | `Wrappers` | the optional value shared by the other modules |
| `pystr.dfy` | `PyStr` | Python's `strip()`, `split(sep)`, `split(sep, 1)` and `lower()` on `str` |
| `loaders.dfy` | `Loaders` | `load_taxonomy_file` and `load_taxonomy_hierarchy_file` |
| `paf.dfy` | `Paf` | `parse_paf_file` |
| `rank.dfy` | `Rank` | `determine_taxonomic_level` |
| `weights.dfy` | `Weights` | `calculate_weighted_lineage` |
| `ranker.dfy` | `Ranker` | `get_top_lineages` |
| `classify.dfy` | `Classify` | `process_query` |
| `report.dfy` | `Report` | the output loop of `main_process`, and the `--max-candidates` clamp |

Python's dictionaries iterate in insertion order, and the program depends on
this in two places:

- The output lists queries in the order they were first seen.
- Confidence ties keep the order in which their TaxIDs were first weighted.

So the query map and the per-TaxID weights are modelled as sequences of
entries in first-insertion order. The reference counts are a `map`, because
they are only ever looked up.

Coverages, weights and confidences are exact `real`s. This idealises Python's
floats.

Integer parsing of the two length fields is the function parameter `toInt`.

## Model

| member | source | states |
|---|---|---|
| PyStr.Strip | scripts/classificationminimap.py:22 | the stripped string is no longer than the input, and it is empty or starts and ends with a non-whitespace character (Python `isspace` set) |
| PyStr.StripIsInfix | scripts/classificationminimap.py:22 | the result sits inside the input with only whitespace before and after it |
| PyStr.StripIdempotent | scripts/classificationminimap.py:34 | stripping twice is stripping once |
| PyStr.StripNoop | scripts/classificationminimap.py:70 | a string with no whitespace at either end is unchanged by stripping |
| PyStr.Split | scripts/classificationminimap.py:21 | `split(sep)` yields at least one piece, and no piece contains the separator |
| PyStr.JoinSplit | scripts/classificationminimap.py:21 | joining the pieces of a split with the separator gives back the original string |
| PyStr.SplitJoin | scripts/classificationminimap.py:69 | splitting a join of separator-free pieces gives back the pieces |
| PyStr.SplitConcat | scripts/classificationminimap.py:69 | splitting `a + sep + b` is splitting `a` followed by splitting `b` |
| PyStr.SplitFirst | scripts/classificationminimap.py:72 | `split(':', 1)` returns the text before the first colon (which holds no colon) and the rest, and together with the colon they rebuild the input |
| PyStr.LowerMatches | scripts/classificationminimap.py:73 | for a lower-case ASCII word `t`, `s.lower() == t` holds iff `s` has `t`'s length and each character is `t`'s letter, its upper case, or (for `k`) the Kelvin sign |
| PyStr.StripSplitFirst | scripts/classificationminimap.py:70-73 | stripping a token keeps its first colon, and the text before that colon, stripped again, is the token's rank part stripped |
| Loaders.AddIds | scripts/classificationminimap.py:21-24 | the keys grow by exactly the non-empty stripped pieces; those map to the row's TaxID; every other key keeps its value |
| Loaders.LoadTaxonomyKeys | scripts/classificationminimap.py:19-24 | the keys of the loaded table are exactly the identifiers the rows name, so the empty string is never a key |
| Loaders.LoadTaxonomyLastWins | scripts/classificationminimap.py:19-24 | an identifier maps to the TaxID of the last row that lists it |
| Loaders.LoadHierarchyKeys | scripts/classificationminimap.py:32-34 | the keys of the hierarchy table are exactly the TaxIDs of the rows |
| Loaders.LoadHierarchyLastWins | scripts/classificationminimap.py:32-34 | a TaxID maps to the stripped lineage of the last row carrying it |
| Paf.Coverage | scripts/classificationminimap.py:53 | for a positive query length, coverage × query length = aligned length; otherwise coverage is 0; it lies in [0, 1] when 0 ≤ aligned ≤ query length |
| Paf.ParseLine | scripts/classificationminimap.py:44-54 | a line yields no record iff it has fewer than 11 tab fields; otherwise the query and reference come from fields 0 and 5, coverage from fields 1 and 10, and the hit is exact iff query = reference and coverage ≥ 0.99 |
| Paf.AddHit | scripts/classificationminimap.py:56 | the hit is appended to its query's list and no other list changes; a new query goes after all others; the hit total grows by 1 |
| Paf.ParseOneMoreLine | scripts/classificationminimap.py:43-57 | a short line changes nothing; any other line appends exactly one hit to its query and adds exactly 1 to its reference's count, leaving every other query and count unchanged |
| Paf.FirstSeen | scripts/classificationminimap.py:39 | the first-encounter list of query ids has no repeats and holds exactly the queries of the records |
| Paf.FirstSeenOrder | scripts/classificationminimap.py:39 | the list is in first-encounter order: for i < j, some record of the i-th query comes before every record of the j-th |
| Paf.ParsePafMeaning | scripts/classificationminimap.py:38-60 | each query's hit list is exactly its records' hits in file order; queries come in first-encounter order; each reference's count is the number of records citing it, and stored counts are positive |
| Paf.HitsMatchRecords | scripts/classificationminimap.py:56 | the number of hits over all queries equals the number of usable lines |
| Paf.CountsMatchHits | scripts/classificationminimap.py:56-57 | the sum of all reference counts equals the number of hits over all queries |
| Paf.ApplyBalanced | scripts/classificationminimap.py:56-57 | one more record keeps the count sum equal to the hit total |
| Paf.SumCountsIncrement | scripts/classificationminimap.py:57 | adding 1 to one reference count adds 1 to the sum of the counts |
| Rank.RankIndex | scripts/classificationminimap.py:63-66 | a name has a ladder position iff it is one of the 8 ranks, and the ladder holds that name at that position |
| Rank.TokenRank | scripts/classificationminimap.py:70-74 | a token's rank, when it has one, is a position on the 8-rank ladder (its value is stated by `Rank.TokenRankOfRankPart` for tokens with a colon and by `Rank.TokenRankNoColon` for the others) |
| Rank.TokenRankNoColon | scripts/classificationminimap.py:70-71 | a token without a colon names no rank, whatever it spells |
| Rank.TokenRankOfRankPart | scripts/classificationminimap.py:70-74 | for any name after the first colon, a token's rank is the ladder position of its rank part trimmed and lower-cased |
| Rank.RankIndexIs | scripts/classificationminimap.py:74-80 | a name has ladder position `p` iff it is the `p`-th rank: the ladder has no duplicates |
| Rank.TokenRankNames | scripts/classificationminimap.py:70-74 | a token names position `p` iff its trimmed rank part spells the `p`-th rank in any mix of upper and lower case |
| Rank.TokenRanks | scripts/classificationminimap.py:69-74 | the ranks of the tokens are computed token by token and all lie on the ladder |
| Rank.Deepest | scripts/classificationminimap.py:75-81 | the scan finds nothing iff no token has a rank; otherwise it returns a rank some token has, and no token's rank is deeper |
| Rank.DetermineLevel | scripts/classificationminimap.py:62-82 | the level is always `root` or one of the 8 ranks |
| Rank.LevelIsDeepestRank | scripts/classificationminimap.py:68-82 | the level is `root` iff no token names a ladder rank; otherwise it is the rank named by a token that no other token out-ranks |
| Rank.DeepestConcat | scripts/classificationminimap.py:75-81 | the deepest rank over two concatenated token lists is the deeper of the two parts' deepest ranks |
| Rank.LineageRanksConcat | scripts/classificationminimap.py:69 | the token ranks of `a;b` are those of `a` followed by those of `b` |
| Rank.LevelOrderIndependent | scripts/classificationminimap.py:62-82 | `a;b` and `b;a` resolve to the same level |
| Rank.TokenRankOfWellFormed | scripts/classificationminimap.py:70-74 | a well-formed `rank:name` token names that rank's ladder position |
| Rank.OutOfOrderExample | scripts/classificationminimap.py:75-82 | `species:X;superkingdom:Y` resolves to `species`: the deepest rank wins, not the last token |
| Weights.Accumulate | scripts/classificationminimap.py:94 | `+=` adds the weight to that TaxID only, appends a new TaxID at the end, and grows the sum by the weight |
| Weights.WeightedMeaning | scripts/classificationminimap.py:84-97 | one entry per TaxID that a known hit maps to, and no other; each entry holds exactly its hits' summed coverage × abundance; the total equals the sum of the entries and the weight of all known hits |
| Weights.WeightedEntries | scripts/classificationminimap.py:88-94 | the TaxIDs of the entries are distinct and are exactly those that known hits map to |
| Weights.WeightedAmounts | scripts/classificationminimap.py:88-94 | each TaxID's weight equals the summed weight of the hits mapped to it |
| Weights.WeightedTotal | scripts/classificationminimap.py:88-95 | the grand total equals the sum of the entries and the summed weight of all known hits |
| Weights.FirstKnown | scripts/classificationminimap.py:88-94 | the TaxIDs of the known hits, each once, in the order of the first known hit mapping to it |
| Weights.FirstKnownOrder | scripts/classificationminimap.py:88-94 | the list is in first-encounter order: for i < j, some known hit maps to the i-th TaxID before any maps to the j-th |
| Weights.WeightedOrder | scripts/classificationminimap.py:84-94 | the weights' TaxIDs come in exactly that first-known-hit order |
| Weights.UnknownHitIgnored | scripts/classificationminimap.py:89-90 | inserting a hit whose reference the taxonomy lacks, anywhere in the list, changes nothing |
| Weights.WeightsNonNegative | scripts/classificationminimap.py:93-95 | with non-negative coverages every weight and the total are non-negative |
| Weights.HitWeightNonNegative | scripts/classificationminimap.py:93 | a hit of non-negative coverage weighs at least 0, whatever the abundance |
| Weights.AccumulateNonNegative | scripts/classificationminimap.py:94 | adding a non-negative weight keeps every entry non-negative |
| Ranker.Score | scripts/classificationminimap.py:103-109 | there are no more candidates than weighted TaxIDs, and there are none iff no weighted TaxID has a lineage |
| Ranker.ScoreSnoc | scripts/classificationminimap.py:104-109 | scoring keeps the order of the weights: one more weighted TaxID adds its candidate, if it has a lineage, after all the others |
| Ranker.ScoreMembers | scripts/classificationminimap.py:104-109 | a candidate is scored iff some weighted TaxID with a lineage yields it: (lineage, level, weight / total) |
| Ranker.Insert | scripts/classificationminimap.py:112 | insertion adds exactly one element, at the head ahead of equal or lower confidences or after the head |
| Ranker.InsertSorted | scripts/classificationminimap.py:112 | inserting into a descending list keeps it descending |
| Ranker.InsertPermutes | scripts/classificationminimap.py:112 | insertion adds the candidate and nothing else (multiset) |
| Ranker.InsertStable | scripts/classificationminimap.py:112 | inserting puts the new candidate first among those of equal confidence and keeps their order |
| Ranker.SortDesc | scripts/classificationminimap.py:112 | the sort keeps the length and produces non-increasing confidences |
| Ranker.SortPermutes | scripts/classificationminimap.py:112 | the sort is a permutation of its input |
| Ranker.SortStable | scripts/classificationminimap.py:112 | the sort is stable: each confidence class comes out in input order |
| Ranker.Take | scripts/classificationminimap.py:113 | `[:k]` is a prefix of length min(k, n), or n + k (at least 0) for negative k |
| Ranker.GetTopLineages | scripts/classificationminimap.py:99-113 | the result is exactly the sentinel when the total is 0 or no weighted TaxID has a lineage; otherwise it is the first K of the sorted candidates; it is sorted and holds 1 to K entries when K ≥ 1 |
| Ranker.TopLineagesBounded | scripts/classificationminimap.py:108 | with non-negative weights summing to the total, every returned confidence lies in [0, 1] |
| Ranker.Confidences | scripts/classificationminimap.py:108 | each TaxID's confidence × total equals its weight |
| Ranker.ConfidencesSumToOne | scripts/classificationminimap.py:108 | when the total is the non-zero sum of the weights, the confidences of all weighted TaxIDs, before any is dropped or cut, sum to 1 |
| Ranker.TiesKeepEncounterOrder | scripts/classificationminimap.py:104-113 | the result is a prefix of a permutation of the scored candidates, and the candidates of each confidence keep their scored order, which is the weights' order (`Ranker.ScoreSnoc`), which is the first-known-hit order of their TaxIDs (`Weights.WeightedOrder`) |
| Classify.FirstExact | scripts/classificationminimap.py:118 | no result iff no hit is both exact and known; otherwise the result is the reference of a hit that is, and no earlier hit is |
| Classify.ProcessQuery | scripts/classificationminimap.py:115-131 | the query id is kept; the candidates are sorted; with K ≥ 1 there are 1 to K of them |
| Classify.ExactShortcut | scripts/classificationminimap.py:118-124 | if the first exact known hit's TaxID has a lineage, the result is that lineage alone with confidence 1, whatever hits follow |
| Classify.FallThrough | scripts/classificationminimap.py:119-129 | with no exact known hit, or a first one whose TaxID has no lineage, the result is the weighted path's |
| Classify.LaterExactIgnored | scripts/classificationminimap.py:119-129 | when the first exact known hit's TaxID has no lineage, the weighted path decides, whatever exact hits with lineages follow it |
| Classify.AllUnknownGivesSentinel | scripts/classificationminimap.py:126-129 | a query none of whose references the taxonomy knows gets exactly the sentinel candidate |
| Classify.SoleContributor | scripts/classificationminimap.py:126-129 | a query whose one known, weighted hit maps to a TaxID with a lineage gets that lineage alone with confidence 1 |
| Classify.SingleWeightRanks | scripts/classificationminimap.py:99-113 | a single weighted TaxID with a lineage ranks alone with confidence 1 |
| Report.ClampCandidates | scripts/classificationminimap.py:176-181 | the clamped K lies in [1, 10]; in-range values are unchanged; values below go to 1 and values above go to 10 |
| Report.ClampIdempotentMonotone | scripts/classificationminimap.py:176-181 | clamping is idempotent and monotone |
| Report.CandidateRows | scripts/classificationminimap.py:156-157 | one row per candidate shown; row i carries the query id and candidate i's confidence, lineage and level |
| Report.EmitRows | scripts/classificationminimap.py:156-157 | the inner loop writes exactly the rows of the shown candidates, in order |
| Report.ClassifiedStep | scripts/classificationminimap.py:150-153 | one more query adds 1 to the classified count iff its first lineage is not `Unknown` |
| Report.ClassifiedBounded | scripts/classificationminimap.py:149-153 | no more queries are classified than were seen |
| Report.RowsStep | scripts/classificationminimap.py:150-157 | each query's rows come after those of all earlier queries |
| Report.EmitReport | scripts/classificationminimap.py:149-157 | the rows are each query's first K candidates, query after query; `classified` is the number of queries whose first lineage is not `Unknown`, and is at most the number of queries |
| Report.RowCount | scripts/classificationminimap.py:156 | when every query holds 1 to K candidates, the `[:K]` cut drops nothing: one row per candidate |
| Report.CandidateBounds | scripts/classificationminimap.py:156 | with 1 to K candidates per query, n queries give between n and K·n rows |
| Report.ClassifyAll | scripts/classificationminimap.py:138-143 | one result per parsed query, under its own id, in parse order; with K ≥ 1 each has between 1 and K candidates |
| Report.ResultsMeaning | scripts/classificationminimap.py:133-143 | a run reports each query with a usable alignment line once, in the order of its first such line, each with 1 to K candidates |
| Report.Run | scripts/classificationminimap.py:133-157 | after the clamp, the rows are the results' rows; the number of queries equals the number of distinct queries with usable lines; there are between that number and K × that number of rows; `classified` counts the queries not `Unknown` and is at most the number of queries |

Behaviour worth knowing about:

- **Ties.** Python's stable sort keeps equal confidences in the order their
  TaxIDs were first weighted (`Ranker.TiesKeepEncounterOrder`).
- **Output order.** `Pool.map` keeps the parse order
  (`Report.ResultsMeaning`).
- **Errors.** An exception raised inside `process_query` propagates out of
  `pool.map`; there is no per-query fallback.

## Left out

- `scripts/downloadDB.py` is not part of this model. It is download,
  subprocess, thread-pool and decompression plumbing with no classification
  logic.
- The multiprocessing `Pool` is modelled as a sequential, order-keeping map
  over the queries. The worker count has no effect on the result.
- File and CSV handling is left out: `open`, `csv.DictReader`, `csv.writer`,
  the header row, and the `KeyError` on missing columns. The loaders take
  the already-read cells, and the PAF parser takes the lines.
- Integer parsing is the parameter `toInt`. A `ValueError` from `int()` on a
  malformed length field is not modelled.
- `.4f` formatting of confidences and all logging are left out. This covers
  the `.1%` classification-rate line, which divides by zero when no query was
  parsed. A `Row` carries the unformatted confidence.
- IEEE-754 rounding is left out: coverages, weights and confidences are
  exact reals. So `Ranker.ConfidencesSumToOne` is exact where Python's floats
  are only approximately 1.
- `argparse` and the warning printed by the clamp are left out.
- PyStr.Lower: lower-cases only `A`-`Z` and the Kelvin sign U+212A, and
  leaves every other character unchanged. Full Unicode `lower()` is not
  modelled. Only the Kelvin sign lower-cases to an ASCII letter, and every
  rank name is ASCII, so the level resolver decides rank membership exactly
  as Python does.
- Classify.ProcessQuery: promises a non-empty result only for K ≥ 1. With
  K ≤ 0 the weighted path can return an empty list, and `main_process` would
  then fail on `lineages[0]`. The model's report loop therefore requires
  non-empty lists, and `Report.Run` clamps K first, as the command line does.
