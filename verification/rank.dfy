/**
 The taxonomic level resolver (`determine_taxonomic_level`): the deepest
 rank named anywhere in a `;`-separated lineage of `rank:name` tokens.
 */
module Rank {
  import opened Wrappers
  import opened PyStr

  /** The fixed rank ladder, shallowest first. */
  const RankOrder: seq<string> :=
    ["superkingdom", "phylum", "class", "order", "family", "genus", "species", "strain"]

  /** The level reported when no token names a known rank. */
  const Root: string := "root"

  /** Position of a rank name in the ladder, if it is on it. */
  function RankIndex(rank: string): (r: Option<nat>)
    ensures r.Some? <==> rank in RankOrder
    ensures r.Some? ==> r.value < |RankOrder| && RankOrder[r.value] == rank
  {
    if rank == "superkingdom" then Some(0)
    else if rank == "phylum" then Some(1)
    else if rank == "class" then Some(2)
    else if rank == "order" then Some(3)
    else if rank == "family" then Some(4)
    else if rank == "genus" then Some(5)
    else if rank == "species" then Some(6)
    else if rank == "strain" then Some(7)
    else None
  }

  /** The ladder position a single token names: the token is trimmed, and if
      it holds a `:` the text before the first one, trimmed and lower-cased,
      must be a rank name. */
  function TokenRank(token: string): (r: Option<nat>)
    ensures r.Some? ==> r.value < |RankOrder|
  {
    var part := Strip(token);
    if ':' in part then RankIndex(Lower(Strip(SplitFirst(part, ':').0)))
    else None
  }

  /** The deeper of two optional ladder positions. */
  function Deeper(a: Option<nat>, b: Option<nat>): Option<nat>
  {
    match (a, b)
    case (None, _) => b
    case (_, None) => a
    case (Some(x), Some(y)) => if y > x then b else a
  }

  /** The ladder position each token names, token by token. */
  function TokenRanks(tokens: seq<string>): (r: seq<Option<nat>>)
    ensures |r| == |tokens|
    ensures forall k :: 0 <= k < |tokens| ==> r[k] == TokenRank(tokens[k])
    ensures OnLadder(r)
  {
    if |tokens| == 0 then [] else TokenRanks(tokens[..|tokens| - 1]) + [TokenRank(tokens[|tokens| - 1])]
  }

  /** Every rank named is a ladder position. */
  predicate OnLadder(ranks: seq<Option<nat>>)
  {
    forall k :: 0 <= k < |ranks| && ranks[k].Some? ==> ranks[k].value < |RankOrder|
  }

  /** The scan over the tokens' ranks in order, keeping the deepest one seen
      so far; nothing when no token names a rank. */
  function Deepest(ranks: seq<Option<nat>>): (r: Option<nat>)
    ensures r.None? <==> forall k :: 0 <= k < |ranks| ==> ranks[k].None?
    ensures r.Some? ==> exists k :: 0 <= k < |ranks| && ranks[k] == r
    ensures r.Some? ==> forall k :: 0 <= k < |ranks| && ranks[k].Some? ==> ranks[k].value <= r.value
  {
    if |ranks| == 0 then None
    else
      var init := ranks[..|ranks| - 1];
      assert forall k :: 0 <= k < |init| ==> init[k] == ranks[k];
      Deeper(Deepest(init), ranks[|ranks| - 1])
  }

  /** The ranks of the tokens of a lineage. */
  function LineageRanks(lineage: string): seq<Option<nat>>
  {
    TokenRanks(Split(lineage, ';'))
  }

  /** The level the scan over some tokens' ranks reports. */
  function LevelOf(ranks: seq<Option<nat>>): (level: string)
    requires OnLadder(ranks)
    ensures level == Root || level in RankOrder
  {
    match Deepest(ranks)
    case None => Root
    case Some(i) => RankOrder[i]
  }

  /** `determine_taxonomic_level`: the level of the ranks of the lineage's
      `;`-separated tokens. */
  function DetermineLevel(lineage: string): (level: string)
    ensures level == Root || level in RankOrder
  {
    LevelOf(LineageRanks(lineage))
  }

  /** The level is "root" exactly when no token names a ladder rank, and
      otherwise it is the rank named by some token `k` such that no token
      names a deeper one. */
  lemma LevelIsDeepestRank(ranks: seq<Option<nat>>)
    requires OnLadder(ranks)
    ensures LevelOf(ranks) == Root <==> forall j :: 0 <= j < |ranks| ==> ranks[j].None?
    ensures LevelOf(ranks) != Root ==>
              exists k :: 0 <= k < |ranks| && ranks[k].Some? && ranks[k].value < |RankOrder|
                && LevelOf(ranks) == RankOrder[ranks[k].value]
                && (forall j :: 0 <= j < |ranks| && ranks[j].Some? ==> ranks[j].value <= ranks[k].value)
  {
    var d := Deepest(ranks);
    if d.Some? {
      var k :| 0 <= k < |ranks| && ranks[k] == d;
    }
  }

  /** The deepest rank over a concatenation is the deeper of the two parts'. */
  lemma {:induction false} DeepestConcat(a: seq<Option<nat>>, b: seq<Option<nat>>)
    ensures Deepest(a + b) == Deeper(Deepest(a), Deepest(b))
    decreases |b|
  {
    if |b| == 0 {
      assert a + b == a;
    } else {
      var b0 := b[..|b| - 1];
      assert (a + b)[..|a + b| - 1] == a + b0;
      DeepestConcat(a, b0);
    }
  }

  lemma {:induction false} TokenRanksConcat(a: seq<string>, b: seq<string>)
    ensures TokenRanks(a + b) == TokenRanks(a) + TokenRanks(b)
    decreases |b|
  {
    if |b| == 0 {
      assert a + b == a;
    } else {
      var b0 := b[..|b| - 1];
      assert (a + b)[..|a + b| - 1] == a + b0;
      assert (a + b)[|a + b| - 1] == b[|b| - 1];
      TokenRanksConcat(a, b0);
    }
  }

  /** The ranks of `a;b` are the ranks of `a` followed by those of `b`. */
  lemma LineageRanksConcat(a: string, b: string)
    ensures LineageRanks(a + ";" + b) == LineageRanks(a) + LineageRanks(b)
  {
    assert a + ";" + b == a + [';'] + b;
    SplitConcat(a, b, ';');
    TokenRanksConcat(Split(a, ';'), Split(b, ';'));
  }

  /** Tokens may come in any order: resolving `a;b` and `b;a` gives the same
      level. */
  lemma LevelOrderIndependent(a: string, b: string)
    ensures DetermineLevel(a + ";" + b) == DetermineLevel(b + ";" + a)
  {
    var ra := LineageRanks(a);
    var rb := LineageRanks(b);
    LineageRanksConcat(a, b);
    LineageRanksConcat(b, a);
    DeepestConcat(ra, rb);
    DeepestConcat(rb, ra);
    DeeperCommutes(Deepest(ra), Deepest(rb));
  }

  lemma DeeperCommutes(x: Option<nat>, y: Option<nat>)
    ensures Deeper(x, y) == Deeper(y, x)
  {
  }

  /** A well-formed `rank:name` token (no colon or surrounding whitespace in
      the rank, already lower-case, no trailing whitespace) names the rank's
      ladder position. */
  lemma TokenRankOfWellFormed(rank: string, name: string)
    requires |rank| > 0 && !IsSpace(rank[0]) && !IsSpace(rank[|rank| - 1])
    requires ':' !in rank && Lower(rank) == rank
    requires |name| > 0 && !IsSpace(name[|name| - 1])
    ensures TokenRank(rank + ":" + name) == RankIndex(rank)
  {
    var t := rank + ":" + name;
    StripNoop(t);
    StripNoop(rank);
    var i := IndexOf(t, ':');
    assert t[|rank|] == ':';
    assert i == |rank|;
    assert SplitFirst(t, ':').0 == rank;
  }

  /** The rank part of a token counts, whatever the name after the first
      colon: it is the text before that colon, trimmed and lower-cased, that
      is looked up on the ladder. */
  lemma TokenRankOfRankPart(rank: string, name: string)
    requires ':' !in rank
    ensures TokenRank(rank + ":" + name) == RankIndex(Lower(Strip(rank)))
  {
    assert rank + ":" + name == rank + [':'] + name;
    StripSplitFirst(rank, ':', name);
  }

  /** A token without a colon names no rank, whatever it spells. */
  lemma TokenRankNoColon(t: string)
    requires ':' !in t
    ensures TokenRank(t) == None
  {
    StripIsInfix(t);
    var i :| StrippedAt(t, Strip(t), i);
    forall k | 0 <= k < |Strip(t)|
      ensures Strip(t)[k] != ':'
    {
      assert Strip(t)[k] == t[i + k];
    }
  }

  /** Every rank on the ladder is written in lower-case ASCII letters, and
      no rank appears twice. */
  lemma LadderWellFormed()
    ensures forall p :: 0 <= p < |RankOrder| ==> LowerAscii(RankOrder[p])
    ensures forall p, q :: 0 <= p < q < |RankOrder| ==> RankOrder[p] != RankOrder[q]
  {
  }

  /** `RankIndex` is the inverse of indexing the ladder. */
  lemma RankIndexIs(x: string, p: nat)
    requires p < |RankOrder|
    ensures RankIndex(x) == Some(p) <==> x == RankOrder[p]
  {
    LadderWellFormed();
    if x == RankOrder[p] {
      assert RankIndex(x).Some?;
      assert RankOrder[RankIndex(x).value] == RankOrder[p];
    }
  }

  /** A token names ladder position `p` exactly when its rank part, once
      trimmed, spells that rank in any mix of upper and lower case. */
  lemma TokenRankNames(rank: string, name: string, p: nat)
    requires ':' !in rank && p < |RankOrder|
    ensures TokenRank(rank + ":" + name) == Some(p) <==>
              var r := Strip(rank);
              |r| == |RankOrder[p]| && forall k :: 0 <= k < |r| ==> CaseVariant(r[k], RankOrder[p][k])
  {
    TokenRankOfRankPart(rank, name);
    LadderWellFormed();
    LowerMatches(Strip(rank), RankOrder[p]);
    RankIndexIs(Lower(Strip(rank)), p);
  }

  /** A lineage of one token. */
  lemma SingleTokenRanks(t: string)
    requires ';' !in t
    ensures LineageRanks(t) == [TokenRank(t)]
  {
    SplitNoSep(t, ';');
  }

  /** A name that can follow `rank:` in a well-formed token. */
  predicate PlainName(name: string)
  {
    |name| > 0 && !IsSpace(name[|name| - 1]) && ';' !in name
  }

  /** A well-formed token of rank `rank` alone is a lineage of that rank. */
  lemma WellFormedTokenRanks(rank: string, name: string)
    requires |rank| > 0 && !IsSpace(rank[0]) && !IsSpace(rank[|rank| - 1])
    requires ':' !in rank && ';' !in rank && Lower(rank) == rank
    requires PlainName(name)
    ensures LineageRanks(rank + ":" + name) == [RankIndex(rank)]
  {
    var t := rank + ":" + name;
    assert ';' !in t;
    SingleTokenRanks(t);
    TokenRankOfWellFormed(rank, name);
  }

  lemma SpeciesTokenRanks(x: string)
    requires PlainName(x)
    ensures LineageRanks("species" + ":" + x) == [Some(6)]
  {
    assert Lower("species") == "species";
    WellFormedTokenRanks("species", x);
  }

  lemma SuperkingdomTokenRanks(y: string)
    requires PlainName(y)
    ensures LineageRanks("superkingdom" + ":" + y) == [Some(0)]
  {
    assert Lower("superkingdom") == "superkingdom";
    WellFormedTokenRanks("superkingdom", y);
  }

  lemma OutOfOrderRanks(x: string, y: string)
    requires PlainName(x) && PlainName(y)
    ensures LineageRanks(("species" + ":" + x) + ";" + ("superkingdom" + ":" + y)) == [Some(6), Some(0)]
  {
    LineageRanksConcat("species" + ":" + x, "superkingdom" + ":" + y);
    SpeciesTokenRanks(x);
    SuperkingdomTokenRanks(y);
  }

  lemma SpeciesOverSuperkingdom(lineage: string)
    requires LineageRanks(lineage) == [Some(6), Some(0)]
    ensures DetermineLevel(lineage) == "species"
  {
    assert Deepest([Some(6), Some(0)]) == Some(6);
    assert LevelOf([Some(6), Some(0)]) == RankOrder[6];
  }

  /** `species:X;superkingdom:Y` resolves to "species", although the last
      token is a superkingdom: the scan keeps the deepest rank, not the last. */
  lemma OutOfOrderExample(x: string, y: string)
    requires PlainName(x) && PlainName(y)
    ensures DetermineLevel(("species" + ":" + x) + ";" + ("superkingdom" + ":" + y)) == "species"
  {
    OutOfOrderRanks(x, y);
    SpeciesOverSuperkingdom(("species" + ":" + x) + ";" + ("superkingdom" + ":" + y));
  }
}
