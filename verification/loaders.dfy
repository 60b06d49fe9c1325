/**
 The two table loaders of scripts/classificationminimap.py: reference
 identifier -> TaxID, and TaxID -> lineage. Each table is taken as the
 sequence of rows already read, with only the two cells the loader uses.
 */
module Loaders {
  import opened PyStr

  /** One row of the taxonomy table: its `TaxID` and `Identifiers` cells. */
  datatype TaxonomyRow = TaxonomyRow(taxid: string, identifiers: string)

  /** One row of the hierarchy table: its `TaxID` and `Lineage` cells. */
  datatype HierarchyRow = HierarchyRow(taxid: string, lineage: string)

  /** The non-empty trimmed forms of some pieces. */
  function Cleaned(pieces: seq<string>): set<string>
  {
    set p | p in pieces && Strip(p) != "" :: Strip(p)
  }

  /** The identifiers one `Identifiers` cell names: its `;`-separated pieces,
      trimmed, the empty ones left out. */
  function CleanIds(cell: string): set<string>
  {
    Cleaned(Split(cell, ';'))
  }

  lemma CleanedCons(pieces: seq<string>)
    requires |pieces| > 0
    ensures Cleaned(pieces) == (if Strip(pieces[0]) != "" then {Strip(pieces[0])} else {}) + Cleaned(pieces[1..])
  {
    assert forall p :: p in pieces <==> p == pieces[0] || p in pieces[1..];
  }

  /** The inner loop of the taxonomy loader: every non-empty trimmed piece
      becomes a key bound to `taxid`; all other keys keep their value. */
  function AddIds(m: map<string, string>, pieces: seq<string>, taxid: string): (r: map<string, string>)
    ensures r.Keys == m.Keys + Cleaned(pieces)
    ensures forall k :: k in Cleaned(pieces) ==> r[k] == taxid
    ensures forall k :: k in m && k !in Cleaned(pieces) ==> r[k] == m[k]
    decreases |pieces|
  {
    if |pieces| == 0 then m
    else
      var id := Strip(pieces[0]);
      var m' := if id != "" then m[id := taxid] else m;
      CleanedCons(pieces);
      AddIds(m', pieces[1..], taxid)
  }

  /** `load_taxonomy_file` over the rows in file order. */
  function LoadTaxonomy(rows: seq<TaxonomyRow>): map<string, string>
  {
    if |rows| == 0 then map[]
    else
      var last := rows[|rows| - 1];
      AddIds(LoadTaxonomy(rows[..|rows| - 1]), Split(last.identifiers, ';'), last.taxid)
  }

  /** Every identifier some row of the table names. */
  function AllIds(rows: seq<TaxonomyRow>): set<string>
  {
    if |rows| == 0 then {} else AllIds(rows[..|rows| - 1]) + CleanIds(rows[|rows| - 1].identifiers)
  }

  /** After loading, the keys are exactly the identifiers the rows name, so
      never the empty string. */
  lemma {:induction false} LoadTaxonomyKeys(rows: seq<TaxonomyRow>)
    ensures LoadTaxonomy(rows).Keys == AllIds(rows)
    ensures "" !in LoadTaxonomy(rows)
    decreases |rows|
  {
    if |rows| > 0 {
      LoadTaxonomyKeys(rows[..|rows| - 1]);
    }
  }

  /** An identifier is bound to the TaxID of the last row that lists it. */
  lemma {:induction false} LoadTaxonomyLastWins(rows: seq<TaxonomyRow>, i: nat, k: string)
    requires i < |rows| && k in CleanIds(rows[i].identifiers)
    requires forall j :: i < j < |rows| ==> k !in CleanIds(rows[j].identifiers)
    ensures k in LoadTaxonomy(rows) && LoadTaxonomy(rows)[k] == rows[i].taxid
    decreases |rows|
  {
    var init := rows[..|rows| - 1];
    if i < |rows| - 1 {
      assert k !in CleanIds(rows[|rows| - 1].identifiers);
      assert init[i] == rows[i];
      assert forall j :: i < j < |init| ==> init[j] == rows[j];
      LoadTaxonomyLastWins(init, i, k);
    }
  }

  /** `load_taxonomy_hierarchy_file` over the rows in file order. */
  function LoadHierarchy(rows: seq<HierarchyRow>): map<string, string>
  {
    if |rows| == 0 then map[]
    else
      var last := rows[|rows| - 1];
      LoadHierarchy(rows[..|rows| - 1])[last.taxid := Strip(last.lineage)]
  }

  /** After loading, the keys are exactly the TaxIDs of the rows. */
  lemma {:induction false} LoadHierarchyKeys(rows: seq<HierarchyRow>)
    ensures LoadHierarchy(rows).Keys == set i | 0 <= i < |rows| :: rows[i].taxid
    decreases |rows|
  {
    if |rows| > 0 {
      var init := rows[..|rows| - 1];
      LoadHierarchyKeys(init);
      var all := set i | 0 <= i < |rows| :: rows[i].taxid;
      var before := set i | 0 <= i < |init| :: init[i].taxid;
      forall t | t in all ensures t in before + {rows[|rows| - 1].taxid} {
        var i :| 0 <= i < |rows| && rows[i].taxid == t;
        if i < |init| {
          assert init[i].taxid == t;
        }
      }
      forall t | t in before ensures t in all {
        var i :| 0 <= i < |init| && init[i].taxid == t;
        assert rows[i].taxid == t;
      }
      assert all == before + {rows[|rows| - 1].taxid};
    }
  }

  /** A TaxID is bound to the stripped lineage of the last row carrying it. */
  lemma {:induction false} LoadHierarchyLastWins(rows: seq<HierarchyRow>, i: nat)
    requires i < |rows|
    requires forall j :: i < j < |rows| ==> rows[j].taxid != rows[i].taxid
    ensures rows[i].taxid in LoadHierarchy(rows)
    ensures LoadHierarchy(rows)[rows[i].taxid] == Strip(rows[i].lineage)
    decreases |rows|
  {
    var init := rows[..|rows| - 1];
    if i < |rows| - 1 {
      assert rows[|rows| - 1].taxid != rows[i].taxid;
      assert init[i] == rows[i];
      assert forall j :: i < j < |init| ==> init[j] == rows[j];
      LoadHierarchyLastWins(init, i);
    }
  }
}
