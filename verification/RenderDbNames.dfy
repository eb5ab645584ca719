/** The lists of shorter column names in translations/RenderDb.js, and the list the import
    builds from them. */
module RenderDbNames {
  import opened Objects
  import opened RenderDb
  import opened RenderDbRoundTrip

  datatype Rename = Rename(tag: string, column: string)

  const SHP_SWAP_LIST: seq<Rename> := [
    Rename("construction", "constructn"),
    Rename("denomination", "denominatn"),
    Rename("description", "descript"),
    Rename("generator:source", "gen_source"),
    Rename("intermittent", "intermit"),
    Rename("power_source", "pwr_source"),
    Rename("public_transport", "public_tpt"),
    Rename("tower:type", "tower_type"),
    Rename("addr:housename", "house_name"),
    Rename("addr:housenumber", "house_num"),
    Rename("addr:interpolation", "addr_intrp"),
    Rename("admin_level", "admin_lvl"),
    Rename("source:imagery:datetime", "imagery_dt"),
    Rename("source:imagery:id", "imagery_id")
  ]

  const GDB_SWAP_LIST: seq<Rename> := [
    Rename("generator:source", "generator_source"),
    Rename("tower:type", "tower_type"),
    Rename("addr:housename", "addr_housename"),
    Rename("addr:housenumber", "addr_housenumber"),
    Rename("addr:interpolation", "addr_interpolation"),
    Rename("source:imagery:datetime", "source_imagery_datetime"),
    Rename("source:imagery:id", "source_imagery_id")
  ]

  function Listed(list: seq<Rename>): Tags {
    if |list| == 0 then map[]
    else Listed(list[..|list| - 1])[list[|list| - 1].tag := list[|list| - 1].column]
  }

  /** The `reduce` that turns a list round. */
  function Inverted(list: seq<Rename>, into: Tags): Tags
    decreases |list|
  {
    if |list| == 0 then into
    else Inverted(list[..|list| - 1], into)[list[|list| - 1].column := list[|list| - 1].tag]
  }

  function InputSwapList(): Tags {
    Inverted(GDB_SWAP_LIST, Inverted(SHP_SWAP_LIST, map[]))
  }

  /** One column name never stands for two tags. */
  predicate Agree(a: seq<Rename>, b: seq<Rename>) {
    forall i, j :: 0 <= i < |a| && 0 <= j < |b| && a[i].column == b[j].column ==> a[i].tag == b[j].tag
  }

  lemma {:induction false} ListedFrom(list: seq<Rename>)
    ensures forall k <- Listed(list) :: Rename(k, Listed(list)[k]) in list
  {
    if |list| > 0 {
      ListedFrom(list[..|list| - 1]);
    }
  }

  lemma {:induction false} InvertedIs(list: seq<Rename>, into: Tags)
    requires Agree(list, list)
    ensures forall i :: 0 <= i < |list| ==>
              list[i].column in Inverted(list, into) && Inverted(list, into)[list[i].column] == list[i].tag
    ensures forall k <- Inverted(list, into) :: (exists i :: 0 <= i < |list| && list[i].column == k) || k in into
    ensures forall k <- into :: k in Inverted(list, into)
    ensures forall k <- into :: (forall i :: 0 <= i < |list| ==> list[i].column != k) ==> Inverted(list, into)[k] == into[k]
    decreases |list|
  {
    if |list| > 0 {
      InvertedIs(list[..|list| - 1], into);
    }
  }

  lemma InputSwapListIs(a: seq<Rename>, b: seq<Rename>)
    requires Agree(a, a) && Agree(b, b) && Agree(a, b)
    ensures var restore := Inverted(b, Inverted(a, map[]));
            && (forall r <- a + b :: r.column in restore && restore[r.column] == r.tag)
            && (forall k <- restore :: exists r <- a + b :: r.column == k)
  {
    var first := Inverted(a, map[]);
    var restore := Inverted(b, first);
    InvertedIs(a, map[]);
    InvertedIs(b, first);
    forall r | r in a + b
      ensures r.column in restore && restore[r.column] == r.tag
    {
      if r !in b {
        var i :| 0 <= i < |a| && a[i] == r;
        if j :| 0 <= j < |b| && b[j].column == r.column {
          assert restore[b[j].column] == b[j].tag;
        }
      }
    }
    forall k | k in restore
      ensures exists r <- a + b :: r.column == k
    {
      if i :| 0 <= i < |b| && b[i].column == k {
        assert b[i] in a + b;
      } else {
        var i :| 0 <= i < |a| && a[i].column == k;
        assert a[i] in a + b;
      }
    }
  }

  lemma ShpColumnsDiffer(i: nat, j: nat)
    requires i < j < |SHP_SWAP_LIST|
    ensures SHP_SWAP_LIST[i].column != SHP_SWAP_LIST[j].column
  {
  }

  lemma GdbColumnsDiffer(i: nat, j: nat)
    requires i < j < |GDB_SWAP_LIST|
    ensures GDB_SWAP_LIST[i].column != GDB_SWAP_LIST[j].column
  {
  }

  lemma ShpAndGdbAgree(i: nat, j: nat)
    requires i < |SHP_SWAP_LIST| && j < |GDB_SWAP_LIST|
    ensures SHP_SWAP_LIST[i].column == GDB_SWAP_LIST[j].column ==> SHP_SWAP_LIST[i].tag == GDB_SWAP_LIST[j].tag
  {
  }

  lemma NamesAreLong()
    ensures forall i :: 0 <= i < |SHP_SWAP_LIST| ==> |SHP_SWAP_LIST[i].tag| > 5 && |SHP_SWAP_LIST[i].column| > 5
    ensures forall i :: 0 <= i < |GDB_SWAP_LIST| ==> |GDB_SWAP_LIST[i].tag| > 5 && |GDB_SWAP_LIST[i].column| > 5
    ensures forall n <- COLUMN_NAMES :: |n| <= 5
  {
  }

  lemma ListsAgree()
    ensures Agree(SHP_SWAP_LIST, SHP_SWAP_LIST) && Agree(GDB_SWAP_LIST, GDB_SWAP_LIST)
    ensures Agree(SHP_SWAP_LIST, GDB_SWAP_LIST)
  {
    forall i, j | 0 <= i < j < |SHP_SWAP_LIST| ensures SHP_SWAP_LIST[i].column != SHP_SWAP_LIST[j].column {
      ShpColumnsDiffer(i, j);
    }
    forall i, j | 0 <= i < j < |GDB_SWAP_LIST| ensures GDB_SWAP_LIST[i].column != GDB_SWAP_LIST[j].column {
      GdbColumnsDiffer(i, j);
    }
    forall i, j | 0 <= i < |SHP_SWAP_LIST| && 0 <= j < |GDB_SWAP_LIST|
      ensures SHP_SWAP_LIST[i].column == GDB_SWAP_LIST[j].column ==> SHP_SWAP_LIST[i].tag == GDB_SWAP_LIST[j].tag
    {
      ShpAndGdbAgree(i, j);
    }
  }

  predicate LongNames(list: seq<Rename>) {
    forall i :: 0 <= i < |list| ==> |list[i].tag| > 5 && |list[i].column| > 5
  }

  lemma FormatIsConsistent(list: seq<Rename>, a: seq<Rename>, b: seq<Rename>, columns: set<string>, shp: bool)
    requires Agree(a, a) && Agree(b, b) && Agree(a, b) && LongNames(a) && LongNames(b)
    requires list == a || list == b || list == []
    requires forall n <- COLUMN_NAMES :: |n| <= 5
    ensures Consistent(Config(Listed(list), Inverted(b, Inverted(a, map[])), columns, shp))
  {
    var all, restore := a + b, Inverted(b, Inverted(a, map[]));
    InputSwapListIs(a, b);
    ListedFrom(list);
    assert forall r <- all :: |r.tag| > 5 && |r.column| > 5;
    forall k | k in Listed(list)
      ensures Listed(list)[k] in restore && restore[Listed(list)[k]] == k && |k| > 5
    {
      assert Rename(k, Listed(list)[k]) in all;
    }
  }

  /** For every output format, renaming on import undoes renaming on export: the two lists
      share the column `tower_type`, but for the same tag. */
  lemma FormatsAreConsistent(columns: set<string>)
    ensures Consistent(Config(Listed(SHP_SWAP_LIST), InputSwapList(), columns, true))
    ensures Consistent(Config(Listed(GDB_SWAP_LIST), InputSwapList(), columns, false))
    ensures Consistent(Config(map[], InputSwapList(), columns, false))
  {
    ListsAgree();
    NamesAreLong();
    FormatIsConsistent(SHP_SWAP_LIST, SHP_SWAP_LIST, GDB_SWAP_LIST, columns, true);
    FormatIsConsistent(GDB_SWAP_LIST, SHP_SWAP_LIST, GDB_SWAP_LIST, columns, false);
    FormatIsConsistent([], SHP_SWAP_LIST, GDB_SWAP_LIST, columns, false);
  }
}
