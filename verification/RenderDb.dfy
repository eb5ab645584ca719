/** The two translations of translations/RenderDb.js as a whole: OSM tags out to table
    columns and back.  A JavaScript object is a map, and the order in which `for..in`
    visits its keys is a parameter. */
module RenderDb {
  import opened Objects
  import opened QuotedText
  import opened RenderDbColumns
  import opened RenderDbPacking
  import opened Text
  import opened Wrappers

  /** The column names of the slice-and-dice loop and of the import. */
  const COLUMN_NAMES: seq<string> := ["tags", "tags2", "tags3", "tags4", "tags5"]

  /** What the translation reads from its surroundings: the renaming list of the output
      format, the renaming list of the import, the columns of the table, and whether the
      format is the shapefile one. */
  datatype Config = Config(swap: Tags, restore: Tags, columns: set<string>, shp: bool)

  // ----- Export -----

  /** Hoot's own tags are renamed or dropped first. */
  function DropMetadata(tags: Tags): Tags {
    var t1 := if Truthy(tags, "hoot:id") && !Truthy(tags, "osm_id")
              then tags["osm_id" := tags["hoot:id"]] - {"hoot:id"} else tags;
    var t2 := if "hoot:status" in t1 && (t1["hoot:status"] == "invalid" || t1["hoot:status"] == "Invalid")
              then t1 - {"hoot:status"} else t1;
    var t3 := if Truthy(t2, "hoot:layername") then t2 - {"hoot:layername"} else t2;
    if Truthy(t3, "source:ingest:datetime") then t3 - {"source:ingest:datetime"} else t3
  }

  datatype Sorted = Sorted(tags: Tags, list: seq<Tag>)

  /** One turn of the sorting loop. */
  function SortTag(s: Sorted, key: string, c: Config): Sorted {
    if key !in s.tags then s
    else if Contains(key, "error:") then Sorted(s.tags - {key}, s.list)
    else if key in c.swap then Sorted(s.tags[c.swap[key] := s.tags[key]] - {key}, s.list)
    else if key !in c.columns then Sorted(s.tags - {key}, s.list + [Tag(key, s.tags[key])])
    else s
  }

  function SortTags(s: Sorted, order: seq<string>, c: Config): Sorted
    decreases |order|
  {
    if |order| == 0 then s else SortTags(SortTag(s, order[0], c), order[1..], c)
  }

  function PutColumns(tags: Tags, texts: seq<string>, i: nat): Tags
    requires i + |texts| <= |COLUMN_NAMES|
    decreases |texts|
  {
    if |texts| == 0 then tags else PutColumns(tags[COLUMN_NAMES[i] := texts[0]], texts[1..], i + 1)
  }

  /** The entries the columns are filled with, column by column. */
  function Groups(list: seq<string>, c: Config): (groups: seq<seq<string>>)
  {
    var kept := Kept(list);
    if c.shp && Counted(list) > FIELD_WIDTH then Pack(kept, COLUMN_COUNT).groups
    else if kept == [] then []
    else [kept]
  }

  lemma GroupCount(list: seq<string>, n: nat)
    ensures |Pack(list, n).groups| <= n
    decreases n
  {
    if n > 0 && |list| > 0 {
      GroupCount(Column(list).rest, n - 1);
    }
  }

  lemma GroupsCount(list: seq<string>, c: Config)
    ensures |Groups(list, c)| <= |COLUMN_NAMES|
    ensures |Texts(Groups(list, c))| == |Groups(list, c)|
  {
    GroupCount(Kept(list), COLUMN_COUNT);
    TextsLength(Groups(list, c));
  }

  lemma {:induction false} TextsLength(groups: seq<seq<string>>)
    ensures |Texts(groups)| == |groups|
    ensures forall i :: 0 <= i < |groups| ==> Texts(groups)[i] == Join(groups[i], ",")
  {
    if |groups| > 0 {
      TextsLength(groups[1..]);
    }
  }

  function Export(tags: Tags, order: seq<string>, c: Config): Tags {
    var s := SortTags(Sorted(tags, []), order, c);
    var list := Entries(s.list);
    GroupsCount(list, c);
    PutColumns(s.tags["tags" := Join(Kept(list), ",")], Texts(Groups(list, c)), 0)
  }

  lemma EntriesSnoc(list: seq<Tag>, tag: Tag)
    ensures Entries(list + [tag]) == Entries(list) + [Entry(tag)]
  {
    if |list| > 0 {
      assert (list + [tag])[1..] == list[1..] + [tag];
      EntriesSnoc(list[1..], tag);
    }
  }

  /** Sort out which tags get their own column and which go into the text columns. */
  method SortOut(given: Tags, order: seq<string>, c: Config) returns (tags: Tags, tagsList: seq<string>)
    ensures tags == SortTags(Sorted(given, []), order, c).tags
    ensures tagsList == Entries(SortTags(Sorted(given, []), order, c).list)
  {
    tags, tagsList := given, [];
    ghost var sorted := Sorted(given, []);
    for n := 0 to |order|
      invariant SortTags(Sorted(given, []), order, c) == SortTags(sorted, order[n..], c)
      invariant sorted.tags == tags && Entries(sorted.list) == tagsList
    {
      var i := order[n];
      assert order[n..][1..] == order[n + 1..];
      ghost var before := sorted.list;
      sorted := SortTag(sorted, i, c);
      if i in tags {
        if Contains(i, "error:") {
          tags := tags - {i};
        } else if i in c.swap {
          tags := tags[c.swap[i] := tags[i]];
          tags := tags - {i};
        } else if i !in c.columns {
          EntriesSnoc(before, Tag(i, tags[i]));
          tagsList := tagsList + [QUOTE + i + KEY_SEP + tags[i] + QUOTE];
          tags := tags - {i};
        }
      }
    }
  }

  /** Fill the text column, or the five columns of a shapefile. */
  method StoreTags(given: Tags, list: seq<string>, c: Config) returns (tags: Tags)
    ensures |Texts(Groups(list, c))| <= |COLUMN_NAMES|
    ensures tags == PutColumns(given["tags" := Join(Kept(list), ",")], Texts(Groups(list, c)), 0)
  {
    GroupsCount(list, c);
    var tagsList, tagsLength := DropLong(list);
    tags := given["tags" := Join(tagsList, ",")];
    if c.shp && tagsLength > FIELD_WIDTH {
      var columns, _ := PackColumns(tagsList);
      ghost var base := tags;
      for nam := 0 to |columns|
        invariant |columns| <= |COLUMN_NAMES|
        invariant PutColumns(base, columns, 0) == PutColumns(tags, columns[nam..], nam)
      {
        assert columns[nam..][1..] == columns[nam + 1..];
        tags := tags[COLUMN_NAMES[nam] := columns[nam]];
      }
    } else if tagsList != [] {
      assert Texts([tagsList]) == [Join(tagsList, ",")];
      assert tags[COLUMN_NAMES[0] := Join(tagsList, ",")] == tags;
      assert PutColumns(tags, [Join(tagsList, ",")], 0) == PutColumns(tags, [], 1);
    }
  }

  method TranslateToOgr(given: Tags, order: seq<string>, c: Config) returns (tags: Tags)
    requires Enumerates(order, DropMetadata(given))
    ensures tags == Export(DropMetadata(given), order, c)
  {
    tags := given;
    if Truthy(tags, "hoot:id") && !Truthy(tags, "osm_id") {
      tags := tags["osm_id" := tags["hoot:id"]];
      tags := tags - {"hoot:id"};
    }
    if "hoot:status" in tags && (tags["hoot:status"] == "invalid" || tags["hoot:status"] == "Invalid") {
      tags := tags - {"hoot:status"};
    }
    if Truthy(tags, "hoot:layername") {
      tags := tags - {"hoot:layername"};
    }
    if Truthy(tags, "source:ingest:datetime") {
      tags := tags - {"source:ingest:datetime"};
    }
    var tagsList;
    tags, tagsList := SortOut(tags, order, c);
    tags := StoreTags(tags, tagsList, c);
  }

  // ----- Import -----

  function RestoreName(attrs: Tags, key: string, c: Config): Tags {
    if key in attrs && key in c.restore then attrs[c.restore[key] := attrs[key]] - {key} else attrs
  }

  function RestoreNames(attrs: Tags, order: seq<string>, c: Config): Tags
    decreases |order|
  {
    if |order| == 0 then attrs else RestoreNames(RestoreName(attrs, order[0], c), order[1..], c)
  }

  function Assign(attrs: Tags, tags: seq<Tag>): Tags
    decreases |tags|
  {
    if |tags| == 0 then attrs else Assign(attrs[tags[0].key := tags[0].value], tags[1..])
  }

  function AssignDecoded(attrs: Tags, decoded: Result<seq<Tag>>): Result<Tags> {
    match decoded
    case Thrown(_) => Thrown(TypeError)
    case Ok(tags) => Ok(Assign(attrs, tags))
  }

  /** Split the text columns up again, one name after the other. */
  function Unpack(attrs: Tags, names: seq<string>): Result<Tags>
    decreases |names|
  {
    if |names| == 0 then Ok(attrs)
    else if !Truthy(attrs, names[0]) then Unpack(attrs, names[1..])
    else
      match DecodeColumn(attrs[names[0]])
      case Thrown(_) => Thrown(TypeError)
      case Ok(tags) => Unpack(Assign(attrs - {names[0]}, tags), names[1..])
  }

  function Import(attrs: Tags, order: seq<string>, c: Config): Result<Tags> {
    Unpack(RestoreNames(attrs, order, c), COLUMN_NAMES)
  }

  /** The inner loop over the pieces of one column. */
  method AssignPieces(given: Tags, pieces: seq<string>) returns (r: Result<Tags>)
    ensures r == AssignDecoded(given, DecodePieces(pieces))
  {
    var attrs := given;
    for val := 0 to |pieces|
      invariant DecodePieces(pieces[val..]).Thrown? ==> DecodePieces(pieces).Thrown?
      invariant DecodePieces(pieces[val..]).Ok? ==> DecodePieces(pieces).Ok?
      invariant DecodePieces(pieces[val..]).Ok? ==>
                  Assign(given, DecodePieces(pieces).value) == Assign(attrs, DecodePieces(pieces[val..]).value)
    {
      assert pieces[val..][1..] == pieces[val + 1..];
      var vList := Split(pieces[val], KEY_SEP);
      if |vList| < 2 {
        return Thrown(TypeError);
      }
      ghost var rest := DecodePieces(pieces[val + 1..]);
      ghost var tag := DecodePiece(pieces[val]).value;
      assert rest.Ok? ==> ([tag] + rest.value)[1..] == rest.value;
      attrs := attrs[ReplaceFirst(vList[0], QUOTE, "") := ReplaceFirst(vList[1], QUOTE, "")];
    }
    r := Ok(attrs);
  }

  method TranslateToOsm(given: Tags, order: seq<string>, c: Config) returns (r: Result<Tags>)
    requires Enumerates(order, given)
    ensures r == Import(given, order, c)
  {
    var attrs := given;
    for n := 0 to |order|
      invariant RestoreNames(given, order, c) == RestoreNames(attrs, order[n..], c)
    {
      var i := order[n];
      assert order[n..][1..] == order[n + 1..];
      if i in attrs && i in c.restore {
        attrs := attrs[c.restore[i] := attrs[i]];
        attrs := attrs - {i};
      }
    }
    for t := 0 to |COLUMN_NAMES|
      invariant Import(given, order, c) == Unpack(attrs, COLUMN_NAMES[t..])
    {
      var tName := COLUMN_NAMES[t];
      assert COLUMN_NAMES[t..][1..] == COLUMN_NAMES[t + 1..];
      if Truthy(attrs, tName) {
        var tList := Split(attrs[tName], ENTRY_SEP);
        attrs := attrs - {tName};
        var next := AssignPieces(attrs, tList);
        if next.Thrown? {
          return Thrown(TypeError);
        }
        attrs := next.value;
      }
    }
    r := Ok(attrs);
  }
}
