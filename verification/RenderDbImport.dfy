/** The import of translations/RenderDb.js for any attributes, not only those that an export
    has written. */
module RenderDbImport {
  import opened Objects
  import opened RenderDb
  import opened RenderDbColumns
  import opened RenderDbRoundTrip
  import opened Wrappers

  // ----- The names -----

  /** No name that is restored is a shorter one itself. */
  predicate NoChains(c: Config) {
    forall a <- c.restore :: c.restore[a] !in c.restore
  }

  /** The attribute at this place is there, and stands for the name. */
  predicate Renames(attrs: Tags, order: seq<string>, c: Config, n: nat, name: string) {
    n < |order| && order[n] in attrs && order[n] in c.restore && c.restore[order[n]] == name
  }

  lemma RenamesLater(attrs: Tags, order: seq<string>, c: Config, i: nat, name: string)
    requires |order| > 0 && NoChains(c) && forall i, j :: 0 <= i < j < |order| ==> order[i] != order[j]
    ensures var next, rest := RestoreName(attrs, order[0], c), order[1..];
            && (Renames(next, rest, c, i, name) <==> Renames(attrs, order, c, i + 1, name))
            && (Renames(next, rest, c, i, name) ==> next[rest[i]] == attrs[order[i + 1]])
  {
    if i + 1 < |order| {
      assert order[1..][i] == order[i + 1] != order[0];
    }
  }

  lemma {:induction false} NotRestored(attrs: Tags, order: seq<string>, c: Config, name: string)
    requires NoChains(c) && name !in c.restore && forall i, j :: 0 <= i < j < |order| ==> order[i] != order[j]
    requires forall i: nat :: !Renames(attrs, order, c, i, name)
    ensures At(RestoreNames(attrs, order, c), name) == At(attrs, name)
    decreases |order|
  {
    if |order| > 0 {
      var next, rest := RestoreName(attrs, order[0], c), order[1..];
      assert !Renames(attrs, order, c, 0, name);
      forall i: nat
        ensures !Renames(next, rest, c, i, name)
      {
        RenamesLater(attrs, order, c, i, name);
      }
      NotRestored(next, rest, c, name);
    }
  }

  /** A name that is not shorter holds the value of the last visited attribute that stands for
      it; without one it keeps its own. */
  lemma {:induction false} RestoredAt(attrs: Tags, order: seq<string>, c: Config, name: string, n: nat)
    requires NoChains(c) && name !in c.restore && forall i, j :: 0 <= i < j < |order| ==> order[i] != order[j]
    requires Renames(attrs, order, c, n, name) && forall i: nat :: n < i ==> !Renames(attrs, order, c, i, name)
    ensures At(RestoreNames(attrs, order, c), name) == Some(attrs[order[n]])
    decreases |order|
  {
    var next, rest := RestoreName(attrs, order[0], c), order[1..];
    if n == 0 {
      forall i: nat
        ensures !Renames(next, rest, c, i, name)
      {
        RenamesLater(attrs, order, c, i, name);
      }
      NotRestored(next, rest, c, name);
    } else {
      RenamesLater(attrs, order, c, n - 1, name);
      forall i: nat | n - 1 < i
        ensures !Renames(next, rest, c, i, name)
      {
        RenamesLater(attrs, order, c, i, name);
      }
      RestoredAt(next, rest, c, name, n - 1);
    }
  }

  /** No shorter name that was visited is left. */
  lemma {:induction false} ShorterGo(attrs: Tags, order: seq<string>, c: Config, short: string)
    requires NoChains(c) && short in c.restore && short in order
    ensures short !in RestoreNames(attrs, order, c)
    decreases |order|
  {
    if short == order[0] {
      ShorterStayAway(RestoreName(attrs, order[0], c), order[1..], c, short);
    } else {
      ShorterGo(RestoreName(attrs, order[0], c), order[1..], c, short);
    }
  }

  lemma {:induction false} ShorterStayAway(attrs: Tags, order: seq<string>, c: Config, short: string)
    requires NoChains(c) && short in c.restore && short !in attrs
    ensures short !in RestoreNames(attrs, order, c)
    decreases |order|
  {
    if |order| > 0 {
      ShorterStayAway(RestoreName(attrs, order[0], c), order[1..], c, short);
    }
  }

  // ----- The text columns -----

  /** What the text columns from this one on decode to, one after the other. */
  function Decoded(attrs: Tags, names: seq<string>): Result<seq<Tag>> {
    if |names| == 0 then Ok([])
    else
      match Decoded(attrs, names[1..])
      case Thrown(_) => Thrown(TypeError)
      case Ok(rest) =>
        if !Truthy(attrs, names[0]) then Ok(rest)
        else
          match DecodeColumn(attrs[names[0]])
          case Thrown(_) => Thrown(TypeError)
          case Ok(tags) => Ok(tags + rest)
  }

  lemma {:induction false} DecodedSame(attrs: Tags, other: Tags, names: seq<string>)
    requires forall n <- names :: At(attrs, n) == At(other, n)
    ensures Decoded(attrs, names) == Decoded(other, names)
  {
    if |names| > 0 {
      assert names[0] in names && forall n <- names[1..] :: n in names;
      DecodedSame(attrs, other, names[1..]);
      assert At(attrs, names[0]) == At(other, names[0]);
    }
  }

  /** The key gets its last value from here. */
  predicate LastAt(tags: seq<Tag>, key: string, n: nat) {
    n < |tags| && tags[n].key == key && forall i :: n < i < |tags| ==> tags[i].key != key
  }

  lemma {:induction false} NotAssigned(attrs: Tags, tags: seq<Tag>, key: string)
    requires forall i :: 0 <= i < |tags| ==> tags[i].key != key
    ensures At(Assign(attrs, tags), key) == At(attrs, key)
    decreases |tags|
  {
    if |tags| > 0 {
      NotAssigned(attrs[tags[0].key := tags[0].value], tags[1..], key);
    }
  }

  lemma {:induction false} AssignedAt(attrs: Tags, tags: seq<Tag>, key: string, n: nat)
    requires LastAt(tags, key, n)
    ensures At(Assign(attrs, tags), key) == Some(tags[n].value)
    decreases |tags|
  {
    var next := attrs[tags[0].key := tags[0].value];
    if n == 0 {
      NotAssigned(next, tags[1..], key);
    } else {
      AssignedAt(next, tags[1..], key, n - 1);
    }
  }

  lemma {:induction false} AssignConcat(attrs: Tags, a: seq<Tag>, b: seq<Tag>)
    ensures Assign(attrs, a + b) == Assign(Assign(attrs, a), b)
    decreases |a|
  {
    if |a| == 0 {
      assert a + b == b;
    } else {
      assert (a + b)[1..] == a[1..] + b;
      AssignConcat(attrs[a[0].key := a[0].value], a[1..], b);
    }
  }

  lemma {:induction false} AssignBeside(attrs: Tags, tags: seq<Tag>, gone: set<string>)
    requires forall i :: 0 <= i < |tags| ==> tags[i].key !in gone
    ensures Assign(attrs, tags) - gone == Assign(attrs - gone, tags)
    decreases |tags|
  {
    if |tags| > 0 {
      var next := attrs[tags[0].key := tags[0].value];
      assert next - gone == (attrs - gone)[tags[0].key := tags[0].value];
      AssignBeside(next, tags[1..], gone);
    }
  }

  /** No text column holds a tag that is named like a text column. */
  predicate NoNestedColumns(attrs: Tags, names: seq<string>) {
    forall n <- names :: Truthy(attrs, n) && DecodeColumn(attrs[n]).Ok? ==>
      forall i :: 0 <= i < |DecodeColumn(attrs[n]).value| ==> DecodeColumn(attrs[n]).value[i].key !in COLUMN_NAMES
  }

  function TruthyNames(attrs: Tags, names: seq<string>): set<string> {
    set n | n in names && Truthy(attrs, n)
  }

  lemma UnpackFirst(attrs: Tags, names: seq<string>, tags: seq<Tag>)
    requires |names| > 0 && NoNestedColumns(attrs, names) && (forall n <- names :: n in COLUMN_NAMES)
    requires forall i, j :: 0 <= i < j < |names| ==> names[i] != names[j]
    requires Truthy(attrs, names[0]) && DecodeColumn(attrs[names[0]]) == Ok(tags)
    ensures var next := Assign(attrs - {names[0]}, tags);
            && (forall n <- names[1..] :: At(next, n) == At(attrs, n))
            && TruthyNames(next, names[1..]) == TruthyNames(attrs, names[1..])
            && NoNestedColumns(next, names[1..])
            && TruthyNames(attrs, names) == {names[0]} + TruthyNames(attrs, names[1..])
  {
    var next := Assign(attrs - {names[0]}, tags);
    assert names[0] in names;
    forall n | n in names[1..]
      ensures At(next, n) == At(attrs, n) && n in names && n != names[0]
    {
      NotAssigned(attrs - {names[0]}, tags, n);
    }
    assert forall n :: n in names <==> n == names[0] || n in names[1..];
  }

  lemma {:induction false} UnpackIs(attrs: Tags, names: seq<string>)
    requires NoNestedColumns(attrs, names) && (forall n <- names :: n in COLUMN_NAMES)
    requires forall i, j :: 0 <= i < j < |names| ==> names[i] != names[j]
    ensures Decoded(attrs, names).Thrown? ==> Unpack(attrs, names) == Thrown(TypeError)
    ensures Decoded(attrs, names).Ok? ==>
              Unpack(attrs, names) == Ok(Assign(attrs - TruthyNames(attrs, names), Decoded(attrs, names).value))
    decreases |names|
  {
    if |names| == 0 {
      assert attrs - TruthyNames(attrs, names) == attrs;
    } else if !Truthy(attrs, names[0]) {
      assert forall n :: n in names <==> n == names[0] || n in names[1..];
      assert TruthyNames(attrs, names) == TruthyNames(attrs, names[1..]);
      UnpackIs(attrs, names[1..]);
    } else {
      var column := DecodeColumn(attrs[names[0]]);
      if column.Ok? {
        UnpackFirst(attrs, names, column.value);
        var next, gone := Assign(attrs - {names[0]}, column.value), TruthyNames(attrs, names[1..]);
        UnpackIs(next, names[1..]);
        DecodedSame(attrs, next, names[1..]);
        if Decoded(attrs, names[1..]).Ok? {
          AssignBeside(attrs - {names[0]}, column.value, gone);
          AssignConcat(attrs - {names[0]} - gone, column.value, Decoded(attrs, names[1..]).value);
          assert attrs - {names[0]} - gone == attrs - TruthyNames(attrs, names);
        }
      }
    }
  }

  /** The import of any attributes, visited in any order, as long as no text column holds a tag
      that is named like one: it throws if some text column does not decode, and otherwise a
      name that is not a shorter one holds its last decoded value, or else what stood for it. */
  lemma ImportHolds(attrs: Tags, order: seq<string>, c: Config, name: string)
    requires NoChains(c) && Enumerates(order, attrs) && NoNestedColumns(RestoreNames(attrs, order, c), COLUMN_NAMES)
    requires name !in c.restore && name !in COLUMN_NAMES
    ensures var named := RestoreNames(attrs, order, c);
            var decoded, r := Decoded(named, COLUMN_NAMES), Import(attrs, order, c);
            && (r.Ok? <==> decoded.Ok?)
            && (forall n: nat | decoded.Ok? && LastAt(decoded.value, name, n) :: At(r.value, name) == Some(decoded.value[n].value))
            && (decoded.Ok? && (forall i :: 0 <= i < |decoded.value| ==> decoded.value[i].key != name) ==>
                  At(r.value, name) == At(named, name))
  {
    var named := RestoreNames(attrs, order, c);
    var decoded := Decoded(named, COLUMN_NAMES);
    forall i, j | 0 <= i < j < |COLUMN_NAMES|
      ensures COLUMN_NAMES[i] != COLUMN_NAMES[j]
    {
      NamesDiffer(i, j);
    }
    UnpackIs(named, COLUMN_NAMES);
    if decoded.Ok? {
      var left := named - TruthyNames(named, COLUMN_NAMES);
      forall n: nat | LastAt(decoded.value, name, n)
        ensures At(Assign(left, decoded.value), name) == Some(decoded.value[n].value)
      {
        AssignedAt(left, decoded.value, name, n);
      }
      if forall i :: 0 <= i < |decoded.value| ==> decoded.value[i].key != name {
        NotAssigned(left, decoded.value, name);
      }
    }
  }
}
