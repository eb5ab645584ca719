/** The "slice and dice" part of `translateToOgr` in translations/RenderDb.js:
    dropping over-long entries and packing the rest into five text columns. */
module RenderDbPacking {
  import opened Lists
  import opened Text

  const FIELD_WIDTH: nat := 254
  const COLUMN_COUNT: nat := 5

  // ----- Dropping entries that are too long -----

  predicate Long(entry: string) {
    |entry| > FIELD_WIDTH
  }

  /** What the dropping loop keeps: taking an entry out also steps over its successor. */
  function Kept(entries: seq<string>): seq<string> {
    if |entries| == 0 then []
    else if !Long(entries[0]) then [entries[0]] + Kept(entries[1..])
    else if |entries| == 1 then []
    else [entries[1]] + Kept(entries[2..])
  }

  /** The length the dropping loop adds up: the entries it steps over are not in it. */
  function Counted(entries: seq<string>): nat {
    if |entries| == 0 then 0
    else if !Long(entries[0]) then |entries[0]| + Counted(entries[1..])
    else if |entries| == 1 then 0
    else Counted(entries[2..])
  }

  function From(list: seq<string>, i: nat): seq<string> {
    if i <= |list| then list[i..] else []
  }

  function Upto(list: seq<string>, i: nat): seq<string> {
    if i <= |list| then list[..i] else list
  }

  method DropLong(entries: seq<string>) returns (list: seq<string>, total: nat)
    ensures list == Kept(entries) && total == Counted(entries)
  {
    list, total := entries, 0;
    var i := 0;
    while i < |list|
      invariant i <= |list| + 1
      invariant Kept(entries) == Upto(list, i) + Kept(From(list, i))
      invariant Counted(entries) == total + Counted(From(list, i))
      decreases |list| + 1 - i
    {
      DropStep(list, i);
      if |list[i]| > FIELD_WIDTH {
        list := list[..i] + list[i + 1..];
      } else {
        total := total + |list[i]|;
      }
      i := i + 1;
    }
  }

  /** What one turn of the dropping loop does to the part still to be visited. */
  lemma DropStep(list: seq<string>, i: nat)
    requires i < |list|
    ensures var next := if Long(list[i]) then list[..i] + list[i + 1..] else list;
            && Upto(list, i) + Kept(From(list, i)) == Upto(next, i + 1) + Kept(From(next, i + 1))
            && Counted(From(list, i)) == (if Long(list[i]) then 0 else |list[i]|) + Counted(From(next, i + 1))
  {
    if Long(list[i]) {
      DropLongStep(list, i);
    } else {
      var rest := list[i..];
      assert rest[1..] == list[i + 1..] && list[..i + 1] == list[..i] + [rest[0]];
    }
  }

  lemma DropLongStep(list: seq<string>, i: nat)
    requires i < |list| && Long(list[i])
    ensures var next := list[..i] + list[i + 1..];
            && Upto(list, i) + Kept(From(list, i)) == Upto(next, i + 1) + Kept(From(next, i + 1))
            && Counted(From(list, i)) == Counted(From(next, i + 1))
  {
    var front, tail := list[..i], list[i + 1..];
    var rest := list[i..];
    assert rest == [list[i]] + tail;
    KeptLong(list[i], tail);
    Beyond(front, tail);
    if tail != [] {
      Associative(front, [tail[0]], Kept(tail[1..]));
    } else {
      assert front + [] == front;
    }
  }

  lemma KeptLong(x: string, tail: seq<string>)
    requires Long(x)
    ensures Kept([x] + tail) == if tail == [] then [] else [tail[0]] + Kept(tail[1..])
    ensures Counted([x] + tail) == if tail == [] then 0 else Counted(tail[1..])
  {
    assert tail != [] ==> ([x] + tail)[1] == tail[0] && ([x] + tail)[2..] == tail[1..];
  }

  lemma Beyond(front: seq<string>, tail: seq<string>)
    ensures Upto(front + tail, |front| + 1) == if tail == [] then front else front + [tail[0]]
    ensures From(front + tail, |front| + 1) == if tail == [] then [] else tail[1..]
  {
  }

  predicate NoAdjacentLong(entries: seq<string>) {
    forall i :: 0 <= i < |entries| - 1 ==> !(Long(entries[i]) && Long(entries[i + 1]))
  }

  /** The loop does its job exactly when no two over-long entries stand side by side. */
  lemma {:induction false} KeptFitsIff(entries: seq<string>)
    ensures (forall e <- Kept(entries) :: !Long(e)) <==> NoAdjacentLong(entries)
  {
    if |entries| == 0 {
    } else if !Long(entries[0]) {
      KeptFitsIff(entries[1..]);
      AdjacentInTail(entries);
      assert forall e <- Kept(entries[1..]) :: e in Kept(entries);
    } else if |entries| > 1 {
      assert entries[1] in Kept(entries);
      if Long(entries[1]) {
        assert !NoAdjacentLong(entries);
      } else {
        KeptFitsIff(entries[2..]);
        AdjacentInTail(entries);
        AdjacentInTail(entries[1..]);
        assert entries[1..][1..] == entries[2..];
        assert forall e <- Kept(entries[2..]) :: e in Kept(entries);
      }
    }
  }

  lemma AdjacentInTail(entries: seq<string>)
    requires |entries| >= 1
    ensures NoAdjacentLong(entries) <==>
            NoAdjacentLong(entries[1..]) && !(|entries| >= 2 && Long(entries[0]) && Long(entries[1]))
  {
  }

  /** Without over-long entries the loop changes nothing and counts everything. */
  lemma {:induction false} KeptAll(entries: seq<string>)
    requires forall e <- entries :: !Long(e)
    ensures Kept(entries) == entries && Counted(entries) == TotalLength(entries)
  {
    if |entries| > 0 {
      KeptAll(entries[1..]);
    }
  }

  /** The unsplit column holds the joined entries, while the test in front of the split
      adds up the entries alone: the commas decide whether the column really fits. */
  lemma UnsplitFitsIff(entries: seq<string>)
    requires |entries| >= 1
    ensures |Join(entries, ",")| <= FIELD_WIDTH <==> Weight(entries) <= FIELD_WIDTH + 1
  {
    JoinWeight(entries);
  }

  // ----- Filling the columns -----

  /** The text an entry list needs: every entry with one separator. */
  function Weight(entries: seq<string>): nat {
    if |entries| == 0 then 0 else |entries[0]| + 1 + Weight(entries[1..])
  }

  lemma {:induction false} JoinWeight(entries: seq<string>)
    requires |entries| >= 1
    ensures |Join(entries, ",")| + 1 == Weight(entries)
  {
    if |entries| > 1 {
      JoinWeight(entries[1..]);
    }
  }

  /** The code's own test for putting `entry` behind a column of `width` characters. */
  predicate Fits(entry: string, width: nat) {
    1 + |entry| + width < FIELD_WIDTH
  }

  datatype Scanned = Scanned(chosen: seq<string>, rest: seq<string>)

  /** One backward pass over `list` for a column that is `width` characters wide. */
  function Scan(width: nat, list: seq<string>): Scanned
    decreases |list|
  {
    if |list| == 0 then Scanned([], [])
    else
      var last, front := list[|list| - 1], list[..|list| - 1];
      var s := Scan(Widened(last, width), front);
      if Fits(last, width) then Scanned([last] + s.chosen, s.rest)
      else Scanned(s.chosen, s.rest + [last])
  }

  /** The width after `entry` was offered to a column. */
  function Widened(entry: string, width: nat): nat {
    if Fits(entry, width) then width + 1 + |entry| else width
  }

  datatype Packed = Packed(groups: seq<seq<string>>, left: seq<string>)

  /** Fill up to `n` columns; a group lists one column's entries in order. */
  function Pack(list: seq<string>, n: nat): Packed
    decreases n
  {
    if n == 0 || |list| == 0 then Packed([], list)
    else
      var c := Column(list);
      var p := Pack(c.rest, n - 1);
      Packed([c.chosen] + p.groups, p.left)
  }

  lemma PackStep(list: seq<string>, n: nat, c: Scanned, p: Packed)
    requires n > 0 && |list| > 0 && c == Column(list) && p == Pack(c.rest, n - 1)
    ensures Pack(list, n) == Packed([c.chosen] + p.groups, p.left)
  {
  }

  /** One column: the last entry of the list and whatever fits behind it. */
  function Column(list: seq<string>): Scanned
    requires |list| > 0
  {
    var first := list[|list| - 1];
    var s := Scan(|first|, list[..|list| - 1]);
    Scanned([first] + s.chosen, s.rest)
  }

  function Texts(groups: seq<seq<string>>): seq<string> {
    if |groups| == 0 then [] else [Join(groups[0], ",")] + Texts(groups[1..])
  }

  lemma TextsStep(first: seq<string>, groups: seq<seq<string>>)
    ensures Texts([first] + groups) == [Join(first, ",")] + Texts(groups)
  {
  }

  /** What one turn of the scan does. */
  lemma ScanStep(width: nat, list: seq<string>, i: nat)
    requires i < |list|
    ensures var s := Scan(Widened(list[i], width), list[..i]);
            Scan(width, list[..i + 1]) == if Fits(list[i], width) then Scanned([list[i]] + s.chosen, s.rest)
                                          else Scanned(s.chosen, s.rest + [list[i]])
  {
    assert list[..i + 1][..i] == list[..i];
  }

  /** Down to place `i` the column holds what was taken, and the whole scan is what was done
      so far and what is still to come. */
  ghost predicate Filling(whole: Scanned, first: string, taken: seq<string>, column: string, rest: seq<string>, i: int) {
    && -1 <= i < |rest| && column == Join([first] + taken, ",")
    && var s := Scan(|column|, rest[..i + 1]);
       whole.chosen == taken + s.chosen && whole.rest == s.rest + rest[i + 1..]
  }

  lemma Taken(whole: Scanned, first: string, taken: seq<string>, column: string, rest: seq<string>, i: nat)
    requires Filling(whole, first, taken, column, rest, i) && Fits(rest[i], |column|)
    ensures Filling(whole, first, taken + [rest[i]], column + "," + rest[i], rest[..i] + rest[i + 1..], i - 1)
  {
    var left := rest[..i] + rest[i + 1..];
    ScanStep(|column|, rest, i);
    JoinSnoc([first] + taken, rest[i], ",");
    assert [first] + taken + [rest[i]] == [first] + (taken + [rest[i]]);
    assert left[..i] == rest[..i] && left[i..] == rest[i + 1..];
  }

  lemma Skipped(whole: Scanned, first: string, taken: seq<string>, column: string, rest: seq<string>, i: nat)
    requires Filling(whole, first, taken, column, rest, i) && !Fits(rest[i], |column|)
    ensures Filling(whole, first, taken, column, rest, i - 1)
  {
    ScanStep(|column|, rest, i);
    assert rest[i..] == [rest[i]] + rest[i + 1..];
  }

  /** Pop the last entry, then append what fits while scanning backwards. */
  method FillColumn(list: seq<string>) returns (column: string, rest: seq<string>)
    requires |list| > 0
    ensures column == Join(Column(list).chosen, ",") && rest == Column(list).rest
  {
    column, rest := list[|list| - 1], list[..|list| - 1];
    ghost var first := column;
    ghost var whole := Scan(|first|, rest);
    ghost var taken: seq<string> := [];
    var i := |rest| - 1;
    assert rest[..i + 1] == rest;
    while i >= 0
      invariant Filling(whole, first, taken, column, rest, i)
    {
      if 1 + |rest[i]| + |column| < FIELD_WIDTH {
        Taken(whole, first, taken, column, rest, i);
        taken := taken + [rest[i]];
        column := column + "," + rest[i];
        rest := rest[..i] + rest[i + 1..];
      } else {
        Skipped(whole, first, taken, column, rest, i);
      }
      i := i - 1;
    }
    assert rest[..0] == [] && rest[0..] == rest;
    assert taken + [] == taken && [] + rest == rest;
  }

  method PackColumns(entries: seq<string>) returns (columns: seq<string>, left: seq<string>)
    ensures columns == Texts(Pack(entries, COLUMN_COUNT).groups)
    ensures left == Pack(entries, COLUMN_COUNT).left
  {
    columns, left := [], entries;
    ghost var whole := Pack(entries, COLUMN_COUNT);
    var nam := 0;
    assert [] + Texts(whole.groups) == Texts(whole.groups);
    while nam < COLUMN_COUNT && |left| != 0
      invariant 0 <= nam <= COLUMN_COUNT
      invariant Filled(whole, columns, left, COLUMN_COUNT - nam)
    {
      var column, rest := FillColumn(left);
      ColumnFilled(whole, columns, left, COLUMN_COUNT - nam);
      columns, left := columns + [column], rest;
      nam := nam + 1;
    }
    assert columns + [] == columns;
  }

  /** The columns so far, and what packing the rest will add. */
  ghost predicate Filled(whole: Packed, columns: seq<string>, left: seq<string>, n: nat) {
    Texts(whole.groups) == columns + Texts(Pack(left, n).groups) && whole.left == Pack(left, n).left
  }

  lemma ColumnFilled(whole: Packed, columns: seq<string>, left: seq<string>, n: nat)
    requires n > 0 && |left| > 0 && Filled(whole, columns, left, n)
    ensures Filled(whole, columns + [Join(Column(left).chosen, ",")], Column(left).rest, n - 1)
  {
    var c := Column(left);
    var p := Pack(c.rest, n - 1);
    PackStep(left, n, c, p);
    TextsStep(c.chosen, p.groups);
    Associative(columns, [Join(c.chosen, ",")], Texts(p.groups));
  }

  // ----- What packing guarantees -----

  lemma {:induction false} ScanCount(entry: string, width: nat, list: seq<string>)
    ensures Count(Scan(width, list).chosen, entry) + Count(Scan(width, list).rest, entry) == Count(list, entry)
    decreases |list|
  {
    if |list| > 0 {
      var last, front := list[|list| - 1], list[..|list| - 1];
      assert list == front + [last];
      CountConcat(front, [last], entry);
      ScanCount(entry, Widened(last, width), front);
      CountConcat(Scan(Widened(last, width), front).rest, [last], entry);
    }
  }

  lemma ColumnCount(entry: string, list: seq<string>)
    requires |list| > 0
    ensures Count(Column(list).chosen, entry) + Count(Column(list).rest, entry) == Count(list, entry)
  {
    var last, front := list[|list| - 1], list[..|list| - 1];
    assert list == front + [last];
    CountConcat(front, [last], entry);
    ScanCount(entry, |last|, front);
  }

  lemma {:induction false} PackCount(entry: string, list: seq<string>, n: nat)
    ensures Count(Flatten(Pack(list, n).groups), entry) + Count(Pack(list, n).left, entry) == Count(list, entry)
    decreases n
  {
    if n > 0 && |list| > 0 {
      var c := Column(list);
      var p := Pack(c.rest, n - 1);
      ColumnCount(entry, list);
      PackCount(entry, c.rest, n - 1);
      PackStep(list, n, c, p);
      CountConcat(c.chosen, Flatten(p.groups), entry);
    }
  }

  /** No entry is lost or duplicated: columns and leftovers permute the input. */
  lemma PackConserves(list: seq<string>, n: nat)
    ensures multiset(Flatten(Pack(list, n).groups)) + multiset(Pack(list, n).left) == multiset(list)
  {
    var stored, left := Flatten(Pack(list, n).groups), Pack(list, n).left;
    forall e: string
      ensures (multiset(stored) + multiset(left))[e] == multiset(list)[e]
    {
      PackCount(e, list, n);
      CountIsMultiset(stored, e);
      CountIsMultiset(left, e);
      CountIsMultiset(list, e);
    }
  }

  lemma {:induction false} ScanRestInList(width: nat, list: seq<string>)
    ensures forall e <- Scan(width, list).rest :: e in list
    decreases |list|
  {
    if |list| > 0 {
      ScanRestInList(Widened(list[|list| - 1], width), list[..|list| - 1]);
    }
  }

  /** Whatever a pass leaves behind does not fit behind the finished column either, and
      only a column made of a single entry can reach the strict bound. */
  lemma {:induction false} ScanBounds(width: nat, list: seq<string>)
    ensures var s := Scan(width, list);
            && (forall e <- s.rest :: !Fits(e, width + Weight(s.chosen)))
            && (s.chosen == [] || width + Weight(s.chosen) < FIELD_WIDTH)
    decreases |list|
  {
    if |list| > 0 {
      var last, front := list[|list| - 1], list[..|list| - 1];
      ScanBounds(Widened(last, width), front);
    }
  }

  lemma ColumnBounds(list: seq<string>)
    requires |list| > 0
    ensures var c := Column(list);
            && c.chosen != [] && c.chosen[0] in list
            && Weight(c.chosen) == |Join(c.chosen, ",")| + 1
            && (forall e <- c.rest :: !Fits(e, |Join(c.chosen, ",")|))
            && (|Join(c.chosen, ",")| < FIELD_WIDTH || c.chosen == [c.chosen[0]])
  {
    var last := list[|list| - 1];
    ScanBounds(|last|, list[..|list| - 1]);
    JoinWeight(Column(list).chosen);
  }

  lemma ColumnRestInList(list: seq<string>)
    requires |list| > 0
    ensures forall e <- Column(list).rest :: e in list
  {
    var front := list[..|list| - 1];
    ScanRestInList(|list[|list| - 1]|, front);
    assert forall e <- front :: e in list;
  }

  lemma ColumnFits(list: seq<string>)
    requires |list| > 0 && forall e <- list :: !Long(e)
    ensures Column(list).chosen != [] && |Join(Column(list).chosen, ",")| <= FIELD_WIDTH
  {
    var chosen := Column(list).chosen;
    ColumnBounds(list);
    assert chosen == [chosen[0]] ==> Join(chosen, ",") == chosen[0];
  }

  ghost predicate GroupsFit(groups: seq<seq<string>>) {
    forall k :: 0 <= k < |groups| ==> groups[k] != [] && |Join(groups[k], ",")| <= FIELD_WIDTH
  }

  lemma GroupsFitStep(first: seq<string>, groups: seq<seq<string>>)
    requires first != [] && |Join(first, ",")| <= FIELD_WIDTH && GroupsFit(groups)
    ensures GroupsFit([first] + groups)
  {
  }

  /** Columns are never empty, and fit the field when every entry does. */
  lemma {:induction false} PackFits(list: seq<string>, n: nat)
    requires forall e <- list :: !Long(e)
    ensures |Pack(list, n).groups| <= n
    ensures GroupsFit(Pack(list, n).groups)
    decreases n
  {
    if n > 0 && |list| > 0 {
      var c := Column(list);
      var p := Pack(c.rest, n - 1);
      ColumnFits(list);
      ColumnRestInList(list);
      PackFits(c.rest, n - 1);
      PackStep(list, n, c, p);
      GroupsFitStep(c.chosen, p.groups);
    }
  }

  lemma {:induction false} LeftoversInList(list: seq<string>, n: nat)
    ensures forall e <- Pack(list, n).left :: e in list
    decreases n
  {
    if n > 0 && |list| > 0 {
      ColumnRestInList(list);
      LeftoversInList(Column(list).rest, n - 1);
    }
  }

  /** Leftovers only once every column is in use, and then none of them would fit any
      column by the code's own test. */
  lemma {:induction false} LeftoversFitNowhere(list: seq<string>, n: nat)
    requires Pack(list, n).left != []
    ensures |Pack(list, n).groups| == n
    ensures forall e, k :: e in Pack(list, n).left && 0 <= k < n ==> !Fits(e, |Join(Pack(list, n).groups[k], ",")|)
    decreases n
  {
    if n > 0 {
      var c := Column(list);
      ColumnBounds(list);
      LeftoversFitNowhere(c.rest, n - 1);
      LeftoversInList(c.rest, n - 1);
    }
  }

  predicate Outweigh(a: seq<string>, b: seq<string>) {
    Weight(a) + Weight(b) >= FIELD_WIDTH + 1
  }

  /** Any two columns together outweigh one field. */
  predicate PairsAreFull(groups: seq<seq<string>>) {
    forall i, j :: 0 <= i < j < |groups| ==> Outweigh(groups[i], groups[j])
  }

  predicate OutweighsAll(first: seq<string>, later: seq<seq<string>>) {
    forall k :: 0 <= k < |later| ==> Outweigh(first, later[k])
  }

  lemma PairsStep(first: seq<string>, later: seq<seq<string>>)
    requires PairsAreFull(later) && OutweighsAll(first, later)
    ensures PairsAreFull([first] + later)
  {
  }

  /** The later of two columns starts with an entry that the earlier one had to refuse. */
  lemma {:induction false} ColumnsAreFull(list: seq<string>, n: nat)
    ensures PairsAreFull(Pack(list, n).groups)
    decreases n
  {
    if n > 0 && |list| > 0 {
      var c := Column(list);
      var p := Pack(c.rest, n - 1);
      PackStep(list, n, c, p);
      ColumnsAreFull(c.rest, n - 1);
      FirstOutweighs(list, n - 1);
      PairsStep(c.chosen, p.groups);
    }
  }

  lemma FirstOutweighs(list: seq<string>, n: nat)
    requires |list| > 0
    ensures OutweighsAll(Column(list).chosen, Pack(Column(list).rest, n).groups)
  {
    var c := Column(list);
    var groups := Pack(c.rest, n).groups;
    forall k | 0 <= k < |groups|
      ensures Outweigh(c.chosen, groups[k])
    {
      GroupStartsInList(c.rest, n, k);
      RefusedFillsUp(list, groups[k]);
    }
  }

  lemma RefusedFillsUp(list: seq<string>, group: seq<string>)
    requires |list| > 0 && group != [] && group[0] in Column(list).rest
    ensures Outweigh(Column(list).chosen, group)
  {
    ColumnBounds(list);
    assert !Fits(group[0], |Join(Column(list).chosen, ",")|);
  }

  lemma {:induction false} GroupStartsInList(list: seq<string>, n: nat, k: nat)
    requires k < |Pack(list, n).groups|
    ensures |Pack(list, n).groups[k]| > 0 && Pack(list, n).groups[k][0] in list
    decreases n
  {
    var c := Column(list);
    ColumnBounds(list);
    PackStep(list, n, c, Pack(c.rest, n - 1));
    if k > 0 {
      ColumnRestInList(list);
      GroupStartsInList(c.rest, n - 1, k - 1);
    }
  }

  lemma {:induction false} WeightConcat(a: seq<string>, b: seq<string>)
    ensures Weight(a + b) == Weight(a) + Weight(b)
  {
    if |a| == 0 {
      assert a + b == b;
    } else {
      assert (a + b)[1..] == a[1..] + b;
      WeightConcat(a[1..], b);
    }
  }

  lemma WeightSnoc(list: seq<string>)
    requires |list| > 0
    ensures Weight(list) == Weight(list[..|list| - 1]) + |list[|list| - 1]| + 1
  {
    WeightConcat(list[..|list| - 1], [list[|list| - 1]]);
    assert list == list[..|list| - 1] + [list[|list| - 1]];
  }

  lemma WeightCons(first: string, entries: seq<string>)
    ensures Weight([first] + entries) == |first| + 1 + Weight(entries)
  {
  }

  lemma {:induction false} ScanWeight(width: nat, list: seq<string>)
    ensures Weight(Scan(width, list).chosen) + Weight(Scan(width, list).rest) == Weight(list)
    decreases |list|
  {
    if |list| > 0 {
      var last, front := list[|list| - 1], list[..|list| - 1];
      assert list == front + [last];
      WeightConcat(front, [last]);
      ScanWeight(Widened(last, width), front);
      WeightConcat(Scan(width, front).rest, [last]);
    }
  }

  lemma ColumnWeight(list: seq<string>)
    requires |list| > 0
    ensures Weight(Column(list).chosen) + Weight(Column(list).rest) == Weight(list)
  {
    var last, front := list[|list| - 1], list[..|list| - 1];
    WeightSnoc(list);
    ScanWeight(|last|, front);
    WeightCons(last, Scan(|last|, front).chosen);
  }

  lemma {:induction false} PackWeight(list: seq<string>, n: nat)
    ensures Weight(Flatten(Pack(list, n).groups)) + Weight(Pack(list, n).left) == Weight(list)
    decreases n
  {
    if n > 0 && |list| > 0 {
      var c := Column(list);
      var p := Pack(c.rest, n - 1);
      ColumnWeight(list);
      PackWeight(c.rest, n - 1);
      PackStep(list, n, c, p);
      WeightConcat(c.chosen, Flatten(p.groups));
    }
  }

  /** Six weights of which any two exceed a field cannot sum to less than 767. */
  lemma SixWeights(a: nat, b: nat, c: nat, d: nat, e: nat, f: nat)
    requires a + b >= 255 && a + c >= 255 && a + d >= 255 && a + e >= 255 && a + f >= 255
    requires b + c >= 255 && b + d >= 255 && b + e >= 255 && b + f >= 255
    requires c + d >= 255 && c + e >= 255 && c + f >= 255
    requires d + e >= 255 && d + f >= 255 && e + f >= 255
    ensures a + b + c + d + e + f >= 767
  {
  }

  /** Capacity: entries whose lengths, with a separator each, sum to at most 766 are all
      stored.  The comment beside the schema promises about a thousand characters. */
  lemma Capacity(entries: seq<string>)
    requires Weight(entries) <= 766
    ensures Pack(entries, COLUMN_COUNT).left == []
  {
    var p := Pack(entries, COLUMN_COUNT);
    if p.left != [] {
      var g, e := p.groups, p.left[0];
      LeftoversFitNowhere(entries, COLUMN_COUNT);
      PackWeight(entries, COLUMN_COUNT);
      WeightOfFive(g);
      ColumnsAreFull(entries, COLUMN_COUNT);
      assert forall i, j :: 0 <= i < j < 5 ==> Outweigh(g[i], g[j]);
      forall i | 0 <= i < 5
        ensures Weight(g[i]) + |e| + 1 >= FIELD_WIDTH + 1
      {
        LeftoverWeight(entries, COLUMN_COUNT, e, i);
      }
      SixWeights(Weight(g[0]), Weight(g[1]), Weight(g[2]), Weight(g[3]), Weight(g[4]), |e| + 1);
    }
  }

  lemma LeftoverWeight(entries: seq<string>, n: nat, e: string, k: nat)
    requires k < n && e in Pack(entries, n).left
    ensures |Pack(entries, n).groups| == n
    ensures Weight(Pack(entries, n).groups[k]) + |e| + 1 >= FIELD_WIDTH + 1
  {
    LeftoversFitNowhere(entries, n);
    GroupStartsInList(entries, n, k);
    JoinWeight(Pack(entries, n).groups[k]);
  }

  lemma WeightOfFive(g: seq<seq<string>>)
    requires |g| == 5
    ensures Weight(Flatten(g)) == Weight(g[0]) + Weight(g[1]) + Weight(g[2]) + Weight(g[3]) + Weight(g[4])
  {
    WeightConcat(g[0], Flatten(g[1..]));
    WeightConcat(g[1], Flatten(g[2..]));
    WeightConcat(g[2], Flatten(g[3..]));
    WeightConcat(g[3], Flatten(g[4..]));
    assert Flatten(g[4..]) == g[4];
  }

  lemma ScanNothingFits(width: nat, list: seq<string>)
    requires forall e <- list :: !Fits(e, width)
    ensures Scan(width, list) == Scanned([], list)
    decreases |list|
  {
  }

  /** Entries of this length stand alone in their columns, and the one more finds no room. */
  lemma {:induction false} WideEntriesStack(es: seq<string>, n: nat)
    requires |es| == n + 1 && |es[0]| == 126 && forall i :: 1 <= i <= n ==> |es[i]| == 127
    ensures Pack(es, n).left == [es[0]]
    decreases n
  {
    if n > 0 {
      var front := es[..n];
      ScanNothingFits(127, front);
      WideEntriesStack(front, n - 1);
    }
  }
}
