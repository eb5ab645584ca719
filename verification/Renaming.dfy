/** The loop both RenderDb translations run over an object's keys: some keys are renamed,
    some are taken out, the others stay. */
module Renaming {

  function MoveKey<K, V>(m: map<K, V>, key: K, swap: map<K, K>, keep: set<K>): map<K, V> {
    if key !in m then m
    else if key in swap then m[swap[key] := m[key]] - {key}
    else if key !in keep then m - {key}
    else m
  }

  function MoveKeys<K, V>(m: map<K, V>, order: seq<K>, swap: map<K, K>, keep: set<K>): map<K, V>
    decreases |order|
  {
    if |order| == 0 then m else MoveKeys(MoveKey(m, order[0], swap, keep), order[1..], swap, keep)
  }

  /** New names are fresh, and `back` finds the old one. */
  ghost predicate Fresh<K, V>(m: map<K, V>, swap: map<K, K>, back: map<K, K>) {
    forall k <- m :: k in swap ==> swap[k] !in m && swap[k] in back && back[swap[k]] == k
  }

  /** `current` is what has become of `m` once the keys in `done` have been visited. */
  ghost predicate Moved<K, V>(m: map<K, V>, swap: map<K, K>, back: map<K, K>, keep: set<K>, done: set<K>, current: map<K, V>) {
    && (forall k <- m :: k !in done ==> k in current && current[k] == m[k])
    && (forall k <- m :: k in done && k in swap ==>
          k !in current && swap[k] in current && current[swap[k]] == m[k])
    && (forall k <- m :: k in done && k !in swap ==> (k in current <==> k in keep) && (k in keep ==> current[k] == m[k]))
    && (forall a <- current :: a in m || (a in back && back[a] in m && back[a] in done && back[a] in swap && swap[back[a]] == a))
  }

  lemma MoveKeyMoves<K, V>(m: map<K, V>, swap: map<K, K>, back: map<K, K>, keep: set<K>, done: set<K>, current: map<K, V>, key: K)
    requires Fresh(m, swap, back) && Moved(m, swap, back, keep, done, current)
    requires key in m && key !in done
    ensures Moved(m, swap, back, keep, done + {key}, MoveKey(current, key, swap, keep))
  {
  }

  lemma {:induction false} MoveKeysMove<K, V>(m: map<K, V>, swap: map<K, K>, back: map<K, K>, keep: set<K>, done: set<K>,
                                              current: map<K, V>, order: seq<K>)
    requires Fresh(m, swap, back) && Moved(m, swap, back, keep, done, current)
    requires forall i :: 0 <= i < |order| ==> order[i] in m && order[i] !in done
    requires forall i, j :: 0 <= i < j < |order| ==> order[i] != order[j]
    ensures Moved(m, swap, back, keep, done + (set k | k in order), MoveKeys(current, order, swap, keep))
    decreases |order|
  {
    if |order| == 0 {
      assert done + (set k | k in order) == done;
    } else {
      MoveKeyMoves(m, swap, back, keep, done, current, order[0]);
      MoveKeysMove(m, swap, back, keep, done + {order[0]}, MoveKey(current, order[0], swap, keep), order[1..]);
      assert done + {order[0]} + (set k | k in order[1..]) == done + (set k | k in order);
    }
  }

  /** Visiting every key once, in any order, gives this map. */
  ghost predicate Result<K, V>(m: map<K, V>, swap: map<K, K>, back: map<K, K>, keep: set<K>, result: map<K, V>) {
    Moved(m, swap, back, keep, m.Keys, result)
  }

  lemma VisitAll<K, V>(m: map<K, V>, order: seq<K>, swap: map<K, K>, back: map<K, K>, keep: set<K>)
    requires Fresh(m, swap, back)
    requires forall i :: 0 <= i < |order| ==> order[i] in m
    requires forall i, j :: 0 <= i < j < |order| ==> order[i] != order[j]
    requires forall k <- m :: k in order
    ensures Result(m, swap, back, keep, MoveKeys(m, order, swap, keep))
  {
    MoveKeysMove(m, swap, back, keep, {}, m, order);
    assert {} + (set k | k in order) == m.Keys;
  }

  lemma BackIsFresh<K, V>(m: map<K, V>, swap: map<K, K>, back: map<K, K>, keep: set<K>, out: map<K, V>, extra: map<K, V>)
    requires Fresh(m, swap, back) && Result(m, swap, back, keep, out)
    requires forall k <- m :: k !in swap && k in keep ==> k !in back
    requires extra.Keys !! m.Keys && extra.Keys !! back.Keys
    ensures Fresh(out + extra, back, swap)
  {
  }

  /** Renaming back what was renamed, with some extra keys beside it, restores the names. */
  lemma ThereAndBack<K, V>(m: map<K, V>, swap: map<K, K>, back: map<K, K>, keep: set<K>, out: map<K, V>,
                           extra: map<K, V>, result: map<K, V>)
    requires Fresh(m, swap, back) && Result(m, swap, back, keep, out)
    requires forall k <- m :: k !in swap && k in keep ==> k !in back
    requires extra.Keys !! m.Keys && extra.Keys !! back.Keys
    requires Result(out + extra, back, swap, (out + extra).Keys, result)
    ensures result == Picked(m, swap.Keys + keep) + extra
  {
    var both := out + extra;
    BackIsFresh(m, swap, back, keep, out, extra);
    var kept := Picked(m, swap.Keys + keep);
    forall k | k in kept
      ensures k in result && result[k] == m[k]
    {
      if k in swap {
        assert swap[k] in both && both[swap[k]] == m[k];
        assert back[swap[k]] == k;
      } else {
        assert k in both && k !in back;
      }
    }
    forall x | x in extra
      ensures x in result && result[x] == extra[x]
    {
      assert x in both && x !in back;
    }
    forall k | k in result
      ensures k in kept || k in extra
    {
      if k in both && k !in extra {
        assert k in out && k !in back;
      }
    }
  }

  /** The part of a map below some of its keys. */
  function Picked<K, V>(m: map<K, V>, keys: set<K>): map<K, V> {
    map k | k in keys && k in m :: m[k]
  }

  lemma PickedNothing<K, V>(base: map<K, V>, m: map<K, V>)
    ensures base + Picked(m, {}) == base
  {
  }

  lemma PickedOne<K, V>(base: map<K, V>, m: map<K, V>, key: K)
    requires key in m
    ensures base + Picked(m, {key}) == base[key := m[key]]
  {
  }

  lemma PickedUnion<K, V>(base: map<K, V>, m: map<K, V>, first: set<K>, second: set<K>)
    ensures base + Picked(m, first) + Picked(m, second) == base + Picked(m, first + second)
  {
  }

  lemma PickedCommutes<K, V>(base: map<K, V>, other: map<K, V>, m: map<K, V>, keys: set<K>)
    requires other.Keys !! keys
    ensures base + other + Picked(m, keys) == base + Picked(m, keys) + other
  {
  }

  lemma Overwritten<K, V>(m: map<K, V>, key: K, value: V, other: map<K, V>)
    requires key in other
    ensures m[key := value] + other == m + other
  {
  }

  lemma PlusNothing<K, V>(m: map<K, V>)
    ensures m + map[] == m
  {
  }
}
