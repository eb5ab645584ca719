/** Sending the items of a list to places, and collecting them again place by place. */
module Routing {
  import opened Lists

  /** The items that go to one place, in their order. */
  function Pick<E, K(==)>(s: seq<E>, route: E -> K, k: K): seq<E> {
    if |s| == 0 then []
    else if route(s[0]) == k then [s[0]] + Pick(s[1..], route, k)
    else Pick(s[1..], route, k)
  }

  /** The items of all the places, one place after the other. */
  function Collect<E, K(==)>(order: seq<K>, s: seq<E>, route: E -> K): seq<E> {
    if |order| == 0 then [] else Pick(s, route, order[0]) + Collect(order[1..], s, route)
  }

  predicate Distinct<K(==)>(order: seq<K>) {
    |order| == 0 || (order[0] !in order[1..] && Distinct(order[1..]))
  }

  lemma {:induction false} CountPick<E, K>(s: seq<E>, route: E -> K, k: K, e: E)
    ensures Count(Pick(s, route, k), e) == if route(e) == k then Count(s, e) else 0
  {
    if |s| > 0 {
      CountPick(s[1..], route, k, e);
      CountConcat(if route(s[0]) == k then [s[0]] else [], Pick(s[1..], route, k), e);
    }
  }

  /** Nothing is lost or doubled on the way. */
  lemma {:induction false} CountCollect<E, K>(order: seq<K>, s: seq<E>, route: E -> K, e: E)
    requires Distinct(order)
    ensures Count(Collect(order, s, route), e) == if route(e) in order then Count(s, e) else 0
  {
    if |order| > 0 {
      CountCollect(order[1..], s, route, e);
      CountPick(s, route, order[0], e);
      CountConcat(Pick(s, route, order[0]), Collect(order[1..], s, route), e);
    }
  }

  lemma {:induction false} PickConcat<E, K>(a: seq<E>, b: seq<E>, route: E -> K, k: K)
    ensures Pick(a + b, route, k) == Pick(a, route, k) + Pick(b, route, k)
  {
    if |a| == 0 {
      assert a + b == b;
    } else {
      PickConcat(a[1..], b, route, k);
      Behind(a, b);
    }
  }

  lemma {:induction false} PickNone<E, K>(s: seq<E>, route: E -> K, k: K)
    requires forall e <- s :: route(e) != k
    ensures Pick(s, route, k) == []
  {
    if |s| > 0 {
      assert s[0] in s;
      PickNone(s[1..], route, k);
    }
  }

  lemma {:induction false} PickOfPick<E, K, L>(s: seq<E>, route: E -> K, k: K, other: E -> L, l: L, home: K)
    requires forall e <- s :: other(e) == l ==> route(e) == home
    ensures Pick(Pick(s, route, k), other, l) == if k == home then Pick(s, other, l) else []
  {
    if |s| > 0 {
      PickOfPick(s[1..], route, k, other, l, home);
      assert s[0] in s;
      PickConcat(if route(s[0]) == k then [s[0]] else [], Pick(s[1..], route, k), other, l);
    }
  }

  /** Items that all went to the same place keep their order. */
  lemma {:induction false} PickCollect<E, K, L>(order: seq<K>, s: seq<E>, route: E -> K, other: E -> L, l: L, home: K)
    requires Distinct(order)
    requires forall e <- s :: other(e) == l ==> route(e) == home
    ensures Pick(Collect(order, s, route), other, l) == if home in order then Pick(s, other, l) else []
  {
    if |order| > 0 {
      PickCollect(order[1..], s, route, other, l, home);
      PickOfPick(s, route, order[0], other, l, home);
      PickConcat(Pick(s, route, order[0]), Collect(order[1..], s, route), other, l);
    }
  }
}
