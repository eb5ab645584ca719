/** Counting, filtering and joining lists. */
module Lists {

  lemma Associative<T>(a: seq<T>, b: seq<T>, c: seq<T>)
    ensures a + b + c == a + (b + c)
  {
  }

  lemma Behind<T>(a: seq<T>, b: seq<T>)
    requires |a| > 0
    ensures (a + b)[0] == a[0] && (a + b)[1..] == a[1..] + b
  {
  }

  /** At most so many of the elements, from the first on. */
  function First<T>(s: seq<T>, n: nat): seq<T> {
    if |s| <= n then s else s[..n]
  }

  function Flatten<T>(ss: seq<seq<T>>): seq<T> {
    if |ss| == 0 then [] else ss[0] + Flatten(ss[1..])
  }

  function Count<T(==)>(s: seq<T>, e: T): nat {
    if |s| == 0 then 0 else (if s[0] == e then 1 else 0) + Count(s[1..], e)
  }

  lemma {:induction false} CountConcat<T>(a: seq<T>, b: seq<T>, e: T)
    ensures Count(a + b, e) == Count(a, e) + Count(b, e)
  {
    if |a| == 0 {
      assert a + b == b;
    } else {
      Behind(a, b);
      CountConcat(a[1..], b, e);
    }
  }

  lemma {:induction false} CountIsMultiset<T>(s: seq<T>, e: T)
    ensures Count(s, e) == multiset(s)[e]
  {
    if |s| > 0 {
      CountIsMultiset(s[1..], e);
      assert s == [s[0]] + s[1..];
    }
  }

  lemma {:induction false} CountIn<T>(s: seq<T>, e: T)
    ensures e in s <==> Count(s, e) > 0
  {
    if |s| > 0 {
      CountIn(s[1..], e);
      assert e in s <==> e == s[0] || e in s[1..];
    }
  }

  lemma SameCounts<T(!new)>(a: seq<T>, b: seq<T>)
    requires forall e :: Count(a, e) == Count(b, e)
    ensures multiset(a) == multiset(b)
  {
    forall e
      ensures multiset(a)[e] == multiset(b)[e]
    {
      CountIsMultiset(a, e);
      CountIsMultiset(b, e);
    }
  }

  function Filter<T>(s: seq<T>, keep: T -> bool): seq<T> {
    if |s| == 0 then [] else if keep(s[0]) then [s[0]] + Filter(s[1..], keep) else Filter(s[1..], keep)
  }

  lemma {:induction false} FilterIs<T(!new)>(s: seq<T>, keep: T -> bool)
    ensures forall x :: x in Filter(s, keep) <==> x in s && keep(x)
  {
    if |s| > 0 {
      FilterIs(s[1..], keep);
    }
  }

  lemma {:induction false} FilterAll<T(!new)>(s: seq<T>, keep: T -> bool)
    requires forall x <- s :: keep(x)
    ensures Filter(s, keep) == s
  {
    if |s| > 0 {
      assert s[0] in s && forall x <- s[1..] :: x in s;
      FilterAll(s[1..], keep);
    }
  }

  lemma {:induction false} FilterNone<T(!new)>(s: seq<T>, keep: T -> bool)
    requires forall x <- s :: !keep(x)
    ensures Filter(s, keep) == []
  {
    if |s| > 0 {
      assert s[0] in s && forall x <- s[1..] :: x in s;
      FilterNone(s[1..], keep);
    }
  }

  lemma {:induction false} FilterConcat<T>(a: seq<T>, b: seq<T>, keep: T -> bool)
    ensures Filter(a + b, keep) == Filter(a, keep) + Filter(b, keep)
  {
    if |a| == 0 {
      assert a + b == b;
    } else {
      Behind(a, b);
      FilterConcat(a[1..], b, keep);
    }
  }
}
