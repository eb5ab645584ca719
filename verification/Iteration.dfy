/** Doing the same thing again and again until it is enough. */
module Iteration {

  function Iterate<T>(f: T -> T, x: T, n: nat): T {
    if n == 0 then x else f(Iterate(f, x, n - 1))
  }

  lemma {:induction false} IterateFirst<T>(f: T -> T, x: T, n: nat)
    ensures Iterate(f, f(x), n) == Iterate(f, x, n + 1)
  {
    if n > 0 {
      IterateFirst(f, x, n - 1);
    }
  }

  /** What goes up with every step never comes back. */
  lemma {:induction false} GoesUp<T(!new)>(f: T -> T, height: T -> nat, x: T, m: nat, n: nat)
    requires forall y :: height(f(y)) > height(y)
    requires m < n
    ensures height(Iterate(f, x, m)) < height(Iterate(f, x, n))
    decreases n
  {
    if m < n - 1 {
      GoesUp(f, height, x, m, n - 1);
    }
  }

  /** A search that steps on as long as it must, with ever fewer steps left, ends at the
      first place where it may. */
  lemma {:induction false} FindsFirst<T(!new)>(f: T -> T, taken: T -> bool, end: T -> T, left: T -> nat, x: T) returns (n: nat)
    requires forall y :: taken(y) ==> left(f(y)) < left(y) && end(y) == end(f(y))
    requires forall y :: !taken(y) ==> end(y) == y
    ensures n <= left(x) && end(x) == Iterate(f, x, n) && !taken(end(x))
    ensures forall m :: 0 <= m < n ==> taken(Iterate(f, x, m))
    decreases left(x)
  {
    n := 0;
    if taken(x) {
      var rest := FindsFirst(f, taken, end, left, f(x));
      n := rest + 1;
      IterateFirst(f, x, rest);
      forall m | 0 <= m < n
        ensures taken(Iterate(f, x, m))
      {
        if m > 0 {
          IterateFirst(f, x, m - 1);
        }
      }
    }
  }
}
