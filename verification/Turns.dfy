/** Values that are put under keys in turns: what was put last stays. */
module Turns {
  import opened Objects
  import opened Wrappers

  /** A value that a tag puts under a key, at some turn. */
  datatype Put<X> = Put(at: string, value: X, turn: nat)

  predicate PutsAt<X>(puts: (string, string) -> Option<Put<X>>, k: string, v: string, at: string) {
    puts(k, v).Some? && puts(k, v).value.at == at
  }

  /** The tag puts this under the key, and none does so later. */
  predicate Last<X>(tags: Tags, puts: (string, string) -> Option<Put<X>>, k: string, at: string) {
    && k in tags && PutsAt(puts, k, tags[k], at)
    && forall j <- tags :: PutsAt(puts, j, tags[j], at) ==> puts(j, tags[j]).value.turn <= puts(k, tags[k]).value.turn
  }

  predicate Untouched<X>(tags: Tags, puts: (string, string) -> Option<Put<X>>, at: string) {
    forall j <- tags :: !PutsAt(puts, j, tags[j], at)
  }

  /** Under the key stands what was put there last, or else what was there before. */
  ghost predicate FilledAt<X>(tags: Tags, m: map<string, X>, puts: (string, string) -> Option<Put<X>>, m': map<string, X>, at: string) {
    || (Untouched(tags, puts, at) && At(m', at) == At(m, at))
    || (exists k :: Last(tags, puts, k, at) && At(m', at) == Some(puts(k, tags[k]).value.value))
  }

  ghost predicate Filled<X>(tags: Tags, m: map<string, X>, puts: (string, string) -> Option<Put<X>>, m': map<string, X>) {
    forall at :: FilledAt(tags, m, puts, m', at)
  }

  // ----- Some tags of more -----

  /** These are some of the tags, and the others put nothing anywhere. */
  ghost predicate SomeOf<X>(left: Tags, some: (string, string) -> Option<Put<X>>, tags: Tags, puts: (string, string) -> Option<Put<X>>) {
    && (forall k <- left :: k in tags && left[k] == tags[k] && puts(k, tags[k]) == some(k, tags[k]))
    && (forall k <- tags :: k !in left ==> puts(k, tags[k]).None?)
  }

  lemma LastOfSome<X>(left: Tags, some: (string, string) -> Option<Put<X>>, tags: Tags, puts: (string, string) -> Option<Put<X>>,
                      k: string, at: string)
    requires SomeOf(left, some, tags, puts) && Last(left, some, k, at)
    ensures Last(tags, puts, k, at) && puts(k, tags[k]) == some(k, left[k])
  {
    forall j | j in tags && PutsAt(puts, j, tags[j], at)
      ensures j in left && PutsAt(some, j, left[j], at)
    {
    }
  }

  lemma FilledInLess<X>(tags: Tags, m: map<string, X>, left: Tags, some: (string, string) -> Option<Put<X>>, m': map<string, X>,
                        puts: (string, string) -> Option<Put<X>>)
    requires Filled(left, m, some, m')
    requires forall k <- left :: k in tags && left[k] == tags[k] && puts(k, tags[k]) == some(k, tags[k])
    requires forall k <- tags :: k !in left ==> puts(k, tags[k]).None?
    ensures Filled(tags, m, puts, m')
  {
    forall at
      ensures FilledAt(tags, m, puts, m', at)
    {
      assert SomeOf(left, some, tags, puts) && FilledAt(left, m, some, m', at);
      LessAt(tags, m, left, some, m', puts, at);
    }
  }

  lemma LessAt<X>(tags: Tags, m: map<string, X>, left: Tags, some: (string, string) -> Option<Put<X>>, m': map<string, X>,
                  puts: (string, string) -> Option<Put<X>>, at: string)
    requires SomeOf(left, some, tags, puts) && FilledAt(left, m, some, m', at)
    ensures FilledAt(tags, m, puts, m', at)
  {
    if k :| Last(left, some, k, at) && At(m', at) == Some(some(k, left[k]).value.value) {
      LastOfSome(left, some, tags, puts, k, at);
    }
  }

  lemma FilledBySame<X>(tags: Tags, m: map<string, X>, some: (string, string) -> Option<Put<X>>,
                        puts: (string, string) -> Option<Put<X>>, m': map<string, X>)
    requires Filled(tags, m, some, m')
    requires forall k <- tags :: puts(k, tags[k]) == some(k, tags[k])
    ensures Filled(tags, m, puts, m')
  {
    FilledInLess(tags, m, tags, some, m', puts);
  }

  // ----- One run after another -----

  /** The tags of the first run are gone for the second, whose turns are later. */
  ghost predicate InTurn<X>(tags: Tags, first: (string, string) -> Option<Put<X>>, left: Tags,
                            second: (string, string) -> Option<Put<X>>, puts: (string, string) -> Option<Put<X>>) {
    && (forall k <- left :: k in tags && left[k] == tags[k] && puts(k, left[k]) == second(k, left[k]))
    && (forall k <- tags :: first(k, tags[k]).Some? ==> k !in left && puts(k, tags[k]) == first(k, tags[k]))
    && (forall k <- tags :: k !in left && first(k, tags[k]).None? ==> puts(k, tags[k]).None?)
    && (forall j, k :: j in tags && first(j, tags[j]).Some? && k in left && second(k, left[k]).Some? ==>
          first(j, tags[j]).value.turn < second(k, left[k]).value.turn)
  }

  lemma LastOfSecond<X>(tags: Tags, first: (string, string) -> Option<Put<X>>, left: Tags,
                        second: (string, string) -> Option<Put<X>>, puts: (string, string) -> Option<Put<X>>, k: string, at: string)
    requires InTurn(tags, first, left, second, puts) && Last(left, second, k, at)
    ensures Last(tags, puts, k, at) && puts(k, tags[k]) == second(k, left[k])
  {
    forall j | j in tags && PutsAt(puts, j, tags[j], at)
      ensures puts(j, tags[j]).value.turn <= puts(k, tags[k]).value.turn
    {
      if j in left {
        assert PutsAt(second, j, left[j], at);
      } else {
        assert first(j, tags[j]).Some?;
      }
    }
  }

  lemma LastOfFirst<X>(tags: Tags, first: (string, string) -> Option<Put<X>>, left: Tags,
                       second: (string, string) -> Option<Put<X>>, puts: (string, string) -> Option<Put<X>>, k: string, at: string)
    requires InTurn(tags, first, left, second, puts) && Last(tags, first, k, at) && Untouched(left, second, at)
    ensures Last(tags, puts, k, at) && puts(k, tags[k]) == first(k, tags[k])
  {
    forall j | j in tags && PutsAt(puts, j, tags[j], at)
      ensures PutsAt(first, j, tags[j], at)
    {
      assert j in left ==> !PutsAt(second, j, left[j], at);
    }
  }

  lemma UntouchedByBoth<X>(tags: Tags, first: (string, string) -> Option<Put<X>>, left: Tags,
                           second: (string, string) -> Option<Put<X>>, puts: (string, string) -> Option<Put<X>>, at: string)
    requires InTurn(tags, first, left, second, puts) && Untouched(tags, first, at) && Untouched(left, second, at)
    ensures Untouched(tags, puts, at)
  {
    forall j | j in tags
      ensures !PutsAt(puts, j, tags[j], at)
    {
      assert !PutsAt(first, j, tags[j], at);
      if j in left {
        assert !PutsAt(second, j, left[j], at);
      }
    }
  }

  lemma TwiceAt<X>(tags: Tags, m: map<string, X>, first: (string, string) -> Option<Put<X>>, mid: map<string, X>,
                   left: Tags, second: (string, string) -> Option<Put<X>>, m': map<string, X>,
                   puts: (string, string) -> Option<Put<X>>, at: string)
    requires InTurn(tags, first, left, second, puts) && FilledAt(tags, m, first, mid, at) && FilledAt(left, mid, second, m', at)
    ensures FilledAt(tags, m, puts, m', at)
  {
    if k :| Last(left, second, k, at) && At(m', at) == Some(second(k, left[k]).value.value) {
      LastOfSecond(tags, first, left, second, puts, k, at);
    } else if k :| Last(tags, first, k, at) && At(mid, at) == Some(first(k, tags[k]).value.value) {
      LastOfFirst(tags, first, left, second, puts, k, at);
    } else {
      UntouchedByBoth(tags, first, left, second, puts, at);
    }
  }

  lemma FilledTwice<X>(tags: Tags, m: map<string, X>, first: (string, string) -> Option<Put<X>>, mid: map<string, X>,
                       left: Tags, second: (string, string) -> Option<Put<X>>, m': map<string, X>,
                       puts: (string, string) -> Option<Put<X>>)
    requires Filled(tags, m, first, mid) && Filled(left, mid, second, m') && InTurn(tags, first, left, second, puts)
    ensures Filled(tags, m, puts, m')
  {
    forall at
      ensures FilledAt(tags, m, puts, m', at)
    {
      assert FilledAt(tags, m, first, mid, at) && FilledAt(left, mid, second, m', at);
      TwiceAt(tags, m, first, mid, left, second, m', puts, at);
    }
  }

  // ----- One tag first -----

  function Only<X>(tag: string, put: Put<X>): (string, string) -> Option<Put<X>> {
    (k, v) => if k == tag then Some(put) else None
  }

  lemma OnlyAt<X>(tags: Tags, m: map<string, X>, tag: string, put: Put<X>, m': map<string, X>, at: string)
    requires tag in tags && m' == m[put.at := put.value]
    ensures FilledAt(tags, m, Only(tag, put), m', at)
  {
    if at == put.at {
      assert Last(tags, Only(tag, put), tag, at);
    } else {
      assert Untouched(tags, Only(tag, put), at);
    }
  }

  lemma OnlyFills<X>(tags: Tags, m: map<string, X>, tag: string, put: Put<X>)
    requires tag in tags
    ensures Filled(tags, m, Only(tag, put), m[put.at := put.value])
  {
    var m' := m[put.at := put.value];
    forall at
      ensures FilledAt(tags, m, Only(tag, put), m', at)
    {
      OnlyAt(tags, m, tag, put, m', at);
    }
  }

  /** One tag first, and later the others. */
  lemma FirstThen<X>(tags: Tags, m: map<string, X>, tag: string, put: Put<X>, rest: (string, string) -> Option<Put<X>>,
                     m': map<string, X>, puts: (string, string) -> Option<Put<X>>)
    requires tag in tags && puts(tag, tags[tag]) == Some(put)
    requires Filled(tags - {tag}, m[put.at := put.value], rest, m')
    requires forall k <- tags :: k != tag ==> puts(k, tags[k]) == rest(k, tags[k])
    requires forall k <- tags :: k != tag && rest(k, tags[k]).Some? ==> put.turn < rest(k, tags[k]).value.turn
    ensures Filled(tags, m, puts, m')
  {
    OnlyFills(tags, m, tag, put);
    FilledTwice(tags, m, Only(tag, put), m[put.at := put.value], tags - {tag}, rest, m', puts);
  }

  lemma NothingFilled<X>(tags: Tags, m: map<string, X>, puts: (string, string) -> Option<Put<X>>)
    requires forall k <- tags :: puts(k, tags[k]).None?
    ensures Filled(tags, m, puts, m)
  {
  }

  // ----- Runs in a row -----

  function Either<X>(first: (string, string) -> Option<Put<X>>, second: (string, string) -> Option<Put<X>>)
    : (string, string) -> Option<Put<X>>
  {
    (k, v) => if first(k, v).Some? then first(k, v) else second(k, v)
  }

  /** The run leaves exactly the tags for which it has no value. */
  ghost predicate Takes<X>(tags: Tags, puts: (string, string) -> Option<Put<X>>, left: Tags) {
    && (forall k <- left :: k in tags && left[k] == tags[k])
    && (forall k <- tags :: k in left <==> puts(k, tags[k]).None?)
  }

  ghost predicate Below<X>(puts: (string, string) -> Option<Put<X>>, turn: nat) {
    forall k, v :: puts(k, v).Some? ==> puts(k, v).value.turn < turn
  }

  ghost predicate From<X>(puts: (string, string) -> Option<Put<X>>, turn: nat) {
    forall k, v :: puts(k, v).Some? ==> turn <= puts(k, v).value.turn
  }

  lemma FilledThen<X>(tags: Tags, m: map<string, X>, first: (string, string) -> Option<Put<X>>, mid: map<string, X>,
                      left: Tags, second: (string, string) -> Option<Put<X>>, m': map<string, X>, turn: nat)
    requires Filled(tags, m, first, mid) && Filled(left, mid, second, m')
    requires Takes(tags, first, left) && Below(first, turn) && From(second, turn)
    ensures Filled(tags, m, Either(first, second), m')
  {
    FilledTwice(tags, m, first, mid, left, second, m', Either(first, second));
  }

  lemma EitherTakes<X>(tags: Tags, first: (string, string) -> Option<Put<X>>, mid: Tags,
                       second: (string, string) -> Option<Put<X>>, left: Tags, turn: nat)
    requires Takes(tags, first, mid) && Takes(mid, second, left)
    ensures Takes(tags, Either(first, second), left)
    ensures Below(first, turn) && Below(second, turn) ==> Below(Either(first, second), turn)
  {
  }

  /** Three runs, each of which leaves the later ones what it has no value for. */
  lemma ThreeRuns<X>(tags: Tags, m: map<string, X>, a: (string, string) -> Option<Put<X>>, m1: map<string, X>, mid: Tags,
                     b: (string, string) -> Option<Put<X>>, m2: map<string, X>, late: Tags,
                     c: (string, string) -> Option<Put<X>>, m3: map<string, X>, n: nat, l: nat)
    requires Filled(tags, m, a, m1) && Filled(mid, m1, b, m2) && Filled(late, m2, c, m3)
    requires Takes(tags, a, mid) && Takes(mid, b, late)
    requires Below(a, n) && From(b, n) && Below(b, n + l) && From(c, n + l)
    ensures Filled(tags, m, Either(Either(a, b), c), m3)
  {
    FilledThen(tags, m, a, m1, mid, b, m2, n);
    EitherTakes(tags, a, mid, b, late, n + l);
    assert Below(a, n + l);
    FilledThen(tags, m, Either(a, b), m2, late, c, m3, n + l);
  }
}
