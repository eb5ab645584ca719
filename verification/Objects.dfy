/** JavaScript objects that serve as dictionaries of strings. */
module Objects {
  import opened Wrappers

  type Tags = map<string, string>

  /** What stands under a key, if anything does. */
  function At<V>(m: map<string, V>, key: string): Option<V> {
    if key in m then Some(m[key]) else None
  }

  predicate Truthy(tags: Tags, key: string) {
    key in tags && tags[key] != ""
  }

  /** An order in which `for..in` may visit the keys: each of them once. */
  predicate Enumerates<V>(order: seq<string>, tags: map<string, V>) {
    && (forall i :: 0 <= i < |order| ==> order[i] in tags)
    && (forall i, j :: 0 <= i < j < |order| ==> order[i] != order[j])
    && (forall k <- tags :: k in order)
  }
}
