/** Python dicts with string keys: an insertion order plus the key-to-value map. */
module Dicts {

  /** No element occurs twice. */
  predicate Distinct<K(==)>(s: seq<K>) {
    forall i, j :: 0 <= i < j < |s| ==> s[i] != s[j]
  }

  /** The raw shape of a dict: the iteration order of its keys and its entries. */
  datatype Entries<V> = Entries(order: seq<string>, at: map<string, V>)

  /** The iteration order lists every key exactly once. */
  predicate WellFormed<V>(e: Entries<V>) {
    Distinct(e.order) && e.at.Keys == set k | k in e.order
  }

  type Dict<V> = e: Entries<V> | WellFormed(e) witness Entries([], map[])
}
