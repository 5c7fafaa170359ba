// An insertion-ordered map: what an object's hash table means to its users.

module OrderedMap {
  import opened Options

  type Entries<K, V> = seq<(K, V)>

  predicate Distinct<K(==), V>(m: Entries<K, V>) {
    forall i, j | 0 <= i < j < |m| :: m[i].0 != m[j].0
  }

  predicate Has<K(==), V>(m: Entries<K, V>, k: K) {
    exists i | 0 <= i < |m| :: m[i].0 == k
  }

  // The position of the first entry for k, or |m|
  function Find<K(==), V>(m: Entries<K, V>, k: K): (i: nat)
    ensures i <= |m|
    ensures i < |m| ==> m[i].0 == k
    ensures forall j | 0 <= j < i :: m[j].0 != k
  {
    if m == [] || m[0].0 == k then 0 else 1 + Find(m[1..], k)
  }

  function Get<K(==), V>(m: Entries<K, V>, k: K): Option<V> {
    var i := Find(m, k);
    if i < |m| then Some(m[i].1) else None
  }

  // json_object_object_add: an existing key keeps its place and gets the new value
  function Put<K(==), V>(m: Entries<K, V>, k: K, v: V): Entries<K, V> {
    var i := Find(m, k);
    if i < |m| then m[i := (m[i].0, v)] else m + [(k, v)]
  }

  function Remove<K(==), V>(m: Entries<K, V>, k: K): Entries<K, V> {
    var i := Find(m, k);
    if i < |m| then m[..i] + m[i + 1..] else m
  }
}
