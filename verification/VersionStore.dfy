/** The versioned records the services keep their state in: one value and one version per key,
    written only by an insert, an atomic update or a checked delete. */
module VersionStore {
  datatype Versioned<+V> = Versioned(value: V, version: nat)

  type Store<!K(==), V> = map<K, Versioned<V>>

  /** What one applied Create or Update stores; a deleted key starts over at version 1. */
  function Put<K, V>(store: Store<K, V>, key: K, value: V): Store<K, V>
  {
    store[key := Versioned(value, if key in store then store[key].version + 1 else 1)]
  }

  /** A checked delete: takes effect only on exactly the pair that was read. */
  function DeleteIf<K, V(==)>(store: Store<K, V>, key: K, expected: Versioned<V>): Store<K, V>
  {
    if key in store && store[key] == expected then store - {key} else store
  }
}
