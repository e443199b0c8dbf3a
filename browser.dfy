/**
 * What the three screens take from the browser: an optional value, the routes
 * they navigate between, and the page-wide key-value store (`localStorage`).
 * The store keeps records rather than their JSON text: serialising a record and
 * parsing it back is taken to give the same record.
 */
module Browser {

  datatype Option<T> = None | Some(value: T)

  /** The three screens of the flow: "/career-form", "/loading", "/results". */
  datatype Route = CareerFormRoute | LoadingRoute | ResultsRoute

  /** The page-wide key-value store. Nothing expires: an entry written in an
      earlier visit is read back like a fresh one. */
  class LocalStore<V> {
    var entries: map<string, V>

    /** A store that already holds `initial`, e.g. left over from an earlier visit. */
    constructor (initial: map<string, V>)
      ensures entries == initial
    {
      entries := initial;
    }

    /** `setItem(key, value)`: overwrites the entry under `key`, keeps all others. */
    method SetItem(key: string, value: V)
      modifies this
      ensures entries == old(entries)[key := value]
      ensures GetItem(key) == Some(value)
      ensures forall k :: k != key ==> GetItem(k) == old(GetItem(k))
    {
      entries := entries[key := value];
    }

    /** `getItem(key)`: the entry under `key`, or nothing when there is none. */
    function GetItem(key: string): Option<V>
      reads this
    {
      if key in entries then Some(entries[key]) else None
    }
  }
}
