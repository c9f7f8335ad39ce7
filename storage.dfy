/**
 * The browser's `localStorage` as an explicit object: a map from string keys
 * to stored lists. Every caller in the model stores a JSON array under a key
 * and parses it back, so `JSON.stringify`/`JSON.parse` are taken to be an
 * exact round trip and the stored value is kept as the list itself.
 */
module Storage {

  class KeyValueStore<V> {
    /** The stored list of each key that has been written. */
    var entries: map<string, seq<V>>

    /** An empty store: no key has ever been written. */
    constructor ()
      ensures entries == map[]
    {
      entries := map[];
    }

    /**
     * `JSON.parse(localStorage.getItem(key) || '[]')`: the list stored under
     * `key`, or the empty list when the key has never been written.
     */
    function ReadList(key: string): (r: seq<V>)
      reads this
      ensures key in entries ==> r == entries[key]
      ensures key !in entries ==> r == []
    {
      if key in entries then entries[key] else []
    }

    /**
     * `localStorage.setItem(key, JSON.stringify(value))`: the whole list under
     * `key` is replaced and every other key is left alone.
     */
    method SetItem(key: string, value: seq<V>)
      modifies this
      ensures entries == old(entries)[key := value]
      ensures ReadList(key) == value
    {
      entries := entries[key := value];
    }
  }
}
