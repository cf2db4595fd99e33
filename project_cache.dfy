/** The Flask-Caching store as the dashboard uses it: a map from full project
    name to project entry, read with `get`, written with `set` and cleared
    key by key with `delete`. */
module ProjectCache {
  import opened Records

  class Cache {
    var entries: map<string, Entry>

    constructor ()
      ensures entries == map[]
    {
      entries := map[];
    }

    /** `cache.get(key)`: the stored entry, or None on a miss. */
    method Get(key: string) returns (r: Option<Entry>)
      ensures key in entries <==> r.Some?
      ensures r.Some? ==> r.value == entries[key]
    {
      r := if key in entries then Some(entries[key]) else None;
    }

    /** `cache.set(key, entry)`: stores or replaces one entry. */
    method Set(key: string, e: Entry)
      modifies this
      ensures entries == old(entries)[key := e]
    {
      entries := entries[key := e];
    }

    /** `cache.delete(key)`: removes one key, if present. */
    method Delete(key: string)
      modifies this
      ensures entries == old(entries) - {key}
    {
      entries := entries - {key};
    }
  }
}
