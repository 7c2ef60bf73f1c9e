/**
 * The PSR-6 cache pool the crawlers keep their collections in. An item is a
 * hit while the clock is before its expiry time; `save` after
 * `expiresAfter($lifetime)` stores the value with expiry `now + lifetime`.
 * The clock is a parameter: the model has no wall clock.
 */
module CachePool {
  import opened Wrappers
  import opened Collections
  import opened Gitlab

  /** The three kinds of collection the crawlers cache. */
  datatype Cached =
    | ProjectList(projects: Collection<Project>)
    | BranchList(branches: Collection<Branch>)
    | TreeList(tree: Collection<TreeItem>)

  datatype Entry = Entry(value: Cached, expiresAt: int)

  type Entries = map<string, Entry>

  /** `getItem($key)`, then `isHit()` and `get()`: the value while it has not expired. */
  function Lookup(entries: Entries, key: string, now: int): (r: Option<Cached>)
    ensures r.Some? <==> key in entries && now < entries[key].expiresAt
    ensures r.Some? ==> r.value == entries[key].value
  {
    if key in entries && now < entries[key].expiresAt then Some(entries[key].value) else None
  }

  /** `set($value)->expiresAfter($lifetime)`, then `save`. */
  function Store(entries: Entries, key: string, value: Cached, now: int, lifetime: int): (r: Entries)
    ensures r.Keys == entries.Keys + {key}
    ensures r[key] == Entry(value, now + lifetime)
    ensures forall k :: k in entries && k != key ==> r[k] == entries[k]
  {
    entries[key := Entry(value, now + lifetime)]
  }

  /** A value saved with a positive lifetime is a hit until it expires, and then a miss. */
  lemma StoreThenLookup(entries: Entries, key: string, value: Cached, now: int, lifetime: int, later: int)
    requires now <= later
    ensures Lookup(Store(entries, key, value, now, lifetime), key, later) ==
      if later < now + lifetime then Some(value) else None
  {
  }

  /** Saving under one key leaves every other key's lookup as it was. */
  lemma StoreKeepsOthers(entries: Entries, key: string, other: string, value: Cached, now: int, lifetime: int, at: int)
    requires other != key
    ensures Lookup(Store(entries, key, value, now, lifetime), other, at) == Lookup(entries, other, at)
  {
  }

  class Pool {
    var entries: Entries

    /** A fresh, empty pool (`new ArrayAdapter()`). */
    constructor ()
      ensures entries == map[]
    {
      entries := map[];
    }

    method GetItem(key: string, now: int) returns (r: Option<Cached>)
      ensures r == Lookup(entries, key, now)
    {
      r := Lookup(entries, key, now);
    }

    method Save(key: string, value: Cached, now: int, lifetime: int)
      modifies this
      ensures entries == Store(old(entries), key, value, now, lifetime)
    {
      entries := Store(entries, key, value, now, lifetime);
    }
  }
}
