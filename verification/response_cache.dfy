/**
 * The endpoint's in-memory itinerary cache: entries remember when they were
 * stored and are served only while younger than thirty minutes.
 */
module ResponseCache {
  import opened Wrappers
  import opened JsValue

  const CACHE_TTL_MS: int := 1000 * 60 * 30

  datatype Entry = Entry(at: int, value: Value)

  type Cache<K> = map<K, Entry>

  /** An entry stored at `at` is still fresh at `now`. */
  predicate Fresh(e: Entry, now: int) {
    now - e.at < CACHE_TTL_MS
  }

  /** `cache.get(key)` followed by the freshness test; a stale entry is not evicted. */
  function FreshValue<K>(cache: Cache<K>, key: K, now: int): (r: Option<Value>)
    ensures r.Some? <==> key in cache && now < cache[key].at + 30 * 60 * 1000
    ensures r.Some? ==> r.value == cache[key].value
  {
    if key in cache && Fresh(cache[key], now) then Some(cache[key].value) else None
  }

  /** `cache.set(key, { at: now, value })`. */
  function Store<K>(cache: Cache<K>, key: K, now: int, value: Value): (c: Cache<K>)
    ensures c.Keys == cache.Keys + {key}
    ensures c[key] == Entry(now, value)
    ensures forall k :: k in cache && k != key ==> c[k] == cache[k]
  {
    cache[key := Entry(now, value)]
  }

  /** A stored value is served back for exactly thirty minutes after the store. */
  lemma StoreThenFresh<K>(cache: Cache<K>, key: K, at: int, value: Value, now: int)
    ensures FreshValue(Store(cache, key, at, value), key, now) == (if now - at < 1_800_000 then Some(value) else None)
  {
  }

  /** Storing under one key changes no lookup under another. */
  lemma StoreKeepsOthers<K>(cache: Cache<K>, key: K, at: int, value: Value, other: K, now: int)
    requires other != key
    ensures FreshValue(Store(cache, key, at, value), other, now) == FreshValue(cache, other, now)
  {
  }

  /** Every value in the cache satisfies `inv` for its key. */
  predicate AllValues<K>(cache: Cache<K>, inv: (K, Value) -> bool) {
    forall k :: k in cache ==> inv(k, cache[k].value)
  }

  /** A lookup only ever returns a value that was stored under that key. */
  lemma FreshValueWasStored<K>(cache: Cache<K>, inv: (K, Value) -> bool, key: K, now: int)
    requires AllValues(cache, inv)
    ensures FreshValue(cache, key, now).Some? ==> inv(key, FreshValue(cache, key, now).value)
  {
  }

  /** Storing a value that satisfies the invariant keeps it for the whole cache. */
  lemma StoreKeepsInvariant<K>(cache: Cache<K>, inv: (K, Value) -> bool, key: K, at: int, value: Value)
    requires AllValues(cache, inv) && inv(key, value)
    ensures AllValues(Store(cache, key, at, value), inv)
  {
  }
}
