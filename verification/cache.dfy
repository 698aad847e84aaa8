/** The process-wide time-to-live cache of backend/services/cache.py: a map from key to
    (expiry time, value), expired lazily when a reader looks the key up. The wall clock
    (`time.time()`) is the parameter `now`. */
module Cache {
  import opened Wrappers

  datatype Entry<V> = Entry(expiresAt: real, value: V)

  /** What `get(key)` answers at time `now`: the value, unless the key is absent or its entry
      expired (strictly after its expiry time). */
  function Lookup<V>(m: map<string, Entry<V>>, key: string, now: real): (r: Option<V>)
    ensures r.Some? <==> key in m && now <= m[key].expiresAt
    ensures r.Some? ==> r.value == m[key].value
  {
    if key in m && now <= m[key].expiresAt then Some(m[key].value) else None
  }

  /** The entries after `get(key)` at time `now`: an expired entry for `key` is dropped. */
  function AfterGet<V>(m: map<string, Entry<V>>, key: string, now: real): (m': map<string, Entry<V>>)
    ensures m'.Keys == if key in m && now > m[key].expiresAt then m.Keys - {key} else m.Keys
    ensures forall k :: k in m' ==> m'[k] == m[k]
  {
    if key in m && now > m[key].expiresAt then m - {key} else m
  }

  class TtlCache<V> {
    var entries: map<string, Entry<V>>

    constructor()
      ensures entries == map[]
    {
      entries := map[];
    }

    /** `get(key)`: the live value for `key`; an expired entry is removed. */
    method Get(key: string, now: real) returns (r: Option<V>)
      modifies this
      ensures r == Lookup(old(entries), key, now)
      ensures entries == AfterGet(old(entries), key, now)
      ensures r.Some? ==> entries == old(entries)
    {
      if key !in entries {
        return None;
      }
      var item := entries[key];
      if now > item.expiresAt {
        entries := entries - {key};
        return None;
      }
      return Some(item.value);
    }

    /** `set(key, value, ttl_seconds)`: stores `value` until `now + ttl`, replacing any entry for
        `key` and leaving every other entry as it was. */
    method Set(key: string, value: V, ttl: int, now: real)
      modifies this
      ensures entries == old(entries)[key := Entry(now + ttl as real, value)]
      ensures forall k :: k != key ==> Lookup(entries, k, now) == Lookup(old(entries), k, now)
    {
      entries := entries[key := Entry(now + ttl as real, value)];
    }

    /** `delete(key)`: removes `key` only; nothing happens when it is absent. */
    method Delete(key: string)
      modifies this
      ensures entries == old(entries) - {key}
      ensures key !in old(entries) ==> entries == old(entries)
    {
      entries := entries - {key};
    }

    /** `clear()`: removes every entry. */
    method Clear()
      modifies this
      ensures entries == map[]
      ensures forall k, t :: Lookup(entries, k, t).None?
    {
      entries := map[];
    }
  }

  /** A value set with time-to-live `ttl` at time `t` is returned by every lookup up to and
      including `t + ttl`, and by none after it. */
  lemma LookupAfterSet<V>(m: map<string, Entry<V>>, key: string, value: V, ttl: int, t: real, now: real)
    ensures now <= t + ttl as real ==> Lookup(m[key := Entry(t + ttl as real, value)], key, now) == Some(value)
    ensures now > t + ttl as real ==> Lookup(m[key := Entry(t + ttl as real, value)], key, now) == None
  {
  }

  /** Looking up a key that was never set answers None and changes nothing. */
  lemma LookupMissing<V>(m: map<string, Entry<V>>, key: string, now: real)
    requires key !in m
    ensures Lookup(m, key, now) == None && AfterGet(m, key, now) == m
  {
  }

  /** A lookup of an expired key removes that key and no other. */
  lemma LookupExpired<V>(m: map<string, Entry<V>>, key: string, now: real)
    requires key in m && now > m[key].expiresAt
    ensures Lookup(m, key, now) == None
    ensures AfterGet(m, key, now) == m - {key}
  {
  }
}
