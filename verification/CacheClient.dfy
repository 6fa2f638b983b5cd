/** The cache module's own procedures, run without interference on one Redis keyspace. */
module CacheClient {
  import opened CacheKeys
  import opened Options

  /** A value with the time (in milliseconds) at which Redis drops it. */
  datatype Entry<+V> = Entry(value: V, expireAt: int)

  /** GET: an expired key reads as absent. */
  function Read<V>(keys: map<string, Entry<V>>, key: string, now: int): Option<V> {
    if key in keys && now < keys[key].expireAt then Some(keys[key].value) else None
  }

  const LOCK_TIMEOUT: int := 5000
  const RETRY_DELAY: int := 50

  datatype Outcome = Hit(value: string) | Fetched(value: string) | TimedOut | Raised

  class Cache {
    var keys: map<string, Entry<string>>
    var now: int

    constructor ()
      ensures keys == map[] && now == 0
    {
      keys, now := map[], 0;
    }

    /** SCAN for a prefix pattern and delete each key found. */
    method DeletePattern(prefix: string)
      modifies `keys
      ensures keys == map k | k in old(keys) && !Matches(prefix, k) :: old(keys)[k]
    {
      var found := set k | k in keys && Matches(prefix, k);
      while found != {}
        invariant found <= keys.Keys
        invariant forall k | k in found :: Matches(prefix, k)
        invariant keys.Keys <= old(keys).Keys && forall k | k in keys :: keys[k] == old(keys)[k]
        invariant forall k | k in old(keys) && k !in keys :: Matches(prefix, k)
        invariant forall k | k in keys && Matches(prefix, k) :: k in found
        decreases |found|
      {
        var k :| k in found;
        keys, found := keys - {k}, found - {k};
      }
    }

    /** The purge after a write to one entity: every pattern in turn. */
    method InvalidateEntity()
      modifies `keys
      ensures keys == map k | k in old(keys) && !Purged(k) :: old(keys)[k]
    {
      for i := 0 to |ENTITY_PREFIXES|
        invariant keys == map k | k in old(keys) && !(exists j | 0 <= j < i :: Matches(ENTITY_PREFIXES[j], k)) ::
            old(keys)[k]
      {
        DeletePattern(ENTITY_PREFIXES[i]);
      }
    }

    /**
     Look up, else lock and fetch, else wait.  `fetched` is what the fetch would return (None
     when it raises) and `cost` how long it takes.
     */
    method GetOrSet(key: string, fetched: Option<string>, cost: nat, ttl: nat) returns (r: Outcome)
      modifies this
      ensures Read(old(keys), key, old(now)).Some? ==>
                r == Hit(Read(old(keys), key, old(now)).value) && keys == old(keys) && now == old(now)
      ensures Read(old(keys), key, old(now)).None? && Read(old(keys), key + ":lock", old(now)).Some? ==>
                r == TimedOut && keys == old(keys) && now == old(now) + 5000
      ensures Read(old(keys), key, old(now)).None? && Read(old(keys), key + ":lock", old(now)).None? ==>
                now == old(now) + cost &&
                match fetched
                case None => r == Raised && keys == old(keys) - {key + ":lock"}
                case Some(v) =>
                  r == Fetched(v) && keys == old(keys)[key := Entry(v, now + ttl)] - {key + ":lock"}
    {
      var lockKey := key + ":lock";
      assert lockKey != key by {
        assert |lockKey| == |key| + 5;
      }
      var value := Read(keys, key, now);
      if value.Some? {
        return Hit(value.value);
      }
      var acquired := Read(keys, lockKey, now).None?;
      if acquired {
        keys := keys[lockKey := Entry("1", now + LOCK_TIMEOUT)];
      } else {
        var tries := 0;
        while tries < LOCK_TIMEOUT / RETRY_DELAY
          invariant 0 <= tries <= LOCK_TIMEOUT / RETRY_DELAY && now == old(now) + tries * RETRY_DELAY
          invariant keys == old(keys) && Read(keys, key, now).None?
        {
          now := now + RETRY_DELAY;
          value := Read(keys, key, now);
          match value {
            case Some(v) => return Hit(v);
            case None => tries := tries + 1;
          }
        }
        return TimedOut;
      }
      value := Read(keys, key, now);
      if value.Some? {
        keys := keys - {lockKey};
        return Hit(value.value);
      }
      now := now + cost;
      match fetched
      case None =>
        keys := keys - {lockKey};
        return Raised;
      case Some(v) =>
        keys := keys[key := Entry(v, now + ttl)];
        keys := keys - {lockKey};
        return Fetched(v);
    }
  }
}
