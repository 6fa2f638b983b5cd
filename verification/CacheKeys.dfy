/** Names in the Redis keyspace: data keys, their lock keys, and invalidation patterns. */
module CacheKeys {
  import opened Text

  /** `params` is the canonical JSON text of the parameters. */
  datatype Query = Query(endpoint: string, params: string)

  function DataKey(hash: string -> string, q: Query): string {
    "dmo:" + q.endpoint + ":" + hash(q.params)
  }

  function LockKey(hash: string -> string, q: Query): string {
    DataKey(hash, q) + ":lock"
  }

  predicate IsHexDigest(h: string) {
    |h| == 64 && forall c | c in h :: '0' <= c <= '9' || 'a' <= c <= 'f'
  }

  /** SHA-256 digests, without a collision among the queries that are ever made. */
  ghost predicate GoodHash(hash: string -> string, queries: set<Query>) {
    && (forall q | q in queries :: IsHexDigest(hash(q.params)))
    && (forall a, b | a in queries && b in queries && hash(a.params) == hash(b.params) :: a.params == b.params)
  }

  lemma DataKeyInjective(hash: string -> string, a: Query, b: Query)
    requires GoodHash(hash, {a, b}) && DataKey(hash, a) == DataKey(hash, b)
    ensures a == b
  {
    var ha, hb := hash(a.params), hash(b.params);
    var x, y := "dmo:" + a.endpoint + ":", "dmo:" + b.endpoint + ":";
    var k := DataKey(hash, a);
    assert k == x + ha == y + hb && |ha| == |hb| == 64;
    assert |x| == |y|;
    assert ha == k[|x|..] == hb;
    assert x == k[..|x|] == y;
    assert a.endpoint == x[4..|x| - 1] == b.endpoint;
  }

  /** A lock key is never a data key, and names its own query's lock only. */
  lemma KeysApart(hash: string -> string, a: Query, b: Query)
    requires GoodHash(hash, {a, b})
    ensures DataKey(hash, a) != LockKey(hash, b)
    ensures LockKey(hash, a) == LockKey(hash, b) ==> a == b
    ensures DataKey(hash, a) == DataKey(hash, b) ==> a == b
  {
    var k, l := DataKey(hash, a), LockKey(hash, b);
    var h := hash(a.params);
    assert k[|k| - 1] == h[63] && h[63] in h;
    assert l[|l| - 1] == 'k';
    if LockKey(hash, a) == LockKey(hash, b) {
      assert k == LockKey(hash, a)[..|l| - 5] == DataKey(hash, b);
    }
    if k == DataKey(hash, b) {
      DataKeyInjective(hash, a, b);
    }
  }

  /** The literal prefixes of the patterns purged on any single-entity write. */
  const ENTITY_PREFIXES: seq<string> := [
    "dmo:detail:", "dmo:open_status:", "dmo:search:", "dmo:nearby:", "dmo:map:",
    "dmo:classifications:", "dmo:categories:", "dmo:unified_categories:"]

  /** `prefix*` matches a key. */
  predicate Matches(prefix: string, key: string) { prefix <= key }

  predicate Purged(key: string) {
    exists i | 0 <= i < |ENTITY_PREFIXES| :: Matches(ENTITY_PREFIXES[i], key)
  }

  lemma PrefixNamesEndpoint(e: string, f: string, tail: string)
    requires ':' !in e && ':' !in f
    ensures Matches("dmo:" + e + ":", "dmo:" + f + ":" + tail) <==> e == f
  {
    var prefix, key := "dmo:" + e + ":", "dmo:" + f + ":" + tail;
    if e == f {
      assert key == prefix + tail;
    }
    if prefix <= key {
      var rest := key[|prefix|..];
      assert key == prefix + rest;
      assert key[4..] == e + (":" + rest) == f + (":" + tail);
      FindFirst(e, ':', ":" + rest);
      FindFirst(f, ':', ":" + tail);
      assert e == key[4..][..|e|] == f;
    }
  }

  /** An endpoint's pattern takes its data keys and its lock keys, and no other endpoint's. */
  lemma PatternTakesFamily(hash: string -> string, endpoint: string, q: Query)
    requires ':' !in endpoint && ':' !in q.endpoint
    ensures Matches("dmo:" + endpoint + ":", DataKey(hash, q)) <==> q.endpoint == endpoint
    ensures Matches("dmo:" + endpoint + ":", LockKey(hash, q)) <==> q.endpoint == endpoint
  {
    PrefixNamesEndpoint(endpoint, q.endpoint, hash(q.params));
    PrefixNamesEndpoint(endpoint, q.endpoint, hash(q.params) + ":lock");
    assert LockKey(hash, q) == "dmo:" + q.endpoint + ":" + (hash(q.params) + ":lock");
  }

  /** The endpoints whose answers depend on single entities. */
  const ENTITY_ENDPOINTS: seq<string> := [
    "detail", "open_status", "search", "nearby", "map", "classifications", "categories", "unified_categories"]

  lemma PrefixOf(i: nat)
    requires i < |ENTITY_ENDPOINTS|
    ensures |ENTITY_PREFIXES| == |ENTITY_ENDPOINTS|
    ensures ENTITY_PREFIXES[i] == "dmo:" + ENTITY_ENDPOINTS[i] + ":"
  {
    if i < 4 {
      EarlyPrefix(i);
    } else {
      LatePrefix(i);
    }
  }

  lemma EarlyPrefix(i: nat)
    requires i < 4
    ensures ENTITY_PREFIXES[i] == "dmo:" + ENTITY_ENDPOINTS[i] + ":"
  {
  }

  lemma LatePrefix(i: nat)
    requires 4 <= i < |ENTITY_ENDPOINTS|
    ensures ENTITY_PREFIXES[i] == "dmo:" + ENTITY_ENDPOINTS[i] + ":"
  {
  }

  lemma NoColon(i: nat)
    requires i < |ENTITY_ENDPOINTS|
    ensures ':' !in ENTITY_ENDPOINTS[i]
  {
  }

  /** The purge after a write takes data and locks of exactly these endpoints. */
  lemma PurgedIff(hash: string -> string, q: Query)
    requires ':' !in q.endpoint
    ensures Purged(DataKey(hash, q)) <==> q.endpoint in ENTITY_ENDPOINTS
    ensures Purged(LockKey(hash, q)) <==> q.endpoint in ENTITY_ENDPOINTS
  {
    PrefixOf(0);
    forall i | 0 <= i < |ENTITY_ENDPOINTS|
      ensures Matches(ENTITY_PREFIXES[i], DataKey(hash, q)) <==> q.endpoint == ENTITY_ENDPOINTS[i]
      ensures Matches(ENTITY_PREFIXES[i], LockKey(hash, q)) <==> q.endpoint == ENTITY_ENDPOINTS[i]
    {
      PrefixOf(i);
      NoColon(i);
      PatternTakesFamily(hash, ENTITY_ENDPOINTS[i], q);
    }
  }

  /** Both purges leave the rate limiter's keys alone. */
  lemma RateLimitKeysSurvive(ip: string)
    ensures !Purged("ratelimit:" + ip) && !Matches("dmo:", "ratelimit:" + ip)
  {
    var key := "ratelimit:" + ip;
    assert key[0] == 'r';
    forall i | 0 <= i < |ENTITY_PREFIXES| ensures !Matches(ENTITY_PREFIXES[i], key) {
      assert ENTITY_PREFIXES[i][0] == 'd';
    }
  }
}
