/**
 * The in-memory store the test suite substitutes for Redis (tests/conftest.py):
 * `MockRedis`, a dictionary mutated by get/set/delete/incr and listed by
 * glob patterns; `MockRedisCache`, the cache service built on it; and
 * `no_cache_response`, the pass-through replacement for `cache_response`.
 */
module MockStore {
  import opened Wrappers
  import opened Store
  import opened CacheKeys
  import Decimal
  import RedisCacheService

  /** The exceptions Python's `int(x)` raises in `incr`. */
  datatype IncrError = ValueError | TypeError

  /** `int(x)` for the objects the store holds. */
  function CounterValue(v: Value): (r: Result<int, IncrError>)
    ensures v.Num? ==> r == Ok(v.n)
    ensures v.Text? ==> (r.Ok? <==> Decimal.ParseInt(v.s).Some?)
    ensures v.Text? && r.Ok? ==> r.value == Decimal.ParseInt(v.s).value
    ensures v.Text? && r.Err? ==> r.error == ValueError
    ensures v.Null? || v.List? ==> r == Err(TypeError)
  {
    match v
    case Num(n) => Ok(n)
    case Text(s) => if Decimal.ParseInt(s).Some? then Ok(Decimal.ParseInt(s).value) else Err(ValueError)
    case _ => Err(TypeError)
  }

  /** A counter stored by `incr` reads back as the number it was set to. */
  lemma CounterReadsBack(n: int)
    ensures CounterValue(Text(Decimal.IntToString(n))) == Ok(n)
  {
    Decimal.IntRoundTrip(n);
  }

  /** The keys listed in `keys`, as a set. */
  ghost function Listed(keys: seq<string>): set<string>
  {
    set k | k in keys
  }

  lemma ListedStep(keys: seq<string>, i: nat)
    requires i < |keys|
    ensures Listed(keys[..i + 1]) == Listed(keys[..i]) + {keys[i]}
  {
    assert keys[..i + 1] == keys[..i] + [keys[i]];
  }

  lemma ListedWhole(keys: seq<string>)
    ensures Listed(keys[..|keys|]) == Listed(keys)
  {
    assert keys[..|keys|] == keys;
  }

  /** Deleting a present key extends the removed set by that key, which was not removed before. */
  lemma RemovePresent(start: map<string, Value>, removed: set<string>, keys: seq<string>, i: nat)
    requires i < |keys| && removed == start.Keys * Listed(keys[..i]) && keys[i] in start - removed
    ensures keys[i] !in removed && |removed + {keys[i]}| == |removed| + 1
    ensures removed + {keys[i]} == start.Keys * Listed(keys[..i + 1])
    ensures (start - removed) - {keys[i]} == start - (removed + {keys[i]})
  {
    ListedStep(keys, i);
  }

  /** A key that is no longer present leaves the removed set as it is. */
  lemma SkipAbsent(start: map<string, Value>, removed: set<string>, keys: seq<string>, i: nat)
    requires i < |keys| && removed == start.Keys * Listed(keys[..i]) && keys[i] !in start - removed
    ensures removed == start.Keys * Listed(keys[..i + 1])
  {
    ListedStep(keys, i);
  }

  class MockRedis {
    /** `self._cache`. */
    var cache: map<string, Value>

    constructor ()
      ensures cache == map[]
    {
      cache := map[];
    }

    /** `get(key)`: `None` for an absent key or a stored `None`, otherwise the stored object. */
    method Get(key: string) returns (v: Value)
      ensures v == Lookup(cache, key)
    {
      v := if key in cache then cache[key] else Null;
    }

    /** `set(key, value, ex)`: overwrites the key; `ex` is ignored; always `True`. */
    method Set(key: string, value: Value, ex: Option<int>) returns (ok: bool)
      modifies this
      ensures ok
      ensures cache == old(cache)[key := value]
    {
      cache := cache[key := value];
      ok := true;
    }

    /** `delete(*keys)`: removes each listed key that is present and counts the removals. */
    method Delete(keys: seq<string>) returns (count: nat)
      modifies this
      ensures cache == old(cache) - Listed(keys)
      ensures count == |old(cache).Keys * Listed(keys)|
    {
      ghost var start := cache;
      ghost var removed: set<string> := {};
      count := 0;
      var i := 0;
      while i < |keys|
        invariant 0 <= i <= |keys|
        invariant removed == start.Keys * Listed(keys[..i])
        invariant cache == start - removed
        invariant count == |removed|
      {
        var key := keys[i];
        if key in cache {
          RemovePresent(start, removed, keys, i);
          cache := cache - {key};
          count := count + 1;
          removed := removed + {key};
        } else {
          SkipAbsent(start, removed, keys, i);
        }
        i := i + 1;
      }
      ListedWhole(keys);
    }

    /** `keys(pattern)`: the stored keys that match the pattern, each once. */
    method Keys(pattern: string) returns (found: seq<string>)
      ensures Listed(found) == MatchingKeys(cache, pattern)
      ensures forall i, j :: 0 <= i < j < |found| ==> found[i] != found[j]
    {
      found := [];
      var rest := cache.Keys;
      while rest != {}
        invariant rest <= cache.Keys
        invariant Listed(found) == MatchingKeys(cache, pattern) - rest
        invariant forall i, j :: 0 <= i < j < |found| ==> found[i] != found[j]
        decreases rest
      {
        var k :| k in rest;
        if Glob.Match(pattern, k) {
          assert Listed(found + [k]) == Listed(found) + {k};
          found := found + [k];
        }
        rest := rest - {k};
      }
    }

    /** `incr(key)`: reads the key as an integer (0 when absent), stores its successor as a string, returns it. */
    method Incr(key: string) returns (r: Result<int, IncrError>)
      modifies this
      ensures var current := CounterValue(if key in old(cache) then old(cache)[key] else Num(0));
        && (current.Ok? ==> r == Ok(current.value + 1) && cache == old(cache)[key := Text(Decimal.IntToString(r.value))])
        && (current.Err? ==> r == Err(current.error) && cache == old(cache))
    {
      var current := CounterValue(if key in cache then cache[key] else Num(0));
      if current.Err? {
        return Err(current.error);
      }
      var value := current.value + 1;
      cache := cache[key := Text(Decimal.IntToString(value))];
      r := Ok(value);
    }

    /** `expire(key, time)`: changes nothing and answers `True`. */
    method Expire(key: string, time: int) returns (ok: bool)
      ensures ok
    {
      ok := true;
    }
  }

  /** Counting from scratch with `incr` yields 1, then 2, and leaves `"2"` stored. */
  method IncrFromAbsent(redis: MockRedis, key: string) returns (first: Result<int, IncrError>, second: Result<int, IncrError>)
    requires key !in redis.cache
    modifies redis
    ensures first == Ok(1) && second == Ok(2)
    ensures redis.cache == old(redis.cache)[key := Text("2")]
  {
    first := redis.Incr(key);
    CounterReadsBack(1);
    second := redis.Incr(key);
  }

  class MockRedisCache {
    /** `self.redis_client`, a `MockRedis(decode_responses=False)`. */
    const client: MockRedis

    constructor ()
      ensures fresh(client) && client.cache == map[]
    {
      client := new MockRedis();
    }

    /** `get(key)`: the stored object, or `None`. */
    method Get(key: string) returns (v: Value)
      ensures v == Lookup(client.cache, key)
    {
      v := client.Get(key);
    }

    /** `set(key, value, expire)`: stores the value; `expire` reaches the client as `ex` and is ignored there. */
    method Set(key: string, value: Value, expire: Option<int>)
      modifies client
      ensures client.cache == old(client.cache)[key := value]
    {
      var _ := client.Set(key, value, expire);
    }

    /** `delete(key)`. */
    method Delete(key: string)
      modifies client
      ensures client.cache == old(client.cache) - {key}
    {
      var _ := client.Delete([key]);
      assert Listed([key]) == {key};
    }

    /** `clear_pattern(pattern)`: lists the matching keys and deletes them when there are any. */
    method ClearPattern(pattern: string)
      modifies client
      ensures client.cache == old(client.cache) - MatchingKeys(old(client.cache), pattern)
    {
      var keys := client.Keys(pattern);
      if |keys| > 0 {
        var _ := client.Delete(keys);
      }
    }

    /** `clear_user_cache(user_id)`: removes all and only the keys beginning with `user:{user_id}:`. */
    method ClearUserCache(userId: int)
      modifies client
      ensures forall k :: k in client.cache <==> k in old(client.cache) && !(OwnerPrefix(UserId(userId)) <= k)
      ensures forall k :: k in client.cache ==> client.cache[k] == old(client.cache)[k]
    {
      UserKeysByPrefix(client.cache, userId);
      ClearPattern(UserPattern(userId));
    }
  }

  /** The wrapper `no_cache_response(expire)` installs: it awaits the handler and returns its response, or lets its exception through. */
  method NoCacheResponse(expire: Option<int>, handler: RedisCacheService.Handler, req: Request)
    returns (r: Result<Value, RedisCacheService.HandlerError>)
    modifies handler
    ensures r == handler.respond(req) && handler.calls == old(handler.calls) + 1
  {
    r := handler.Invoke(req);
  }
}
