/**
 * The production cache service (src/services/redis_cache.py): the `RedisCache`
 * client wrapper and the `cache_response` read-through wrapper. The Redis
 * server's state is modelled as the map of stored values plus the expiry each
 * key was last given; expiry itself (time passing) is not modelled.
 */
module RedisCacheService {
  import opened Wrappers
  import opened Store
  import opened CacheKeys
  import Glob

  /** `settings.REDIS_EXPIRE`, the default time-to-live in seconds. */
  const REDIS_EXPIRE: int := 1800

  /** `expire or settings.REDIS_EXPIRE`: a falsy expiry (`None` or `0`) falls back to the default. */
  function EffectiveTtl(expire: Option<int>): (ttl: int)
    ensures expire == None || expire == Some(0) ==> ttl == REDIS_EXPIRE
    ensures expire.Some? && expire.value != 0 ==> ttl == expire.value
    ensures ttl != 0
  {
    if expire.Some? && expire.value != 0 then expire.value else REDIS_EXPIRE
  }

  class RedisCache {
    /** The values held by the Redis server, by key. */
    var store: map<string, Value>
    /** The expiry, in seconds, each stored key was last set with. */
    var ttl: map<string, int>

    /** Every stored key carries an expiry, since `set` always passes one. */
    ghost predicate Valid()
      reads this
    {
      store.Keys == ttl.Keys
    }

    constructor ()
      ensures Valid() && store == map[] && ttl == map[]
    {
      store, ttl := map[], map[];
    }

    /** `get(key)`: the stored object, or `None` for an absent key. */
    method Get(key: string) returns (v: Value)
      ensures v == Lookup(store, key)
    {
      v := if key in store then store[key] else Null;
    }

    /** `set(key, value, expire)`: stores the value with the effective expiry. */
    method Set(key: string, value: Value, expire: Option<int>)
      requires Valid()
      modifies this
      ensures Valid()
      ensures store == old(store)[key := value]
      ensures ttl == old(ttl)[key := EffectiveTtl(expire)]
    {
      var ex := EffectiveTtl(expire);
      store := store[key := value];
      ttl := ttl[key := ex];
    }

    /** `delete(key)`: removes the key if present. */
    method Delete(key: string)
      requires Valid()
      modifies this
      ensures Valid()
      ensures store == old(store) - {key} && ttl == old(ttl) - {key}
    {
      store := store - {key};
      ttl := ttl - {key};
    }

    /**
     * `clear_user_cache(user_id)`: lists the keys matching `user:{user_id}:*`
     * and, when there are any, deletes them all.
     */
    method ClearUserCache(userId: int)
      requires Valid()
      modifies this
      ensures Valid()
      ensures store == old(store) - MatchingKeys(old(store), UserPattern(userId))
      ensures ttl == old(ttl) - MatchingKeys(old(store), UserPattern(userId))
      ensures forall k :: k in store <==> k in old(store) && !(OwnerPrefix(UserId(userId)) <= k)
      ensures forall k :: k in store ==> store[k] == old(store)[k]
    {
      var keys := MatchingKeys(store, UserPattern(userId));
      UserKeysByPrefix(store, userId);
      if keys != {} {
        store := store - keys;
        ttl := ttl - keys;
      }
    }
  }

  /** An exception a route handler raises, such as `HTTPException(404, "Contact not found")`. */
  datatype HandlerError = HttpException(status: int, detail: string)

  /**
   * A route handler that the wrapper decorates. Its outcome, a response or a
   * raised exception, is a fixed function of the request; `calls` counts how
   * often it has been awaited.
   */
  class Handler {
    const respond: Request -> Result<Value, HandlerError>
    var calls: nat

    constructor (respond: Request -> Result<Value, HandlerError>)
      ensures this.respond == respond && calls == 0
    {
      this.respond := respond;
      calls := 0;
    }

    method Invoke(req: Request) returns (r: Result<Value, HandlerError>)
      modifies this
      ensures r == respond(req) && calls == old(calls) + 1
    {
      r := respond(req);
      calls := calls + 1;
    }
  }

  /**
   * The wrapper `cache_response(expire)` installs around a handler. A stored
   * object other than `None` is served without calling the handler and without
   * writing; otherwise the handler runs once. Its response is stored under the
   * request's key (a `None` response included) and returned; an exception it
   * raises reaches the caller before anything is stored.
   */
  method CacheResponse(cache: RedisCache, expire: Option<int>, handler: Handler, req: Request)
    returns (r: Result<Value, HandlerError>)
    requires cache.Valid()
    modifies cache, handler
    ensures cache.Valid()
    ensures Lookup(old(cache.store), CacheKey(req)) != Null ==>
      && r == Ok(Lookup(old(cache.store), CacheKey(req)))
      && handler.calls == old(handler.calls)
      && cache.store == old(cache.store) && cache.ttl == old(cache.ttl)
    ensures Lookup(old(cache.store), CacheKey(req)) == Null ==>
      r == handler.respond(req) && handler.calls == old(handler.calls) + 1
    ensures Lookup(old(cache.store), CacheKey(req)) == Null && r.Ok? ==>
      && cache.store == old(cache.store)[CacheKey(req) := r.value]
      && cache.ttl == old(cache.ttl)[CacheKey(req) := EffectiveTtl(expire)]
    ensures Lookup(old(cache.store), CacheKey(req)) == Null && r.Err? ==>
      cache.store == old(cache.store) && cache.ttl == old(cache.ttl)
  {
    var key := CacheKey(req);
    var cached := cache.Get(key);
    if cached != Null {
      return Ok(cached);
    }
    r := handler.Invoke(req);
    if r.Err? {
      return r;
    }
    cache.Set(key, r.value, expire);
  }

  /**
   * The read-through cycle for one user's request: a cold key misses and calls
   * the handler, the repeat is a hit, invalidating the user forces a fresh call,
   * and another owner's entry survives that invalidation untouched.
   */
  method ReadThroughCycle(cache: RedisCache, handler: Handler, req: Request, other: Request, userId: int)
    returns (first: Result<Value, HandlerError>, second: Result<Value, HandlerError>, third: Result<Value, HandlerError>)
    requires cache.Valid()
    requires OwnerOf(req.user) == UserId(userId) && OwnerOf(other.user) != UserId(userId)
    requires CacheKey(req) !in cache.store && CacheKey(other) in cache.store
    requires handler.respond(req).Ok? && handler.respond(req).value != Null
    modifies cache, handler
    ensures first == second == third == handler.respond(req)
    ensures handler.calls == old(handler.calls) + 2
    ensures CacheKey(other) in cache.store && cache.store[CacheKey(other)] == old(cache.store)[CacheKey(other)]
  {
    OwnerIsolation(req, other);
    first := CacheResponse(cache, None, handler, req);
    second := CacheResponse(cache, None, handler, req);
    PrefixIdentifiesOwner(req, UserId(userId));
    PrefixIdentifiesOwner(other, UserId(userId));
    cache.ClearUserCache(userId);
    third := CacheResponse(cache, None, handler, req);
  }

  /** A `None` response is stored but reads back as a miss, so the handler runs on every call. */
  method NullResponseNeverHits(cache: RedisCache, handler: Handler, req: Request)
    returns (first: Result<Value, HandlerError>, second: Result<Value, HandlerError>)
    requires cache.Valid()
    requires Lookup(cache.store, CacheKey(req)) == Null && handler.respond(req) == Ok(Null)
    modifies cache, handler
    ensures first == Ok(Null) && second == Ok(Null)
    ensures handler.calls == old(handler.calls) + 2
    ensures CacheKey(req) in cache.store
  {
    first := CacheResponse(cache, None, handler, req);
    second := CacheResponse(cache, None, handler, req);
  }

  /** An exception such as a 404 is never cached: each request runs the handler again and the store stays as it was. */
  method ErrorsNeverCached(cache: RedisCache, handler: Handler, req: Request)
    returns (first: Result<Value, HandlerError>, second: Result<Value, HandlerError>)
    requires cache.Valid()
    requires Lookup(cache.store, CacheKey(req)) == Null && handler.respond(req).Err?
    modifies cache, handler
    ensures first == second == handler.respond(req)
    ensures handler.calls == old(handler.calls) + 2
    ensures cache.store == old(cache.store) && cache.ttl == old(cache.ttl)
  {
    first := CacheResponse(cache, None, handler, req);
    second := CacheResponse(cache, None, handler, req);
  }
}
