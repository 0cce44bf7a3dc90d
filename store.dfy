/**
 * The contents of a Redis-like key/value store and the queries both cache
 * classes run on it. Values are serialised with `pickle` on the way in and out;
 * this model treats that round trip as the identity, so a stored value is the
 * object itself.
 */
module Store {
  import opened CacheKeys
  import Glob

  /** `None`, an `int`, a `str`, or a list of such objects (a response payload). */
  datatype Value = Null | Num(n: int) | Text(s: string) | List(items: seq<Value>)

  /** What a read of `key` yields: the stored object, or `None` when the key is absent. */
  function Lookup(store: map<string, Value>, key: string): (v: Value)
    ensures key !in store ==> v == Null
    ensures key in store ==> v == store[key]
  {
    if key in store then store[key] else Null
  }

  /** The keys `KEYS pattern` lists. */
  function MatchingKeys(store: map<string, Value>, pattern: string): (keys: set<string>)
    ensures forall k :: k in keys <==> k in store && Glob.Match(pattern, k)
  {
    set k | k in store && Glob.Match(pattern, k)
  }

  /** The keys matching `user:{userId}:*` are exactly the stored keys that begin with `user:{userId}:`. */
  lemma UserKeysByPrefix(store: map<string, Value>, userId: int)
    ensures forall k :: k in MatchingKeys(store, UserPattern(userId))
                    <==> k in store && OwnerPrefix(UserId(userId)) <= k
  {
    forall k ensures Glob.Match(UserPattern(userId), k) <==> OwnerPrefix(UserId(userId)) <= k {
      UserPatternSelectsPrefix(userId, k);
    }
  }
}
