/**
 * The response cache's key scheme (src/services/redis_cache.py, `cache_response`):
 * a key is `user:{owner}:path:{path}`, followed by `:query:{query}` when the
 * request carries query parameters. The owner segment is the user's id, or the
 * sentinel `anonymous` when the request state holds no user or the user has no
 * `id` attribute. Invalidation (`clear_user_cache`) selects keys with the glob
 * pattern `user:{id}:*`.
 */
module CacheKeys {
  import opened Wrappers
  import Decimal
  import Glob

  /** The `id` attribute of `request.state.user`: absent, `None`, or an integer. */
  datatype IdAttr = IdMissing | IdNone | Id(n: int)

  /**
   * What the wrapper reads from a request: `request.state.user` (None when the
   * state has no user), `request.url.path`, and `request.query_params` as its
   * list of name/value pairs in request order.
   */
  datatype Request = Request(user: Option<IdAttr>, path: string, query: seq<(string, string)>)

  /** Whose entry a key is: the sentinel, a user whose id is `None`, or a user id. */
  datatype Owner = Anonymous | NoneId | UserId(id: int)

  /** `getattr(getattr(request.state, "user", None), "id", "anonymous")`. */
  function OwnerOf(user: Option<IdAttr>): (o: Owner)
    ensures o == Anonymous <==> user == None || user == Some(IdMissing)
    ensures o == NoneId <==> user == Some(IdNone)
    ensures forall n :: o == UserId(n) <==> user == Some(Id(n))
  {
    match user
    case None => Anonymous
    case Some(IdMissing) => Anonymous
    case Some(IdNone) => NoneId
    case Some(Id(n)) => UserId(n)
  }

  /** How the owner is rendered inside the f-string. */
  function OwnerSegment(o: Owner): string
  {
    match o
    case Anonymous => "anonymous"
    case NoneId => "None"
    case UserId(n) => Decimal.IntToString(n)
  }

  /** `str(request.query_params)`: `name=value` pairs joined by `&` (percent-encoding is not modelled). */
  function QueryString(query: seq<(string, string)>): (s: string)
    ensures s == [] <==> query == []
  {
    if query == [] then []
    else
      var item := query[0].0 + "=" + query[0].1;
      assert item[|query[0].0|] == '=';
      if |query| == 1 then item else item + "&" + QueryString(query[1..])
  }

  /** The prefix every key of owner `o` starts with, and that invalidation targets. */
  function OwnerPrefix(o: Owner): string
  {
    "user:" + OwnerSegment(o) + ":"
  }

  /** The key `cache_response` computes for a request. */
  function CacheKey(req: Request): (key: string)
    ensures OwnerPrefix(OwnerOf(req.user)) <= key
    ensures req.query == [] ==> key == OwnerPrefix(OwnerOf(req.user)) + "path:" + req.path
    ensures req.query != [] ==>
      key == OwnerPrefix(OwnerOf(req.user)) + "path:" + req.path + ":query:" + QueryString(req.query)
      && QueryString(req.query) != []
  {
    var base := "user:" + OwnerSegment(OwnerOf(req.user)) + ":path:" + req.path;
    var key := if req.query != [] then base + ":query:" + QueryString(req.query) else base;
    assert OwnerPrefix(OwnerOf(req.user)) + "path:" + req.path == base;
    assert key[..|OwnerPrefix(OwnerOf(req.user))|] == OwnerPrefix(OwnerOf(req.user));
    key
  }

  /** The glob pattern `clear_user_cache(user_id)` hands to `KEYS`. */
  function UserPattern(userId: int): (pattern: string)
    ensures pattern == OwnerPrefix(UserId(userId)) + "*"
  {
    "user:" + Decimal.IntToString(userId) + ":*"
  }

  /** No owner segment contains a colon or a glob metacharacter. */
  lemma SegmentIsPlain(o: Owner, i: nat)
    requires i < |OwnerSegment(o)|
    ensures OwnerSegment(o)[i] != ':' && !Glob.IsMeta(OwnerSegment(o)[i])
  {
    if o.UserId? {
      Decimal.IntToStringChars(o.id, i);
    }
  }

  /** Distinct owners render to distinct segments. */
  lemma SegmentInjective(a: Owner, b: Owner)
    requires OwnerSegment(a) == OwnerSegment(b)
    ensures a == b
  {
    match a
    case UserId(m) =>
      if b.UserId? {
        Decimal.IntToStringInjective(m, b.id);
      } else {
        Decimal.IntToStringChars(m, 0);
      }
    case _ =>
      if b.UserId? {
        Decimal.IntToStringChars(b.id, 0);
      }
  }

  /** The position of the first colon in `s` (or its length when there is none). */
  function ColonIndex(s: string): nat
  {
    if s == [] || s[0] == ':' then 0 else 1 + ColonIndex(s[1..])
  }

  /** When a colon-free `a` followed by a colon begins `s`, the first colon of `s` is at `|a|`. */
  lemma {:induction false} ColonIndexAfter(a: string, s: string)
    requires forall i :: 0 <= i < |a| ==> a[i] != ':'
    requires a + ":" <= s
    ensures ColonIndex(s) == |a|
  {
    if a != [] {
      assert s[0] == a[0];
      assert a[1..] + ":" <= s[1..] by {
        assert (a + ":")[1..] == a[1..] + ":";
      }
      ColonIndexAfter(a[1..], s[1..]);
    }
  }

  /** Two colon-free strings that both begin `s` when followed by a colon are equal. */
  lemma ColonDelimited(a: string, b: string, s: string)
    requires forall i :: 0 <= i < |a| ==> a[i] != ':'
    requires forall i :: 0 <= i < |b| ==> b[i] != ':'
    requires a + ":" <= s && b + ":" <= s
    ensures a == b
  {
    ColonIndexAfter(a, s);
    ColonIndexAfter(b, s);
    assert a == (a + ":")[..|a|] == s[..|a|] == (b + ":")[..|b|] == b;
  }

  lemma StripPrefix(p: string, x: string, s: string)
    requires p + x <= s
    ensures x <= s[|p|..]
  {
    assert s[|p|..][..|x|] == (p + x)[|p|..];
  }

  /** A key begins with an owner's prefix exactly when it was built for that owner. */
  lemma {:induction false} PrefixIdentifiesOwner(req: Request, o: Owner)
    ensures OwnerPrefix(o) <= CacheKey(req) <==> OwnerOf(req.user) == o
  {
    var key := CacheKey(req);
    var own := OwnerOf(req.user);
    if OwnerPrefix(o) <= key {
      var a, b := OwnerSegment(own), OwnerSegment(o);
      forall i | 0 <= i < |a| ensures a[i] != ':' { SegmentIsPlain(own, i); }
      forall i | 0 <= i < |b| ensures b[i] != ':' { SegmentIsPlain(o, i); }
      assert OwnerPrefix(own) == "user:" + (a + ":");
      assert OwnerPrefix(o) == "user:" + (b + ":");
      StripPrefix("user:", a + ":", key);
      StripPrefix("user:", b + ":", key);
      ColonDelimited(a, b, key[5..]);
      SegmentInjective(own, o);
    }
  }

  /** Keys of different owners never coincide, whatever their paths and queries. */
  lemma OwnerIsolation(r1: Request, r2: Request)
    requires OwnerOf(r1.user) != OwnerOf(r2.user)
    ensures CacheKey(r1) != CacheKey(r2)
  {
    PrefixIdentifiesOwner(r2, OwnerOf(r1.user));
  }

  /** `user:{u}:*` selects exactly the strings that begin with `user:{u}:`. */
  lemma UserPatternSelectsPrefix(userId: int, s: string)
    ensures Glob.Match(UserPattern(userId), s) <==> OwnerPrefix(UserId(userId)) <= s
  {
    var prefix := OwnerPrefix(UserId(userId));
    forall i | 0 <= i < |prefix| ensures !Glob.IsMeta(prefix[i]) {
      if 5 <= i < |prefix| - 1 {
        assert prefix[i] == OwnerSegment(UserId(userId))[i - 5];
        SegmentIsPlain(UserId(userId), i - 5);
      }
    }
    Glob.PrefixPattern(prefix, s);
  }

  /** `clear_user_cache(u)`'s pattern matches a request's key if and only if the key's owner is user u. */
  lemma ClearPatternSelectsOwner(userId: int, req: Request)
    ensures Glob.Match(UserPattern(userId), CacheKey(req)) <==> OwnerOf(req.user) == UserId(userId)
  {
    UserPatternSelectsPrefix(userId, CacheKey(req));
    PrefixIdentifiesOwner(req, UserId(userId));
  }

  /**
   * The key does not separate the path from the query unambiguously: a path that
   * itself contains `:query:` yields the same key as a shorter path with a query.
   */
  lemma PathQueryCollision()
    ensures CacheKey(Request(None, "/contacts:query:a=b", []))
         == CacheKey(Request(None, "/contacts", [("a", "b")]))
  {
  }

  /** The query keeps request order, so the same parameters sent in another order give another key. */
  lemma QueryOrderMatters()
    ensures CacheKey(Request(None, "/contacts", [("a", "1"), ("b", "2")]))
         != CacheKey(Request(None, "/contacts", [("b", "2"), ("a", "1")]))
  {
    var k1 := CacheKey(Request(None, "/contacts", [("a", "1"), ("b", "2")]));
    var k2 := CacheKey(Request(None, "/contacts", [("b", "2"), ("a", "1")]));
    assert k1[|"user:anonymous:path:/contacts:query:"|] == 'a';
    assert k2[|"user:anonymous:path:/contacts:query:"|] == 'b';
  }
}
