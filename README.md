# Contacts backend: response cache, repositories and profile writes

This project models the stateful core of a contact-management web backend:

- **The read-through response cache.** `RedisCache` is a key/value store with a
  time-to-live per key. `cache_response` builds a key of the form
  `user:{owner}:path:{path}[:query:{query}]`, answers from the store on a hit,
  and on a miss calls the handler once and stores its answer. `clear_user_cache`
  drops every key that matches `user:{id}:*`.
- **The test doubles that replace it.** `MockRedis` is a dictionary.
  `MockRedisCache` is the cache service built on top of it. `no_cache_response`
  is a pass-through decorator.
- **The contact and user tables and their repositories.** Every contact query
  and write is scoped to the calling user. Users are looked up by id, username
  or email, and changed one field at a time.
- **The profile-write handlers of the users API.** These are the avatar update,
  the password-reset request, the reset-token check and the password reset.
- **The request-body validators.**

The model uses these representations:

- A table is a sequence of rows in insertion order. Ids are assigned by a
  counter.
- The cache is a map from keys to values plus a map from keys to TTLs.
- Each repository and store is a `class` whose methods change those fields.
  Each method states its whole new state and its result.
- Queries, key construction and validation are functions. Lemmas about them
  state what the system promises:
  - keys of different owners never coincide;
  - `user:{id}:*` selects exactly one owner's keys;
  - a lookup by a unique column identifies one row;
  - another user's contact is invisible;
  - the stored counter reads back;
  - and the other properties listed in the table below.

Files:

- `wrappers.dfy`: `Option` and `Result`.
- `decimal.dfy`: Python's `str(int)` and `int(str)`.
- `glob.dfy`: the `fnmatch` subset that the key patterns use.
- `cache_keys.dfy`: the key scheme.
- `store.dfy`: stored values and matching keys.
- `redis_cache.dfy`: `RedisCache` and `cache_response`.
- `mock_redis.dfy`: the test doubles.
- `schemas.dfy`: the validators.
- `contacts_repository.dfy` and `users_repository.dfy`: the two tables.
- `users_api.dfy`: the handlers.

Two properties of the key scheme and the store are worth stating plainly:

- **Keys are not unique per request.** The key appends `str(request.query_params)`
  as the request sent it, and no separator distinguishes the end of the path
  from the start of the query. A path that contains `:query:` therefore gives
  the same key as a shorter path with a query (`CacheKeys.PathQueryCollision`).
  The same parameters in a different order give different keys
  (`CacheKeys.QueryOrderMatters`).
- **Store errors propagate.** The wrapper catches nothing around its store
  calls, so an unreachable Redis server, or a command Redis rejects such as a negative
  expiry, fails the request; the model's store
  cannot fail, so it has no such path.

## Model

| member | source | states |
|---|---|---|
| Decimal.IntToString | tests/conftest.py:85 | renders an integer as an optional `-` followed by a non-empty run of decimal digits |
| Decimal.ParseInt | tests/conftest.py:84 | `int(s)` succeeds exactly on an optional sign followed by at least one digit; an unsigned or `+`-signed run of digits gives the number the digits denote, leading zeros included, and a `-`-signed one its negation |
| Decimal.NatRoundTrip | tests/conftest.py:84-85 | parsing the digits of a natural number gives the number back |
| Decimal.IntRoundTrip | tests/conftest.py:84-85 | `int(str(n)) == n` for every integer, negative ones included |
| Decimal.IntToStringInjective | src/services/redis_cache.py:101 | distinct integers render to distinct strings |
| Decimal.IntToStringChars | src/services/redis_cache.py:101 | a rendered integer contains only digits and `-`, so no `:` and no glob metacharacter |
| Glob.StarMatchesAll | tests/conftest.py:81 | the pattern `*` matches every string |
| Glob.PrefixPattern | tests/conftest.py:81 | a literal prefix followed by `*` matches exactly the strings that start with that prefix |
| CacheKeys.OwnerOf | src/services/redis_cache.py:97-98 | the owner is the sentinel `anonymous` when the request has no user or the user has no `id`, `None` when the id is `None`, and the id otherwise |
| CacheKeys.QueryString | src/services/redis_cache.py:102-103 | the query string is empty exactly when the request has no query parameters |
| CacheKeys.CacheKey | src/services/redis_cache.py:100-103 | the key is `user:{owner}:path:{path}`, with `:query:{q}` appended exactly when the query is non-empty |
| CacheKeys.UserPattern | src/services/redis_cache.py:72 | the invalidation pattern is the user's key prefix followed by `*` |
| CacheKeys.SegmentIsPlain | src/services/redis_cache.py:97-101 | no owner segment contains `:` or a glob metacharacter |
| CacheKeys.SegmentInjective | src/services/redis_cache.py:98-101 | distinct owners render to distinct segments, so the sentinels never collide with an id |
| CacheKeys.PrefixIdentifiesOwner | src/services/redis_cache.py:101 | a key starts with `user:{o}:` if and only if it was built for owner `o` |
| CacheKeys.OwnerIsolation | src/services/redis_cache.py:101-103 | requests of different owners never share a key |
| CacheKeys.UserPatternSelectsPrefix | src/services/redis_cache.py:72 | `user:{u}:*` matches exactly the strings that start with `user:{u}:` |
| CacheKeys.ClearPatternSelectsOwner | src/services/redis_cache.py:72-75 | the invalidation pattern of user `u` matches a request's key if and only if the request is user `u`'s |
| CacheKeys.PathQueryCollision | src/services/redis_cache.py:101-103 | a path containing `:query:` and no query gives the same key as the shorter path with a query |
| CacheKeys.QueryOrderMatters | src/services/redis_cache.py:102-103 | the same parameters in another order give another key |
| Store.Lookup | src/services/redis_cache.py:39-42 | reading gives `None` for an absent key and the stored object otherwise |
| Store.MatchingKeys | tests/conftest.py:78-81 | exactly the stored keys that match the pattern |
| Store.UserKeysByPrefix | src/services/redis_cache.py:72-73 | the keys that match `user:{u}:*` are exactly the stored keys with prefix `user:{u}:` |
| RedisCacheService.EffectiveTtl | src/services/redis_cache.py:53 | `expire or REDIS_EXPIRE`: both `None` and `0` mean 1800 seconds, and any other value is kept |
| RedisCacheService.RedisCache.constructor | src/services/redis_cache.py:19-27 | the store starts empty |
| RedisCacheService.RedisCache.Get | src/services/redis_cache.py:39-42 | returns the stored value, or `None` for an absent key |
| RedisCacheService.RedisCache.Set | src/services/redis_cache.py:53-54 | overwrites the key's value and records its effective TTL; nothing else changes |
| RedisCacheService.RedisCache.Delete | src/services/redis_cache.py:63 | removes the key and its TTL only |
| RedisCacheService.RedisCache.ClearUserCache | src/services/redis_cache.py:72-75 | removes every key with prefix `user:{u}:` and keeps every other key with its value |
| RedisCacheService.Handler.Invoke | src/services/redis_cache.py:111 | awaiting the wrapped handler gives its response to the request or the exception it raises; each call is counted |
| RedisCacheService.CacheResponse | src/services/redis_cache.py:95-115 | on a hit, returns the stored value without calling the handler or writing; on a miss, calls the handler once and gives its outcome: a response is stored under the request's key with the effective TTL and returned, an exception is passed on with the store and TTLs unchanged |
| RedisCacheService.ReadThroughCycle | src/services/redis_cache.py:106-115 | a miss, then a hit, then the owner's invalidation, then a miss: the handler runs twice and another owner's entry survives |
| RedisCacheService.NullResponseNeverHits | src/services/redis_cache.py:106-115 | a `None` answer is stored but never served, so the handler runs on every call |
| RedisCacheService.ErrorsNeverCached | src/services/redis_cache.py:110-114 | an exception the handler raises is never stored, so every request runs the handler again and the store is left as it was |
| MockStore.CounterValue | tests/conftest.py:84 | `int(x)` of an integer is itself; of a string, it succeeds exactly on an optional sign and digits and gives `int(s)`, and otherwise raises `ValueError`; of `None` or a list, it raises `TypeError` |
| MockStore.CounterReadsBack | tests/conftest.py:84-85 | a counter stored as `str(n)` reads back as `n` |
| MockStore.MockRedis.constructor | tests/conftest.py:47-49 | the dictionary starts empty |
| MockStore.MockRedis.Get | tests/conftest.py:51-57 | `None` for an absent key, otherwise the stored object |
| MockStore.MockRedis.Set | tests/conftest.py:59-68 | overwrites the key, ignores `ex`, returns `True` |
| MockStore.MockRedis.Delete | tests/conftest.py:70-76 | removes exactly the listed keys that were present and returns how many distinct keys that was; a repeated key counts once |
| MockStore.MockRedis.Keys | tests/conftest.py:78-81 | lists exactly the stored keys that match the pattern, each once |
| MockStore.MockRedis.Incr | tests/conftest.py:83-86 | reads the key as an integer, 0 when absent, and stores and returns its successor as a decimal string; a stored value that does not convert raises and nothing changes |
| MockStore.MockRedis.Expire | tests/conftest.py:88-89 | changes nothing and returns `True` |
| MockStore.IncrFromAbsent | tests/conftest.py:83-86 | two increments of an absent key return 1 and then 2, and leave `"2"` stored |
| MockStore.MockRedisCache.constructor | tests/conftest.py:94-95 | the service owns a fresh, empty client |
| MockStore.MockRedisCache.Get | tests/conftest.py:97-104 | the stored object, or `None` |
| MockStore.MockRedisCache.Set | tests/conftest.py:106-107 | stores the value under the key |
| MockStore.MockRedisCache.Delete | tests/conftest.py:109-110 | removes that key only |
| MockStore.MockRedisCache.ClearPattern | tests/conftest.py:112-115 | removes exactly the keys that match the pattern |
| MockStore.MockRedisCache.ClearUserCache | tests/conftest.py:117-118 | removes all and only the keys with prefix `user:{u}:`; the values of the rest are unchanged |
| MockStore.NoCacheResponse | tests/conftest.py:121-127 | the wrapped call gives exactly the handler's outcome, response or exception, calling it once |
| Schemas.RequiredText | src/schemas.py:23-26 | a required string field is accepted exactly when it is sent, it is not `null`, and it is within its limit |
| Schemas.OptionalText | src/schemas.py:28 | an optional string field is rejected only when it is sent with a value longer than its limit |
| Schemas.OrNone | src/schemas.py:27-28 | an optional field holds the sent value, and `None` otherwise |
| Schemas.ParseContactCreate | src/schemas.py:10-38 | accepted exactly when first name ≤ 50, last name ≤ 50, email ≤ 100 and phone ≤ 20 characters are all sent and `additional_info`, if sent, is ≤ 255; the accepted model holds the sent values, with `None` for an omitted birthdate or info |
| Schemas.ParseContactUpdate | src/schemas.py:41-52 | every body is accepted as sent, the empty one included, with no length limits |
| Schemas.ParseBirthdateUpdate | src/schemas.py:55-63 | accepted exactly when a birthdate is sent, and it then holds that date |
| Schemas.RequiredString | src/schemas.py:108-110 | a required unbounded string is accepted exactly when it is sent and is not `null` |
| Schemas.ParseUserCreate | src/schemas.py:98-110 | accepted exactly when username, email and password are all sent, and it then holds them |
| ContactsRepository.Lower | src/repository/contacts.py:62-66 | `ilike` folds ASCII capitals character by character and keeps the length |
| ContactsRepository.Where | src/repository/contacts.py:60-66 | a query keeps exactly the rows that satisfy its criterion, and never more rows than the table has |
| ContactsRepository.WhereKeepsOrder | src/repository/contacts.py:60-66 | a query keeps table order: over rows in increasing id order its result is in increasing id order too |
| ContactsRepository.Page | src/repository/contacts.py:67 | offset and limit give at most `limit` elements, the ones that follow the first `skip` |
| ContactsRepository.GetContacts | src/repository/contacts.py:35-69 | only the caller's contacts that pass every truthy filter, at most `limit` of them, from the `skip`-th match on |
| ContactsRepository.DefaultPageIsFirstMatches | src/repository/contacts.py:41-42 | with the defaults `skip = 0` and `limit = 100` the listing is the first hundred matches, or all of them when fewer match |
| ContactsRepository.NoFiltersListsAllOwned | src/repository/contacts.py:61-66 | whenever every filter is `None` or empty, the listing is exactly the caller's contacts, the same sequence as with no filters at all |
| ContactsRepository.GetBirthdaysNextWeek | src/repository/contacts.py:176-182 | exactly the caller's contacts whose birthdate lies between tomorrow and seven days from today |
| ContactsRepository.PastBirthdatesNotListed | src/repository/contacts.py:177-178 | the window compares whole dates with the year, so a birthdate on or before today is never listed |
| ContactsRepository.FindIndex | src/repository/contacts.py:85-89 | the position of a row with both the id and the owner, or none when no row has both |
| ContactsRepository.GetContactById | src/repository/contacts.py:85-89 | returns a contact exactly when one has that id and that owner |
| ContactsRepository.ForeignContactHidden | src/repository/contacts.py:85-89 | another user's contact is never returned by its id |
| ContactsRepository.OwnContactFound | src/repository/contacts.py:85-89 | the owner always gets their contact back by its id |
| ContactsRepository.SetFields | src/repository/contacts.py:131 | `model_dump(exclude_unset=True)` lists exactly the fields that were sent, explicit `null`s included |
| ContactsRepository.SetAttr | src/repository/contacts.py:132 | `setattr` assigns one attribute and keeps the others |
| ContactsRepository.Patched | src/repository/contacts.py:130-132 | after an update, every sent field holds the sent value and every other field keeps its value |
| ContactsRepository.ToContact | src/database/models.py:40-43 | a draft with all four required columns filled is a row |
| ContactsRepository.EmptyUpdateKeepsContact | src/repository/contacts.py:130-135 | an update that sends nothing commits and leaves the contact unchanged |
| ContactsRepository.ApplyUpdate | src/repository/contacts.py:131-132 | the `setattr` loop produces exactly the patched contact |
| ContactsRepository.ContactRepository.constructor | src/repository/contacts.py:25-33 | the table starts empty |
| ContactsRepository.ContactRepository.Insert | src/repository/contacts.py:103-107 | adds one row owned by the user, with a fresh id above all others, and advances the id counter by one; a repeated email or phone fails and changes neither the rows nor the counter |
| ContactsRepository.ContactRepository.CreateContactAsWritten | src/repository/contacts.py:103-108 | as written, the call always fails: the row is committed, the id counter advances, and `TypeError` follows |
| ContactsRepository.ContactRepository.CreateContact | src/repository/contacts.py:103-108 | the intended result: the committed contact with the body's fields and the caller as owner, readable by its id; the id counter advances by one |
| ContactsRepository.CreateContactAsWrittenFails | src/repository/contacts.py:108 | on an empty table a well-formed contact is stored, and the call still raises `TypeError` |
| ContactsRepository.ContactRepository.UpdateContact | src/repository/contacts.py:125-136 | an unowned or missing id gives `None`, with no commit and no change; otherwise the patched contact replaces the row, or a null required column or a repeated email or phone fails and changes nothing |
| ContactsRepository.ContactRepository.UpdateContactBirthdate | src/repository/contacts.py:153-163 | only the birthdate of the owned contact changes, and the contact is returned; otherwise `None` and no change |
| ContactsRepository.ContactRepository.DeleteContact | src/repository/contacts.py:196-205 | removes exactly the owned contact and returns it; otherwise `None` and the table is unchanged |
| UsersRepository.Find | src/repository/users.py:26-66 | the position of a row whose column equals the argument, or none when no row matches |
| UsersRepository.Lookup | src/repository/users.py:26-66 | a user is returned exactly when one has the value, and it has that value |
| UsersRepository.GetUserById | src/repository/users.py:36-38 | the user with that id, or `None` when there is none |
| UsersRepository.GetUserByUsername | src/repository/users.py:50-52 | the user with that username, or `None` when there is none |
| UsersRepository.GetUserByEmail | src/repository/users.py:64-66 | the user with that email, or `None` when there is none |
| UsersRepository.LookupIdentifies | src/database/models.py:63-65 | with unique columns, each lookup returns the one user that has the value |
| UsersRepository.SameKeysStayUnique | src/database/models.py:63-65 | a write that keeps id, username and email keeps them unique |
| UsersRepository.OthersUnchanged | src/repository/users.py:96-132 | a single-field write keeps every other user, and each stays findable by email |
| UsersRepository.UserRepository.constructor | src/repository/users.py:17-24 | the table starts empty |
| UsersRepository.UserRepository.CreateUser | src/repository/users.py:79-87 | adds one unconfirmed user whose stored password is the body's password verbatim and whose avatar is the argument; the id counter advances by one; a taken username or email fails and changes neither the rows nor the counter |
| UsersRepository.UserRepository.ConfirmedEmail | src/repository/users.py:96-98 | sets `confirmed` on that user only; a missing user raises and nothing changes |
| UsersRepository.UserRepository.UpdateAvatarUrl | src/repository/users.py:111-115 | sets only that user's avatar and returns the user; a missing user raises |
| UsersRepository.UserRepository.ChangePassword | src/repository/users.py:128-132 | stores the new password unhashed on that user only and returns the user; a missing user raises |
| UsersApi.EmailFromToken | src/services/auth.py:148-158 | a token that does not decode gives 422; one without a subject raises `KeyError`; otherwise the subject email |
| UsersApi.BackgroundTasks.AddTask | src/api/users.py:118-123 | queues one task after those already queued |
| UsersApi.ConfirmedUserIff | src/api/users.py:115-117 | with unique emails, the handlers' guard holds exactly when a confirmed user has the email |
| UsersApi.UpdateAvatarUser | src/api/users.py:79-89 | sets the caller's avatar to the uploaded URL, then removes every cache key with prefix `user:{caller.id}:` and no other, and returns the updated user |
| UsersApi.RequestResetPassword | src/api/users.py:114-129 | queues exactly one reset email, to that user, if and only if the user exists and is confirmed; otherwise 404 and nothing is queued |
| UsersApi.VerifyResetToken | src/api/users.py:150-160 | succeeds if and only if the token's subject is a confirmed user's email; a decoded token with no such user gives 400; nothing changes |
| UsersApi.VerifyAcceptsConfirmedSubject | src/api/users.py:150-160 | with unique emails, a token is accepted exactly when its subject is a confirmed user's email |
| UsersApi.ResetPassword | src/api/users.py:181-198 | for a confirmed user, stores the new password and removes that user's cached keys, and the user then reads back with the new password; any other token changes neither the table nor the cache |

## Left out

- Fail-open on cache outage: the code does not implement it. Store errors are not modelled, because the store here cannot fail.
- RedisCacheService.RedisCache.Set: a negative `expire` is kept by `expire or REDIS_EXPIRE`, and Redis answers `SET … EX` with a negative time by an "invalid expire time" error, so src/services/redis_cache.py:54 raises and stores nothing. The model stores the value with the negative TTL instead, because store errors are not modelled.
- TTL expiry over time: the model records each key's TTL but never expires a key. `MockRedis` ignores `ex` altogether.
- `pickle.dumps`/`pickle.loads` are treated as identity, so `decode_responses` and the byte/pickle juggling in `MockRedis` and `MockRedisCache` have no effect.
- Glob.Match: only literal characters, `*` and `?` are modelled; `fnmatch` bracket classes, escapes and case normalisation are not, because every pattern the code builds is a literal prefix plus `*`.
- ContactsRepository.ILikeContains: SQL `LIKE` metacharacters (`%`, `_`) inside a filter are read literally, and only ASCII letters are case-folded.
- ContactsRepository.GetContacts: `skip` and `limit` are natural numbers; what the database does with negative values depends on the engine.
- Decimal.ParseInt: Python's `int()` also accepts surrounding whitespace, underscores and non-ASCII digits; these forms are not modelled.
- Dates are day numbers. The time of day of a stored `datetime` and the `datetime.now()` clock are left out; `today` is a parameter.
- Result order and percent-encoding: results keep table order (the SQL queries give no `ORDER BY`). MockStore.MockRedis.Keys: the model leaves the order of the listed keys unspecified, while the dictionary lists them in insertion order. Query values are not percent-encoded.
- Cache wiring: no route shown applies `cache_response`; the `me` endpoint is undecorated. The auth dependency never sets `request.state.user`, so at runtime every key's owner is `anonymous`. Contact writes never call `clear_user_cache`. The model states the wrapper's behaviour on its own.
- RedisCacheService.Handler: the wrapped endpoint's outcome, a response or an exception, is a fixed function of the request. It does not read the tables, so cached answers are not related to later table changes.
- Authentication, JWT encoding and decoding, bcrypt and the admin role are left out, because they are library calls. A reset token enters as its decoded result.
- Email sending, the Cloudinary upload, Gravatar and rate limiting are external services. The upload's URL and the request's base URL are inputs, and a reset email is a queued task.
- `src/services/contacts.py`, `src/services/users.py` and `src/api/contacts.py` only delegate to the repositories, or map `None` to 404, so they are not modelled separately.
- Async execution, concurrent requests and database sessions are left out: every operation runs to completion in sequence.
- The `ResetPassword` and `UserRole` models are imported but not defined in the schema and model files, so they are not modelled. The reset body is taken as a token and a new password.
- ContactsRepository.ContactRepository.UpdateContact: the column lengths `String(50)`, `String(50)`, `String(100)` and `String(20)` of first name, last name, email and phone (src/database/models.py:40-43) are not checked, because `ContactUpdate` drops the length limits and the repository writes the sent values as they are. Whether a longer value then commits depends on the engine: SQLite stores it, an engine that enforces `VARCHAR` lengths rejects it. The model commits it.
- The users table's `role` and `created_at` columns and the 255-character limits on stored strings are not modelled. Database-assigned ids come from a counter that only grows.
- ContactsRepository.Clash, UsersRepository.Taken: uniqueness is checked before the write rather than reported by the database at commit, with the same outcome: an integrity error and no change.

## Findings

| source | as written | input that shows it | evidently intended | confidence | as-written member | corrected member |
|---|---|---|---|---|---|---|
| src/repository/contacts.py:108 | `create_contact` returns `get_contact_by_id(new_contact.id)` without the required `user` argument, so the call raises `TypeError` after the row is committed | any accepted `ContactCreate` whose email and phone are new, e.g. on an empty table | the committed contact is read back for its owner and returned, as the repository's unit test expects | not executed | ContactsRepository.ContactRepository.CreateContactAsWritten | ContactsRepository.ContactRepository.CreateContact |
