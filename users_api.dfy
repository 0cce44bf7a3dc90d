/**
 * The profile-write steps of the users API (src/api/users.py). Each handler
 * is a guarded sequence of calls on the user table, the Redis cache and the
 * request's background tasks. The uploaded avatar's URL, the decoded reset
 * token and the request's base URL are inputs; issuing and checking tokens,
 * the upload itself and sending mail are not part of this model.
 */
module UsersApi {
  import opened Wrappers
  import opened CacheKeys
  import opened Store
  import opened UsersRepository
  import opened RedisCacheService

  const HTTP_400_BAD_REQUEST: int := 400
  const HTTP_404_NOT_FOUND: int := 404
  const HTTP_422_UNPROCESSABLE_ENTITY: int := 422

  const RESET_NOT_ALLOWED: string := "User not found or email not confirmed"
  const INVALID_RESET_TOKEN: string := "Invalid token or user not found"
  const UNDECODABLE_TOKEN: string := "Невірний токен для перевірки електронної пошти"

  /** How a handler can end other than normally. */
  datatype ApiError =
    | HttpError(status: int, detail: string)
    /** The repository assigned to the attribute of a user that does not exist. */
    | AttributeError
    /** A decoded token without a `sub` claim. */
    | KeyError

  /** The JSON body a successful handler responds with. */
  datatype Message = Message(message: string)

  /** What decoding a reset token yields. */
  datatype Token = Undecodable | WithoutSubject | Subject(email: string)

  /** `get_email_from_token`: the token's subject, a 422 for a token that does not decode. */
  function EmailFromToken(token: Token): (r: Result<string, ApiError>)
    ensures token.Subject? <==> r.Ok?
    ensures token.Subject? ==> r.value == token.email
    ensures token == Undecodable ==> r == Err(HttpError(HTTP_422_UNPROCESSABLE_ENTITY, UNDECODABLE_TOKEN))
    ensures token == WithoutSubject ==> r == Err(KeyError)
  {
    match token
    case Undecodable => Err(HttpError(HTTP_422_UNPROCESSABLE_ENTITY, UNDECODABLE_TOKEN))
    case WithoutSubject => Err(KeyError)
    case Subject(email) => Ok(email)
  }

  /** A reset email queued by `request_reset_password`. */
  datatype EmailTask = SendResetPasswordEmail(email: string, username: string, host: string)

  /** The request's background tasks, run after the response is sent. */
  class BackgroundTasks {
    var tasks: seq<EmailTask>

    constructor ()
      ensures tasks == []
    {
      tasks := [];
    }

    method AddTask(task: EmailTask)
      modifies this
      ensures tasks == old(tasks) + [task]
    {
      tasks := tasks + [task];
    }
  }

  /** Whether the table holds a confirmed user with this email. */
  predicate ConfirmedUser(rows: seq<User>, email: string)
  {
    var u := GetUserByEmail(rows, email);
    u.Some? && u.value.confirmed
  }

  /** With unique emails, the lookup's answer is the existence of a confirmed user with that email. */
  lemma ConfirmedUserIff(rows: seq<User>, email: string)
    requires UniqueUsers(rows)
    ensures ConfirmedUser(rows, email) <==> exists u :: u in rows && u.email == email && u.confirmed
  {
    if u :| u in rows && u.email == email && u.confirmed {
      LookupIdentifies(rows, u);
    }
  }

  /**
   * `update_avatar_user`: stores the uploaded avatar's URL on the caller's
   * row, then clears every cached response of the caller, and returns the
   * updated user. When the caller's email has no row the update raises and
   * the cache is not touched.
   */
  method UpdateAvatarUser(users: UserRepository, cache: RedisCache, caller: User, avatarUrl: string)
    returns (r: Result<User, ApiError>)
    requires users.Valid() && cache.Valid()
    modifies users, cache
    ensures users.Valid() && cache.Valid() && users.nextId == old(users.nextId)
    ensures Find(old(users.rows), ByEmail(caller.email)).None? ==>
      && r == Err(AttributeError) && users.rows == old(users.rows)
      && cache.store == old(cache.store) && cache.ttl == old(cache.ttl)
    ensures Find(old(users.rows), ByEmail(caller.email)).Some? ==>
      var i := Find(old(users.rows), ByEmail(caller.email)).value;
      && r == Ok(old(users.rows)[i].(avatar := Some(avatarUrl)))
      && users.rows == old(users.rows)[i := r.value]
      && cache.store == old(cache.store) - MatchingKeys(old(cache.store), UserPattern(caller.id))
      && cache.ttl == old(cache.ttl) - MatchingKeys(old(cache.store), UserPattern(caller.id))
    ensures r.Ok? ==> forall k :: k in cache.store <==> k in old(cache.store) && !(OwnerPrefix(UserId(caller.id)) <= k)
  {
    var updated := users.UpdateAvatarUrl(caller.email, avatarUrl);
    if updated.Err? {
      return Err(AttributeError);
    }
    cache.ClearUserCache(caller.id);
    r := Ok(updated.value);
  }

  /**
   * `request_reset_password`: queues exactly one reset email, to the user's
   * own email and username, when the email belongs to a confirmed user;
   * otherwise answers 404 and queues nothing.
   */
  method RequestResetPassword(users: UserRepository, tasks: BackgroundTasks, email: string, host: string)
    returns (r: Result<Message, ApiError>)
    modifies tasks
    ensures ConfirmedUser(users.rows, email) ==>
      var u := GetUserByEmail(users.rows, email).value;
      && r == Ok(Message("Password reset email has been sent"))
      && tasks.tasks == old(tasks.tasks) + [SendResetPasswordEmail(u.email, u.username, host)]
    ensures !ConfirmedUser(users.rows, email) ==>
      r == Err(HttpError(HTTP_404_NOT_FOUND, RESET_NOT_ALLOWED)) && tasks.tasks == old(tasks.tasks)
    ensures r.Ok? ==> |tasks.tasks| == |old(tasks.tasks)| + 1 && tasks.tasks[|old(tasks.tasks)|].email == email
  {
    var user := GetUserByEmail(users.rows, email);
    if user.Some? && user.value.confirmed {
      tasks.AddTask(SendResetPasswordEmail(user.value.email, user.value.username, host));
      return Ok(Message("Password reset email has been sent"));
    }
    r := Err(HttpError(HTTP_404_NOT_FOUND, RESET_NOT_ALLOWED));
  }

  /** `verify_reset_token`: reads the table and changes nothing. */
  function VerifyResetToken(rows: seq<User>, token: Token): (r: Result<Message, ApiError>)
    ensures r.Ok? <==> token.Subject? && ConfirmedUser(rows, token.email)
    ensures r.Ok? ==> r.value == Message("Token is valid")
    ensures token.Subject? && !ConfirmedUser(rows, token.email) ==>
      r == Err(HttpError(HTTP_400_BAD_REQUEST, INVALID_RESET_TOKEN))
    ensures !token.Subject? ==> r == Err(EmailFromToken(token).error)
  {
    var email := EmailFromToken(token);
    if email.Err? then Err(email.error)
    else if ConfirmedUser(rows, email.value) then Ok(Message("Token is valid"))
    else Err(HttpError(HTTP_400_BAD_REQUEST, INVALID_RESET_TOKEN))
  }

  /** A reset token is accepted exactly when its subject is the email of a confirmed user. */
  lemma VerifyAcceptsConfirmedSubject(rows: seq<User>, token: Token)
    requires UniqueUsers(rows)
    ensures VerifyResetToken(rows, token).Ok? <==>
      exists u :: u in rows && token == Subject(u.email) && u.confirmed
  {
    if token.Subject? {
      ConfirmedUserIff(rows, token.email);
    }
  }

  /**
   * `reset_password`: for a token whose subject is a confirmed user, stores
   * the new password, as given, on that user and clears every cached
   * response of that user. Any other token leaves the table and the cache
   * as they were.
   */
  method ResetPassword(users: UserRepository, cache: RedisCache, token: Token, newPassword: string)
    returns (r: Result<Message, ApiError>)
    requires users.Valid() && cache.Valid()
    modifies users, cache
    ensures users.Valid() && cache.Valid() && users.nextId == old(users.nextId)
    ensures !token.Subject? ==>
      && r == Err(EmailFromToken(token).error)
      && users.rows == old(users.rows) && cache.store == old(cache.store) && cache.ttl == old(cache.ttl)
    ensures token.Subject? && !ConfirmedUser(old(users.rows), token.email) ==>
      && r == Err(HttpError(HTTP_400_BAD_REQUEST, INVALID_RESET_TOKEN))
      && users.rows == old(users.rows) && cache.store == old(cache.store) && cache.ttl == old(cache.ttl)
    ensures token.Subject? && ConfirmedUser(old(users.rows), token.email) ==>
      var i := Find(old(users.rows), ByEmail(token.email)).value;
      var u := old(users.rows)[i];
      && r == Ok(Message("Password has been reset successfully for user " + u.username))
      && users.rows == old(users.rows)[i := u.(hashedPassword := newPassword)]
      && cache.store == old(cache.store) - MatchingKeys(old(cache.store), UserPattern(u.id))
      && cache.ttl == old(cache.ttl) - MatchingKeys(old(cache.store), UserPattern(u.id))
      && GetUserByEmail(users.rows, token.email) == Some(u.(hashedPassword := newPassword))
      && (forall k :: k in cache.store ==> !(OwnerPrefix(UserId(u.id)) <= k))
  {
    var email := EmailFromToken(token);
    if email.Err? {
      return Err(email.error);
    }
    var user := GetUserByEmail(users.rows, email.value);
    if user.Some? && user.value.confirmed {
      ghost var i := Find(users.rows, ByEmail(email.value)).value;
      var changed := users.ChangePassword(user.value.email, newPassword);
      assert users.rows[i] == changed.value;
      LookupIdentifies(users.rows, changed.value);
      cache.ClearUserCache(user.value.id);
      return Ok(Message("Password has been reset successfully for user " + user.value.username));
    }
    r := Err(HttpError(HTTP_400_BAD_REQUEST, INVALID_RESET_TOKEN));
  }
}
