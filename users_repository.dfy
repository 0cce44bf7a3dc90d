/**
 * The user table and its repository (src/repository/users.py). Ids are
 * assigned by the database; `username` and `email` are unique columns
 * (src/database/models.py:64-65). The single-field writes look the user up by
 * email first and assign to the result, so a missing user ends them with an
 * attribute error on `None` before anything is committed.
 */
module UsersRepository {
  import opened Wrappers
  import opened Schemas

  /** A row of the `users` table. */
  datatype User = User(
    id: int, username: string, email: string, hashedPassword: string,
    avatar: Option<string>, confirmed: bool)

  /** `IntegrityError` from a unique column; `NoUser` is the attribute error raised on a missing user. */
  datatype UserError = IntegrityError | NoUser

  /** The column a lookup filters on. */
  datatype UserKey = ById(id: int) | ByUsername(username: string) | ByEmail(email: string)

  predicate HasKey(u: User, key: UserKey)
  {
    match key
    case ById(id) => u.id == id
    case ByUsername(name) => u.username == name
    case ByEmail(email) => u.email == email
  }

  /** The position of the first row matching the key, if any. */
  function Find(rows: seq<User>, key: UserKey): (r: Option<nat>)
    ensures r.Some? ==> r.value < |rows| && HasKey(rows[r.value], key)
    ensures r.None? <==> forall i :: 0 <= i < |rows| ==> !HasKey(rows[i], key)
  {
    if rows == [] then None
    else if HasKey(rows[0], key) then Some(0)
    else
      var rest := Find(rows[1..], key);
      if rest.Some? then Some(rest.value + 1) else None
  }

  /** `filter_by(...).scalar_one_or_none()`: the matching user, or `None`. */
  function Lookup(rows: seq<User>, key: UserKey): (r: Option<User>)
    ensures r.Some? <==> exists u :: u in rows && HasKey(u, key)
    ensures r.Some? ==> r.value in rows && HasKey(r.value, key)
  {
    var i := Find(rows, key);
    if i.Some? then Some(rows[i.value]) else None
  }

  function GetUserById(rows: seq<User>, id: int): (r: Option<User>)
    ensures r.Some? <==> exists u :: u in rows && u.id == id
    ensures r.Some? ==> r.value in rows && r.value.id == id
  {
    Lookup(rows, ById(id))
  }

  function GetUserByUsername(rows: seq<User>, username: string): (r: Option<User>)
    ensures r.Some? <==> exists u :: u in rows && u.username == username
    ensures r.Some? ==> r.value in rows && r.value.username == username
  {
    Lookup(rows, ByUsername(username))
  }

  function GetUserByEmail(rows: seq<User>, email: string): (r: Option<User>)
    ensures r.Some? <==> exists u :: u in rows && u.email == email
    ensures r.Some? ==> r.value in rows && r.value.email == email
  {
    Lookup(rows, ByEmail(email))
  }

  /** No two rows share an id, a username or an email. */
  predicate UniqueUsers(rows: seq<User>)
  {
    forall i, j :: 0 <= i < j < |rows| ==>
      rows[i].id != rows[j].id && rows[i].username != rows[j].username && rows[i].email != rows[j].email
  }

  /** Whether some row already holds the username or the email. */
  predicate Taken(rows: seq<User>, username: string, email: string)
  {
    exists i :: 0 <= i < |rows| && (rows[i].username == username || rows[i].email == email)
  }

  /** With unique columns each lookup identifies the one user that has the value. */
  lemma LookupIdentifies(rows: seq<User>, u: User)
    requires UniqueUsers(rows) && u in rows
    ensures GetUserById(rows, u.id) == Some(u)
    ensures GetUserByUsername(rows, u.username) == Some(u)
    ensures GetUserByEmail(rows, u.email) == Some(u)
  {
    var k :| 0 <= k < |rows| && rows[k] == u;
    forall i | 0 <= i < |rows| && i != k
      ensures rows[i].id != u.id && rows[i].username != u.username && rows[i].email != u.email
    {
      if i < k { assert rows[i].id != rows[k].id && rows[i].username != rows[k].username && rows[i].email != rows[k].email; }
      else { assert rows[k].id != rows[i].id && rows[k].username != rows[i].username && rows[k].email != rows[i].email; }
    }
  }

  /** Changing a row's password, avatar or confirmation keeps the unique columns unique. */
  lemma {:induction false} SameKeysStayUnique(rows: seq<User>, i: nat, u: User)
    requires UniqueUsers(rows) && i < |rows|
    requires u.id == rows[i].id && u.username == rows[i].username && u.email == rows[i].email
    ensures UniqueUsers(rows[i := u])
  {
    var rows' := rows[i := u];
    forall a, b | 0 <= a < b < |rows'|
      ensures rows'[a].id != rows'[b].id && rows'[a].username != rows'[b].username && rows'[a].email != rows'[b].email
    {
      assert rows[a].id != rows[b].id && rows[a].username != rows[b].username && rows[a].email != rows[b].email;
    }
  }

  class UserRepository {
    /** The rows of the `users` table, oldest first. */
    var rows: seq<User>
    /** The id the next inserted row receives. */
    var nextId: int

    ghost predicate Valid()
      reads this
    {
      && UniqueUsers(rows)
      && (forall i :: 0 <= i < |rows| ==> rows[i].id < nextId)
    }

    constructor ()
      ensures Valid() && rows == []
    {
      rows, nextId := [], 1;
    }

    /**
     * `create_user`: a new, unconfirmed user whose stored password is the
     * body's password string as given and whose avatar is the argument.
     */
    method CreateUser(body: UserCreate, avatar: Option<string>) returns (r: Result<User, UserError>)
      requires Valid()
      modifies this
      ensures Valid()
      ensures Taken(old(rows), body.username, body.email) ==>
        r == Err(IntegrityError) && rows == old(rows) && nextId == old(nextId)
      ensures !Taken(old(rows), body.username, body.email) ==>
        && r.Ok?
        && r.value.username == body.username && r.value.email == body.email
        && r.value.hashedPassword == body.password && r.value.avatar == avatar && !r.value.confirmed
        && (forall u :: u in old(rows) ==> u.id != r.value.id)
        && rows == old(rows) + [r.value] && nextId == old(nextId) + 1
    {
      if Taken(rows, body.username, body.email) {
        return Err(IntegrityError);
      }
      var u := User(nextId, body.username, body.email, body.password, avatar, false);
      rows := rows + [u];
      nextId := nextId + 1;
      r := Ok(u);
    }

    /** `confirmed_email`: marks the user with this email as confirmed. */
    method ConfirmedEmail(email: string) returns (r: Result<(), UserError>)
      requires Valid()
      modifies this
      ensures Valid() && nextId == old(nextId)
      ensures Find(old(rows), ByEmail(email)).None? ==> r == Err(NoUser) && rows == old(rows)
      ensures Find(old(rows), ByEmail(email)).Some? ==>
        var i := Find(old(rows), ByEmail(email)).value;
        r == Ok(()) && rows == old(rows)[i := old(rows)[i].(confirmed := true)]
    {
      var found := Find(rows, ByEmail(email));
      if found.None? {
        return Err(NoUser);
      }
      var i := found.value;
      SameKeysStayUnique(rows, i, rows[i].(confirmed := true));
      rows := rows[i := rows[i].(confirmed := true)];
      r := Ok(());
    }

    /** `update_avatar_url`: sets the avatar of the user with this email and returns that user. */
    method UpdateAvatarUrl(email: string, url: string) returns (r: Result<User, UserError>)
      requires Valid()
      modifies this
      ensures Valid() && nextId == old(nextId)
      ensures Find(old(rows), ByEmail(email)).None? ==> r == Err(NoUser) && rows == old(rows)
      ensures Find(old(rows), ByEmail(email)).Some? ==>
        var i := Find(old(rows), ByEmail(email)).value;
        r == Ok(old(rows)[i].(avatar := Some(url))) && rows == old(rows)[i := r.value]
    {
      var found := Find(rows, ByEmail(email));
      if found.None? {
        return Err(NoUser);
      }
      var i := found.value;
      var updated := rows[i].(avatar := Some(url));
      SameKeysStayUnique(rows, i, updated);
      rows := rows[i := updated];
      r := Ok(updated);
    }

    /** `change_password`: stores the new password, as given, for the user with this email. */
    method ChangePassword(email: string, newPassword: string) returns (r: Result<User, UserError>)
      requires Valid()
      modifies this
      ensures Valid() && nextId == old(nextId)
      ensures Find(old(rows), ByEmail(email)).None? ==> r == Err(NoUser) && rows == old(rows)
      ensures Find(old(rows), ByEmail(email)).Some? ==>
        var i := Find(old(rows), ByEmail(email)).value;
        r == Ok(old(rows)[i].(hashedPassword := newPassword)) && rows == old(rows)[i := r.value]
    {
      var found := Find(rows, ByEmail(email));
      if found.None? {
        return Err(NoUser);
      }
      var i := found.value;
      var updated := rows[i].(hashedPassword := newPassword);
      SameKeysStayUnique(rows, i, updated);
      rows := rows[i := updated];
      r := Ok(updated);
    }
  }

  /** A single-field write leaves every other user as it was and keeps every lookup key. */
  lemma {:induction false} OthersUnchanged(rows: seq<User>, i: nat, u: User, v: User)
    requires UniqueUsers(rows) && i < |rows| && v in rows && v != rows[i]
    requires u.id == rows[i].id && u.username == rows[i].username && u.email == rows[i].email
    ensures v in rows[i := u]
    ensures GetUserByEmail(rows[i := u], v.email) == Some(v)
  {
    var k :| 0 <= k < |rows| && rows[k] == v;
    assert k != i;
    assert rows[i := u][k] == v;
    SameKeysStayUnique(rows, i, u);
    LookupIdentifies(rows[i := u], v);
  }
}
