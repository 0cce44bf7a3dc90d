/**
 * The contact table and its repository (src/repository/contacts.py). Every
 * query and change is scoped to the calling user's id. The table is the
 * sequence of rows in insertion order; ids are assigned by an auto-increment
 * counter, and `email` and `phone` are unique across the whole table
 * (src/database/models.py:42-43), so a write that would repeat one fails with
 * an integrity error at commit and leaves the table as it was.
 */
module ContactsRepository {
  import opened Wrappers
  import opened Schemas

  /** A row of the `contacts` table. */
  datatype Contact = Contact(
    id: int, userId: int,
    firstName: string, lastName: string, email: string, phone: string,
    birthdate: Option<Date>, additionalInfo: Option<string>)

  /** The exceptions a repository call can end with. */
  datatype DbError = IntegrityError | TypeError

  const DEFAULT_SKIP: nat := 0
  const DEFAULT_LIMIT: nat := 100

  // ----- Case-insensitive substring filters (`ilike '%...%'`) -----

  function LowerChar(c: char): char
  {
    if 'A' <= c <= 'Z' then (c as int + 32) as char else c
  }

  /** The string with its ASCII capitals lowered. */
  function Lower(s: string): (r: string)
    ensures |r| == |s| && forall i :: 0 <= i < |s| ==> r[i] == LowerChar(s[i])
  {
    seq(|s|, i requires 0 <= i < |s| => LowerChar(s[i]))
  }

  /** `needle` occurs in `hay` as a contiguous run. */
  predicate Contains(hay: string, needle: string)
  {
    exists i :: 0 <= i <= |hay| - |needle| && needle <= hay[i..]
  }

  /** `field ilike '%pattern%'`, with `%` and `_` inside `pattern` read literally. */
  predicate ILikeContains(field: string, pattern: string)
  {
    Contains(Lower(field), Lower(pattern))
  }

  /** The optional name and email filters of a listing. */
  datatype Filters = Filters(firstName: Option<string>, lastName: Option<string>, email: Option<string>)

  /** A filter restricts the listing only when it is truthy: neither `None` nor empty. */
  predicate Active(filter: Option<string>)
  {
    filter.Some? && filter.value != ""
  }

  predicate PassesFilter(filter: Option<string>, field: string)
  {
    !Active(filter) || ILikeContains(field, filter.value)
  }

  predicate MatchesFilters(c: Contact, filters: Filters)
  {
    && PassesFilter(filters.firstName, c.firstName)
    && PassesFilter(filters.lastName, c.lastName)
    && PassesFilter(filters.email, c.email)
  }

  // ----- Queries -----

  /** The `where` clauses the repository's queries use. */
  datatype Criterion =
    | Listing(userId: int, filters: Filters)
    | BirthdayWindow(userId: int, from: Date, to: Date)

  predicate Satisfies(c: Contact, criterion: Criterion)
  {
    match criterion
    case Listing(userId, filters) => c.userId == userId && MatchesFilters(c, filters)
    case BirthdayWindow(userId, from, to) =>
      c.userId == userId && c.birthdate.Some? && from <= c.birthdate.value <= to
  }

  /** `select(Contact).where(...)`: the rows satisfying the criterion, in table order (`WhereKeepsOrder`). */
  function Where(rows: seq<Contact>, criterion: Criterion): (r: seq<Contact>)
    ensures forall c :: c in r <==> c in rows && Satisfies(c, criterion)
    ensures |r| <= |rows|
  {
    if rows == [] then []
    else if Satisfies(rows[0], criterion) then [rows[0]] + Where(rows[1..], criterion)
    else Where(rows[1..], criterion)
  }

  /** `.offset(skip).limit(limit)`: at most `limit` elements, starting after the first `skip`. */
  function Page<T>(s: seq<T>, skip: nat, limit: nat): (r: seq<T>)
    ensures |r| == if skip >= |s| then 0 else if |s| - skip < limit then |s| - skip else limit
    ensures forall i :: 0 <= i < |r| ==> r[i] == s[skip + i]
    ensures forall x :: x in r ==> x in s
  {
    if skip >= |s| then []
    else if |s| - skip < limit then s[skip..]
    else s[skip..skip + limit]
  }

  /**
   * `get_contacts`: the caller's contacts that pass each truthy name and email
   * filter, from the `skip`-th match on, at most `limit` of them.
   */
  function GetContacts(rows: seq<Contact>, userId: int, filters: Filters, skip: nat, limit: nat)
    : (r: seq<Contact>)
    ensures forall c :: c in r ==> c in rows && c.userId == userId && MatchesFilters(c, filters)
    ensures |r| <= limit
    ensures var matches := Where(rows, Listing(userId, filters));
      && |r| == (if skip >= |matches| then 0 else if |matches| - skip < limit then |matches| - skip else limit)
      && forall i :: 0 <= i < |r| ==> r[i] == matches[skip + i]
  {
    Page(Where(rows, Listing(userId, filters)), skip, limit)
  }

  /**
   * With the default `skip` and `limit` the listing is the first hundred
   * matches, or all of them when there are fewer.
   */
  lemma DefaultPageIsFirstMatches(rows: seq<Contact>, userId: int, filters: Filters)
    ensures var matches := Where(rows, Listing(userId, filters));
      GetContacts(rows, userId, filters, DEFAULT_SKIP, DEFAULT_LIMIT)
        == if |matches| <= 100 then matches else matches[..100]
  {
    var matches := Where(rows, Listing(userId, filters));
    var r := GetContacts(rows, userId, filters, DEFAULT_SKIP, DEFAULT_LIMIT);
    if |matches| <= 100 {
      assert r == matches;
    } else {
      assert r == matches[..100];
    }
  }

  /**
   * Filters that are `None` or empty strings impose nothing: the listing is
   * exactly the caller's rows, in table order, as with no filters at all.
   */
  lemma {:induction false} NoFiltersListsAllOwned(rows: seq<Contact>, userId: int, filters: Filters)
    requires !Active(filters.firstName) && !Active(filters.lastName) && !Active(filters.email)
    ensures Where(rows, Listing(userId, filters)) == Where(rows, Listing(userId, Filters(None, None, None)))
    ensures forall c :: c in Where(rows, Listing(userId, filters)) <==> c in rows && c.userId == userId
  {
    if rows != [] {
      NoFiltersListsAllOwned(rows[1..], userId, filters);
    }
  }

  /** `Where` keeps table order: over rows with increasing ids its result has increasing ids too. */
  lemma {:induction false} WhereKeepsOrder(rows: seq<Contact>, criterion: Criterion)
    requires IncreasingIds(rows)
    ensures IncreasingIds(Where(rows, criterion))
  {
    if rows != [] {
      var tail := rows[1..];
      assert IncreasingIds(tail) by {
        forall i, j | 0 <= i < j < |tail| ensures tail[i].id < tail[j].id {
          assert tail[i] == rows[i + 1] && tail[j] == rows[j + 1];
        }
      }
      WhereKeepsOrder(tail, criterion);
      if Satisfies(rows[0], criterion) {
        var rest := Where(tail, criterion);
        var r := [rows[0]] + rest;
        forall i, j | 0 <= i < j < |r| ensures r[i].id < r[j].id {
          if i == 0 {
            assert r[j] == rest[j - 1] && r[j] in tail;
            var k :| 0 <= k < |tail| && tail[k] == r[j];
            assert tail[k] == rows[k + 1];
          } else {
            assert r[i] == rest[i - 1] && r[j] == rest[j - 1];
          }
        }
      }
    }
  }

  /** `get_birthdays_next_week`: the caller's contacts whose stored birthdate lies in `[today + 1, today + 7]`. */
  function GetBirthdaysNextWeek(rows: seq<Contact>, userId: int, today: Date): (r: seq<Contact>)
    ensures forall c :: c in r <==>
      c in rows && c.userId == userId && c.birthdate.Some? && today + 1 <= c.birthdate.value <= today + 7
  {
    Where(rows, BirthdayWindow(userId, today + 1, today + 7))
  }

  /** The window compares whole dates, year included: a birthdate before tomorrow is never listed. */
  lemma PastBirthdatesNotListed(rows: seq<Contact>, userId: int, today: Date, c: Contact)
    requires c.birthdate.Some? && c.birthdate.value <= today
    ensures c !in GetBirthdaysNextWeek(rows, userId, today)
  {
  }

  /** The position of the row with this id owned by this user, if any. */
  function FindIndex(rows: seq<Contact>, id: int, userId: int): (r: Option<nat>)
    ensures r.Some? ==> r.value < |rows| && rows[r.value].id == id && rows[r.value].userId == userId
    ensures r.None? <==> forall i :: 0 <= i < |rows| ==> !(rows[i].id == id && rows[i].userId == userId)
  {
    if rows == [] then None
    else if rows[0].id == id && rows[0].userId == userId then Some(0)
    else
      var rest := FindIndex(rows[1..], id, userId);
      if rest.Some? then Some(rest.value + 1) else None
  }

  /** `get_contact_by_id`: the contact with this id when the caller owns it, otherwise `None`. */
  function GetContactById(rows: seq<Contact>, id: int, userId: int): (r: Option<Contact>)
    ensures r.Some? <==> exists c :: c in rows && c.id == id && c.userId == userId
    ensures r.Some? ==> r.value in rows && r.value.id == id && r.value.userId == userId
  {
    var i := FindIndex(rows, id, userId);
    if i.Some? then Some(rows[i.value]) else None
  }

  // ----- Table invariants -----

  predicate IncreasingIds(rows: seq<Contact>)
  {
    forall i, j :: 0 <= i < j < |rows| ==> rows[i].id < rows[j].id
  }

  /** No two rows share an email or a phone. */
  predicate UniqueContactInfo(rows: seq<Contact>)
  {
    forall i, j :: 0 <= i < j < |rows| ==> rows[i].email != rows[j].email && rows[i].phone != rows[j].phone
  }

  /** Whether a row other than the one at `except` already holds this email or phone. */
  predicate Clash(rows: seq<Contact>, email: string, phone: string, except: int)
  {
    exists i :: 0 <= i < |rows| && i != except && (rows[i].email == email || rows[i].phone == phone)
  }

  /** Another user's contact is invisible to `get_contact_by_id`. */
  lemma ForeignContactHidden(rows: seq<Contact>, c: Contact, userId: int)
    requires IncreasingIds(rows) && c in rows && c.userId != userId
    ensures GetContactById(rows, c.id, userId) == None
  {
    var k :| 0 <= k < |rows| && rows[k] == c;
    forall i | 0 <= i < |rows| ensures !(rows[i].id == c.id && rows[i].userId == userId) {
      if i < k { assert rows[i].id < rows[k].id; }
      else if i > k { assert rows[k].id < rows[i].id; }
    }
  }

  /** The owner finds each of their contacts by its id. */
  lemma OwnContactFound(rows: seq<Contact>, c: Contact)
    requires IncreasingIds(rows) && c in rows
    ensures GetContactById(rows, c.id, c.userId) == Some(c)
  {
    var d := GetContactById(rows, c.id, c.userId).value;
    var i, j :| 0 <= i < |rows| && 0 <= j < |rows| && rows[i] == c && rows[j] == d;
    assert i == j;
  }

  // ----- Partial updates -----

  /** The attributes `update_contact` may assign. */
  datatype ContactField = FirstName | LastName | Email | Phone | Birthdate | AdditionalInfo

  /** A contact object during an update, whose attributes may have been set to `None`. */
  datatype Draft = Draft(
    id: int, userId: int,
    firstName: Option<string>, lastName: Option<string>, email: Option<string>, phone: Option<string>,
    birthdate: Option<Date>, additionalInfo: Option<string>)

  /** The value of one attribute of a draft. */
  datatype Attr = NoneAttr | TextAttr(s: string) | DateAttr(d: Date)

  function TextOf(x: Option<string>): Attr { if x.Some? then TextAttr(x.value) else NoneAttr }

  function Get(d: Draft, f: ContactField): Attr
  {
    match f
    case FirstName => TextOf(d.firstName)
    case LastName => TextOf(d.lastName)
    case Email => TextOf(d.email)
    case Phone => TextOf(d.phone)
    case Birthdate => if d.birthdate.Some? then DateAttr(d.birthdate.value) else NoneAttr
    case AdditionalInfo => TextOf(d.additionalInfo)
  }

  /** Two drafts of the same row that agree on every attribute are equal. */
  lemma DraftExtensionality(a: Draft, b: Draft)
    requires a.id == b.id && a.userId == b.userId
    requires forall f :: Get(a, f) == Get(b, f)
    ensures a == b
  {
    assert Get(a, FirstName) == Get(b, FirstName) && Get(a, LastName) == Get(b, LastName);
    assert Get(a, Email) == Get(b, Email) && Get(a, Phone) == Get(b, Phone);
    assert Get(a, Birthdate) == Get(b, Birthdate) && Get(a, AdditionalInfo) == Get(b, AdditionalInfo);
  }

  function DraftOf(c: Contact): Draft
  {
    Draft(c.id, c.userId, Some(c.firstName), Some(c.lastName), Some(c.email), Some(c.phone),
          c.birthdate, c.additionalInfo)
  }

  /** The input for one attribute of an update body. */
  function Sent(u: ContactUpdate, f: ContactField): Input<string>
    requires f != Birthdate
  {
    match f
    case FirstName => u.firstName
    case LastName => u.lastName
    case Email => u.email
    case Phone => u.phone
    case AdditionalInfo => u.additionalInfo
  }

  /** Whether `model_dump(exclude_unset=True)` includes the attribute: it was sent, as a value or as `null`. */
  predicate IsSet(u: ContactUpdate, f: ContactField)
  {
    if f == Birthdate then !u.birthdate.Missing? else !Sent(u, f).Missing?
  }

  /** The value the update assigns to a set attribute. */
  function Assigned(u: ContactUpdate, f: ContactField): Attr
  {
    if f == Birthdate then (if u.birthdate.Given? then DateAttr(u.birthdate.value) else NoneAttr)
    else TextOf(OrNone(Sent(u, f)))
  }

  /** The keys of `model_dump(exclude_unset=True)`, in field order. */
  function SetFields(u: ContactUpdate): (fields: seq<ContactField>)
    ensures forall f :: f in fields <==> IsSet(u, f)
  {
    (if IsSet(u, FirstName) then [FirstName] else [])
      + (if IsSet(u, LastName) then [LastName] else [])
      + (if IsSet(u, Email) then [Email] else [])
      + (if IsSet(u, Phone) then [Phone] else [])
      + (if IsSet(u, Birthdate) then [Birthdate] else [])
      + (if IsSet(u, AdditionalInfo) then [AdditionalInfo] else [])
  }

  /** `setattr(draft, f, value)` with the value the update carries for `f`. */
  function SetAttr(d: Draft, f: ContactField, u: ContactUpdate): (r: Draft)
    ensures r.id == d.id && r.userId == d.userId
    ensures Get(r, f) == Assigned(u, f)
    ensures forall g :: g != f ==> Get(r, g) == Get(d, g)
  {
    match f
    case FirstName => d.(firstName := OrNone(u.firstName))
    case LastName => d.(lastName := OrNone(u.lastName))
    case Email => d.(email := OrNone(u.email))
    case Phone => d.(phone := OrNone(u.phone))
    case Birthdate => d.(birthdate := OrNone(u.birthdate))
    case AdditionalInfo => d.(additionalInfo := OrNone(u.additionalInfo))
  }

  /** The contact after an update: the set attributes take the sent values, the others keep theirs. */
  function Patched(c: Contact, u: ContactUpdate): (r: Draft)
    ensures r.id == c.id && r.userId == c.userId
    ensures forall f :: Get(r, f) == if IsSet(u, f) then Assigned(u, f) else Get(DraftOf(c), f)
  {
    Draft(c.id, c.userId,
          if u.firstName.Missing? then Some(c.firstName) else OrNone(u.firstName),
          if u.lastName.Missing? then Some(c.lastName) else OrNone(u.lastName),
          if u.email.Missing? then Some(c.email) else OrNone(u.email),
          if u.phone.Missing? then Some(c.phone) else OrNone(u.phone),
          if u.birthdate.Missing? then c.birthdate else OrNone(u.birthdate),
          if u.additionalInfo.Missing? then c.additionalInfo else OrNone(u.additionalInfo))
  }

  /** The four `nullable=False` columns all hold a value. */
  predicate NotNullOk(d: Draft)
  {
    d.firstName.Some? && d.lastName.Some? && d.email.Some? && d.phone.Some?
  }

  function ToContact(d: Draft): (c: Contact)
    requires NotNullOk(d)
    ensures DraftOf(c) == d
  {
    Contact(d.id, d.userId, d.firstName.value, d.lastName.value, d.email.value, d.phone.value,
            d.birthdate, d.additionalInfo)
  }

  /** Whether committing the draft in place of row `i` satisfies the table's constraints. */
  predicate Committable(d: Draft, rows: seq<Contact>, i: int)
  {
    NotNullOk(d) && !Clash(rows, d.email.value, d.phone.value, i)
  }

  /** An update that sends no attribute commits and leaves the contact as it was. */
  lemma {:induction false} EmptyUpdateKeepsContact(rows: seq<Contact>, i: nat)
    requires i < |rows| && UniqueContactInfo(rows)
    ensures var u := ContactInput(Missing, Missing, Missing, Missing, Missing, Missing);
      Committable(Patched(rows[i], u), rows, i) && ToContact(Patched(rows[i], u)) == rows[i]
  {
    var u := ContactInput(Missing, Missing, Missing, Missing, Missing, Missing);
    var c := rows[i];
    assert Patched(c, u) == DraftOf(c);
    forall j | 0 <= j < |rows| && j != i ensures rows[j].email != c.email && rows[j].phone != c.phone {
      if j < i { assert rows[j].email != rows[i].email && rows[j].phone != rows[i].phone; }
      else { assert rows[i].email != rows[j].email && rows[i].phone != rows[j].phone; }
    }
  }

  /**
   * The `setattr` loop of `update_contact`: each attribute the update sent is
   * assigned in turn to the loaded contact.
   */
  method ApplyUpdate(c: Contact, update: ContactUpdate) returns (draft: Draft)
    ensures draft == Patched(c, update)
  {
    draft := DraftOf(c);
    var fields := SetFields(update);
    AssignedNothing(c, update);
    for k := 0 to |fields|
      invariant draft.id == c.id && draft.userId == c.userId
      invariant AssignedSoFar(draft, c, update, fields[..k])
    {
      AssignStep(draft, c, update, fields, k);
      draft := SetAttr(draft, fields[k], update);
    }
    AssignedAll(draft, c, update, fields);
  }

  /** The draft holds the sent value of every attribute in `done` and the contact's own value of every other. */
  predicate AssignedSoFar(d: Draft, c: Contact, u: ContactUpdate, done: seq<ContactField>)
  {
    forall f :: Get(d, f) == if f in done then Assigned(u, f) else Get(DraftOf(c), f)
  }

  lemma AssignedNothing(c: Contact, u: ContactUpdate)
    ensures AssignedSoFar(DraftOf(c), c, u, [])
  {
  }

  lemma AssignedAll(d: Draft, c: Contact, u: ContactUpdate, fields: seq<ContactField>)
    requires fields == SetFields(u)
    requires d.id == c.id && d.userId == c.userId
    requires AssignedSoFar(d, c, u, fields[..|fields|])
    ensures d == Patched(c, u)
  {
    assert fields[..|fields|] == fields;
    DraftExtensionality(d, Patched(c, u));
  }

  lemma AssignStep(d: Draft, c: Contact, u: ContactUpdate, fields: seq<ContactField>, k: nat)
    requires k < |fields| && AssignedSoFar(d, c, u, fields[..k])
    ensures AssignedSoFar(SetAttr(d, fields[k], u), c, u, fields[..k + 1])
  {
    assert fields[..k + 1] == fields[..k] + [fields[k]];
  }

  // ----- The repository -----

  class ContactRepository {
    /** The rows of the `contacts` table, oldest first. */
    var rows: seq<Contact>
    /** The id the next inserted row receives. */
    var nextId: int
    /** How many commits have taken effect. */
    var commits: nat

    ghost predicate Valid()
      reads this
    {
      && IncreasingIds(rows)
      && (forall i :: 0 <= i < |rows| ==> rows[i].id < nextId)
      && UniqueContactInfo(rows)
    }

    constructor ()
      ensures Valid() && rows == [] && commits == 0
    {
      rows, nextId, commits := [], 1, 0;
    }

    /**
     * `add(new_contact)`, `commit()`, `refresh(new_contact)`: a new row owned by
     * the user, with a fresh id larger than every existing one.
     */
    method Insert(data: ContactCreate, userId: int) returns (r: Result<Contact, DbError>)
      requires Valid()
      modifies this
      ensures Valid()
      ensures Clash(old(rows), data.email, data.phone, -1) ==>
        r == Err(IntegrityError) && rows == old(rows) && commits == old(commits) && nextId == old(nextId)
      ensures !Clash(old(rows), data.email, data.phone, -1) ==>
        && r.Ok?
        && r.value == Contact(old(nextId), userId, data.firstName, data.lastName, data.email, data.phone,
                              data.birthdate, data.additionalInfo)
        && (forall c :: c in old(rows) ==> c.id < r.value.id)
        && rows == old(rows) + [r.value] && commits == old(commits) + 1 && nextId == old(nextId) + 1
    {
      if Clash(rows, data.email, data.phone, -1) {
        return Err(IntegrityError);
      }
      var c := Contact(nextId, userId, data.firstName, data.lastName, data.email, data.phone,
                       data.birthdate, data.additionalInfo);
      rows := rows + [c];
      nextId := nextId + 1;
      commits := commits + 1;
      r := Ok(c);
    }

    /**
     * `create_contact` as written: the row is committed, then the closing call
     * `get_contact_by_id(new_contact.id)` omits its `user` argument and raises
     * `TypeError`, so the caller never receives the contact.
     */
    method CreateContactAsWritten(data: ContactCreate, userId: int) returns (r: Result<Contact, DbError>)
      requires Valid()
      modifies this
      ensures Valid()
      ensures r.Err?
      ensures Clash(old(rows), data.email, data.phone, -1) ==>
        r == Err(IntegrityError) && rows == old(rows) && commits == old(commits) && nextId == old(nextId)
      ensures !Clash(old(rows), data.email, data.phone, -1) ==>
        && r == Err(TypeError) && commits == old(commits) + 1 && nextId == old(nextId) + 1
        && rows == old(rows) + [Contact(old(nextId), userId, data.firstName, data.lastName, data.email,
                                        data.phone, data.birthdate, data.additionalInfo)]
    {
      r := Insert(data, userId);
      if r.Ok? {
        r := Err(TypeError);
      }
    }

    /**
     * `create_contact` as intended: the committed row is read back with
     * `get_contact_by_id(new_contact.id, user)` and returned.
     */
    method CreateContact(data: ContactCreate, userId: int) returns (r: Result<Contact, DbError>)
      requires Valid()
      modifies this
      ensures Valid()
      ensures Clash(old(rows), data.email, data.phone, -1) ==>
        r == Err(IntegrityError) && rows == old(rows) && commits == old(commits) && nextId == old(nextId)
      ensures !Clash(old(rows), data.email, data.phone, -1) ==>
        && r.Ok?
        && r.value.userId == userId && r.value.firstName == data.firstName && r.value.lastName == data.lastName
        && r.value.email == data.email && r.value.phone == data.phone
        && r.value.birthdate == data.birthdate && r.value.additionalInfo == data.additionalInfo
        && (forall c :: c in old(rows) ==> c.id != r.value.id)
        && rows == old(rows) + [r.value] && commits == old(commits) + 1 && nextId == old(nextId) + 1
      ensures r.Ok? ==> GetContactById(rows, r.value.id, userId) == Some(r.value)
    {
      var inserted := Insert(data, userId);
      if inserted.Err? {
        return inserted;
      }
      OwnContactFound(rows, inserted.value);
      var found := GetContactById(rows, inserted.value.id, userId);
      r := Ok(found.value);
    }

    /**
     * `update_contact`: for the caller's contact with this id, assigns every
     * attribute the update sent (`null` included), then commits. A contact the
     * caller does not own yields `None` without a commit; a commit that would
     * null a required column or repeat another row's email or phone fails and
     * leaves the table unchanged.
     */
    method UpdateContact(id: int, update: ContactUpdate, userId: int) returns (r: Result<Option<Contact>, DbError>)
      requires Valid()
      modifies this
      ensures Valid() && nextId == old(nextId)
      ensures FindIndex(old(rows), id, userId).None? ==>
        r == Ok(None) && rows == old(rows) && commits == old(commits)
      ensures FindIndex(old(rows), id, userId).Some? ==>
        var i := FindIndex(old(rows), id, userId).value;
        var d := Patched(old(rows)[i], update);
        && (Committable(d, old(rows), i) ==>
              r == Ok(Some(ToContact(d))) && rows == old(rows)[i := ToContact(d)] && commits == old(commits) + 1)
        && (!Committable(d, old(rows), i) ==>
              r == Err(IntegrityError) && rows == old(rows) && commits == old(commits))
    {
      var found := FindIndex(rows, id, userId);
      if found.None? {
        return Ok(None);
      }
      var i := found.value;
      var draft := ApplyUpdate(rows[i], update);
      if !NotNullOk(draft) || Clash(rows, draft.email.value, draft.phone.value, i) {
        return Err(IntegrityError);
      }
      var updated := ToContact(draft);
      rows := rows[i := updated];
      commits := commits + 1;
      r := Ok(Some(updated));
    }

    /** `update_contact_birthdate`: sets only the birthdate of the caller's contact, or yields `None`. */
    method UpdateContactBirthdate(id: int, birthdate: Date, userId: int) returns (r: Option<Contact>)
      requires Valid()
      modifies this
      ensures Valid() && nextId == old(nextId)
      ensures FindIndex(old(rows), id, userId).None? ==>
        r == None && rows == old(rows) && commits == old(commits)
      ensures FindIndex(old(rows), id, userId).Some? ==>
        var i := FindIndex(old(rows), id, userId).value;
        && r == Some(old(rows)[i].(birthdate := Some(birthdate)))
        && rows == old(rows)[i := r.value] && commits == old(commits) + 1
    {
      var found := FindIndex(rows, id, userId);
      if found.None? {
        return None;
      }
      var i := found.value;
      var updated := rows[i].(birthdate := Some(birthdate));
      rows := rows[i := updated];
      commits := commits + 1;
      r := Some(updated);
    }

    /** `delete_contact`: removes the caller's contact with this id and returns it, or yields `None`. */
    method DeleteContact(id: int, userId: int) returns (r: Option<Contact>)
      requires Valid()
      modifies this
      ensures Valid() && nextId == old(nextId)
      ensures FindIndex(old(rows), id, userId).None? ==>
        r == None && rows == old(rows) && commits == old(commits)
      ensures FindIndex(old(rows), id, userId).Some? ==>
        var i := FindIndex(old(rows), id, userId).value;
        && r == Some(old(rows)[i])
        && rows == old(rows)[..i] + old(rows)[i + 1..] && commits == old(commits) + 1
      ensures r.Some? ==> forall c :: c in rows <==> c in old(rows) && c != r.value
    {
      var found := FindIndex(rows, id, userId);
      if found.None? {
        return None;
      }
      var i := found.value;
      r := Some(rows[i]);
      RemoveAt(rows, i);
      rows := rows[..i] + rows[i + 1..];
      commits := commits + 1;
    }
  }

  /**
   * On an empty table, creating a well-formed contact with `create_contact` as
   * written stores the row and still ends with `TypeError`.
   */
  method CreateContactAsWrittenFails() returns (r: Result<Contact, DbError>, stored: seq<Contact>)
    ensures r == Err(TypeError)
    ensures |stored| == 1 && stored[0].userId == 1 && stored[0].email == "ada@example.com"
  {
    var repo := new ContactRepository();
    var data := ContactCreate("Ada", "Lovelace", "ada@example.com", "555-0100", None, None);
    r := repo.CreateContactAsWritten(data, 1);
    stored := repo.rows;
  }

  /** The rows left after removing row `i`, by position. */
  lemma RemovedPositions(rows: seq<Contact>, i: nat)
    requires i < |rows|
    ensures var rest := rows[..i] + rows[i + 1..];
      |rest| == |rows| - 1 && forall k :: 0 <= k < |rest| ==> rest[k] == rows[Skip(i, k)]
  {
    var rest := rows[..i] + rows[i + 1..];
    forall k | 0 <= k < |rest| ensures rest[k] == rows[Skip(i, k)] {
      if k < i { assert rest[k] == rows[..i][k]; } else { assert rest[k] == rows[i + 1..][k - i]; }
    }
  }

  /** Removing one row keeps the table's invariants and removes exactly that row. */
  lemma RemoveAt(rows: seq<Contact>, i: nat)
    requires i < |rows| && IncreasingIds(rows) && UniqueContactInfo(rows)
    ensures var rest := rows[..i] + rows[i + 1..];
      && IncreasingIds(rest) && UniqueContactInfo(rest)
      && (forall c :: c in rest <==> c in rows && c != rows[i])
  {
    RemovedPositions(rows, i);
    RemoveKeepsOrder(rows, i);
    RemoveExactlyOne(rows, i);
  }

  lemma RemoveKeepsOrder(rows: seq<Contact>, i: nat)
    requires i < |rows| && IncreasingIds(rows) && UniqueContactInfo(rows)
    requires var rest := rows[..i] + rows[i + 1..];
      |rest| == |rows| - 1 && forall k :: 0 <= k < |rest| ==> rest[k] == rows[Skip(i, k)]
    ensures IncreasingIds(rows[..i] + rows[i + 1..]) && UniqueContactInfo(rows[..i] + rows[i + 1..])
  {
    var rest := rows[..i] + rows[i + 1..];
    forall a, b | 0 <= a < b < |rest|
      ensures rest[a].id < rest[b].id
      ensures rest[a].email != rest[b].email && rest[a].phone != rest[b].phone
    {
      assert Skip(i, a) < Skip(i, b) < |rows|;
    }
  }

  lemma RemoveExactlyOne(rows: seq<Contact>, i: nat)
    requires i < |rows| && IncreasingIds(rows)
    requires var rest := rows[..i] + rows[i + 1..];
      |rest| == |rows| - 1 && forall k :: 0 <= k < |rest| ==> rest[k] == rows[Skip(i, k)]
    ensures forall c :: c in rows[..i] + rows[i + 1..] <==> c in rows && c != rows[i]
  {
    var rest := rows[..i] + rows[i + 1..];
    forall c | c in rows && c != rows[i] ensures c in rest {
      var k :| 0 <= k < |rows| && rows[k] == c;
      if k < i { assert rest[k] == c; } else { assert rest[k - 1] == c; }
    }
    forall c | c in rest ensures c != rows[i] {
      var k :| 0 <= k < |rest| && rest[k] == c;
      if k < i { assert rows[k].id < rows[i].id; } else { assert rows[i].id < rows[k + 1].id; }
    }
  }

  /** The position in the table of the `k`-th row left after removing row `i`. */
  function Skip(i: nat, k: nat): nat
  {
    if k < i then k else k + 1
  }
}
