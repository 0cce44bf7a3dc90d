/**
 * Request-body validation (src/schemas.py): which contact and user payloads the
 * pydantic models accept, with their `max_length` limits and optional fields,
 * and what the accepted model then holds.
 */
module Schemas {
  import opened Wrappers

  /** A calendar date, as its day number (days counted from a fixed origin). */
  type Date = int

  /** A field of a JSON body: left out, sent as `null`, or sent with a value. */
  datatype Input<T> = Missing | Null | Given(value: T)

  /** Why pydantic rejects a field. */
  datatype FieldError =
    | FieldMissing(field: string)
    | NotAString(field: string)
    | TooLong(field: string, maxLength: nat)
    | NotADate(field: string)

  const FIRST_NAME_MAX: nat := 50
  const LAST_NAME_MAX: nat := 50
  const EMAIL_MAX: nat := 100
  const PHONE_MAX: nat := 20
  const ADDITIONAL_INFO_MAX: nat := 255

  /** The six contact fields of a request body, as sent. */
  datatype ContactInput = ContactInput(
    firstName: Input<string>, lastName: Input<string>, email: Input<string>,
    phone: Input<string>, birthdate: Input<Date>, additionalInfo: Input<string>)

  /** An accepted `ContactCreate`. */
  datatype ContactCreate = ContactCreate(
    firstName: string, lastName: string, email: string, phone: string,
    birthdate: Option<Date>, additionalInfo: Option<string>)

  /**
   * An accepted `ContactUpdate`: every field optional. A field left out is
   * "unset" and dropped by `model_dump(exclude_unset=True)`; a field sent as
   * `null` is set, to `None`.
   */
  type ContactUpdate = ContactInput

  /** An accepted `UserCreate`. */
  datatype UserCreate = UserCreate(username: string, email: string, password: string)

  /** The errors of a required `str` field with a length limit. */
  function RequiredText(field: string, x: Input<string>, maxLength: nat): (errors: seq<FieldError>)
    ensures errors == [] <==> x.Given? && |x.value| <= maxLength
    ensures |errors| <= 1
  {
    match x
    case Missing => [FieldMissing(field)]
    case Null => [NotAString(field)]
    case Given(s) => if |s| <= maxLength then [] else [TooLong(field, maxLength)]
  }

  /** The errors of an `Optional[str]` field with a length limit: `None` and absence are both fine. */
  function OptionalText(field: string, x: Input<string>, maxLength: nat): (errors: seq<FieldError>)
    ensures errors == [] <==> !x.Given? || |x.value| <= maxLength
    ensures |errors| <= 1
  {
    if x.Given? && |x.value| > maxLength then [TooLong(field, maxLength)] else []
  }

  /** The value of an optional field after defaults: `None` unless a value was sent. */
  function OrNone<T>(x: Input<T>): (r: Option<T>)
    ensures r.Some? <==> x.Given?
    ensures r.Some? ==> r.value == x.value
  {
    if x.Given? then Some(x.value) else None
  }

  /** All the errors pydantic reports for a `ContactCreate` body, in field order. */
  function ContactCreateErrors(body: ContactInput): seq<FieldError>
  {
    RequiredText("first_name", body.firstName, FIRST_NAME_MAX)
      + RequiredText("last_name", body.lastName, LAST_NAME_MAX)
      + RequiredText("email", body.email, EMAIL_MAX)
      + RequiredText("phone", body.phone, PHONE_MAX)
      + OptionalText("additional_info", body.additionalInfo, ADDITIONAL_INFO_MAX)
  }

  /**
   * `ContactCreate(**body)`: accepted exactly when the four text fields are
   * present and within 50, 50, 100 and 20 characters and `additional_info`, if
   * sent, is within 255; `birthdate` and `additional_info` default to `None`.
   */
  function ParseContactCreate(body: ContactInput): (r: Result<ContactCreate, seq<FieldError>>)
    ensures r.Ok? <==>
      && body.firstName.Given? && |body.firstName.value| <= 50
      && body.lastName.Given? && |body.lastName.value| <= 50
      && body.email.Given? && |body.email.value| <= 100
      && body.phone.Given? && |body.phone.value| <= 20
      && (body.additionalInfo.Given? ==> |body.additionalInfo.value| <= 255)
    ensures r.Ok? ==>
      && r.value.firstName == body.firstName.value && r.value.lastName == body.lastName.value
      && r.value.email == body.email.value && r.value.phone == body.phone.value
      && r.value.birthdate == OrNone(body.birthdate)
      && r.value.additionalInfo == OrNone(body.additionalInfo)
    ensures r.Err? ==> |r.error| > 0
  {
    var errors := ContactCreateErrors(body);
    if errors == [] then
      Ok(ContactCreate(body.firstName.value, body.lastName.value, body.email.value, body.phone.value,
                       OrNone(body.birthdate), OrNone(body.additionalInfo)))
    else
      Err(errors)
  }

  /** `ContactUpdate(**body)`: every field is optional and unlimited, so every body is accepted as sent. */
  function ParseContactUpdate(body: ContactInput): (r: Result<ContactUpdate, seq<FieldError>>)
    ensures r.Ok? && r.value == body
  {
    Ok(body)
  }

  /** `ContactUpdateBirthdate(**body)`: the birthdate is required and may not be `null`. */
  function ParseBirthdateUpdate(birthdate: Input<Date>): (r: Result<Date, seq<FieldError>>)
    ensures r.Ok? <==> birthdate.Given?
    ensures r.Ok? ==> r.value == birthdate.value
  {
    match birthdate
    case Given(d) => Ok(d)
    case Missing => Err([FieldMissing("birthdate")])
    case Null => Err([NotADate("birthdate")])
  }

  /** The errors of a required `str` field without a limit. */
  function RequiredString(field: string, x: Input<string>): (errors: seq<FieldError>)
    ensures errors == [] <==> x.Given?
    ensures |errors| <= 1
  {
    match x
    case Missing => [FieldMissing(field)]
    case Null => [NotAString(field)]
    case Given(_) => []
  }

  /** `UserCreate(**body)`: username, email and password are all required. */
  function ParseUserCreate(username: Input<string>, email: Input<string>, password: Input<string>)
    : (r: Result<UserCreate, seq<FieldError>>)
    ensures r.Ok? <==> username.Given? && email.Given? && password.Given?
    ensures r.Ok? ==> r.value == UserCreate(username.value, email.value, password.value)
    ensures r.Err? ==> |r.error| > 0
  {
    var errors := RequiredString("username", username) + RequiredString("email", email)
                 + RequiredString("password", password);
    if errors == [] then Ok(UserCreate(username.value, email.value, password.value)) else Err(errors)
  }
}
