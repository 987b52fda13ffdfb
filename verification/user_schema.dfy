/** The record schemas of src/lib/userSchema.ts as parse functions from a raw
    object (a map from key to JavaScript value, a missing key being `undefined`)
    to a typed record with defaults filled in. Unknown keys are dropped, as the
    schema library does for plain objects. The e-mail format check is the
    parameter `isEmail`. */
module UserSchema {
  import opened Wrappers

  /** The JavaScript values a user record can hold. Numbers and dates are
      integers (a date by its millisecond timestamp). */
  datatype Value = Undefined | Null | Str(s: string) | Bool(b: bool) | Num(n: int) | Date(ms: int)

  type RawObject = map<string, Value>

  function Get(obj: RawObject, key: string): Value
  {
    if key in obj then obj[key] else Undefined
  }

  /** A field that is `.nullable().optional()`: absent, explicitly null, or present. */
  datatype Maybe<+T> = Missing | NullValue | Present(value: T)

  /** The outcome for one field: its parsed value, or refused. */
  datatype Field<+T> = Ok(value: T) | Refused

  function RequiredString(v: Value): Field<string>
  {
    if v.Str? then Ok(v.s) else Refused
  }

  function EmailString(isEmail: string -> bool, v: Value): Field<string>
  {
    if v.Str? && isEmail(v.s) then Ok(v.s) else Refused
  }

  /** `.default(d)` replaces only `undefined`; `null` is still refused. */
  function BoolWithDefault(v: Value, default: bool): Field<bool>
  {
    match v
    case Undefined => Ok(default)
    case Bool(b) => Ok(b)
    case _ => Refused
  }

  function StringWithDefault(v: Value, default: string): Field<string>
  {
    match v
    case Undefined => Ok(default)
    case Str(s) => Ok(s)
    case _ => Refused
  }

  function OptionalString(v: Value): Field<Maybe<string>>
  {
    match v
    case Undefined => Ok(Missing)
    case Null => Ok(NullValue)
    case Str(s) => Ok(Present(s))
    case _ => Refused
  }

  function OptionalNumber(v: Value): Field<Maybe<int>>
  {
    match v
    case Undefined => Ok(Missing)
    case Null => Ok(NullValue)
    case Num(n) => Ok(Present(n))
    case _ => Refused
  }

  function RequiredDate(v: Value): Field<int>
  {
    if v.Date? then Ok(v.ms) else Refused
  }

  datatype User = User(
    id: string, name: string, email: string, emailVerified: bool,
    image: Maybe<string>, premium: bool, role: string, banned: bool,
    banReason: Maybe<string>, banExpires: Maybe<int>, createdAt: int, updatedAt: int)

  datatype UserDetails = UserDetails(id: string, name: string, email: string,
                                     emailVerified: bool, image: Maybe<string>)

  datatype BasicUser = BasicUser(id: string, name: string, email: string, image: Maybe<string>)

  /** The key of a refused field, or nothing when the field parsed. */
  function Refusal(key: string, ok: bool): (r: seq<string>)
  {
    if ok then [] else [key]
  }

  const DefaultRole := "user"

  function ParseUser(isEmail: string -> bool, obj: RawObject): (r: Result<User, seq<string>>)
    ensures r.Success? <==>
      && Get(obj, "id").Str? && Get(obj, "name").Str?
      && Get(obj, "email").Str? && isEmail(Get(obj, "email").s)
      && (Get(obj, "emailVerified").Undefined? || Get(obj, "emailVerified").Bool?)
      && (Get(obj, "image").Undefined? || Get(obj, "image").Null? || Get(obj, "image").Str?)
      && (Get(obj, "premium").Undefined? || Get(obj, "premium").Bool?)
      && (Get(obj, "role").Undefined? || Get(obj, "role").Str?)
      && (Get(obj, "banned").Undefined? || Get(obj, "banned").Bool?)
      && (Get(obj, "banReason").Undefined? || Get(obj, "banReason").Null? || Get(obj, "banReason").Str?)
      && (Get(obj, "banExpires").Undefined? || Get(obj, "banExpires").Null? || Get(obj, "banExpires").Num?)
      && Get(obj, "createdAt").Date? && Get(obj, "updatedAt").Date?
    ensures r.Success? ==>
      && r.value.id == Get(obj, "id").s && r.value.name == Get(obj, "name").s
      && r.value.email == Get(obj, "email").s
      && r.value.createdAt == Get(obj, "createdAt").ms && r.value.updatedAt == Get(obj, "updatedAt").ms
    ensures r.Failure? ==> r.error != []
  {
    var id := RequiredString(Get(obj, "id"));
    var name := RequiredString(Get(obj, "name"));
    var email := EmailString(isEmail, Get(obj, "email"));
    var emailVerified := BoolWithDefault(Get(obj, "emailVerified"), false);
    var image := OptionalString(Get(obj, "image"));
    var premium := BoolWithDefault(Get(obj, "premium"), false);
    var role := StringWithDefault(Get(obj, "role"), DefaultRole);
    var banned := BoolWithDefault(Get(obj, "banned"), false);
    var banReason := OptionalString(Get(obj, "banReason"));
    var banExpires := OptionalNumber(Get(obj, "banExpires"));
    var createdAt := RequiredDate(Get(obj, "createdAt"));
    var updatedAt := RequiredDate(Get(obj, "updatedAt"));
    if && id.Ok? && name.Ok? && email.Ok? && emailVerified.Ok? && image.Ok? && premium.Ok?
       && role.Ok? && banned.Ok? && banReason.Ok? && banExpires.Ok? && createdAt.Ok? && updatedAt.Ok?
    then
      Success(User(id.value, name.value, email.value, emailVerified.value, image.value,
                   premium.value, role.value, banned.value, banReason.value, banExpires.value,
                   createdAt.value, updatedAt.value))
    else
      Failure(Refusal("id", id.Ok?) + Refusal("name", name.Ok?) + Refusal("email", email.Ok?)
              + Refusal("emailVerified", emailVerified.Ok?) + Refusal("image", image.Ok?)
              + Refusal("premium", premium.Ok?) + Refusal("role", role.Ok?)
              + Refusal("banned", banned.Ok?) + Refusal("banReason", banReason.Ok?)
              + Refusal("banExpires", banExpires.Ok?) + Refusal("createdAt", createdAt.Ok?)
              + Refusal("updatedAt", updatedAt.Ok?))
  }

  function ParseUserDetails(isEmail: string -> bool, obj: RawObject): (r: Result<UserDetails, seq<string>>)
    ensures r.Success? <==>
      && Get(obj, "id").Str? && Get(obj, "name").Str?
      && Get(obj, "email").Str? && isEmail(Get(obj, "email").s)
      && (Get(obj, "emailVerified").Undefined? || Get(obj, "emailVerified").Bool?)
      && (Get(obj, "image").Undefined? || Get(obj, "image").Null? || Get(obj, "image").Str?)
    ensures r.Success? ==>
      r.value.id == Get(obj, "id").s && r.value.name == Get(obj, "name").s && r.value.email == Get(obj, "email").s
    ensures r.Success? ==>
      && (r.value.image.Missing? <==> Get(obj, "image").Undefined?)
      && (r.value.image.NullValue? <==> Get(obj, "image").Null?)
      && (Get(obj, "image").Str? ==> r.value.image == Present(Get(obj, "image").s))
    ensures r.Failure? ==> r.error != []
  {
    var id := RequiredString(Get(obj, "id"));
    var name := RequiredString(Get(obj, "name"));
    var email := EmailString(isEmail, Get(obj, "email"));
    var emailVerified := BoolWithDefault(Get(obj, "emailVerified"), false);
    var image := OptionalString(Get(obj, "image"));
    if id.Ok? && name.Ok? && email.Ok? && emailVerified.Ok? && image.Ok? then
      Success(UserDetails(id.value, name.value, email.value, emailVerified.value, image.value))
    else
      Failure(Refusal("id", id.Ok?) + Refusal("name", name.Ok?) + Refusal("email", email.Ok?)
              + Refusal("emailVerified", emailVerified.Ok?) + Refusal("image", image.Ok?))
  }

  function ParseBasicUser(isEmail: string -> bool, obj: RawObject): (r: Result<BasicUser, seq<string>>)
    ensures r.Success? <==>
      && Get(obj, "id").Str? && Get(obj, "name").Str?
      && Get(obj, "email").Str? && isEmail(Get(obj, "email").s)
      && (Get(obj, "image").Undefined? || Get(obj, "image").Null? || Get(obj, "image").Str?)
    ensures r.Success? ==>
      r.value.id == Get(obj, "id").s && r.value.name == Get(obj, "name").s && r.value.email == Get(obj, "email").s
    ensures r.Success? ==>
      && (r.value.image.Missing? <==> Get(obj, "image").Undefined?)
      && (r.value.image.NullValue? <==> Get(obj, "image").Null?)
      && (Get(obj, "image").Str? ==> r.value.image == Present(Get(obj, "image").s))
    ensures r.Failure? ==> r.error != []
  {
    var id := RequiredString(Get(obj, "id"));
    var name := RequiredString(Get(obj, "name"));
    var email := EmailString(isEmail, Get(obj, "email"));
    var image := OptionalString(Get(obj, "image"));
    if id.Ok? && name.Ok? && email.Ok? && image.Ok? then
      Success(BasicUser(id.value, name.value, email.value, image.value))
    else
      Failure(Refusal("id", id.Ok?) + Refusal("name", name.Ok?) + Refusal("email", email.Ok?)
              + Refusal("image", image.Ok?))
  }

  /** Missing flags and role take their defaults: not verified, not premium, not
      banned, role `user`. A present flag keeps its value. */
  lemma UserDefaults(isEmail: string -> bool, obj: RawObject)
    requires ParseUser(isEmail, obj).Success?
    ensures var u := ParseUser(isEmail, obj).value;
      && (u.emailVerified <==> Get(obj, "emailVerified") == Bool(true))
      && (u.premium <==> Get(obj, "premium") == Bool(true))
      && (u.banned <==> Get(obj, "banned") == Bool(true))
      && (Get(obj, "role").Undefined? ==> u.role == DefaultRole)
      && (Get(obj, "role").Str? ==> u.role == Get(obj, "role").s)
  {
  }

  /** The optional fields accept absence and `null`, and keep which of the two it was. */
  lemma UserOptionalFields(isEmail: string -> bool, obj: RawObject)
    requires ParseUser(isEmail, obj).Success?
    ensures var u := ParseUser(isEmail, obj).value;
      && (u.image.Missing? <==> Get(obj, "image").Undefined?)
      && (u.image.NullValue? <==> Get(obj, "image").Null?)
      && (u.banReason.Missing? <==> Get(obj, "banReason").Undefined?)
      && (u.banReason.NullValue? <==> Get(obj, "banReason").Null?)
      && (u.banExpires.Missing? <==> Get(obj, "banExpires").Undefined?)
      && (u.banExpires.NullValue? <==> Get(obj, "banExpires").Null?)
      && (Get(obj, "image").Str? ==> u.image == Present(Get(obj, "image").s))
      && (Get(obj, "banReason").Str? ==> u.banReason == Present(Get(obj, "banReason").s))
      && (Get(obj, "banExpires").Num? ==> u.banExpires == Present(Get(obj, "banExpires").n))
  {
  }

  /** A null flag is refused: the default applies to a missing flag only. */
  lemma NullFlagRefused(isEmail: string -> bool, obj: RawObject)
    requires Get(obj, "emailVerified").Null?
    ensures ParseUser(isEmail, obj).Failure?
    ensures "emailVerified" in ParseUser(isEmail, obj).error
  {
  }

  /** The user-details schema defaults a missing verification flag to false. */
  lemma DetailsDefaultNotVerified(isEmail: string -> bool, obj: RawObject)
    requires ParseUserDetails(isEmail, obj).Success?
    ensures ParseUserDetails(isEmail, obj).value.emailVerified <==> Get(obj, "emailVerified") == Bool(true)
  {
  }

  /** The basic schema has no verification flag: whatever that key holds, even a
      value the other schemas refuse, the basic parse is the same. */
  lemma BasicIgnoresEmailVerified(isEmail: string -> bool, obj: RawObject, v: Value)
    ensures ParseBasicUser(isEmail, obj["emailVerified" := v]) == ParseBasicUser(isEmail, obj)
  {
    var obj' := obj["emailVerified" := v];
    assert forall k :: k != "emailVerified" ==> Get(obj', k) == Get(obj, k);
    assert "id" != "emailVerified" && "name" != "emailVerified" && "email" != "emailVerified"
        && "image" != "emailVerified";
  }
}
