/** The server action `checkEmailExistence` of src/auth/actions.ts: a cascade of
    checks ending in a database lookup. The lookup is the parameter `lookup`,
    which answers with the user row for an address, no row, or a failure; the
    e-mail format check of the schema library is the parameter `isEmail`. */
module EmailExistence {
  import opened Wrappers
  import opened Text

  /** The two columns the lookup selects. `emailVerified` is nullable. */
  datatype UserRow = UserRow(name: string, emailVerified: Option<bool>)

  datatype Lookup = Found(row: UserRow) | NoUser | LookupFailed

  /** The reply `{exists, name?, emailVerified?, error?}`; `accountExists` is its `exists`. */
  datatype Reply = Reply(accountExists: bool, name: Option<string>, emailVerified: Option<bool>, error: Option<string>)

  /** The reply together with the address the database was asked about, if any. */
  datatype Check = Check(reply: Reply, queried: Option<string>)

  const EmailRequired := "E-mail jest wymagany"
  const InvalidFormat := "Nieprawidłowy format adresu email"
  const UserNotFound := "Nie znaleziono użytkownika"
  const CheckFailed := "Wystąpił błąd podczas sprawdzania adresu email"

  /** The address as it is validated and looked up: lower-cased, then trimmed. */
  function Normalize(email: string): string
  {
    Trim(ToLower(email))
  }

  function Refuse(message: string): Reply
  {
    Reply(false, None, None, Some(message))
  }

  /** `!!value`: a null verification flag reads as not verified. */
  function Truthy(b: Option<bool>): bool
  {
    b == Some(true)
  }

  function CheckEmailExistence(isEmail: string -> bool, lookup: string -> Lookup, email: string): (c: Check)
    // exactly one of the two fields carries information: found, or the reason not
    ensures c.reply.accountExists <==> c.reply.error.None?
    ensures c.reply.accountExists ==> c.reply.name.Some? && c.reply.emailVerified.Some?
    ensures !c.reply.accountExists ==> c.reply.name.None? && c.reply.emailVerified.None?
    // the database is asked only about a well-formed normalised address
    ensures c.queried.Some? <==> email != [] && isEmail(Normalize(email))
    ensures c.queried.Some? ==> c.queried.value == Normalize(email)
    ensures email == [] ==> c.reply == Refuse(EmailRequired)
    ensures email != [] && !isEmail(Normalize(email)) ==> c.reply == Refuse(InvalidFormat)
  {
    if email == [] then Check(Refuse(EmailRequired), None)
    else
      var normalized := Normalize(email);
      CheckNormalized(isEmail, lookup, normalized)
  }

  /** The part of the cascade after the empty check, on the normalised address. */
  function CheckNormalized(isEmail: string -> bool, lookup: string -> Lookup, normalized: string): (c: Check)
    ensures c.reply.accountExists <==> c.reply.error.None?
    ensures c.reply.accountExists ==> c.reply.name.Some? && c.reply.emailVerified.Some?
    ensures !c.reply.accountExists ==> c.reply.name.None? && c.reply.emailVerified.None?
    ensures c.queried.Some? <==> isEmail(normalized)
    ensures c.queried.Some? ==> c.queried.value == normalized
    ensures !isEmail(normalized) ==> c.reply == Refuse(InvalidFormat)
  {
    if !isEmail(normalized) then Check(Refuse(InvalidFormat), None)
    else
      var reply := match lookup(normalized)
        case Found(row) => Reply(true, Some(row.name), Some(Truthy(row.emailVerified)), None)
        case NoUser => Refuse(UserNotFound)
        case LookupFailed => Refuse(CheckFailed);
      Check(reply, Some(normalized))
  }

  /** Once the address passes validation, the reply is decided by what the
      database said about the normalised address, and by nothing else. */
  lemma ReplyFollowsLookup(isEmail: string -> bool, lookup: string -> Lookup, email: string)
    requires email != [] && isEmail(Normalize(email))
    ensures var r := CheckEmailExistence(isEmail, lookup, email).reply;
      match lookup(Normalize(email))
      case Found(row) =>
        r.accountExists && r.name == Some(row.name) && r.emailVerified == Some(row.emailVerified == Some(true))
      case NoUser => r == Refuse(UserNotFound)
      case LookupFailed => r == Refuse(CheckFailed)
  {
  }

  /** Addresses that differ only in ASCII letter case or surrounding whitespace
      get the same reply and the same lookup. */
  lemma NormalizationInvariance(isEmail: string -> bool, lookup: string -> Lookup, a: string, b: string)
    requires a != [] && b != [] && Normalize(a) == Normalize(b)
    ensures CheckEmailExistence(isEmail, lookup, a) == CheckEmailExistence(isEmail, lookup, b)
  {
    assert CheckEmailExistence(isEmail, lookup, a) == CheckNormalized(isEmail, lookup, Normalize(a));
    assert CheckEmailExistence(isEmail, lookup, b) == CheckNormalized(isEmail, lookup, Normalize(b));
  }

  /** Normalising is idempotent, so an address that was already normalised is
      looked up as it is. */
  lemma NormalizeIdempotent(email: string)
    ensures Normalize(Normalize(email)) == Normalize(email)
  {
    var t := Trim(ToLower(email));
    LowerTrimCommute(email);
    ToLowerIdempotent(Trim(email));
    // t == ToLower(Trim(email)), so lower-casing it again changes nothing
    assert ToLower(t) == t;
    TrimIdempotent(t);
  }
}
