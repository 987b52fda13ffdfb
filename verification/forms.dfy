/** The form schemas of src/lib/zod.ts: what each form accepts and which issue,
    on which field, it reports otherwise. A form value is `None` when the field is
    missing from the submitted object. The e-mail format check of the schema
    library is the parameter `isEmail`. */
module Forms {
  import opened Wrappers
  import opened Text

  datatype Field = NameField | EmailField | PasswordField | ConfirmPasswordField

  /** One validation problem, attached to the field the message is shown under. */
  datatype Issue = Issue(path: Field, message: string)

  const PasswordTooShort := "Hasło musi zawierać minumum 8 znaków."
  const PasswordTooLong := "Hasło moze zawierać maksymalnie 32 znaki"
  const EmailRequired := "E-mail jest wymagany"
  const EmailInvalid := "Nieprawidłowy e-mail"
  const NameRequired := "Jak się nazywasz?"
  const NameTooLong := "Nazwa musi zawierać maksymalnie 50 znaków."
  const SignInPasswordRequired := "Hasło jest wymagane"
  const PasswordsDontMatch := "Passwords don't match"

  const MinPasswordLength := 8
  const MaxPasswordLength := 32
  const MaxNameLength := 50

  /** The message reported when a password field is missing altogether. */
  function PasswordRequired(f: Field): string
  {
    if f == ConfirmPasswordField then "confirmPassword jest wymagane" else "password jest wymagane"
  }

  /** Every check of a string schema runs and reports its own issue; a missing
      value reports only the schema's required message. */
  function PasswordIssues(f: Field, v: Option<string>): seq<Issue>
  {
    match v
    case None => [Issue(f, PasswordRequired(f))]
    case Some(s) =>
      (if Utf16Length(s) < MinPasswordLength then [Issue(f, PasswordTooShort)] else [])
      + (if Utf16Length(s) > MaxPasswordLength then [Issue(f, PasswordTooLong)] else [])
  }

  /** Length is counted in UTF-16 code units: four characters outside the Basic
      Multilingual Plane make a password of eight, which passes both bounds,
      while three make six, which is too short. */
  lemma AstralPasswordLength(s: string)
    requires forall i :: 0 <= i < |s| ==> s[i] as int > 0xFFFF
    ensures |s| == 4 ==> PasswordIssues(PasswordField, Some(s)) == []
    ensures |s| == 3 ==> PasswordIssues(PasswordField, Some(s)) == [Issue(PasswordField, PasswordTooShort)]
  {
  }

  function EmailIssues(isEmail: string -> bool, v: Option<string>): seq<Issue>
  {
    match v
    case None => [Issue(EmailField, EmailRequired)]
    case Some(s) =>
      (if Utf16Length(s) < 1 then [Issue(EmailField, EmailRequired)] else [])
      + (if !isEmail(s) then [Issue(EmailField, EmailInvalid)] else [])
  }

  function NameIssues(v: Option<string>): seq<Issue>
  {
    match v
    case None => [Issue(NameField, NameRequired)]
    case Some(s) =>
      (if Utf16Length(s) < 1 then [Issue(NameField, NameRequired)] else [])
      + (if Utf16Length(s) > MaxNameLength then [Issue(NameField, NameTooLong)] else [])
  }

  /** The sign-in password: only non-empty. */
  function SignInPasswordIssues(v: Option<string>): seq<Issue>
  {
    match v
    case None => [Issue(PasswordField, SignInPasswordRequired)]
    case Some(s) => if Utf16Length(s) < 1 then [Issue(PasswordField, SignInPasswordRequired)] else []
  }

  /** The object-level refinement. A field missing anywhere in the object
      (`aborted`) stops the object before the refinement runs; otherwise it
      reports differing passwords on `confirmPassword`. A field that is present
      but fails its own checks does not stop it. */
  function MatchIssues(aborted: bool, password: Option<string>, confirm: Option<string>): seq<Issue>
  {
    if !aborted && password.Some? && confirm.Some? && password.value != confirm.value
    then [Issue(ConfirmPasswordField, PasswordsDontMatch)]
    else []
  }

  /** Some sign-up field is missing, which aborts the object. */
  predicate SignUpAborted(name: Option<string>, email: Option<string>,
                          password: Option<string>, confirm: Option<string>)
  {
    name.None? || email.None? || password.None? || confirm.None?
  }

  datatype SignUp = SignUp(name: string, email: string, password: string, confirmPassword: string)
  datatype SignIn = SignIn(email: string, password: string)
  datatype ForgotPassword = ForgotPassword(email: string)
  datatype ResetPassword = ResetPassword(password: string, confirmPassword: string)

  /** A string within the password bounds, counted in UTF-16 code units. */
  predicate PasswordLengthOk(s: string)
  {
    MinPasswordLength <= Utf16Length(s) <= MaxPasswordLength
  }

  predicate NameOk(s: string)
  {
    1 <= Utf16Length(s) <= MaxNameLength
  }

  predicate EmailOk(isEmail: string -> bool, s: string)
  {
    s != [] && isEmail(s)
  }

  function ParseSignUp(isEmail: string -> bool, name: Option<string>, email: Option<string>,
                       password: Option<string>, confirm: Option<string>): (r: Result<SignUp, seq<Issue>>)
    ensures r.Success? <==>
      && name.Some? && NameOk(name.value)
      && email.Some? && EmailOk(isEmail, email.value)
      && password.Some? && PasswordLengthOk(password.value)
      && confirm.Some? && PasswordLengthOk(confirm.value)
      && password.value == confirm.value
    ensures r.Success? ==>
      r.value == SignUp(name.value, email.value, password.value, confirm.value)
    ensures r.Failure? ==> |r.error| > 0
    // each missing field is reported with its own required message
    ensures name.None? ==> r.Failure? && Issue(NameField, NameRequired) in r.error
    ensures email.None? ==> r.Failure? && Issue(EmailField, EmailRequired) in r.error
    ensures password.None? ==> r.Failure? && Issue(PasswordField, PasswordRequired(PasswordField)) in r.error
    ensures confirm.None? ==>
      r.Failure? && Issue(ConfirmPasswordField, PasswordRequired(ConfirmPasswordField)) in r.error
    ensures password.Some? && Utf16Length(password.value) < MinPasswordLength ==>
      r.Failure? && Issue(PasswordField, PasswordTooShort) in r.error
  {
    var issues := NameIssues(name) + EmailIssues(isEmail, email)
                  + PasswordIssues(PasswordField, password)
                  + PasswordIssues(ConfirmPasswordField, confirm)
                  + MatchIssues(SignUpAborted(name, email, password, confirm), password, confirm);
    if issues == [] then Success(SignUp(name.value, email.value, password.value, confirm.value))
    else Failure(issues)
  }

  function ParseSignIn(isEmail: string -> bool, email: Option<string>, password: Option<string>): (r: Result<SignIn, seq<Issue>>)
    ensures r.Success? <==>
      email.Some? && EmailOk(isEmail, email.value) && password.Some? && password.value != []
    ensures r.Success? ==> r.value == SignIn(email.value, password.value)
    ensures r.Failure? ==> |r.error| > 0
  {
    var issues := EmailIssues(isEmail, email) + SignInPasswordIssues(password);
    if issues == [] then Success(SignIn(email.value, password.value)) else Failure(issues)
  }

  function ParseForgotPassword(isEmail: string -> bool, email: Option<string>): (r: Result<ForgotPassword, seq<Issue>>)
    ensures r.Success? <==> email.Some? && EmailOk(isEmail, email.value)
    ensures r.Success? ==> r.value == ForgotPassword(email.value)
    ensures r.Failure? ==> forall i :: 0 <= i < |r.error| ==> r.error[i].path == EmailField
  {
    var issues := EmailIssues(isEmail, email);
    if issues == [] then Success(ForgotPassword(email.value)) else Failure(issues)
  }

  function ParseResetPassword(password: Option<string>, confirm: Option<string>): (r: Result<ResetPassword, seq<Issue>>)
    ensures r.Success? <==>
      && password.Some? && PasswordLengthOk(password.value)
      && confirm.Some? && PasswordLengthOk(confirm.value)
      && password.value == confirm.value
    ensures r.Success? ==> r.value == ResetPassword(password.value, confirm.value)
    ensures r.Failure? ==> |r.error| > 0
  {
    var issues := PasswordIssues(PasswordField, password)
                  + PasswordIssues(ConfirmPasswordField, confirm)
                  + MatchIssues(password.None? || confirm.None?, password, confirm);
    if issues == [] then Success(ResetPassword(password.value, confirm.value)) else Failure(issues)
  }

  /** No issue of a single field carries the mismatch message. */
  predicate NoMismatchMessage(issues: seq<Issue>)
  {
    forall i :: 0 <= i < |issues| ==> issues[i].message != PasswordsDontMatch
  }

  lemma FieldIssuesNeverMismatch(isEmail: string -> bool, name: Option<string>, email: Option<string>,
                                 password: Option<string>, confirm: Option<string>)
    ensures NoMismatchMessage(NameIssues(name) + EmailIssues(isEmail, email)
                              + PasswordIssues(PasswordField, password)
                              + PasswordIssues(ConfirmPasswordField, confirm))
  {
  }

  /** The mismatch issue shows up in a refusal exactly when both passwords are
      present and differ, and then only under the `confirmPassword` field. */
  lemma {:induction false} MismatchReportedIffDifferent(fieldIssues: seq<Issue>, aborted: bool,
                                                        password: Option<string>, confirm: Option<string>)
    requires NoMismatchMessage(fieldIssues)
    ensures var issues := fieldIssues + MatchIssues(aborted, password, confirm);
      && ((exists i :: 0 <= i < |issues| && issues[i].message == PasswordsDontMatch)
            <==> !aborted && password.Some? && confirm.Some? && password.value != confirm.value)
      && (forall i :: 0 <= i < |issues| && issues[i].message == PasswordsDontMatch ==>
            issues[i].path == ConfirmPasswordField)
  {
    var issues := fieldIssues + MatchIssues(aborted, password, confirm);
    if !aborted && password.Some? && confirm.Some? && password.value != confirm.value {
      assert issues[|fieldIssues|].message == PasswordsDontMatch;
    } else {
      assert issues == fieldIssues;
    }
  }

  /** Sign-up: a mismatch of the two passwords is reported iff no field is
      missing and the passwords differ, always on `confirmPassword`; differing
      passwords alone refuse the form. */
  lemma SignUpMismatchOnConfirm(isEmail: string -> bool, name: Option<string>, email: Option<string>,
                                password: Option<string>, confirm: Option<string>)
    ensures var r := ParseSignUp(isEmail, name, email, password, confirm);
      && (password.Some? && confirm.Some? && password.value != confirm.value ==> r.Failure?)
      && (r.Failure? ==>
           && ((exists i :: 0 <= i < |r.error| && r.error[i].message == PasswordsDontMatch)
                 <==> && name.Some? && email.Some? && password.Some? && confirm.Some?
                      && password.value != confirm.value)
           && (forall i :: 0 <= i < |r.error| && r.error[i].message == PasswordsDontMatch ==>
                 r.error[i].path == ConfirmPasswordField))
  {
    FieldIssuesNeverMismatch(isEmail, name, email, password, confirm);
    MismatchReportedIffDifferent(NameIssues(name) + EmailIssues(isEmail, email)
                                 + PasswordIssues(PasswordField, password)
                                 + PasswordIssues(ConfirmPasswordField, confirm),
                                 SignUpAborted(name, email, password, confirm), password, confirm);
  }

  /** Reset password: the same refinement on the same field. */
  lemma ResetMismatchOnConfirm(password: Option<string>, confirm: Option<string>)
    ensures var r := ParseResetPassword(password, confirm);
      && (password.Some? && confirm.Some? && password.value != confirm.value ==> r.Failure?)
      && (r.Failure? ==>
           && ((exists i :: 0 <= i < |r.error| && r.error[i].message == PasswordsDontMatch)
                 <==> password.Some? && confirm.Some? && password.value != confirm.value)
           && (forall i :: 0 <= i < |r.error| && r.error[i].message == PasswordsDontMatch ==>
                 r.error[i].path == ConfirmPasswordField))
  {
    var fieldIssues := PasswordIssues(PasswordField, password) + PasswordIssues(ConfirmPasswordField, confirm);
    assert NoMismatchMessage(fieldIssues);
    MismatchReportedIffDifferent(fieldIssues, password.None? || confirm.None?, password, confirm);
  }

  /** A missing field aborts the object before the refinement runs: no
      mismatch is reported when either password is absent. */
  lemma RefinementSkippedWhenMissing(password: Option<string>, confirm: Option<string>)
    requires password.None? || confirm.None?
    ensures var r := ParseResetPassword(password, confirm);
      r.Failure? && NoMismatchMessage(r.error)
  {
  }

  /** Sign-up: a missing name or e-mail also aborts the object, so differing
      passwords then go unreported. */
  lemma SignUpRefinementSkippedWhenMissing(isEmail: string -> bool, name: Option<string>, email: Option<string>,
                                           password: string, confirm: string)
    requires name.None? || email.None?
    ensures var r := ParseSignUp(isEmail, name, email, Some(password), Some(confirm));
      r.Failure? && NoMismatchMessage(r.error)
  {
    FieldIssuesNeverMismatch(isEmail, name, email, Some(password), Some(confirm));
  }

  /** The sign-in password has no upper bound, unlike the sign-up one. */
  lemma SignInPasswordUnbounded(isEmail: string -> bool, email: string, password: string)
    requires EmailOk(isEmail, email) && Utf16Length(password) > MaxPasswordLength
    ensures ParseSignIn(isEmail, Some(email), Some(password)).Success?
    ensures ParseResetPassword(Some(password), Some(password)).Failure?
  {
  }
}
