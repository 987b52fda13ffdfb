/** The two-step sign-in form of src/components/login-form.tsx as a transition
    function. The form first asks for an e-mail address; once the address is
    known to belong to a verified account it asks for the password.

    The outcomes of the calls the form makes (the `checkEmail` server action
    followed by the user-details fetch, and the authentication client's e-mail
    sign-in) are inputs. Each call of a handler is one event, completed before
    the next one starts. */
module LoginForm {
  import opened Wrappers
  import opened Text

  /** Which field the form asks for. The password stage carries the address it
      signs in with (`email`) and the first name it greets (`name`); in the
      e-mail stage both of those are still empty. */
  datatype Stage = CollectEmail | CollectPassword(email: string, firstName: string)

  /** The notices (toasts) the form raises. */
  datatype Notice =
    | AccountNotActivated    // "Konto nie zostało jeszcze aktywowane"
    | AccountNotFound        // "Nie znaleziono konta o podanym adresie e-mail"
    | TryAgainLater          // "Wystąpił błąd"
    | ResetPasswordPrompt    // "Problemy z logowaniem?", with a link to the reset page

  /** What the form does outside its own state, in order. */
  datatype Effect =
    | CheckEmail(email: string)
    | FetchUserDetails(email: string)
    | SignInEmail(email: string, password: string)
    | Toast(notice: Notice)
    | Navigate(path: string)
    | Refresh

  /** The form's state: the stage, the loading flag that disables the submit
      button, and the errors attached to the two fields (the e-mail error has
      no message). */
  datatype Form = Form(stage: Stage, isLoading: bool, emailError: bool, passwordError: Option<string>) {
    predicate ShowPassword()
    {
      stage.CollectPassword?
    }
  }

  const Initial := Form(CollectEmail, false, false, None)

  datatype Step = Step(form: Form, effects: seq<Effect>)

  /** The JSON the user-details route answers with, as far as the form reads
      it: whether its `emailVerified` is truthy and its `name` when that is a
      string. An error body has neither. `DetailsFailed` is a fetch that
      rejected or a body that was not JSON. */
  datatype Details = Details(emailVerified: bool, name: Option<string>) | DetailsFailed

  /** What the e-mail step learns: `checkEmail` said no, said yes and the
      details fetch answered, or the server action itself failed. */
  datatype EmailOutcome = NotFound | Exists(details: Details) | CheckThrew

  /** What the sign-in call does: calls `onSuccess`, calls `onError` with the
      error's message, or rejects. */
  datatype SignInOutcome = SignedIn | Rejected(message: string) | SignInThrew

  const InvalidCredentials := "Invalid email or password"
  const WrongCredentialsMessage := "Nieprawidłowe dane logowania"
  const SignInErrorMessage := "Wystąpił błąd podczas logowania"
  const MoviesPath := "/movies"
  const Greeting := "Witaj ponownie, "
  const SignInTitle := "Zaloguj się"
  /** The waving hand after the greeting's name. */
  const Wave := " \U{1F44B}\U{1F3FB}"

  /** The address the password step signs in with: the `email` state, which is
      set only together with the password stage. */
  function StoredEmail(stage: Stage): string
  {
    if stage.CollectPassword? then stage.email else ""
  }

  /** The e-mail outcome that opens the password stage: a verified account
      whose name can be split. */
  predicate Verified(o: EmailOutcome)
  {
    o.Exists? && o.details.Details? && o.details.emailVerified && o.details.name.Some?
  }

  /** The greeting name: the part of the account name before the first space. */
  function GreetingName(o: EmailOutcome): string
    requires Verified(o)
  {
    FirstSegment(o.details.name.value, ' ')
  }

  /** `onEmailSubmit`. */
  function OnEmailSubmit(f: Form, email: string, o: EmailOutcome): (r: Step)
    ensures !r.form.isLoading
    ensures r.form.passwordError == f.passwordError
    ensures |r.effects| > 0 && r.effects[0] == CheckEmail(email)
    // the password stage is entered only for a verified account, with the submitted address
    ensures Verified(o) ==> r.form == f.(stage := CollectPassword(email, GreetingName(o)), isLoading := false)
    ensures !Verified(o) ==> r.form.stage == f.stage
    ensures r.form.stage != f.stage ==> Verified(o) && r.form.stage.email == email
    // an existing but unverified account, or no account: an e-mail field error and a notice
    ensures o.Exists? && o.details.Details? && !o.details.emailVerified ==>
      r.form.emailError && Toast(AccountNotActivated) in r.effects
    ensures o.NotFound? ==> r.form.emailError && Toast(AccountNotFound) in r.effects
    // a failure, including the throw of splitting a missing name, only raises
    // the generic notice
    ensures (|| o.CheckThrew?
             || (o.Exists? && (o.details.DetailsFailed? || (o.details.emailVerified && o.details.name.None?)))) ==>
      && r.form == f.(isLoading := false)
      && Toast(TryAgainLater) in r.effects
      && (forall e :: e in r.effects && e.Toast? ==> e == Toast(TryAgainLater))
  {
    var calls := [CheckEmail(email)] + (if o.Exists? then [FetchUserDetails(email)] else []);
    var done := f.(isLoading := false);
    match o
    case NotFound => Step(done.(emailError := true), calls + [Toast(AccountNotFound)])
    case CheckThrew => Step(done, calls + [Toast(TryAgainLater)])
    case Exists(DetailsFailed) => Step(done, calls + [Toast(TryAgainLater)])
    case Exists(Details(verified, name)) =>
      if !verified then Step(done.(emailError := true), calls + [Toast(AccountNotActivated)])
      else if name.None? then
        // splitting a missing name throws, which lands in the generic handler
        Step(done, calls + [Toast(TryAgainLater)])
      else Step(done.(stage := CollectPassword(email, FirstSegment(name.value, ' '))), calls)
  }

  /** The password error shown for an `onError` with message `m`. */
  function RejectionMessage(m: string): (msg: string)
    ensures msg == WrongCredentialsMessage <==> m == InvalidCredentials
    ensures m != InvalidCredentials ==> msg == SignInErrorMessage
  {
    if m == InvalidCredentials then WrongCredentialsMessage else SignInErrorMessage
  }

  /** `onPasswordSubmit`. */
  function OnPasswordSubmit(f: Form, password: string, o: SignInOutcome): (r: Step)
    ensures password == "" ==> r == Step(f, [])
    ensures password != "" ==>
      && !r.form.isLoading
      && r.form.stage == f.stage && r.form.emailError == f.emailError
      && |r.effects| > 0 && r.effects[0] == SignInEmail(StoredEmail(f.stage), password)
    ensures password != "" && o.Rejected? ==>
      && r.form.passwordError == Some(RejectionMessage(o.message))
      && Toast(ResetPasswordPrompt) in r.effects
    ensures password != "" && o.SignInThrew? ==>
      r.form.passwordError == Some(SignInErrorMessage) && Toast(ResetPasswordPrompt) !in r.effects
    ensures password != "" && o.SignedIn? ==>
      r.form.passwordError == f.passwordError && Navigate(MoviesPath) in r.effects
  {
    if password == "" then Step(f, [])
    else
      var call := SignInEmail(StoredEmail(f.stage), password);
      var done := f.(isLoading := false);
      match o
      case SignedIn => Step(done, [call, Navigate(MoviesPath), Refresh])
      case Rejected(m) =>
        Step(done.(passwordError := Some(RejectionMessage(m))), [call, Toast(ResetPasswordPrompt)])
      case SignInThrew => Step(done.(passwordError := Some(SignInErrorMessage)), [call])
  }

  /** The field values at submit time. */
  datatype Values = Values(email: string, password: string)

  /** What the outside world answers: the e-mail step's outcome for an address,
      and the sign-in outcome for an address and a password. */
  datatype Env = Env(lookup: string -> EmailOutcome, signIn: (string, string) -> SignInOutcome)

  /** `handleSubmit`: the password handler in the password stage, the e-mail
      handler otherwise, and nothing when the field it would read is empty. */
  function HandleSubmit(env: Env, f: Form, v: Values): (r: Step)
    ensures f.ShowPassword() ==> CheckEmail(v.email) !in r.effects && r.form.stage == f.stage
    ensures !f.ShowPassword() ==> forall e :: e in r.effects ==> !e.SignInEmail?
    ensures (if f.ShowPassword() then v.password else v.email) == "" ==> r == Step(f, [])
    ensures (if f.ShowPassword() then v.password else v.email) != "" ==> !r.form.isLoading
    // the handler that runs is the one for the stage, and it starts with its call
    ensures f.ShowPassword() && v.password != "" ==>
      |r.effects| > 0 && r.effects[0] == SignInEmail(StoredEmail(f.stage), v.password)
    ensures !f.ShowPassword() && v.email != "" ==>
      |r.effects| > 0 && r.effects[0] == CheckEmail(v.email)
  {
    if f.ShowPassword() then
      if v.password == "" then Step(f, [])
      else OnPasswordSubmit(f, v.password, env.signIn(StoredEmail(f.stage), v.password))
    else if v.email == "" then Step(f, [])
    else OnEmailSubmit(f, v.email, env.lookup(v.email))
  }

  /** The card title: a greeting with the first name in the password stage. */
  function Title(f: Form): (t: string)
    ensures f.ShowPassword() ==> t == Greeting + f.stage.firstName + Wave
    ensures !f.ShowPassword() ==> t == SignInTitle
  {
    if f.ShowPassword() then Greeting + f.stage.firstName + Wave
    else SignInTitle
  }

  /** No transition leaves the password stage. */
  lemma StageMonotone(env: Env, f: Form, v: Values, email: string, o: EmailOutcome,
                      password: string, p: SignInOutcome)
    requires f.ShowPassword()
    ensures OnEmailSubmit(f, email, o).form.ShowPassword()
    ensures OnPasswordSubmit(f, password, p).form.ShowPassword()
    ensures HandleSubmit(env, f, v).form.ShowPassword()
  {
  }

  /** The form after a sequence of submits. */
  function Run(env: Env, f: Form, submits: seq<Values>): Form
    decreases |submits|
  {
    if submits == [] then f
    else Run(env, HandleSubmit(env, f, submits[0]).form, submits[1..])
  }

  /** The password stage holds a confirmed address: one the lookup reports as a
      verified account, greeted by that account's first name. */
  predicate Confirmed(env: Env, stage: Stage)
  {
    stage.CollectPassword? ==>
      stage.email != "" && Verified(env.lookup(stage.email))
      && stage.firstName == GreetingName(env.lookup(stage.email))
  }

  /** Every form reachable from the initial one by submits is idle, and its
      password stage, if reached, is for a confirmed address; once reached, the
      stage never changes again. */
  lemma {:induction false} RunInvariant(env: Env, f: Form, submits: seq<Values>)
    requires !f.isLoading && Confirmed(env, f.stage)
    ensures var g := Run(env, f, submits);
      && !g.isLoading
      && Confirmed(env, g.stage)
      && (f.ShowPassword() ==> g.stage == f.stage)
    decreases |submits|
  {
    if submits != [] {
      var next := HandleSubmit(env, f, submits[0]).form;
      assert Confirmed(env, next.stage);
      RunInvariant(env, next, submits[1..]);
    }
  }

  /** From the initial form, the password stage is only ever entered for a
      verified account. */
  lemma PasswordStageOnlyForVerified(env: Env, submits: seq<Values>)
    ensures var g := Run(env, Initial, submits);
      !g.isLoading && (g.ShowPassword() ==> g.stage.email != "" && Verified(env.lookup(g.stage.email)))
  {
    RunInvariant(env, Initial, submits);
  }
}
