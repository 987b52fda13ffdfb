/** Where the sign-in form's e-mail outcome comes from, given the user store:
    `checkEmail` (src/actions/email-check.ts) asks whether a row with exactly
    that address exists, and the form then fetches
    `/api/user/email?email=${email}` (src/app/api/user/email/route.ts) for the
    row's name and verification flag. The form writes the address into that URL
    unencoded, so the route can read back a different address; `OutcomeAsWritten`
    is that behaviour and `Outcome` the one with the address passed through
    `encodeURIComponent`. */
module LoginLookup {
  import opened Wrappers
  import opened Text
  import opened QueryString
  import opened LoginForm

  datatype Account = Account(name: string, emailVerified: bool)

  /** The user rows, by address. */
  type UserStore = map<string, Account>

  /** The body of the user-details route, as the form reads it, for the address
      the route read from its query. An empty address (status 400) and an
      unknown one both answer with an error body, which carries neither field. */
  function DetailsRoute(db: UserStore, email: string): (d: Details)
    ensures d.Details?
    ensures d.emailVerified <==> email != "" && email in db && db[email].emailVerified
    ensures d.name.Some? <==> email != "" && email in db
    ensures d.name.Some? ==> d.name.value == db[email].name
  {
    if email != "" && email in db then Details(db[email].emailVerified, Some(db[email].name))
    else Details(false, None)
  }

  /** The e-mail outcome as the form produces it: the details address is
      interpolated raw into the request URL. */
  function OutcomeAsWritten(db: UserStore, email: string): (o: EmailOutcome)
    ensures o.NotFound? <==> email !in db
    // the details describe the account stored under the address the route
    // reads back, which for an address with `+`, `&` or `#` is another one
    ensures o.Exists? ==>
      && o.details.Details?
      && (o.details.emailVerified <==>
            var read := ReceivedValue(email); read != "" && read in db && db[read].emailVerified)
    // an address of characters the URL keeps verbatim is read back as it is
    ensures o.Exists? && AllVerbatim(email) ==>
      && o.details.Details?
      && (o.details.emailVerified <==> email != "" && db[email].emailVerified)
    // the name, which the form needs to greet, is that of the account read back
    ensures o.Exists? ==>
      && o.details.Details?
      && (o.details.name.Some? <==> var read := ReceivedValue(email); read != "" && read in db)
      && (o.details.name.Some? ==> o.details.name.value == db[ReceivedValue(email)].name)
  {
    ReceivedValueOfVerbatim(email);
    if email in db then Exists(DetailsRoute(db, ReceivedValue(email))) else NotFound
  }

  /** The e-mail outcome with the details address encoded before it is
      interpolated. */
  function Outcome(db: UserStore, email: string): (o: EmailOutcome)
    ensures o.NotFound? <==> email !in db
  {
    if email in db then Exists(DetailsRoute(db, ReceivedValue(EncodeComponent(email)))) else NotFound
  }

  /** The two versions differ only on addresses with characters the URL does
      not keep verbatim: for any other address the raw interpolation reads
      back the same details as the encoded one. */
  lemma AsWrittenAgreesOnVerbatim(db: UserStore, email: string)
    requires AllVerbatim(email)
    ensures OutcomeAsWritten(db, email) == Outcome(db, email)
  {
    ReceivedValueOfVerbatim(email);
    EncodeComponentRoundTrip(email);
  }

  /** With the address encoded, the form's verdict agrees with the user store:
      the account is verified exactly when the store says so, and it is greeted
      by the first word of the stored name. */
  lemma OutcomeMatchesStore(db: UserStore, email: string)
    requires email != ""
    ensures Verified(Outcome(db, email)) <==> email in db && db[email].emailVerified
    ensures Verified(Outcome(db, email)) ==> GreetingName(Outcome(db, email)) == FirstSegment(db[email].name, ' ')
  {
    EncodeComponentRoundTrip(email);
  }

  /** With the address encoded, submitting the address of an account opens the
      password stage exactly when the account is verified. */
  lemma CorrectedEntersPasswordStage(db: UserStore, f: Form, email: string)
    requires email != "" && !f.ShowPassword()
    ensures var r := OnEmailSubmit(f, email, Outcome(db, email));
      r.form.ShowPassword() <==> email in db && db[email].emailVerified
    ensures var r := OnEmailSubmit(f, email, Outcome(db, email));
      r.form.ShowPassword() ==> r.form.stage == CollectPassword(email, FirstSegment(db[email].name, ' '))
  {
    OutcomeMatchesStore(db, email);
  }

  /** The environment the form runs in when its outcomes come from the store. */
  function StoreEnv(db: UserStore, signIn: (string, string) -> SignInOutcome): Env
  {
    Env(email => Outcome(db, email), signIn)
  }

  /** Whatever is submitted, the form only ever asks for a password for an
      account the store holds as verified. */
  lemma CorrectedSignInOnlyForVerified(db: UserStore, signIn: (string, string) -> SignInOutcome, submits: seq<Values>)
    ensures var g := Run(StoreEnv(db, signIn), Initial, submits);
      g.ShowPassword() ==> g.stage.email in db && db[g.stage.email].emailVerified
  {
    var env := StoreEnv(db, signIn);
    PasswordStageOnlyForVerified(env, submits);
    var g := Run(env, Initial, submits);
    if g.ShowPassword() {
      OutcomeMatchesStore(db, g.stage.email);
    }
  }

  /** As written, a verified account whose address holds a `+` cannot sign in:
      the route reads the `+` as a space, finds no account under that address,
      and the form reports the account as not activated. */
  lemma AsWrittenRejectsPlusAddress(db: UserStore, before: string, after: string)
    requires AllVerbatim(before) && AllVerbatim(after)
    requires before + "+" + after in db && db[before + "+" + after].emailVerified
    requires before + " " + after !in db
    ensures var r := OnEmailSubmit(Initial, before + "+" + after, OutcomeAsWritten(db, before + "+" + after));
      && !r.form.ShowPassword() && r.form.emailError && Toast(AccountNotActivated) in r.effects
  {
    var email := before + "+" + after;
    PlusReadAsSpace(before, after);
    assert OutcomeAsWritten(db, email) == Exists(Details(false, None));
  }

  /** The route reads the address `before+after` as `before after`. */
  lemma PlusReadAsSpace(before: string, after: string)
    requires AllVerbatim(before) && AllVerbatim(after)
    ensures ReceivedValue(before + "+" + after) == before + " " + after
  {
    var email := before + "+" + after;
    assert forall i :: 0 <= i < |email| ==> Plain(email[i]) && email[i] != '%' by {
      forall i | 0 <= i < |email|
        ensures Plain(email[i]) && email[i] != '%'
      {
        if i < |before| {
          assert email[i] == before[i];
        } else if i > |before| {
          assert email[i] == after[i - |before| - 1];
        }
      }
    }
    ReceivedValueOfPlain(email);
    FormDecodeWithoutEscapes(email);
    PlusToSpaceOfJoin(before, after);
  }

  lemma PlusToSpaceOfJoin(before: string, after: string)
    requires AllVerbatim(before) && AllVerbatim(after)
    ensures PlusToSpace(before + "+" + after) == before + " " + after
  {
    var email := before + "+" + after;
    var r := PlusToSpace(email);
    var want := before + " " + after;
    forall i | 0 <= i < |r|
      ensures r[i] == want[i]
    {
      assert r[i] == (if email[i] == '+' then ' ' else email[i]);
      if i < |before| {
        assert email[i] == before[i] && want[i] == before[i];
      } else if i > |before| {
        assert email[i] == after[i - |before| - 1] && want[i] == after[i - |before| - 1];
      }
    }
  }

  /** An instance: the verified account `a+b@c.pl` is reported as not activated. */
  lemma PlusAddressExample()
    ensures var db := map["a+b@c.pl" := Account("Jan Kowalski", true)];
      var r := OnEmailSubmit(Initial, "a+b@c.pl", OutcomeAsWritten(db, "a+b@c.pl"));
      !r.form.ShowPassword() && Toast(AccountNotActivated) in r.effects
  {
    var db := map["a+b@c.pl" := Account("Jan Kowalski", true)];
    assert "a" + "+" + "b@c.pl" == "a+b@c.pl";
    assert "a" + " " + "b@c.pl" != "a+b@c.pl" by {
      assert ("a" + " " + "b@c.pl")[1] == ' ';
    }
    AsWrittenRejectsPlusAddress(db, "a", "b@c.pl");
  }
}
