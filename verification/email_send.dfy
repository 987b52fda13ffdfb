/** The e-mail server actions of src/actions/email.ts: the module's start-up
    checks of its configuration, `sendEmail`, which normalises the message
    before handing it to the mail provider, and `handleEmailError`. The
    provider's answer is the parameter `provider`. */
module EmailSend {
  import opened Wrappers
  import opened Text

  /** The sender configuration read from the environment at module load. */
  datatype Config = Config(apiKey: string, from: string)

  const MissingApiKey := "SENDGRID_API_KEY environment variable is not set"
  const MissingFrom := "Email from environment variable is not set"

  /** Loading the module throws when either variable is unset or empty. */
  function LoadConfig(apiKey: Option<string>, from: Option<string>): (r: Result<Config, string>)
    ensures r.Success? <==> apiKey.Some? && apiKey.value != "" && from.Some? && from.value != ""
    ensures r.Success? ==> r.value == Config(apiKey.value, from.value)
    ensures (apiKey.None? || apiKey.value == "") ==> r == Failure(MissingApiKey)
  {
    if apiKey.None? || apiKey.value == "" then Failure(MissingApiKey)
    else if from.None? || from.value == "" then Failure(MissingFrom)
    else Success(Config(apiKey.value, from.value))
  }

  datatype EmailData = EmailData(to: string, subject: string, text: string)

  datatype Message = Message(to: string, from: string, subject: string, text: string)

  /** The provider's answer: the status code of its response, or a rejection. */
  datatype ProviderAnswer = Status(code: int) | Rejected

  datatype SendResult = SendResult(success: bool, error: Option<string>)

  const SendFailed := "Wystąpił błąd podczas wysyłania emaila"
  const Accepted := 202

  /** The message handed to the provider: the recipient lower-cased then
      trimmed, the subject and text trimmed, and the configured sender. */
  function BuildMessage(config: Config, data: EmailData): (m: Message)
    ensures m.from == config.from
    ensures m.to == Trim(ToLower(data.to))
    ensures m.subject == Trim(data.subject) && m.text == Trim(data.text)
    ensures Trimmed(m.to) && IsLower(m.to) && Trimmed(m.subject) && Trimmed(m.text)
  {
    var to := Trim(ToLower(data.to));
    LowerTrimCommute(data.to);
    ToLowerIdempotent(Trim(data.to));
    Message(to, config.from, Trim(data.subject), Trim(data.text))
  }

  /** `sendEmail`: success exactly when the provider answers 202; every other
      answer, and a rejection, is the same fixed failure. Nothing escapes. */
  function SendEmail(config: Config, provider: Message -> ProviderAnswer, data: EmailData): (r: SendResult)
    ensures r.success <==> provider(BuildMessage(config, data)) == Status(Accepted)
    ensures r.success ==> r.error.None?
    ensures !r.success ==> r.error == Some(SendFailed)
  {
    match provider(BuildMessage(config, data))
    case Status(code) =>
      if code == Accepted then SendResult(true, None) else SendResult(false, Some(SendFailed))
    case Rejected => SendResult(false, Some(SendFailed))
  }

  /** Whitespace to put before and after each field of a request. */
  datatype Padding = Padding(before: string, after: string)

  predicate IsPadding(pad: Padding)
  {
    AllWhitespace(pad.before) && AllWhitespace(pad.after)
  }

  function Pad(pad: Padding, s: string): string
  {
    pad.before + s + pad.after
  }

  /** Sending normalises: a request whose recipient differs only in ASCII
      letter case, and whose fields each carry their own extra whitespace
      around them, hands the provider the same message, and so gets the same
      result. */
  lemma SendNormalizes(config: Config, provider: Message -> ProviderAnswer, data: EmailData,
                       to: string, toPad: Padding, subjectPad: Padding, textPad: Padding)
    requires ToLower(to) == ToLower(data.to)
    requires IsPadding(toPad) && IsPadding(subjectPad) && IsPadding(textPad)
    ensures var other := EmailData(Pad(toPad, to), Pad(subjectPad, data.subject), Pad(textPad, data.text));
      && BuildMessage(config, other) == BuildMessage(config, data)
      && SendEmail(config, provider, other) == SendEmail(config, provider, data)
  {
    BuildNormalizes(config, data, EmailData(Pad(toPad, to), Pad(subjectPad, data.subject), Pad(textPad, data.text)),
                    to, toPad, subjectPad, textPad);
  }

  /** The message-level half of `SendNormalizes`. */
  lemma BuildNormalizes(config: Config, data: EmailData, other: EmailData,
                        to: string, toPad: Padding, subjectPad: Padding, textPad: Padding)
    requires ToLower(to) == ToLower(data.to)
    requires IsPadding(toPad) && IsPadding(subjectPad) && IsPadding(textPad)
    requires other == EmailData(Pad(toPad, to), Pad(subjectPad, data.subject), Pad(textPad, data.text))
    ensures BuildMessage(config, other) == BuildMessage(config, data)
  {
    SameRecipient(to, data.to, toPad.before, toPad.after);
    TrimAbsorbsWhitespace(subjectPad.before, data.subject, subjectPad.after);
    TrimAbsorbsWhitespace(textPad.before, data.text, textPad.after);
  }

  /** Two recipients equal up to case, one padded with whitespace, normalise
      to the same address. */
  lemma SameRecipient(to: string, to': string, p: string, q: string)
    requires ToLower(to) == ToLower(to')
    requires AllWhitespace(p) && AllWhitespace(q)
    ensures Trim(ToLower(p + to + q)) == Trim(ToLower(to'))
  {
    ToLowerConcat(p, to);
    ToLowerConcat(p + to, q);
    ToLowerOfWhitespace(p);
    ToLowerOfWhitespace(q);
    TrimAbsorbsWhitespace(p, ToLower(to'), q);
  }

  /** A message built from an already built one is the same message. */
  lemma BuildMessageIdempotent(config: Config, data: EmailData)
    ensures var m := BuildMessage(config, data);
      BuildMessage(config, EmailData(m.to, m.subject, m.text)) == m
  {
    var t := Trim(ToLower(data.to));
    LowerTrimCommute(data.to);
    ToLowerIdempotent(Trim(data.to));
    assert ToLower(t) == t;
    TrimIdempotent(t);
    TrimIdempotent(data.subject);
    TrimIdempotent(data.text);
  }

  /** A thrown value: an `Error` with its message, or anything else. */
  datatype Thrown = ErrorObject(message: string) | OtherValue

  datatype ApiError = ApiError(message: string, code: Option<string>, status: Option<int>)

  const UnexpectedError := "Wystąpił nieoczekiwany błąd podczas wysyłania emaila"

  /** `handleEmailError`: status 500 always; an `Error` keeps its message and
      anything else gets the fixed fallback. */
  function HandleEmailError(e: Thrown): (r: ApiError)
    ensures r.status == Some(500) && r.code.None?
    ensures e.ErrorObject? ==> r.message == e.message
    ensures e.OtherValue? ==> r.message == UnexpectedError
  {
    match e
    case ErrorObject(m) => ApiError(m, None, Some(500))
    case OtherValue => ApiError(UnexpectedError, None, Some(500))
  }

  /** The response keeps what an `Error` said: two errors give the same
      response exactly when their messages agree; a thrown non-`Error` reads
      the same as an `Error` carrying the fallback text. */
  lemma HandleEmailErrorKeepsMessage(e: Thrown, e': Thrown)
    ensures e.ErrorObject? && e'.ErrorObject? ==> (HandleEmailError(e) == HandleEmailError(e') <==> e == e')
    ensures HandleEmailError(OtherValue) == HandleEmailError(ErrorObject(UnexpectedError))
  {
  }
}
