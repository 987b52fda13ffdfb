# filmbox sign-in, forms and helpers: a Dafny model

This project models the logic at the core of filmbox, a Next.js film catalogue:

- **The two-step sign-in form** (`LoginForm`). The form first asks for an e-mail address. Once the address belongs to a verified account, it greets the user by first name and asks for the password.
- **Where the form's e-mail outcome comes from** (`LoginLookup`). This covers the `checkEmail` action and the user-details route.
- **The `checkEmailExistence` server action** (`EmailExistence`). It runs a cascade: empty address, bad format, lookup of the normalised address, and failure.
- **The zod form schemas** (`Forms`): sign-up, sign-in, forgot-password and reset-password. Every string check reports its own issue. A missing field aborts the object before the password-match refinement runs.
- **The user-record schemas with defaults** (`UserSchema`).
- **The search box** (`MovieSearch`). This covers how each input change updates the suggestion list, what clicking a result does, and the year and poster shown for a suggestion.
- **The redirect countdown** (`Countdown`).
- **The SendGrid e-mail actions** (`EmailSend`). This covers configuration checks, message normalisation, the mapping of the provider's answer, and `handleEmailError`.

Two supporting modules model the JavaScript and URL machinery the code depends on:

- `Text` models `trim` with the exact ECMAScript whitespace set, ASCII `toLowerCase`, `split(sep)[0]`, and the UTF-16 `length`.
- `QueryString` models how a value interpolated raw into a request URL reaches `searchParams.get`, following the WHATWG URL Standard and its application/x-www-form-urlencoded parser. It also models `encodeURIComponent`.

Everything outside the process is a parameter. This includes the database (Prisma), the authentication client, `fetch`, SendGrid and zod's e-mail regex. Each handler call is one event that completes before the next.

## Model

| member | source | states |
|---|---|---|
| Text.TrimIsInfix | src/auth/actions.ts:24 | `trim` removes only whitespace, and only from the two ends: its result is a contiguous middle of the input with whitespace on both sides |
| Text.TrimCharacterized | src/auth/actions.ts:24 | any split of a string into whitespace, a middle with no whitespace at its ends, and whitespace has `trim`'s result as its middle |
| Text.TrimIdempotent | src/actions/email.ts:22-25 | trimming a trimmed string changes nothing |
| Text.LowerTrimCommute | src/auth/actions.ts:24 | lower-casing then trimming gives the same string as trimming then lower-casing |
| Text.ToLowerIdempotent | src/actions/email.ts:22 | a lower-cased string has no capital letter left, and lower-casing it again changes nothing |
| Text.FirstSegment | src/components/login-form.tsx:65 | `split(sep)[0]` is the longest prefix without `sep`: it is a prefix, holds no `sep`, and ends at the string's end or at a `sep` |
| Text.FirstSegmentUnique | src/components/search.tsx:67 | those three properties determine the first segment |
| Text.Utf16Length | src/lib/zod.ts:5-6 | the length zod's `min`/`max` measure is between the number of characters and twice that, and equals it when every character is in the Basic Multilingual Plane |
| Text.Utf16LengthOfChar | src/lib/zod.ts:5-6 | a character counts one code unit, or two when it is outside the Basic Multilingual Plane |
| Text.Utf16LengthConcat | src/lib/zod.ts:5-6 | the length of a concatenation is the sum of the lengths, so together with the one-character case it fixes the length of every string |
| QueryString.FormDecodeEncoded | src/app/api/user/email/route.ts:8 | form-decoding the output of `encodeURIComponent` gives back the original value |
| QueryString.EncodeComponentRoundTrip | src/app/api/user/email/route.ts:7-8 | a value encoded with `encodeURIComponent` before interpolation reaches `searchParams.get` unchanged |
| QueryString.FormDecodeWithoutEscapes | src/app/api/movies/search/route.ts:13 | a raw value with no `%` is decoded only by turning each `+` into a space |
| Forms.ParseSignUp | src/lib/zod.ts:18-26 | sign-up data is accepted exactly when: the name is 1-50 code units; the e-mail is non-empty and well-formed; both passwords are 8-32 code units; and the two are equal. The accepted value is the input. Each missing field gets its own "required" issue, and a password under 8 code units gets the length issue |
| Forms.AstralPasswordLength | src/lib/zod.ts:5-6 | a password of four characters outside the Basic Multilingual Plane has eight code units and passes both length bounds; three such characters are too short |
| Forms.ParseSignIn | src/lib/zod.ts:28-36 | sign-in data is accepted exactly when the e-mail is non-empty and well-formed and the password is non-empty |
| Forms.ParseForgotPassword | src/lib/zod.ts:38-40 | accepted exactly for a non-empty, well-formed e-mail; every issue is on the e-mail field |
| Forms.ParseResetPassword | src/lib/zod.ts:42-48 | accepted exactly when both passwords are within 8-32 code units and equal |
| Forms.FieldIssuesNeverMismatch | src/lib/zod.ts:3-16 | no field-level check reports the "Passwords don't match" message |
| Forms.MismatchReportedIffDifferent | src/lib/zod.ts:23-26 | the refinement adds the mismatch issue exactly when no field of the object is missing and the two passwords differ, always on `confirmPassword` |
| Forms.SignUpMismatchOnConfirm | src/lib/zod.ts:18-26 | differing sign-up passwords always refuse the form. A refusal reports the mismatch exactly when all four fields are present and the passwords differ, always on `confirmPassword` |
| Forms.SignUpRefinementSkippedWhenMissing | src/lib/zod.ts:18-26 | with the name or the e-mail missing, sign-up is refused without a mismatch issue, even when both passwords are given and differ |
| Forms.ResetMismatchOnConfirm | src/lib/zod.ts:42-48 | the same for the reset-password form |
| Forms.RefinementSkippedWhenMissing | src/lib/zod.ts:42-48 | when either password is missing the form is refused without a mismatch issue |
| Forms.SignInPasswordUnbounded | src/lib/zod.ts:28-31 | a password longer than 32 code units passes sign-in but not the reset form |
| UserSchema.ParseUser | src/lib/userSchema.ts:4-17 | a user record parses exactly when each field has an accepted shape: required strings, a well-formed e-mail, flags and role absent or of their type, nullable optionals, and dates. Required fields are copied, and a refusal names at least one key |
| UserSchema.ParseUserDetails | src/lib/userSchema.ts:23-29 | the same for the five user-details fields; the image keeps whether it was absent, null or a string, and a string is kept as given |
| UserSchema.ParseBasicUser | src/lib/userSchema.ts:34-39 | the same for the four basic fields, with the image kept the same way |
| UserSchema.UserDefaults | src/lib/userSchema.ts:8-12 | missing flags default to false and a missing role to `user`; present values are kept |
| UserSchema.UserOptionalFields | src/lib/userSchema.ts:9-14 | image, ban reason and ban expiry accept both absence and null and keep which of the two it was; a present value is kept as given |
| UserSchema.NullFlagRefused | src/lib/userSchema.ts:8 | a null `emailVerified` is refused: the default replaces only a missing value |
| UserSchema.DetailsDefaultNotVerified | src/lib/userSchema.ts:27 | in user details, a missing verification flag reads as not verified |
| UserSchema.BasicIgnoresEmailVerified | src/lib/userSchema.ts:34-39 | the basic schema's result does not depend on the `emailVerified` key at all |
| EmailExistence.CheckEmailExistence | src/auth/actions.ts:6-62 | the reply says the account exists exactly when it carries no error, and carries name and verification flag exactly then. The database is asked only about a non-empty address whose lower-cased, trimmed form is well-formed, and then about that form. An empty or ill-formed address gets its own refusal |
| EmailExistence.ReplyFollowsLookup | src/auth/actions.ts:33-52 | after validation the reply is decided by the lookup: a found row gives its name and `!!emailVerified`; no row and a failure give their refusals |
| EmailExistence.NormalizationInvariance | src/auth/actions.ts:24 | two non-empty addresses with the same lower-cased, trimmed form get the same reply and the same lookup |
| EmailExistence.NormalizeIdempotent | src/auth/actions.ts:24 | normalising an address twice is normalising it once |
| LoginForm.OnEmailSubmit | src/components/login-form.tsx:53-95 | the e-mail step always ends idle and calls `checkEmail` first. It enters the password stage exactly for a verified account with a name, keeping the submitted address and greeting by first name. An unverified account, or no account, sets the e-mail error with its notice. A failure leaves the form as it was and shows the generic notice and no other; the failures include a verified account without a name, whose `split` throws |
| LoginForm.RejectionMessage | src/components/login-form.tsx:127-129 | the password error says "invalid credentials" exactly for the auth client's "Invalid email or password", and the generic sign-in error for every other message |
| LoginForm.OnPasswordSubmit | src/components/login-form.tsx:97-143 | an empty password does nothing. Otherwise the form signs in with the stored address, ends idle, and never leaves the password stage. Success navigates to `/movies`; an `onError` sets the password error and always offers the password reset; a throw sets the generic error without the offer |
| LoginForm.HandleSubmit | src/components/login-form.tsx:145-154 | in the password stage, submit signs in first with the stored address and the typed password, never checks an address and stays in the stage. Otherwise it first checks the typed address and never signs in. Nothing happens when the field it reads is empty |
| LoginForm.Title | src/components/login-form.tsx:161 | the title is the greeting, the first name and a waving hand in the password stage, and "Zaloguj się" otherwise |
| LoginForm.StageMonotone | src/components/login-form.tsx:40-68 | no handler leaves the password stage |
| LoginForm.RunInvariant | src/components/login-form.tsx:53-154 | after any sequence of submits the form is idle. Its password stage holds a non-empty address that the lookup reports as a verified account, greeted by that account's first name. Once reached, the stage never changes |
| LoginForm.PasswordStageOnlyForVerified | src/components/login-form.tsx:64-68 | starting from the initial form, the password is only ever asked for a verified account |
| LoginLookup.DetailsRoute | src/app/api/user/email/route.ts:6-28 | the route's body has a truthy `emailVerified` exactly for a non-empty, stored, verified address. It has a name exactly for a non-empty, stored address, and that name is the stored one |
| LoginLookup.Outcome | src/actions/email-check.ts:5-21 | `checkEmail` answers "not found" exactly for an address with no stored row |
| LoginLookup.OutcomeAsWritten | src/components/login-form.tsx:57-62 | as written, "not found" exactly for an address with no stored row. Otherwise the details are those of the address the route reads back: verified exactly when that address is stored and verified, and named, with its stored name, exactly when it is stored. For an address with no `%`, `+`, `&`, `#`, space or control character that is the typed address |
| LoginLookup.AsWrittenAgreesOnVerbatim | src/components/login-form.tsx:60-62 | for an address with no `%`, `+`, `&`, `#`, space or control character, the raw interpolation gives the same outcome as the encoded one |
| LoginLookup.OutcomeMatchesStore | src/components/login-form.tsx:57-68 | with the address encoded, the form's verdict is "verified" exactly when the store says so, and the greeting is the first word of the stored name |
| LoginLookup.CorrectedEntersPasswordStage | src/components/login-form.tsx:57-68 | with the address encoded, submitting an address opens the password stage exactly for a verified account, with that address and the stored first name |
| LoginLookup.CorrectedSignInOnlyForVerified | src/components/login-form.tsx:53-154 | with the address encoded, after any submits the password is asked only for an address the store holds as verified |
| LoginLookup.PlusReadAsSpace | src/components/login-form.tsx:60-62 | as written, the route reads an address `x+y` as `x y` |
| LoginLookup.AsWrittenRejectsPlusAddress | src/components/login-form.tsx:60-62 | as written, a verified account whose address holds a `+` is refused as "not activated" |
| LoginLookup.PlusAddressExample | src/components/login-form.tsx:60-62 | the verified account `a+b@c.pl` is refused as "not activated" |
| MovieSearch.HandleSearch | src/components/search.tsx:13-26 | an empty term clears the list without fetching. Otherwise the term is fetched; a body sets the list to its `results`, or to empty when there are none; a failure leaves the list unchanged |
| MovieSearch.OnResultClick | src/components/search.tsx:46 | clicking a suggestion leaves the "no results" panel |
| MovieSearch.ApplyIsLastWins | src/components/search.tsx:13-26 | applying completed searches in order leaves what the last completion that sets the list set, or the starting list when none does |
| MovieSearch.StaleReplyOverwrites | src/components/search.tsx:20-22 | a reply for an older term that completes last overwrites the newer term's results |
| MovieSearch.YearLabel | src/components/search.tsx:67 | a missing date, an empty one or one starting with `-` gives "Unknown year". Any other date shows its whole non-empty part before the first `-`, or the whole date when it has none; the line never holds `-` |
| MovieSearch.YearOfDate | src/components/search.tsx:67 | for a date `year-rest` with a non-empty year, the line is that year |
| MovieSearch.YearOfUndashedDate | src/components/search.tsx:67 | a non-empty date with no `-`, such as `2020`, is shown whole |
| MovieSearch.LeadingDashHasNoYear | src/components/search.tsx:67 | a date starting with `-` gives "Unknown year" |
| MovieSearch.PosterFor | src/components/search.tsx:49-63 | a poster image is shown exactly when the poster path is a non-empty string, at the TMDB w92 prefix followed by that path, titled with the movie's title |
| MovieSearch.PosterIdentifiesMovie | src/components/search.tsx:49-57 | two movies with posters show the same image exactly when their poster paths and titles agree |
| MovieSearch.Render | src/components/search.tsx:39-80 | the suggestion list is shown exactly when there are results, with one suggestion per result in order |
| MovieSearch.RouteQuery | src/components/search.tsx:20 | with the term encoded, the search route reads exactly the term typed |
| MovieSearch.RouteQueryAsWritten | src/components/search.tsx:20 | as written, a term with no `%`, `+`, `&`, `#`, space or control character is read by the search route exactly as typed |
| MovieSearch.AsWrittenCutsAtAmpersand | src/components/search.tsx:20 | as written, the search route reads the term `x&y` as `x` |
| MovieSearch.AmpersandExample | src/components/search.tsx:20 | the search route reads the term `a&b` as `a` |
| Countdown.After | src/components/timeRedirection.tsx:16-24 | after n ticks the count reads `seconds - n` |
| Countdown.Tick | src/components/timeRedirection.tsx:18-24 | each tick takes exactly one second off the count, with no floor at zero |
| Countdown.RedirectOnlyAtSeconds | src/components/timeRedirection.tsx:26-30 | the redirect fires after exactly `seconds` ticks and never otherwise, so a negative start never redirects |
| Countdown.UnitWord | src/components/timeRedirection.tsx:35 | the unit is "sekundę" exactly for a count of one and "sekundy" for every other count |
| Countdown.SingularShownOnce | src/components/timeRedirection.tsx:35 | counting down from two or more, the singular "sekundę" shows exactly once, one tick before the redirect |
| Countdown.Simulate | src/components/timeRedirection.tsx:16-30 | over `ticks` ticks, the redirect fires once, at tick `seconds`, when `0 <= seconds <= ticks`, and never otherwise; the count ends at `seconds - ticks` |
| EmailSend.LoadConfig | src/actions/email.ts:6-11 | the module loads exactly when both variables are set and non-empty; a missing API key is reported first |
| EmailSend.BuildMessage | src/actions/email.ts:21-26 | the message sent has the recipient lower-cased and trimmed, the subject and text trimmed, and the configured sender; so the recipient is lower-case and all three are trimmed |
| EmailSend.SendNormalizes | src/actions/email.ts:21-26 | a request whose recipient differs only in letter case, and whose three fields each carry their own extra whitespace at their ends, builds the same message and gets the same result |
| EmailSend.BuildMessageIdempotent | src/actions/email.ts:21-26 | building a message from an already built one gives it back unchanged |
| EmailSend.SendEmail | src/actions/email.ts:15-44 | sending succeeds exactly when the provider answers 202. Every other answer, and a rejection, gives the same fixed error |
| EmailSend.HandleEmailError | src/actions/email.ts:46-60 | the error has status 500, keeps an `Error`'s message, and uses the fixed fallback for anything else |
| EmailSend.HandleEmailErrorKeepsMessage | src/actions/email.ts:46-60 | two `Error`s give the same response exactly when their messages agree; any other thrown value reads like an `Error` carrying the fallback text |

## Left out

- Rendering, the router, toasts' presentation and timing, the form library's own error clearing, and the console logging are not modelled. Toasts, navigation and refresh appear only as `Effect` values.
- `prisma.$disconnect`, the Prisma, SendGrid, auth-client and `fetch` clients are parameters or outcome datatypes, not code.
- Asynchrony is not interleaved. Each handler call completes before the next, so the interval during which `isLoading` is true is not observable. A double submit while a call is in flight is not modelled.
- zod's e-mail regex is the parameter `isEmail`.
- The search route's own request to TMDB is not modelled. It writes the query it read raw into `https://api.themoviedb.org/3/search/movie?query=…` (src/app/api/movies/search/route.ts:19-20), so a query holding `&` or `#` is cut again there, even when the search box encodes it.
- Text.LowerChar: `toLowerCase` is modelled for ASCII letters only. Other letters are left unchanged, because full Unicode case mapping is not modelled.
- QueryString.EncodeChar: a character outside ASCII is kept as it is rather than written as the percent-escapes of its UTF-8 bytes. The URL parser would escape such a character itself and the route would decode it back, so the value read is the same either way.
- QueryString.FormDecode: only percent-escapes of ASCII bytes are decoded. A raw `%XY` escape of a non-ASCII byte stays literal, because UTF-8 decoding is not modelled. No result in the model depends on such input.
- Numbers are `int` and dates are their millisecond value. NaN, infinities and invalid dates are not modelled.
- Countdown: only the unit word of the label is modelled; the number printed before it is not. The interval's one-second period is a discrete tick.
- Social sign-in and the pages that use the schemas are outside this model. `src/lib/prisma` and the auth client are not part of this model.
- The code lacks some behaviour a reader might expect, and the model follows the code:
  - the search box neither debounces nor discards stale replies;
  - the e-mail step does no client-side format check before the lookup;
  - `handleSubmit` has no `isLoading` guard;
  - there is no transition back from the password stage to edit the address;
  - the password-reset prompt is raised on every `onError`, not only for invalid credentials.
- `checkEmail` turns a database failure into `false` (src/actions/email-check.ts:15-17), so the form cannot tell it from a missing account. `LoginForm` models this: both reach the form as the outcome `NotFound`. `LoginLookup.Outcome` takes the store as a map, whose lookup cannot fail, so this path does not arise there.

## Findings

| source | as written | input that shows it | evidently intended | confidence | as-written member | corrected member |
|---|---|---|---|---|---|---|
| src/components/login-form.tsx:60-62 | the address is interpolated into `/api/user/email?email=…` without encoding | the verified account `a+b@c.pl`: the route reads `a b@c.pl`, finds no row, and the form says the account is not activated | the address passed through `encodeURIComponent`, so the route reads the address the user typed | high, not executed | LoginLookup.AsWrittenRejectsPlusAddress | LoginLookup.CorrectedEntersPasswordStage |
| src/components/search.tsx:20 | the term is interpolated into `/api/movies/search?query=…` without encoding | the term `a&b`: the route reads the query `a` | the term passed through `encodeURIComponent`, so the search route reads what was typed. The route then writes that query raw into the TMDB request URL (src/app/api/movies/search/route.ts:19-20), which repeats the defect one hop later | high, not executed | MovieSearch.AsWrittenCutsAtAmpersand | MovieSearch.RouteQuery |
