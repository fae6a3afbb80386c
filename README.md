# Email one-time-code authenticator

A Dafny model of the Keycloak email second-factor step `EmailAuthenticator` and its
`EmailAuthenticatorFactory`. The step runs in two phases over the authentication session's
notes:

- `authenticate` issues a challenge. It resolves the configuration: the built-in defaults are
  used only when no configuration exists, and otherwise the administrator's map is used as-is.
  It parses `length` and `ttl` as `int`. It writes the generated code into note `code` and the
  absolute expiry `now + ttl*1000` into note `ttl`. Then it either logs the message
  (simulation mode) or sends one mail. Any failure while rendering or sending is reported as
  `emailAuthEmailNotSent`.
- `action` validates a submission. It reads the two notes and never writes them. It compares
  the entered code exactly. It then produces one outcome: success, expired, the code form
  re-shown, `attempted`, an internal error, or nothing.

The clock, the secure random generator and the mail server are inputs. `now` is the current
time in epoch milliseconds. `generated` is the string the generator returns. Two flags say
whether rendering the message throws and whether the send throws.

Modules:

- `Wrappers`: `Option` for Java `null`, `Result` for a thrown exception, and `Map.get`.
- `JavaLang`: `Integer.parseInt`, `Long.parseLong`, `Long.toString`, `Boolean.parseBoolean`,
  `Math.floorDiv` and `long` wrap-around.
- `Flow`: the Keycloak flow interface (requirements, flow errors, pages, signals, the user) and
  `AuthSession`, a class whose `notes` map the authenticator updates in place.
- `EmailAuthenticatorFactory`: the default constants, the configuration properties and the
  offered requirement modes.
- `EmailAuthenticator`: configuration resolution, the `Authenticate` method, the `Action`
  decision and the lemmas about them.
- `EmailAuthenticatorScenarios`: full lifecycles on a fresh session, built from the contracts only.

Behaviour of the code worth knowing:

- Expiry is strict. A right code is expired only when `expiry < now`, so it still succeeds at
  `now == expiry`.
- There is no per-key defaulting. A supplied configuration lacking `length` or `ttl` makes
  `Integer.parseInt(null)` throw.
- A parse failure is not turned into a configuration error. It happens before the `try`
  block, so the exception leaves `authenticate` (`Thrown(NumberFormatException)`) and no note is
  written.
- `length` and `ttl` are not checked for being positive. A zero or negative `ttl` gives an
  expiry at or before `now`.
- A wrong code under DISABLED (any mode other than REQUIRED, CONDITIONAL or ALTERNATIVE)
  signals nothing. It is not an internal error.
- A stored `ttl` note that is not a numeral makes `Long.parseLong` throw. This is only
  reached when the entered code matches.

## Model

| member | source | states |
|---|---|---|
| `Wrappers.Get` | src/main/java/niroj/keycloak/authenticator/EmailAuthenticator.java:50-51 | a map lookup yields a value exactly when the key is bound, and then the bound value |
| `JavaLang.WrapLong` | src/main/java/niroj/keycloak/authenticator/EmailAuthenticator.java:56 | `long` arithmetic agrees with the true sum modulo 2^64 and equals it when it fits |
| `JavaLang.FloorDiv` | src/main/java/niroj/keycloak/authenticator/EmailAuthenticator.java:62 | the quotient is the floor of the rational quotient, for either sign of the divisor |
| `JavaLang.NatToDecimal` | src/main/java/niroj/keycloak/authenticator/EmailAuthenticator.java:56 | the decimal form of a natural number is non-empty, all digits, with no leading zero |
| `JavaLang.DecimalRoundTrip` | src/main/java/niroj/keycloak/authenticator/EmailAuthenticator.java:56 | reading the printed digits back gives the number |
| `JavaLang.LongToString` | src/main/java/niroj/keycloak/authenticator/EmailAuthenticator.java:56 | the printed form is non-empty and starts with a minus sign exactly for negative values |
| `JavaLang.ParseSigned` | src/main/java/niroj/keycloak/authenticator/EmailAuthenticator.java:50-51 | a parse succeeds exactly on a non-null numeral (optional sign, then digits) whose value is in range, and yields that value |
| `JavaLang.ParseInt` | src/main/java/niroj/keycloak/authenticator/EmailAuthenticator.java:50-51 | `Integer.parseInt` succeeds only on a non-null numeral and yields the `int` that numeral denotes |
| `JavaLang.IntRoundTrip` | src/main/java/niroj/keycloak/authenticator/EmailAuthenticator.java:50-51 | every `int` written in decimal is accepted and read back as itself |
| `JavaLang.ParseLong` | src/main/java/niroj/keycloak/authenticator/EmailAuthenticator.java:106 | `Long.parseLong` succeeds only on a non-null numeral and yields the `long` that numeral denotes |
| `JavaLang.LongRoundTrip` | src/main/java/niroj/keycloak/authenticator/EmailAuthenticator.java:56 | every `long` printed by `Long.toString` parses back to itself |
| `JavaLang.ParseRejectsNonNumerals` | src/main/java/niroj/keycloak/authenticator/EmailAuthenticator.java:50-51 | `null` and any string that is not a signed run of digits are rejected |
| `JavaLang.ParseIntRejectsOutOfRange` | src/main/java/niroj/keycloak/authenticator/EmailAuthenticator.java:50-51 | a numeral outside the `int` range is rejected |
| `JavaLang.ParseBoolean` | src/main/java/niroj/keycloak/authenticator/EmailAuthenticator.java:64 | simulation is on only for a non-null four-letter value |
| `JavaLang.ParseBooleanMeaning` | src/main/java/niroj/keycloak/authenticator/EmailAuthenticator.java:64 | simulation is on exactly for a non-null value spelling "true" with each letter in either case |
| `JavaLang.ParseBooleanExamples` | src/main/java/niroj/keycloak/authenticator/EmailAuthenticator.java:64 | "true", "TRUE" and "True" turn simulation on; "false", `null` and "yes" do not |
| `Flow.AuthSession.SetAuthNote` | src/main/java/niroj/keycloak/authenticator/EmailAuthenticator.java:55-56 | a note write replaces that one note and leaves all others unchanged |
| `EmailAuthenticator.ResolveConfig` | src/main/java/niroj/keycloak/authenticator/EmailAuthenticator.java:40-48 | no configuration gives exactly the three keys bound to the factory defaults; a supplied map is used unchanged |
| `EmailAuthenticator.ParseSettings` | src/main/java/niroj/keycloak/authenticator/EmailAuthenticator.java:50-51 | parsing fails exactly when `length` or `ttl` does not parse as an `int`; otherwise the settings carry the parsed values |
| `EmailAuthenticator.ExpiryMillis` | src/main/java/niroj/keycloak/authenticator/EmailAuthenticator.java:56 | the expiry is `now + ttl*1000` in `long` arithmetic, exact when it fits |
| `EmailAuthenticator.Issued` | src/main/java/niroj/keycloak/authenticator/EmailAuthenticator.java:53-56 | after issuing, note `code` is the code, note `ttl` parses back to the expiry, and all other notes are unchanged |
| `EmailAuthenticator.Authenticate` | src/main/java/niroj/keycloak/authenticator/EmailAuthenticator.java:35-88 | a parse failure throws with notes untouched and nothing delivered; otherwise both notes are written first, then the message is logged (simulation) or sent exactly once with the subject, code and floor(ttl/60) minutes; a rendering or sending failure gives `emailAuthEmailNotSent`, otherwise the code form |
| `EmailAuthenticator.Action` | src/main/java/niroj/keycloak/authenticator/EmailAuthenticator.java:91-125 | success only when the stored code equals the entered one and the stored expiry parses and is not before `now` |
| `EmailAuthenticator.DefaultSettings` | src/main/java/niroj/keycloak/authenticator/EmailAuthenticator.java:41-51 | with no configuration the settings are length 6, ttl 300 and simulation off |
| `EmailAuthenticator.DefaultConstantsParse` | src/main/java/niroj/keycloak/authenticator/EmailAuthenticatorFactory.java:18-20 | the default strings parse to int 6, int 300 and boolean false |
| `EmailAuthenticator.SuppliedConfigIsNotDefaulted` | src/main/java/niroj/keycloak/authenticator/EmailAuthenticator.java:46-51 | a supplied configuration lacking `length` or `ttl` fails to parse instead of falling back to a default |
| `EmailAuthenticator.MalformedNumberFails` | src/main/java/niroj/keycloak/authenticator/EmailAuthenticator.java:50-51 | a supplied `length` or `ttl` that is not a numeral fails to parse |
| `EmailAuthenticator.PropertiesMatchDefaults` | src/main/java/niroj/keycloak/authenticator/EmailAuthenticatorFactory.java:62-67 | the factory's property names are exactly the keys the authenticator reads, with the defaults it uses |
| `EmailAuthenticator.MissingNoteIsInternalError` | src/main/java/niroj/keycloak/authenticator/EmailAuthenticator.java:98-102 | a missing `code` or `ttl` note gives an internal error whatever was entered |
| `EmailAuthenticator.ActionOnRightCode` | src/main/java/niroj/keycloak/authenticator/EmailAuthenticator.java:104-113 | success exactly when the code matches and `now <= expiry`; expired exactly when it matches and `expiry < now` |
| `EmailAuthenticator.ActionOnWrongCode` | src/main/java/niroj/keycloak/authenticator/EmailAuthenticator.java:114-124 | a wrong code gives the re-shown form under REQUIRED, `attempted` under CONDITIONAL or ALTERNATIVE, and nothing under DISABLED, whatever the time |
| `EmailAuthenticator.IssuedCodeAccepted` | src/main/java/niroj/keycloak/authenticator/EmailAuthenticator.java:104-113 | the code just issued succeeds up to and including its expiry and is expired after it |
| `EmailAuthenticator.ReissueInvalidatesEarlierCode` | src/main/java/niroj/keycloak/authenticator/EmailAuthenticator.java:53-56 | after a second issue, a different first code never succeeds |
| `EmailAuthenticator.RetryAfterWrongCode` | src/main/java/niroj/keycloak/authenticator/EmailAuthenticator.java:114-124 | a wrong code under REQUIRED re-shows the form, and the issued code still succeeds later up to its expiry |
| `EmailAuthenticator.OfferedModesOnWrongCode` | src/main/java/niroj/keycloak/authenticator/EmailAuthenticatorFactory.java:53-58 | among the offered modes, only REQUIRED re-shows the form on a wrong code and only ALTERNATIVE reports `attempted` |
| `EmailAuthenticator.ConfiguredForUsersWithEmail` | src/main/java/niroj/keycloak/authenticator/EmailAuthenticator.java:127-135 | the step applies exactly to users with an email address, and it always requires a user |
| `EmailAuthenticatorFactory.ProviderMetadata` | src/main/java/niroj/keycloak/authenticator/EmailAuthenticatorFactory.java:22-50 | the provider id is "email-authenticator"; it is configurable and does not allow user setup |
| `EmailAuthenticatorFactory.OfferedRequirements` | src/main/java/niroj/keycloak/authenticator/EmailAuthenticatorFactory.java:53-58 | the offered modes are exactly REQUIRED, ALTERNATIVE and DISABLED, in that order, each once; CONDITIONAL is never offered |
| `EmailAuthenticatorFactory.PropertiesAreDistinct` | src/main/java/niroj/keycloak/authenticator/EmailAuthenticatorFactory.java:62-67 | the three property names are distinct and only `simulation` is a boolean property |
| `EmailAuthenticatorScenarios.SimulatedIssueThenRetry` | src/main/java/niroj/keycloak/authenticator/EmailAuthenticator.java:35-124 | with length 4, ttl 60 and simulation on, the message is logged with 1 minute and not sent; a wrong code re-shows the form; the right code succeeds through `now + 60000` and is expired 1 ms later |
| `EmailAuthenticatorScenarios.ReissueWithDefaults` | src/main/java/niroj/keycloak/authenticator/EmailAuthenticator.java:35-124 | two issues with the defaults each send one mail stating 5 minutes, and afterwards only the second code succeeds |
| `EmailAuthenticatorScenarios.FailedSendKeepsNotes` | src/main/java/niroj/keycloak/authenticator/EmailAuthenticator.java:53-87 | a failed send reports `emailAuthEmailNotSent`, yet the notes were written and the code would be accepted |

## Left out

- Secure random generation (`SecretGenerator.randomString`) is a foreign call. The generated code is an input, and the model does not promise that its length equals `length`.
- Generator failures for a negative `length` are not modelled. These would throw outside the `try` block.
- The wall clock (`System.currentTimeMillis`) is the input `now`. The two reads in the source are independent, and the model gives them independent inputs as well.
- Mail delivery (`DefaultEmailSenderProvider.send`, the realm's SMTP configuration) is network I/O. It appears as a recorded `Mailed` event plus a flag saying whether the send throws.
- Theme and message lookup, locale resolution, the `String.format` template text, form and error-page rendering, response statuses and the logger are presentation. The model keeps which page and message key are produced, and the values the message embeds (code and minutes). It keeps one flag saying whether rendering throws.
- A failure while rendering the code form after a successful send is not modelled separately. The model has rendering fail only before delivery.
- HTTP form decoding of the submitted code is left out. The entered code is a non-null input, because a `null` would make `equals` throw.
- Java's parsers also accept non-ASCII Unicode digits, and `equalsIgnoreCase` folds case beyond ASCII. The model accepts only ASCII digits and folds only ASCII case.
- `EmailAuthenticatorFactory.create` is not modelled. The authenticator keeps no state of its own, so a new instance behaves like any other. The model's operations are module-level functions and methods.
- Lifecycle no-ops and display strings are not modelled: `close`, `init`, `postInit`, `setRequiredActions`, `getDisplayType`, `getHelpText`, `getReferenceCategory` and the properties' labels and help texts.
- Concurrency is not modelled. The flow framework serializes the calls for one authentication session.
