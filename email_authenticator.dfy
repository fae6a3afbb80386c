/**
 * `EmailAuthenticator`: issues a one-time code into the authentication session's notes and
 * mails it (`Authenticate`), then checks a submitted code against those notes (`Action`).
 *
 * The clock, the secure random generator and the mail server are inputs: `now` is the value
 * `System.currentTimeMillis()` would return, `generated` the string
 * `SecretGenerator.randomString(length)` would return, and two flags say whether rendering
 * the message or sending it throws.
 */
module EmailAuthenticator {
  import opened Wrappers
  import opened JavaLang
  import opened Flow
  import Factory = EmailAuthenticatorFactory

  // Configuration keys read by the authenticator.
  const LengthKey: string := "length"
  const TtlKey: string := "ttl"
  const SimulationKey: string := "simulation"

  // Auth notes holding the pending challenge.
  const CodeNote: string := "code"
  const TtlNote: string := "ttl"

  const Subject: string := "2FA Authentication"

  // Message keys of the error pages and of the re-shown form.
  const EmailNotSent: string := "emailAuthEmailNotSent"
  const CodeExpired: string := "emailAuthCodeExpired"
  const CodeInvalid: string := "emailAuthCodeInvalid"

  /** The code-entry form, shown once a challenge has been issued. */
  const CodeChallenge: Signal := Challenge(CodeForm(None))
  /** Delivery or rendering failed after the notes were written. */
  const NotSentFailure: Signal := FailureChallenge(InternalError, ErrorPage(Some(EmailNotSent)))
  /** A note of the pending challenge is missing. */
  const MissingNoteFailure: Signal := FailureChallenge(InternalError, ErrorPage(None))
  const ExpiredFailure: Signal := FailureChallenge(ExpiredCode, ErrorPage(Some(CodeExpired)))
  /** A wrong code in REQUIRED mode: the code form is shown again with an error. */
  const RetryFailure: Signal := FailureChallenge(InvalidCredentials, CodeForm(Some(CodeInvalid)))

  /** The settings the authenticator works with once the configuration has been parsed. */
  datatype Settings = Settings(length: Int32, ttl: Int32, simulation: bool)

  /** The values the message template is filled with: the code and the lifetime in minutes. */
  datatype Message = Message(code: string, minutes: int)

  /** One `send(smtpConfig, user, subject, textBody, htmlBody)` call. */
  datatype Mail = Mail(recipient: User, subject: string, textBody: Message, htmlBody: Message)

  /** What became of the message: nothing, a simulation-mode log line, or one send call. */
  datatype Delivery = NoDelivery | Logged(address: Option<string>, text: Message) | Mailed(mail: Mail)

  /**
   * The configuration map: a fresh map of the three defaults when the execution has no
   * configuration, and otherwise the administrator's map exactly as stored.
   */
  function ResolveConfig(config: Option<map<string, string>>): (m: map<string, string>)
    ensures config.Some? ==> m == config.value
    ensures config.None? ==> m.Keys == {LengthKey, TtlKey, SimulationKey}
    ensures config.None? ==>
      m[LengthKey] == Factory.CodeLength && m[TtlKey] == Factory.TimeToLive && m[SimulationKey] == Factory.SimulationMode
  {
    if config.None? then
      map[][LengthKey := Factory.CodeLength][TtlKey := Factory.TimeToLive][SimulationKey := Factory.SimulationMode]
    else
      config.value
  }

  /**
   * `length` and `ttl` go through `Integer.parseInt`, which throws on a missing key or a
   * malformed value; `simulation` goes through `Boolean.parseBoolean`, which never throws.
   */
  function ParseSettings(m: map<string, string>): (r: Result<Settings, Exception>)
    ensures r.Failure? <==> ParseInt(Get(m, LengthKey)).None? || ParseInt(Get(m, TtlKey)).None?
    ensures r.Success? ==>
      && Some(r.value.length as int) == ParseSigned(Get(m, LengthKey), MinInt, MaxInt)
      && Some(r.value.ttl as int) == ParseSigned(Get(m, TtlKey), MinInt, MaxInt)
      && r.value.simulation == ParseBoolean(Get(m, SimulationKey))
  {
    match ParseInt(Get(m, LengthKey))
    case None => Failure(NumberFormatException)
    case Some(length) =>
      match ParseInt(Get(m, TtlKey))
      case None => Failure(NumberFormatException)
      case Some(ttl) => Success(Settings(length, ttl, ParseBoolean(Get(m, SimulationKey))))
  }

  /** `now + ttl * 1000L` in `long` arithmetic. */
  function ExpiryMillis(now: Int64, ttl: Int32): (e: Int64)
    ensures (e - (now + ttl * 1000)) % LongModulus == 0
    ensures MinLong <= now + ttl * 1000 <= MaxLong ==> e == now + ttl * 1000
  {
    WrapLong(now + ttl * 1000)
  }

  /**
   * The notes after a challenge has been issued: `code` holds the code, `ttl` holds an expiry
   * that `Long.parseLong` reads back exactly, and every other note is as before.
   */
  function Issued(notes: map<string, string>, code: string, expiry: Int64): (r: map<string, string>)
    ensures Get(r, CodeNote) == Some(code)
    ensures ParseLong(Get(r, TtlNote)) == Some(expiry)
    ensures forall k :: k != CodeNote && k != TtlNote ==> Get(r, k) == Get(notes, k)
    ensures r.Keys == notes.Keys + {CodeNote, TtlNote}
  {
    LongRoundTrip(expiry);
    notes[CodeNote := code][TtlNote := LongToString(expiry)]
  }

  /**
   * `authenticate`: resolves and parses the configuration, writes the code and its expiry
   * into the session's notes, then logs or sends the message. A parse failure throws before
   * any note is written; a rendering or sending failure comes after both notes are written and
   * is reported as an internal error with the `emailAuthEmailNotSent` page.
   */
  method Authenticate(session: AuthSession, config: Option<map<string, string>>, user: User,
                      now: Int64, generated: string, renderFails: bool, sendFails: bool)
    returns (r: Signal, delivery: Delivery)
    modifies session
    ensures ParseSettings(ResolveConfig(config)).Failure? ==>
      && r == Thrown(NumberFormatException)
      && delivery == NoDelivery
      && session.notes == old(session.notes)
    ensures ParseSettings(ResolveConfig(config)).Success? ==>
      var s := ParseSettings(ResolveConfig(config)).value;
      var text := Message(generated, FloorDiv(s.ttl, 60));
      && session.notes == Issued(old(session.notes), generated, ExpiryMillis(now, s.ttl))
      && delivery == (if renderFails then NoDelivery
                      else if s.simulation then Logged(user.email, text)
                      else Mailed(Mail(user, Subject, text, text)))
      && r == (if renderFails || (!s.simulation && sendFails) then NotSentFailure else CodeChallenge)
  {
    var configMap := ResolveConfig(config);
    var length := ParseInt(Get(configMap, LengthKey));
    if length.None? {
      return Thrown(NumberFormatException), NoDelivery;
    }
    var ttl := ParseInt(Get(configMap, TtlKey));
    if ttl.None? {
      return Thrown(NumberFormatException), NoDelivery;
    }

    var code := generated;
    session.SetAuthNote(CodeNote, code);
    session.SetAuthNote(TtlNote, LongToString(ExpiryMillis(now, ttl.value)));

    // The try block: any exception in it becomes the emailAuthEmailNotSent failure.
    if renderFails {
      return NotSentFailure, NoDelivery;
    }
    var emailText := Message(code, FloorDiv(ttl.value, 60));
    var simulateEmail := ParseBoolean(Get(configMap, SimulationKey));
    if simulateEmail {
      delivery := Logged(user.email, emailText);
    } else {
      delivery := Mailed(Mail(user, Subject, emailText, emailText));
      if sendFails {
        return NotSentFailure, delivery;
      }
    }
    r := CodeChallenge;
  }

  /**
   * `action`: reads the two notes (and never writes them) and compares the entered code with
   * the stored one. A right code succeeds unless its expiry lies before `now`; a wrong code
   * re-shows the form in REQUIRED mode, reports `attempted` in CONDITIONAL or ALTERNATIVE mode
   * and signals nothing otherwise.
   */
  function Action(notes: map<string, string>, entered: string, now: Int64, requirement: Requirement): (r: Signal)
    ensures r == Succeeded ==>
      && Get(notes, CodeNote) == Some(entered)
      && ParseLong(Get(notes, TtlNote)).Some?
      && now <= ParseLong(Get(notes, TtlNote)).value
  {
    var code := Get(notes, CodeNote);
    var ttl := Get(notes, TtlNote);
    if code.None? || ttl.None? then
      MissingNoteFailure
    else if entered == code.value then
      match ParseLong(ttl)
      case None => Thrown(NumberFormatException)
      case Some(expiry) => if expiry < now then ExpiredFailure else Succeeded
    else if requirement.Required? then
      RetryFailure
    else if requirement.Conditional? || requirement.Alternative? then
      Attempted
    else
      NoSignal
  }

  /** `configuredFor`: the step applies to a user exactly when the user has an email address. */
  predicate ConfiguredFor(user: User) {
    user.email.Some?
  }

  /** `requiresUser`: the step always runs for a known user. */
  predicate RequiresUser() {
    true
  }

  // ---------------------------------------------------------------------------------------
  // Configuration

  /** With no configuration the settings are a 6-character code, 300 seconds and real mail. */
  lemma DefaultSettings()
    ensures ParseSettings(ResolveConfig(None)) == Success(Settings(6, 300, false))
  {
    DefaultConstantsParse();
  }

  /** The factory's default strings parse to int 6, int 300 and boolean false. */
  lemma DefaultConstantsParse()
    ensures ParseInt(Some(Factory.CodeLength)) == Some(6)
    ensures ParseInt(Some(Factory.TimeToLive)) == Some(300)
    ensures !ParseBoolean(Some(Factory.SimulationMode))
  {
    assert DigitsValue("6") == 6 by {
      assert "6"[..0] == "";
    }
    assert DigitsValue("300") == 300 by {
      assert "300"[..2] == "30" && "30"[..1] == "3" && "3"[..0] == "";
    }
  }

  /**
   * A supplied configuration is not merged with the defaults: if it lacks `length` or `ttl`,
   * parsing fails, so `Authenticate` throws before writing any note.
   */
  lemma SuppliedConfigIsNotDefaulted(m: map<string, string>)
    requires LengthKey !in m || TtlKey !in m
    ensures ParseSettings(ResolveConfig(Some(m))).Failure?
  {
  }

  /** A supplied configuration whose `length` or `ttl` is not a numeral fails to parse. */
  lemma MalformedNumberFails(m: map<string, string>)
    requires (LengthKey in m && !IsNumeral(m[LengthKey])) || (TtlKey in m && !IsNumeral(m[TtlKey]))
    ensures ParseSettings(ResolveConfig(Some(m))).Failure?
  {
  }

  /**
   * The factory's configuration properties are exactly the keys the authenticator reads, and
   * each property's default is the value the authenticator uses when no configuration is
   * supplied.
   */
  lemma PropertiesMatchDefaults()
    ensures (set p | p in Factory.ConfigProperties() :: p.name) == ResolveConfig(None).Keys
    ensures forall p :: p in Factory.ConfigProperties() ==> ResolveConfig(None)[p.name] == p.defaultValue
  {
    var props := Factory.ConfigProperties();
    var names := set p | p in props :: p.name;
    assert props[0].name == LengthKey && props[1].name == TtlKey && props[2].name == SimulationKey;
    assert names == {LengthKey, TtlKey, SimulationKey};
  }

  // ---------------------------------------------------------------------------------------
  // Validation

  /** Without both notes the outcome is an internal error, whatever was entered. */
  lemma MissingNoteIsInternalError(notes: map<string, string>, entered: string, now: Int64, requirement: Requirement)
    requires CodeNote !in notes || TtlNote !in notes
    ensures Action(notes, entered, now, requirement) == MissingNoteFailure
  {
  }

  /**
   * Success exactly when both notes are present, the entered code equals the stored code and
   * the stored expiry is not before `now`; expired exactly when the code is right and the
   * expiry is before `now`.
   */
  lemma ActionOnRightCode(notes: map<string, string>, entered: string, now: Int64, requirement: Requirement, expiry: Int64)
    requires CodeNote in notes && ParseLong(Get(notes, TtlNote)) == Some(expiry)
    ensures Action(notes, entered, now, requirement) == Succeeded <==> entered == notes[CodeNote] && now <= expiry
    ensures Action(notes, entered, now, requirement) == ExpiredFailure <==> entered == notes[CodeNote] && expiry < now
  {
  }

  /**
   * A wrong code never succeeds. Its outcome depends only on the requirement, not on the
   * clock: a re-shown form in REQUIRED mode, `attempted` in CONDITIONAL or ALTERNATIVE mode and
   * nothing in DISABLED mode.
   */
  lemma ActionOnWrongCode(notes: map<string, string>, entered: string, now: Int64, requirement: Requirement)
    requires CodeNote in notes && TtlNote in notes && entered != notes[CodeNote]
    ensures Action(notes, entered, now, requirement) ==
      match requirement
      case Required => RetryFailure
      case Conditional => Attempted
      case Alternative => Attempted
      case Disabled => NoSignal
  {
  }

  /**
   * Right after issuing `code` with expiry `expiry`, submitting `code` succeeds until and
   * including the expiry instant and is reported as expired afterwards.
   */
  lemma IssuedCodeAccepted(notes: map<string, string>, code: string, expiry: Int64, now: Int64, requirement: Requirement)
    ensures Action(Issued(notes, code, expiry), code, now, requirement) ==
      if expiry < now then ExpiredFailure else Succeeded
  {
  }

  /**
   * Issuing again replaces the earlier code: a different earlier code no longer succeeds,
   * even before either expiry.
   */
  lemma ReissueInvalidatesEarlierCode(notes: map<string, string>, first: string, firstExpiry: Int64,
                                      second: string, secondExpiry: Int64, now: Int64, requirement: Requirement)
    requires first != second
    ensures Action(Issued(Issued(notes, first, firstExpiry), second, secondExpiry), first, now, requirement) != Succeeded
  {
  }

  /**
   * A wrong submission leaves the notes as they were, so the issued code still succeeds on a
   * later submission up to its expiry: in REQUIRED mode the user may retry without limit.
   */
  lemma RetryAfterWrongCode(notes: map<string, string>, code: string, expiry: Int64, wrong: string,
                            first: Int64, later: Int64, requirement: Requirement)
    requires wrong != code && later <= expiry
    ensures Action(Issued(notes, code, expiry), wrong, first, Required) == RetryFailure
    ensures Action(Issued(notes, code, expiry), code, later, requirement) == Succeeded
  {
  }

  /**
   * Under the modes the factory offers, a wrong code re-shows the form only in REQUIRED mode;
   * in ALTERNATIVE mode it reports `attempted` and in DISABLED mode nothing.
   */
  lemma OfferedModesOnWrongCode(notes: map<string, string>, entered: string, now: Int64)
    requires CodeNote in notes && TtlNote in notes && entered != notes[CodeNote]
    ensures forall requirement :: requirement in Factory.RequirementChoices() ==>
      (Action(notes, entered, now, requirement) == RetryFailure <==> requirement == Required)
    ensures forall requirement :: requirement in Factory.RequirementChoices() ==>
      (Action(notes, entered, now, requirement) == Attempted <==> requirement == Alternative)
  {
  }

  /** A user is configured for this step exactly when the user has an email address. */
  lemma ConfiguredForUsersWithEmail(user: User)
    ensures ConfiguredFor(user) <==> user.email != None
    ensures RequiresUser()
  {
  }
}
