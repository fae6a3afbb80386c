/**
 * The part of Keycloak's authentication-flow interface the authenticator touches: the
 * execution requirement of the step, the signals an authenticator sends back to the flow,
 * the user and the authentication session whose notes carry the pending challenge.
 */
module Flow {
  import opened Wrappers
  import opened JavaLang

  /** `AuthenticationExecutionModel.Requirement`. */
  datatype Requirement = Required | Conditional | Alternative | Disabled

  /** The `AuthenticationFlowError` values the authenticator reports. */
  datatype FlowError = InternalError | ExpiredCode | InvalidCredentials

  /**
   * What the login form provider renders: the code-entry form or an error page, each with
   * an optional message key (`setError`).
   */
  datatype Page = CodeForm(formError: Option<string>) | ErrorPage(pageError: Option<string>)

  /**
   * What one authenticator call tells the flow: `context.challenge`,
   * `context.failureChallenge`, `context.success`, `context.attempted`, no call at all, or an
   * exception that leaves the authenticator.
   */
  datatype Signal =
    | NoSignal
    | Challenge(page: Page)
    | FailureChallenge(error: FlowError, failurePage: Page)
    | Succeeded
    | Attempted
    | Thrown(exception: Exception)

  /** A user as the authenticator sees it: `getEmail()` may be `null`. */
  datatype User = User(email: Option<string>)

  /** `AuthenticationSessionModel`, reduced to its string-valued auth notes. */
  class AuthSession {
    var notes: map<string, string>

    constructor (initial: map<string, string>)
      ensures notes == initial
    {
      notes := initial;
    }

    /** `setAuthNote`: binds `key` to `value`, replacing any earlier value, and nothing else. */
    method SetAuthNote(key: string, value: string)
      modifies this
      ensures notes == old(notes)[key := value]
    {
      notes := notes[key := value];
    }
  }
}
