/**
 * Whole challenge lifecycles on a fresh authentication session, composed from the contracts
 * of `Authenticate` and `Action` alone.
 */
module EmailAuthenticatorScenarios {
  import opened Wrappers
  import opened JavaLang
  import opened Flow
  import opened EmailAuthenticator

  /**
   * Simulation mode with a 4-character code and a 60-second lifetime: the message is logged
   * with the code and 1 minute and no mail is sent; a wrong code re-shows the form; the issued
   * code then succeeds up to 60 000 ms later and is expired 1 ms after that.
   */
  method SimulatedIssueThenRetry(now: Int64, code: string)
    returns (issued: Signal, delivery: Delivery, wrong: Signal, right: Signal, atExpiry: Signal, late: Signal)
    requires code != "wrong-code" && now <= MaxLong - 60001
    ensures issued == CodeChallenge
    ensures delivery == Logged(Some("a@b.com"), Message(code, 1))
    ensures wrong == RetryFailure
    ensures right == Succeeded && atExpiry == Succeeded
    ensures late == ExpiredFailure
  {
    var session := new AuthSession(map[]);
    var config := map[LengthKey := "4", TtlKey := "60", SimulationKey := "true"];
    assert ParseSettings(ResolveConfig(Some(config))) == Success(Settings(4, 60, true)) by {
      assert DigitsValue("4") == 4 by { assert "4"[..0] == ""; }
      assert DigitsValue("60") == 60 by { assert "60"[..1] == "6" && "6"[..0] == ""; }
      assert ParseBoolean(Some("true"));
    }
    assert FloorDiv(60, 60) == 1;
    issued, delivery := Authenticate(session, Some(config), User(Some("a@b.com")), now, code, false, false);
    var expiry: Int64 := now + 60000;
    assert session.notes == Issued(map[], code, expiry);
    wrong := Action(session.notes, "wrong-code", now + 1000, Required);
    RetryAfterWrongCode(map[], code, expiry, "wrong-code", now + 1000, now + 59999, Required);
    right := Action(session.notes, code, now + 59999, Required);
    IssuedCodeAccepted(map[], code, expiry, expiry, Required);
    atExpiry := Action(session.notes, code, expiry, Required);
    IssuedCodeAccepted(map[], code, expiry, expiry + 1, Required);
    late := Action(session.notes, code, expiry + 1, Required);
  }

  /**
   * Two issues on one session with the default configuration: both mail a message with a
   * 5-minute lifetime, and afterwards only the second code succeeds.
   */
  method ReissueWithDefaults(first: Int64, second: Int64, code1: string, code2: string, user: User)
    returns (firstDelivery: Delivery, secondDelivery: Delivery, old1: Signal, new2: Signal)
    requires code1 != code2 && first <= second <= MaxLong - 300000
    ensures firstDelivery == Mailed(Mail(user, Subject, Message(code1, 5), Message(code1, 5)))
    ensures secondDelivery == Mailed(Mail(user, Subject, Message(code2, 5), Message(code2, 5)))
    ensures old1 != Succeeded
    ensures new2 == Succeeded
  {
    var session := new AuthSession(map[]);
    DefaultSettings();
    assert FloorDiv(300, 60) == 5;
    var issued1, issued2;
    issued1, firstDelivery := Authenticate(session, None, user, first, code1, false, false);
    issued2, secondDelivery := Authenticate(session, None, user, second, code2, false, false);
    var notes1 := Issued(map[], code1, first + 300000);
    assert session.notes == Issued(notes1, code2, second + 300000);
    ReissueInvalidatesEarlierCode(map[], code1, first + 300000, code2, second + 300000, second, Required);
    old1 := Action(session.notes, code1, second, Required);
    IssuedCodeAccepted(notes1, code2, second + 300000, second, Required);
    new2 := Action(session.notes, code2, second, Required);
  }

  /**
   * A failed send with the default configuration is reported as `emailAuthEmailNotSent`, yet
   * both notes were written first, so the issued code would still be accepted.
   */
  method FailedSendKeepsNotes(now: Int64, code: string, user: User)
    returns (issued: Signal, delivery: Delivery, submitted: Signal)
    requires now <= MaxLong - 300000
    ensures issued == NotSentFailure
    ensures delivery.Mailed? && delivery.mail.recipient == user && delivery.mail.subject == Subject
    ensures submitted == Succeeded
  {
    var session := new AuthSession(map[]);
    DefaultSettings();
    issued, delivery := Authenticate(session, None, user, now, code, false, true);
    IssuedCodeAccepted(map[], code, now + 300000, now, Alternative);
    submitted := Action(session.notes, code, now, Alternative);
  }
}
