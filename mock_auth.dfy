/**
 * The stand-in authenticator the form calls on submission. Only its
 * verdict rule is modelled: the simulated network delay is left out, so
 * the call is a pure function of the two submitted values.
 */
module MockAuth {
  import opened Wrappers
  import Validation

  /** What the authenticator reports: a verdict and a message for the user. */
  datatype LoginResult = LoginResult(success: bool, message: string)

  /** The one pair of credentials the authenticator accepts. */
  const DemoEmail: string := "test@example.com"
  const DemoPassword: string := "password123"

  const LoginSucceeded: string := "Login successful! Redirecting..."
  const InvalidEmailFormat: string := "Invalid email format"
  const ShortPassword: string := "Password must be at least 8 characters"
  const InvalidCredentials: string := "Invalid email or password. Try test@example.com / password123"

  /**
   * `mockLogin`: success exactly for the demo pair; otherwise the message
   * of the first failing check, in order: no `@` in the e-mail, a password
   * shorter than 8 characters, and else the generic rejection.
   */
  function MockLogin(email: string, password: string): (r: LoginResult)
    ensures r.success <==> email == DemoEmail && password == DemoPassword
    ensures r.success ==> r.message == LoginSucceeded
    ensures !r.success && '@' !in email ==> r.message == InvalidEmailFormat
    ensures !r.success && '@' in email && |password| < 8 ==> r.message == ShortPassword
    ensures !r.success && '@' in email && 8 <= |password| ==> r.message == InvalidCredentials
  {
    if email == DemoEmail && password == DemoPassword then
      LoginResult(true, LoginSucceeded)
    else if '@' !in email then
      LoginResult(false, InvalidEmailFormat)
    else if |password| < 8 then
      LoginResult(false, ShortPassword)
    else
      LoginResult(false, InvalidCredentials)
  }

  /** The accepted pair passes both field validators, so the form can submit it. */
  lemma DemoPairPassesValidation()
    ensures Validation.ValidateEmail(DemoEmail) == None
    ensures Validation.ValidatePassword(DemoPassword) == None
  {
    var s := DemoEmail;
    assert s[..4] == "test" && s[5..12] == "example" && s[13..] == "com";
    assert s[4] == '@' && s[12] == '.';
    assert Validation.MatchesEmailPattern(s);
  }

  /**
   * Values that pass the field validators never draw the authenticator's
   * field-level messages: the verdict is success or the generic rejection.
   */
  lemma ValidatedPairGetsSuccessOrGenericRejection(email: string, password: string)
    requires Validation.ValidateEmail(email) == None
    requires Validation.ValidatePassword(password) == None
    ensures MockLogin(email, password).message in {LoginSucceeded, InvalidCredentials}
  {
    Validation.AcceptedEmailHasOneAt(email);
  }
}
