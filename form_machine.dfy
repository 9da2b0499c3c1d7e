/**
 * The form controller as a pure state machine: the state the component
 * keeps (`email`, `password`, `showPassword`, `errors`, `status`,
 * `touched`), one transition function per event handler, and the
 * asynchronous submission split into `Submit` (validate, then reject or
 * issue a request) and `Resolve` / `Fault` (the completion of that request).
 *
 * Each handler is one atomic update of the state. Focus moves are returned
 * as a focus target rather than performed. The class `LoginForm` in
 * LoginController runs the same transitions in place; the lemmas here are
 * about single steps and about runs of events.
 */
module FormMachine {
  import opened Wrappers
  import opened Validation
  import opened MockAuth

  /** The error record `{email?, password?, form?}`; `None` is `undefined`. */
  datatype FormErrors = FormErrors(email: Option<string>, password: Option<string>, form: Option<string>)

  /** The empty error record `{}`. */
  const NoErrors: FormErrors := FormErrors(None, None, None)

  datatype Touched = Touched(email: bool, password: bool)

  datatype FormStatus = Idle | Loading | Success | Error

  /** The element that should receive keyboard focus after a transition. */
  datatype FocusTarget = EmailInput | PasswordInput | SubmitButton

  /** The values handed to the authenticator by a submission. */
  datatype Credentials = Credentials(email: string, password: string)

  datatype FormState = FormState(
    email: string,
    password: string,
    showPassword: bool,
    errors: FormErrors,
    status: FormStatus,
    touched: Touched)

  /** The outcome of a submit: the new state, a focus move, and the request issued, if any. */
  datatype SubmitStep = SubmitStep(state: FormState, focus: Option<FocusTarget>, request: Option<Credentials>)

  /** The outcome of a completed request: the new state and a focus move, if any. */
  datatype Completion = Completion(state: FormState, focus: Option<FocusTarget>)

  /** The form-level message used when the authenticator call throws. */
  const UnexpectedError: string := "An unexpected error occurred. Please try again."

  /** JavaScript truthiness of a `string | undefined`: defined and non-empty. */
  predicate Present(o: Option<string>) {
    o.Some? && o.value != ""
  }

  /** The state of a freshly mounted form. */
  function Init(): FormState {
    FormState("", "", false, NoErrors, Idle, Touched(false, false))
  }

  /** `handleEmailBlur`: mark the field touched and validate its current value. */
  function EmailBlur(s: FormState): FormState {
    s.(touched := s.touched.(email := true),
       errors := s.errors.(email := ValidateEmail(s.email)))
  }

  /** `handlePasswordBlur`: mark the field touched and validate its current value. */
  function PasswordBlur(s: FormState): FormState {
    s.(touched := s.touched.(password := true),
       errors := s.errors.(password := ValidatePassword(s.password)))
  }

  /**
   * `handleEmailChange`: store the value, re-validate it only when the
   * field is touched, and dismiss a present form-level error.
   */
  function EmailChange(s: FormState, value: string): FormState {
    var errors := if s.touched.email then s.errors.(email := ValidateEmail(value)) else s.errors;
    s.(email := value,
       errors := if Present(s.errors.form) then errors.(form := None) else errors)
  }

  /**
   * `handlePasswordChange`: store the value, re-validate it only when the
   * field is touched, and dismiss a present form-level error.
   */
  function PasswordChange(s: FormState, value: string): FormState {
    var errors := if s.touched.password then s.errors.(password := ValidatePassword(value)) else s.errors;
    s.(password := value,
       errors := if Present(s.errors.form) then errors.(form := None) else errors)
  }

  /**
   * The synchronous part of `handleSubmit`: validate both fields; on an
   * error, record exactly the two field errors, touch both fields and
   * focus the first errored one; otherwise clear the errors, enter
   * `Loading` and issue a request with the current values.
   */
  function Submit(s: FormState): SubmitStep {
    var emailError := ValidateEmail(s.email);
    var passwordError := ValidatePassword(s.password);
    if Present(emailError) || Present(passwordError) then
      SubmitStep(
        s.(errors := FormErrors(emailError, passwordError, None), touched := Touched(true, true)),
        Some(if Present(emailError) then EmailInput else PasswordInput),
        None)
    else
      SubmitStep(s.(status := Loading, errors := NoErrors), None, Some(Credentials(s.email, s.password)))
  }

  /**
   * The continuation of `handleSubmit` when the authenticator answers: a
   * success verdict only changes the status; a failure replaces the errors
   * with the verdict's message and focuses the submit button.
   */
  function Resolve(s: FormState, result: LoginResult): Completion {
    if result.success then
      Completion(s.(status := Success), None)
    else
      Completion(s.(status := Error, errors := FormErrors(None, None, Some(result.message))), Some(SubmitButton))
  }

  /** The `catch` branch of `handleSubmit`: the authenticator call threw. */
  function Fault(s: FormState): Completion {
    Completion(s.(status := Error, errors := FormErrors(None, None, Some(UnexpectedError))), Some(SubmitButton))
  }

  /** `togglePasswordVisibility`; the focus always returns to the password input. */
  function TogglePasswordVisibility(s: FormState): FormState {
    s.(showPassword := !s.showPassword)
  }

  /** `isSubmitDisabled`: inputs, toggle and submit button are disabled. */
  predicate IsSubmitDisabled(s: FormState) {
    s.status == Loading || s.status == Success
  }

  /** The inline e-mail error is rendered. */
  predicate ShowsEmailError(s: FormState) {
    s.touched.email && Present(s.errors.email)
  }

  /** The inline password error is rendered. */
  predicate ShowsPasswordError(s: FormState) {
    s.touched.password && Present(s.errors.password)
  }

  // ---------------------------------------------------------------------
  // Runs of events

  datatype Event =
    | EmailBlurred
    | PasswordBlurred
    | EmailEdited(value: string)
    | PasswordEdited(value: string)
    | Submitted
    | Resolved(result: LoginResult)
    | Faulted
    | VisibilityToggled

  /** The state after handling one event. */
  function Next(s: FormState, e: Event): FormState {
    match e
    case EmailBlurred => EmailBlur(s)
    case PasswordBlurred => PasswordBlur(s)
    case EmailEdited(v) => EmailChange(s, v)
    case PasswordEdited(v) => PasswordChange(s, v)
    case Submitted => Submit(s).state
    case Resolved(r) => Resolve(s, r).state
    case Faulted => Fault(s).state
    case VisibilityToggled => TogglePasswordVisibility(s)
  }

  /** The state after handling the events of `es` in order. */
  function Run(s: FormState, es: seq<Event>): FormState
    decreases |es|
  {
    if es == [] then s else Run(Next(s, es[0]), es[1..])
  }

  /**
   * The events the rendered form can deliver in state `s`. The inputs
   * exist until success replaces the form with the confirmation; edits,
   * the toggle and submission are disabled while `IsSubmitDisabled`; the
   * authenticator answers, with `MockLogin`'s verdict on the submitted
   * values, or throws, only while a request is in flight.
   */
  predicate Enabled(s: FormState, e: Event) {
    match e
    case EmailBlurred => s.status != Success
    case PasswordBlurred => s.status != Success
    case EmailEdited(_) => !IsSubmitDisabled(s)
    case PasswordEdited(_) => !IsSubmitDisabled(s)
    case Submitted => !IsSubmitDisabled(s)
    case VisibilityToggled => !IsSubmitDisabled(s)
    case Resolved(r) => s.status == Loading && r == MockLogin(s.email, s.password)
    case Faulted => s.status == Loading
  }

  /** Every event of `es` is enabled in the state it reaches. */
  predicate EnabledRun(s: FormState, es: seq<Event>)
    decreases |es|
  {
    es == [] || (Enabled(s, es[0]) && EnabledRun(Next(s, es[0]), es[1..]))
  }

  /** Whether handling `e` in `s` issues an authenticator request. */
  predicate IssuesRequest(s: FormState, e: Event) {
    e == Submitted && Submit(s).request.Some?
  }

  /** The number of requests the events of `es` issue. */
  function Requests(s: FormState, es: seq<Event>): nat
    decreases |es|
  {
    if es == [] then 0
    else (if IssuesRequest(s, es[0]) then 1 else 0) + Requests(Next(s, es[0]), es[1..])
  }

  /** The number of authenticator answers and faults among `es`. */
  function Completions(es: seq<Event>): nat {
    if es == [] then 0
    else (if es[0].Resolved? || es[0].Faulted? then 1 else 0) + Completions(es[1..])
  }

  /**
   * What holds of every state the form reaches: while a request is in flight
   * and after success, both values pass validation and no error is
   * recorded; after success the values are the accepted pair; and the
   * stored error of each field is the validator's verdict on its current
   * value once the field is touched, and nothing before.
   */
  ghost predicate Inv(s: FormState) {
    && (s.status == Loading || s.status == Success ==>
          ValidateEmail(s.email) == None && ValidatePassword(s.password) == None && s.errors == NoErrors)
    && (s.status == Success ==> s.email == DemoEmail && s.password == DemoPassword)
    && s.errors.email == (if s.touched.email then ValidateEmail(s.email) else None)
    && s.errors.password == (if s.touched.password then ValidatePassword(s.password) else None)
  }

  // ---------------------------------------------------------------------
  // Single steps

  /** Blurring a field a second time changes nothing. */
  lemma BlurIdempotent(s: FormState)
    ensures EmailBlur(EmailBlur(s)) == EmailBlur(s)
    ensures PasswordBlur(PasswordBlur(s)) == PasswordBlur(s)
  {
  }

  /**
   * A submission with an invalid field never enters `Loading` and issues no
   * request; it records exactly the two validator results, touches both
   * fields and focuses the e-mail input if it is in error, else the password
   * input.
   */
  lemma SubmitRejectsInvalid(s: FormState)
    requires ValidateEmail(s.email) != None || ValidatePassword(s.password) != None
    ensures var step := Submit(s);
      && step.request == None
      && step.state.status == s.status
      && step.state.touched == Touched(true, true)
      && step.state.errors == FormErrors(ValidateEmail(s.email), ValidatePassword(s.password), None)
      && step.focus == Some(if ValidateEmail(s.email) != None then EmailInput else PasswordInput)
      && step.state.email == s.email && step.state.password == s.password
      && step.state.showPassword == s.showPassword
      && (ShowsEmailError(step.state) <==> ValidateEmail(s.email) != None)
      && (ShowsPasswordError(step.state) <==> ValidatePassword(s.password) != None)
  {
    ValidatorMessagesAreNonEmpty(s.email, s.password);
  }

  /**
   * A submission with two valid fields enters `Loading` with no errors
   * recorded and issues one request carrying the current values.
   */
  lemma SubmitAcceptsValid(s: FormState)
    requires ValidateEmail(s.email) == None && ValidatePassword(s.password) == None
    ensures Submit(s) == SubmitStep(s.(status := Loading, errors := NoErrors), None, Some(Credentials(s.email, s.password)))
  {
  }

  /**
   * The code has no re-entrancy guard: a submit delivered while a request
   * is in flight (possible only if the disabled button were bypassed)
   * issues a second request.
   */
  lemma SubmitWhileLoadingIssuesAgain(s: FormState)
    requires s.status == Loading
    requires ValidateEmail(s.email) == None && ValidatePassword(s.password) == None
    ensures Submit(s).request == Some(Credentials(s.email, s.password))
    ensures Submit(s).state.status == Loading
  {
  }

  /** A form-level error is dismissed by any edit of either field. */
  lemma EditDismissesFormError(s: FormState, value: string)
    requires Present(s.errors.form)
    ensures EmailChange(s, value).errors.form == None
    ensures PasswordChange(s, value).errors.form == None
  {
  }

  /**
   * The status moves only along the edges idle/error -> loading (a
   * submission whose two fields pass validation) and loading ->
   * success/error (an answer or a fault); every other enabled event keeps
   * it. No enabled event is delivered after success.
   */
  lemma StatusLifecycle(s: FormState, e: Event)
    requires Enabled(s, e)
    ensures s.status != Success
    ensures var t := Next(s, e);
      && (IssuesRequest(s, e) <==> s.status != Loading && t.status == Loading)
      && (IssuesRequest(s, e) ==> ValidateEmail(s.email) == None && ValidatePassword(s.password) == None)
      && (e.Resolved? || e.Faulted? <==> s.status == Loading && t.status != Loading)
      && (t.status != s.status ==> IssuesRequest(s, e) || e.Resolved? || e.Faulted?)
      && (t.status == Success ==> s.status == Loading || s.status == Success)
  {
    ValidatorMessagesAreNonEmpty(s.email, s.password);
  }

  /** Every enabled event keeps the invariant. */
  lemma InvStep(s: FormState, e: Event)
    requires Inv(s) && Enabled(s, e)
    ensures Inv(Next(s, e))
  {
    match e
    case Submitted =>
      ValidatorMessagesAreNonEmpty(s.email, s.password);
      if ValidateEmail(s.email) == None && ValidatePassword(s.password) == None {
        SubmitAcceptsValid(s);
      } else {
        SubmitRejectsInvalid(s);
      }
    case Resolved(r) =>
      assert r == MockLogin(s.email, s.password);
    case _ =>
  }

  // ---------------------------------------------------------------------
  // Runs

  /** Touched flags never revert to false, whatever the events. */
  lemma {:induction false} TouchedMonotone(s: FormState, es: seq<Event>)
    ensures s.touched.email ==> Run(s, es).touched.email
    ensures s.touched.password ==> Run(s, es).touched.password
    decreases |es|
  {
    if es != [] {
      TouchedMonotone(Next(s, es[0]), es[1..]);
    }
  }

  /**
   * Edits alone never change the stored error of an untouched field (in
   * particular never fill in an empty entry), never show an inline error
   * for it, and never change the touched flags or the status.
   */
  lemma {:induction false} EditsNeverValidateUntouched(s: FormState, es: seq<Event>)
    requires forall i :: 0 <= i < |es| ==> es[i].EmailEdited? || es[i].PasswordEdited?
    ensures !s.touched.email ==> Run(s, es).errors.email == s.errors.email
    ensures !s.touched.password ==> Run(s, es).errors.password == s.errors.password
    ensures !s.touched.email ==> !ShowsEmailError(Run(s, es))
    ensures !s.touched.password ==> !ShowsPasswordError(Run(s, es))
    ensures Run(s, es).touched == s.touched && Run(s, es).status == s.status
    decreases |es|
  {
    if es != [] {
      EditsNeverValidateUntouched(Next(s, es[0]), es[1..]);
    }
  }

  /** Every state reached by enabled events from an invariant state satisfies it. */
  lemma {:induction false} InvRun(s: FormState, es: seq<Event>)
    requires Inv(s) && EnabledRun(s, es)
    ensures Inv(Run(s, es))
    decreases |es|
  {
    if es != [] {
      InvStep(s, es[0]);
      InvRun(Next(s, es[0]), es[1..]);
    }
  }

  /**
   * The form reaches success only with the accepted pair, and then holds
   * no error.
   */
  lemma SuccessOnlyForDemoPair(es: seq<Event>)
    requires EnabledRun(Init(), es)
    requires Run(Init(), es).status == Success
    ensures Run(Init(), es).email == DemoEmail && Run(Init(), es).password == DemoPassword
    ensures Run(Init(), es).errors == NoErrors
  {
    InvRun(Init(), es);
  }

  /**
   * Single flight: every request issued is answered exactly once, except
   * the one in flight while the status is `Loading`; so at most one request
   * is outstanding at any time.
   */
  lemma {:induction false} SingleFlight(s: FormState, es: seq<Event>)
    requires EnabledRun(s, es)
    ensures Requests(s, es) + (if s.status == Loading then 1 else 0)
         == Completions(es) + (if Run(s, es).status == Loading then 1 else 0)
    decreases |es|
  {
    if es != [] {
      StatusLifecycle(s, es[0]);
      SingleFlight(Next(s, es[0]), es[1..]);
    }
  }

  /** From a fresh form, requests issued and answers received differ by at most one. */
  lemma AtMostOneOutstanding(es: seq<Event>)
    requires EnabledRun(Init(), es)
    ensures Completions(es) <= Requests(Init(), es) <= Completions(es) + 1
  {
    SingleFlight(Init(), es);
  }

  /**
   * From a fresh form, the controls are disabled (`isSubmitDisabled`)
   * exactly while a request is outstanding or after success.
   */
  lemma DisabledWhileOutstandingOrDone(es: seq<Event>)
    requires EnabledRun(Init(), es)
    ensures IsSubmitDisabled(Run(Init(), es)) <==>
      Requests(Init(), es) > Completions(es) || Run(Init(), es).status == Success
  {
    SingleFlight(Init(), es);
  }

  /**
   * From a fresh form, an inline field error is shown exactly when the
   * field is touched and the validator rejects its current value: the
   * error on screen is never stale and never appears before the field is
   * touched.
   */
  lemma InlineErrorsTrackValidators(es: seq<Event>)
    requires EnabledRun(Init(), es)
    ensures var t := Run(Init(), es);
      && (ShowsEmailError(t) <==> t.touched.email && ValidateEmail(t.email) != None)
      && (ShowsPasswordError(t) <==> t.touched.password && ValidatePassword(t.password) != None)
  {
    InvRun(Init(), es);
    var t := Run(Init(), es);
    ValidatorMessagesAreNonEmpty(t.email, t.password);
  }

  /**
   * The events the rendered form delivers follow its controls: the inputs'
   * edits, the toggle and the submit button work exactly while
   * `isSubmitDisabled` is false; blur needs only the form to be rendered,
   * that is, no success; answers and faults come only while loading.
   */
  lemma EnabledMatchesControls(s: FormState, e: Event)
    ensures e.EmailEdited? || e.PasswordEdited? || e == Submitted || e == VisibilityToggled ==>
      (Enabled(s, e) <==> !IsSubmitDisabled(s))
    ensures e == EmailBlurred || e == PasswordBlurred ==> (Enabled(s, e) <==> s.status != Success)
    ensures e.Resolved? || e == Faulted ==> (Enabled(s, e) ==> s.status == Loading)
  {
  }

  // ---------------------------------------------------------------------
  // Scenarios

  /** Entering the accepted pair and submitting ends in success. */
  lemma ScenarioAcceptedPair()
    ensures var s := PasswordChange(EmailChange(Init(), DemoEmail), DemoPassword);
      var step := Submit(s);
      && step.request == Some(Credentials(DemoEmail, DemoPassword))
      && Resolve(step.state, MockLogin(DemoEmail, DemoPassword)).state.status == Success
  {
    DemoPairPassesValidation();
    var s := PasswordChange(EmailChange(Init(), DemoEmail), DemoPassword);
    assert s == Init().(email := DemoEmail, password := DemoPassword);
    SubmitAcceptsValid(s);
  }

  /** A malformed e-mail blocks submission and draws focus to the e-mail input. */
  lemma ScenarioMalformedEmail()
    ensures var step := Submit(PasswordChange(EmailChange(Init(), "bad"), "whatever"));
      && step.state.errors.email == Some(EmailInvalid)
      && step.state.errors.password == None
      && step.state.status == Idle
      && step.focus == Some(EmailInput)
      && step.request == None
  {
    assert !IsEmailShaped("bad");
  }

  /** A short password blocks submission and leaves the e-mail without error. */
  lemma ScenarioShortPassword()
    ensures var step := Submit(PasswordChange(EmailChange(Init(), DemoEmail), "short"));
      && step.state.errors.password == Some(PasswordTooShort)
      && step.state.errors.email == None
      && step.state.status == Idle
      && step.focus == Some(PasswordInput)
  {
    DemoPairPassesValidation();
  }

  /**
   * Two valid values that are not the accepted pair: the answer is the
   * generic rejection, shown as the form-level error with focus on the
   * submit button; the next edit of the e-mail dismisses it.
   */
  lemma ScenarioRejectedThenEdited()
    ensures var s := PasswordChange(EmailChange(Init(), "user@site.com"), "longenough1");
      var step := Submit(s);
      var done := Resolve(step.state, MockLogin("user@site.com", "longenough1"));
      && step.request == Some(Credentials("user@site.com", "longenough1"))
      && done.state.status == Error
      && done.state.errors == FormErrors(None, None, Some(InvalidCredentials))
      && done.focus == Some(SubmitButton)
      && EmailChange(done.state, "user@site.co").errors.form == None
  {
    var e := "user@site.com";
    assert e[..4] == "user" && e[5..9] == "site" && e[10..] == "com";
    assert e[4] == '@' && e[9] == '.';
    assert MatchesEmailPattern(e);
    assert e != DemoEmail;
  }
}
