/**
 * The `LoginForm` component as an object: its `useState` cells are the
 * fields, and each event handler is a method that updates them in place,
 * in the order the handler calls its setters. Every method states the whole
 * new state and ties it to the transition of the same name in FormMachine,
 * so the lemmas proved there hold of the object as well.
 */
module LoginController {
  import opened Wrappers
  import opened Validation
  import opened MockAuth
  import opened FormMachine

  class LoginForm {
    var email: string
    var password: string
    var showPassword: bool
    var errors: FormErrors
    var status: FormStatus
    var touched: Touched

    /** The component's state as a value. */
    function State(): FormState
      reads this
    {
      FormState(email, password, showPassword, errors, status, touched)
    }

    /** The initial `useState` values. */
    constructor ()
      ensures email == "" && password == "" && !showPassword
      ensures errors == NoErrors && status == Idle && touched == Touched(false, false)
      ensures State() == Init()
    {
      email, password, showPassword := "", "", false;
      errors, status, touched := NoErrors, Idle, Touched(false, false);
    }

    /** The mount effect: the e-mail input receives focus once. */
    method Mount() returns (focus: FocusTarget)
      ensures focus == EmailInput
    {
      focus := EmailInput;
    }

    /**
     * `handleEmailBlur`: the e-mail field becomes touched and its error is
     * the validator's verdict on the current value; nothing else changes.
     */
    method EmailBlur()
      modifies this
      ensures touched == old(touched).(email := true)
      ensures errors == old(errors).(email := ValidateEmail(email))
      ensures email == old(email) && password == old(password)
      ensures showPassword == old(showPassword) && status == old(status)
      ensures State() == FormMachine.EmailBlur(old(State()))
    {
      touched := touched.(email := true);
      var error := ValidateEmail(email);
      errors := errors.(email := error);
    }

    /**
     * `handlePasswordBlur`: the password field becomes touched and its error
     * is the validator's verdict on the current value; nothing else changes.
     */
    method PasswordBlur()
      modifies this
      ensures touched == old(touched).(password := true)
      ensures errors == old(errors).(password := ValidatePassword(password))
      ensures email == old(email) && password == old(password)
      ensures showPassword == old(showPassword) && status == old(status)
      ensures State() == FormMachine.PasswordBlur(old(State()))
    {
      touched := touched.(password := true);
      var error := ValidatePassword(password);
      errors := errors.(password := error);
    }

    /**
     * `handleEmailChange`: the value is stored; its error is re-validated
     * only when the field is touched; a present form-level error is
     * dismissed; the password error, the touched flags and the status stay.
     */
    method EmailChange(value: string)
      modifies this
      ensures email == value
      ensures errors.email == if old(touched.email) then ValidateEmail(value) else old(errors.email)
      ensures errors.form == if Present(old(errors.form)) then None else old(errors.form)
      ensures errors.password == old(errors.password)
      ensures password == old(password) && showPassword == old(showPassword)
      ensures status == old(status) && touched == old(touched)
      ensures State() == FormMachine.EmailChange(old(State()), value)
    {
      var formPresent := Present(errors.form);
      email := value;
      if touched.email {
        errors := errors.(email := ValidateEmail(value));
      }
      if formPresent {
        errors := errors.(form := None);
      }
    }

    /**
     * `handlePasswordChange`: the value is stored; its error is re-validated
     * only when the field is touched; a present form-level error is
     * dismissed; the e-mail error, the touched flags and the status stay.
     */
    method PasswordChange(value: string)
      modifies this
      ensures password == value
      ensures errors.password == if old(touched.password) then ValidatePassword(value) else old(errors.password)
      ensures errors.form == if Present(old(errors.form)) then None else old(errors.form)
      ensures errors.email == old(errors.email)
      ensures email == old(email) && showPassword == old(showPassword)
      ensures status == old(status) && touched == old(touched)
      ensures State() == FormMachine.PasswordChange(old(State()), value)
    {
      var formPresent := Present(errors.form);
      password := value;
      if touched.password {
        errors := errors.(password := ValidatePassword(value));
      }
      if formPresent {
        errors := errors.(form := None);
      }
    }

    /**
     * The synchronous part of `handleSubmit`. With a field in error: the
     * errors become exactly the two validator results, both fields are
     * touched, the status stays, the first errored field gets focus and no
     * request is issued. With both fields valid: the errors are cleared, the
     * status is `Loading` and a request with the current values is issued.
     */
    method Submit() returns (focus: Option<FocusTarget>, request: Option<Credentials>)
      modifies this
      ensures email == old(email) && password == old(password) && showPassword == old(showPassword)
      ensures ValidateEmail(email) != None || ValidatePassword(password) != None ==>
        && errors == FormErrors(ValidateEmail(email), ValidatePassword(password), None)
        && touched == Touched(true, true)
        && status == old(status)
        && focus == Some(if ValidateEmail(email) != None then EmailInput else PasswordInput)
        && request == None
      ensures ValidateEmail(email) == None && ValidatePassword(password) == None ==>
        && errors == NoErrors
        && touched == old(touched)
        && status == Loading
        && focus == None
        && request == Some(Credentials(email, password))
      ensures SubmitStep(State(), focus, request) == FormMachine.Submit(old(State()))
    {
      ValidatorMessagesAreNonEmpty(email, password);
      var emailError := ValidateEmail(email);
      var passwordError := ValidatePassword(password);
      if Present(emailError) || Present(passwordError) {
        errors := FormErrors(emailError, passwordError, None);
        touched := Touched(true, true);
        if Present(emailError) {
          focus := Some(EmailInput);
        } else {
          focus := Some(PasswordInput);
        }
        request := None;
        return;
      }
      status := Loading;
      errors := NoErrors;
      focus, request := None, Some(Credentials(email, password));
    }

    /**
     * The authenticator answered: on success only the status changes; on
     * failure the status is `Error`, the errors are exactly the verdict's
     * message as the form-level error, and the submit button gets focus.
     */
    method Resolve(result: LoginResult) returns (focus: Option<FocusTarget>)
      modifies this
      ensures email == old(email) && password == old(password)
      ensures showPassword == old(showPassword) && touched == old(touched)
      ensures result.success ==> status == Success && errors == old(errors) && focus == None
      ensures !result.success ==>
        status == Error && errors == FormErrors(None, None, Some(result.message)) && focus == Some(SubmitButton)
      ensures Completion(State(), focus) == FormMachine.Resolve(old(State()), result)
    {
      if result.success {
        status := Success;
        focus := None;
      } else {
        status := Error;
        errors := FormErrors(None, None, Some(result.message));
        focus := Some(SubmitButton);
      }
    }

    /**
     * The authenticator call threw: the status is `Error`, the errors are
     * exactly the fixed fallback message, and the submit button gets focus.
     */
    method Fault() returns (focus: Option<FocusTarget>)
      modifies this
      ensures email == old(email) && password == old(password)
      ensures showPassword == old(showPassword) && touched == old(touched)
      ensures status == Error && errors == FormErrors(None, None, Some(UnexpectedError))
      ensures focus == Some(SubmitButton)
      ensures Completion(State(), focus) == FormMachine.Fault(old(State()))
    {
      status := Error;
      errors := FormErrors(None, None, Some(UnexpectedError));
      focus := Some(SubmitButton);
    }

    /**
     * `togglePasswordVisibility`: the visibility flips, the password input
     * keeps focus, and nothing else changes.
     */
    method TogglePasswordVisibility() returns (focus: FocusTarget)
      modifies this
      ensures showPassword == !old(showPassword)
      ensures email == old(email) && password == old(password)
      ensures errors == old(errors) && status == old(status) && touched == old(touched)
      ensures focus == PasswordInput
      ensures State() == FormMachine.TogglePasswordVisibility(old(State()))
    {
      showPassword := !showPassword;
      focus := PasswordInput;
    }
  }

  /**
   * A user session on a fresh form: type the e-mail, type the password,
   * submit, and, when a request is issued, deliver the authenticator's
   * verdict. The form ends in success exactly for the accepted pair, stays
   * idle exactly when a field is invalid, and otherwise fails with the
   * generic rejection as its form-level error.
   */
  method SignIn(email: string, password: string) returns (status: FormStatus, formError: Option<string>)
    ensures status == Success <==> email == DemoEmail && password == DemoPassword
    ensures status == Idle <==> ValidateEmail(email) != None || ValidatePassword(password) != None
    ensures status == Error <==>
      ValidateEmail(email) == None && ValidatePassword(password) == None &&
      !(email == DemoEmail && password == DemoPassword)
    ensures status == Error ==> formError == Some(InvalidCredentials)
    ensures status != Error ==> formError == None
  {
    var form := new LoginForm();
    form.EmailChange(email);
    form.PasswordChange(password);
    var focus, request := form.Submit();
    if request.Some? {
      ValidatedPairGetsSuccessOrGenericRejection(email, password);
      focus := form.Resolve(MockLogin(request.value.email, request.value.password));
    } else {
      DemoPairPassesValidation();
    }
    status, formError := form.status, form.errors.form;
  }
}
