# Login form: validators, mock authenticator and form controller

This project models the logic of the `LoginForm` component of a small
sign-in page, and proves properties of that model. The component has three
parts:

- **Field validators.** `validateEmail` and `validatePassword` map a field's
  raw value to an optional error message. The e-mail check is the regular
  expression `^[^\s@]+@[^\s@]+\.[^\s@]+$`.
- **The mock authenticator.** `mockLogin` accepts one fixed demo pair. Any
  other pair gets the message of the first check that fails.
- **The controller.** It keeps the state `email`, `password`,
  `showPassword`, the error record `{email?, password?, form?}`, `status`
  (idle, loading, success or error) and the `touched` flags. Its handlers
  are blur, change, submit and toggle-visibility. Submission is asynchronous.

Files:

- `wrappers.dfy`: `Option`, which stands for `T | undefined`.
- `validation.dfy` (module `Validation`): the validators. The regular
  expression appears as the language it denotes (`MatchesEmailPattern`, a
  ghost predicate that names the positions of the `@` and the `.`). The
  validator runs a computable check (`IsEmailShaped`). `EmailShapeIffPattern`
  proves the two agree on every string.
- `mock_auth.dfy` (module `MockAuth`): the authenticator's verdict rule.
- `form_machine.dfy` (module `FormMachine`): the controller as a pure state
  machine. There is one transition function per handler. The events of the
  rendered form can be chained into runs. Single steps and runs have lemmas.
  `Enabled` says which events the form accepts in each state. For example,
  the inputs and the submit button are disabled while `isSubmitDisabled`
  holds, and the authenticator answers only while a request is in flight.
- `login_form.dfy` (module `LoginController`): the class `LoginForm`. Its
  fields are the component's `useState` cells. Each handler is a method that
  updates the fields in place. Each method states the whole new state and
  ties it to the `FormMachine` transition of the same name.

Submission is split into two transitions. `Submit` validates both fields.
It either rejects, or enters `Loading` and returns the request (the
`Credentials`) for the authenticator. `Resolve(result)` or `Fault` then
completes the request. Focus moves are returned as a `FocusTarget`
(`EmailInput`, `PasswordInput` or `SubmitButton`) and are not performed.
A target is the element the code asks to focus, not necessarily where
focus ends up. On the failure and fault paths the code focuses the submit
button right after setting the status to error (lines 259-267), before the
re-render. The button may still be disabled from the loading render
(line 439), and a browser may then ignore the call.

Three behaviours of the code are kept as written, although a more defensive
controller would differ:

- The code has no guard against a submit while a request is in flight. It
  relies on the disabled button. `SubmitWhileLoadingIssuesAgain` shows that a
  submit in that state would issue a second request. `SingleFlight` shows
  that only one request is ever outstanding when the disabled controls are
  respected.
- A submit whose fields are both valid does not touch the fields. Only a
  rejected submit sets both touched flags.
- There is no stale-result guard for a form removed while a request is
  pending.

## Model

| member | source | states |
|---|---|---|
| `Validation.ValidateEmail` | components/login-form.tsx:147-151 | "Email is required" exactly for the empty string; "Please enter a valid email address" exactly for a non-empty string outside the language of the regular expression; no error exactly for a string inside it |
| `Validation.EmailShapeIffPattern` | components/login-form.tsx:149 | the computable check accepts a string iff the string is a non-empty `[^\s@]` run, `@`, a non-empty run, `.`, a non-empty run |
| `Validation.ShapeImpliesPattern` | components/login-form.tsx:149 | every string the computable check accepts has such a split (the positions of `@` and `.` are exhibited) |
| `Validation.PatternImpliesShape` | components/login-form.tsx:149 | every string with such a split passes the computable check: its first `@` is the separator, and the rest is plain and holds an inner `.` |
| `Validation.AcceptedEmailHasOneAt` | components/login-form.tsx:149 | an accepted address has exactly one `@`, a non-empty part before it, and no JavaScript white space |
| `Validation.ValidatePassword` | components/login-form.tsx:154-158 | "Password is required" exactly for length 0; "Password must be at least 8 characters" exactly for lengths 1 to 7; no error exactly from length 8 on |
| `Validation.ValidatorMessagesAreNonEmpty` | components/login-form.tsx:147-158 | an error a validator reports is never the empty string, so it is always truthy |
| `MockAuth.MockLogin` | components/login-form.tsx:124-144 | success iff the pair is ("test@example.com", "password123"); otherwise the first failing check's message, in the order: no `@`, password shorter than 8, the generic rejection |
| `MockAuth.DemoPairPassesValidation` | components/login-form.tsx:129 | the accepted pair passes both field validators |
| `MockAuth.ValidatedPairGetsSuccessOrGenericRejection` | components/login-form.tsx:133-143 | values that pass the validators only ever get the success message or the generic rejection from the authenticator |
| `FormMachine.BlurIdempotent` | components/login-form.tsx:195-205 | blurring a field twice in a row gives the same state as blurring it once |
| `FormMachine.SubmitRejectsInvalid` | components/login-form.tsx:232-247 | with a field in error, submit issues no request and keeps the status. The errors become exactly `{email, password}` as validated, which drops `form`. Both fields become touched and exactly the errored fields are shown. Focus goes to the e-mail input if it is in error, else to the password input |
| `FormMachine.SubmitAcceptsValid` | components/login-form.tsx:249-251 | with both fields valid, submit enters `Loading` with errors `{}` and issues one request with the current values |
| `FormMachine.SubmitWhileLoadingIssuesAgain` | components/login-form.tsx:229-254 | the code has no re-entrancy guard: a submit in `Loading` with valid values issues another request |
| `FormMachine.EditDismissesFormError` | components/login-form.tsx:208-226 | an edit of either field clears a present form-level error |
| `FormMachine.StatusLifecycle` | components/login-form.tsx:229-278 | for every enabled event: nothing is delivered after success. A request is issued iff the status enters `Loading`, and only with both values valid. Answers and faults are exactly the events that leave `Loading`. No other event changes the status. Success is entered only from `Loading` |
| `FormMachine.InvStep` | components/login-form.tsx:195-278 | every enabled event keeps the invariant. In `Loading` and `Success` both values are valid and no error is stored. In `Success` the values are the accepted pair. A touched field's stored error is the validator's verdict on its current value; an untouched field has none |
| `FormMachine.InvRun` | components/login-form.tsx:229-278 | the invariant holds after any run of enabled events |
| `FormMachine.SuccessOnlyForDemoPair` | components/login-form.tsx:250-257 | every run from a fresh form that ends in success ends with the accepted pair and no errors |
| `FormMachine.SingleFlight` | components/login-form.tsx:250-278 | in an enabled run, requests issued plus the one already in flight equal answers and faults plus the one still in flight |
| `FormMachine.AtMostOneOutstanding` | components/login-form.tsx:250-278 | from a fresh form, requests issued exceed answers received by at most one |
| `FormMachine.DisabledWhileOutstandingOrDone` | components/login-form.tsx:278 | from a fresh form, `isSubmitDisabled` holds exactly while a request is outstanding or after success |
| `FormMachine.InlineErrorsTrackValidators` | components/login-form.tsx:350-423 | from a fresh form, the inline e-mail error (line 350) and the inline password error (line 423) are shown exactly when the field is touched and the validator rejects its current value |
| `FormMachine.EnabledMatchesControls` | components/login-form.tsx:278-439 | the events the model admits follow the rendered controls. Edits, the toggle and submit are admitted exactly while `isSubmitDisabled` is false (lines 334, 390, 408, 439). Blur is admitted exactly while the form is rendered, that is, not after success (line 286). Answers and faults come only while loading |
| `FormMachine.TouchedMonotone` | components/login-form.tsx:195-238 | a touched flag never reverts to false, whatever the events |
| `FormMachine.EditsNeverValidateUntouched` | components/login-form.tsx:208-226 | edits alone never change the stored error of an untouched field and never show one. They never change the touched flags or the status |
| `FormMachine.ScenarioAcceptedPair` | components/login-form.tsx:250-257 | typing the accepted pair and submitting issues its request, and its verdict gives success |
| `FormMachine.ScenarioMalformedEmail` | components/login-form.tsx:232-246 | ("bad", "whatever"): the e-mail error is the format message and the password has none. The status stays idle, focus goes to the e-mail input, and no request is issued |
| `FormMachine.ScenarioShortPassword` | components/login-form.tsx:232-246 | (demo e-mail, "short"): the password error is the length message and the e-mail has none. The status stays idle and focus goes to the password input |
| `FormMachine.ScenarioRejectedThenEdited` | components/login-form.tsx:208-263 | ("user@site.com", "longenough1"): the status becomes error, the errors are exactly the generic rejection and focus goes to the submit button. The next e-mail edit clears the form-level error |
| `LoginController.LoginForm.constructor` | components/login-form.tsx:162-167 | the initial values: empty fields, password hidden, no errors, idle, nothing touched |
| `LoginController.LoginForm.Mount` | components/login-form.tsx:183-185 | on mount the e-mail input receives focus |
| `LoginController.LoginForm.EmailBlur` | components/login-form.tsx:195-199 | the e-mail field becomes touched and its error is the validator's verdict on the current value. The other error keys, the other flag, the values and the status are unchanged |
| `LoginController.LoginForm.PasswordBlur` | components/login-form.tsx:201-205 | the same for the password field |
| `LoginController.LoginForm.EmailChange` | components/login-form.tsx:208-216 | the value is stored. Its error is re-validated only if the field is touched. A present form-level error is cleared. The password error, the touched flags and the status are unchanged |
| `LoginController.LoginForm.PasswordChange` | components/login-form.tsx:218-226 | the same for the password field |
| `LoginController.LoginForm.Submit` | components/login-form.tsx:229-251 | the rejecting and accepting branches of submit, with focus and request as outputs, field by field; the values are unchanged |
| `LoginController.LoginForm.Resolve` | components/login-form.tsx:253-263 | on a success verdict only the status changes, to success. On a failure it becomes error, the errors become exactly `{form: message}` and focus goes to the submit button |
| `LoginController.LoginForm.Fault` | components/login-form.tsx:264-268 | the status becomes error, the errors become exactly `{form: "An unexpected error occurred. Please try again."}` and focus goes to the submit button |
| `LoginController.LoginForm.TogglePasswordVisibility` | components/login-form.tsx:272-276 | the visibility flips, focus goes to the password input, and nothing else changes |
| `LoginController.SignIn` | components/login-form.tsx:160-268 | a session on a fresh form: type both values, submit, deliver the verdict. It ends in success iff the pair is the accepted one. It stays idle iff a field is invalid, and then no form-level error is set. It ends in error iff both fields are valid and the pair is not the accepted one, and then the form-level error is the generic rejection |

## Left out

- Icon components, JSX markup, CSS classes and the `useId` identifiers are not modelled. They are presentation only.
- `app/page.tsx` is not modelled. It is static page chrome around the form.
- The simulated network delay and the `async`/`await` mechanics are not modelled. A submission is a `Submit` transition followed by a separate `Resolve` or `Fault` transition.
- React state batching and stale closures are not modelled. Each handler is one atomic sequential update. The handlers' reads of `touched` and `errors.form` from the render closure give the same values here.
- The DOM focus calls are not performed. Focus appears only as an abstract `FocusTarget` output.
- The live-region announcer effect is not modelled. It copies `errors.form` into a screen-reader region.
- The success confirmation view and the "Forgot password?" link are not modelled. They are presentation only.
- Validation.IsWhitespace: models JavaScript's `\s` as a fixed set of Unicode scalar values. Strings are sequences of scalar values, not UTF-16 code units.
- Validation.ValidatePassword: counts length in Unicode scalar values, while JavaScript's `.length` counts UTF-16 code units. A character outside the Basic Multilingual Plane counts once here and twice in the source.
- MockAuth.MockLogin: the same length caveat applies to its password-length check.
- FormMachine.Enabled: lets blur events through while a request is in flight. It blocks them after success, when the form's inputs no longer exist. Whether a browser fires blur on a disabled input is not modelled.
