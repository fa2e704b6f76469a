/**
 * The sign-up form's submit handler: three checks run in a fixed order, the
 * first failing one sets the form error, and only a form passing all three
 * reaches the `register` call, whose outcome is an input.
 */
module Register {
  import opened Wrappers

  datatype Form = Form(username: string, email: string, password: string, confirmPassword: string)

  /** What is sent to `register`: the confirmation is not. */
  datatype Credentials = Credentials(username: string, email: string, password: string)

  const MissingFields: string := "Please fill in all required fields"
  const PasswordMismatch: string := "Passwords do not match"
  const PasswordTooShort: string := "Password must be at least 6 characters"
  const RegistrationFailed: string := "Registration failed"

  const MinPasswordLength: nat := 6

  predicate Filled(f: Form) {
    f.username != "" && f.email != "" && f.password != ""
  }

  /** The message of the first failing check, or `None` when all pass. */
  function Validate(f: Form): (r: Option<string>)
    ensures r.None? <==> Filled(f) && f.password == f.confirmPassword && |f.password| >= MinPasswordLength
    ensures !Filled(f) ==> r == Some(MissingFields)
    ensures Filled(f) && f.password != f.confirmPassword ==> r == Some(PasswordMismatch)
    ensures Filled(f) && f.password == f.confirmPassword && |f.password| < MinPasswordLength ==> r == Some(PasswordTooShort)
  {
    if !Filled(f) then Some(MissingFields)
    else if f.password != f.confirmPassword then Some(PasswordMismatch)
    else if |f.password| < MinPasswordLength then Some(PasswordTooShort)
    else None
  }

  /** The outcome of the `register` call: success, or an error whose message
      may be empty. */
  datatype Outcome = Registered | Rejected(message: string)

  /** The page after a submit: its form error, what was sent, and whether it
      navigated home. */
  datatype Submission = Submission(formError: string, sent: Option<Credentials>, navigated: bool)

  /** `handleSubmit`, given the outcome the call would have. The form error
      is cleared first, so what was shown before never matters. */
  function Submit(f: Form, outcome: Outcome): (r: Submission)
    ensures r.sent.Some? <==> Validate(f).None?
    ensures r.sent.Some? ==> r.sent.value == Credentials(f.username, f.email, f.password)
    ensures Validate(f).Some? ==> r.formError == Validate(f).value
    ensures r.navigated <==> r.sent.Some? && outcome.Registered?
    ensures r.formError == "" <==> r.navigated
    ensures r.sent.Some? && outcome.Rejected? ==>
              r.formError == (if outcome.message != "" then outcome.message else RegistrationFailed)
  {
    match Validate(f)
    case Some(message) => Submission(message, None, false)
    case None =>
      var sent := Some(Credentials(f.username, f.email, f.password));
      match outcome
      case Registered => Submission("", sent, true)
      case Rejected(m) => Submission(if m != "" then m else RegistrationFailed, sent, false)
  }

  // ------------------------------------------------------------ reference

  /** The checks in the order `handleSubmit` runs them, each paired with the
      message it sets when it fails. */
  function Checks(f: Form): seq<(bool, string)> {
    [(Filled(f), MissingFields),
     (f.password == f.confirmPassword, PasswordMismatch),
     (|f.password| >= MinPasswordLength, PasswordTooShort)]
  }

  /** The message of the first failing check of a list, or `None`. */
  function FirstFailing(checks: seq<(bool, string)>): (r: Option<string>)
    ensures r.None? <==> forall k :: 0 <= k < |checks| ==> checks[k].0
    ensures r.Some? ==> exists k :: 0 <= k < |checks| && !checks[k].0 && checks[k].1 == r.value &&
                           forall j :: 0 <= j < k ==> checks[j].0
  {
    if |checks| == 0 then None
    else if !checks[0].0 then Some(checks[0].1)
    else
      var rest := FirstFailing(checks[1..]);
      assert forall k :: 1 <= k < |checks| ==> checks[k] == checks[1..][k - 1];
      rest
  }

  /** Validation is the first failing check of the ordered list: each
      message is shown only when every earlier check passes. */
  lemma ValidateIsFirstFailing(f: Form)
    ensures Validate(f) == FirstFailing(Checks(f))
  {
    var cs := Checks(f);
    assert cs[1..] == [cs[1], cs[2]];
    assert cs[1..][1..] == [cs[2]];
    assert cs[1..][1..][1..] == [];
  }

  /** A form that fails validation makes no call, so the call's outcome
      cannot change what the page shows. */
  lemma InvalidFormIgnoresOutcome(f: Form, o1: Outcome, o2: Outcome)
    requires Validate(f).Some?
    ensures Submit(f, o1) == Submit(f, o2)
    ensures Submit(f, o1).sent.None? && !Submit(f, o1).navigated
  {
  }
}
