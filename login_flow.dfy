/**
 * The two-step sign-in controller: an email step, then a password step, each submitted through
 * a schema and then a simulated verification. Each asynchronous submit is split into the call
 * that validates and starts it and the call that applies its simulated response.
 */
module LoginFlow {
  import opened Wrappers
  import opened Text
  import EmailSyntax
  import Forms

  const InvalidEmailMessage := "Invalid email address."
  const EmailRequiredMessage := "Email is required."
  const MinPasswordLength := 6
  const ShortPasswordMessage := "Password must be at least 6 characters."
  const IncorrectPasswordMessage := "Incorrect password. Please try again."
  /** The one password the simulated check accepts. */
  const DemoPassword := "password123"
  /** The substring of an email that makes the simulated check ask for a second factor. */
  const SecondFactorMarker := "2fa"

  // ----- schemas -----

  /** The issues `emailSchema` reports, in the order of its checks: address syntax, then a
      minimum length of one. Both checks run; neither stops the other. */
  function EmailIssues(email: string): seq<string>
  {
    (if EmailSyntax.IsEmail(email) then [] else [InvalidEmailMessage])
    + (if |email| >= 1 then [] else [EmailRequiredMessage])
  }

  /** `emailSchema` accepts `email`: it passes both checks. */
  predicate EmailAccepted(email: string) {
    EmailSyntax.IsEmail(email) && |email| >= 1
  }

  /** The message the email field shows after a submit; None when the form is accepted. An
      accepted address is never empty, and the message shown is always the syntax one, even for
      the empty field. */
  function EmailFieldError(email: string): (r: Option<string>)
    ensures r.None? <==> EmailIssues(email) == []
    ensures r.None? <==> EmailAccepted(email)
    ensures EmailAccepted(email) <==> EmailSyntax.IsEmail(email)
    ensures EmailAccepted(email) ==> |email| >= 1
    ensures r.Some? ==> r.value == InvalidEmailMessage
    ensures email == "" ==> r == Some(InvalidEmailMessage)
  {
    Forms.FirstIssue(EmailIssues(email))
  }

  /** The issues `passwordSchema` reports; its minimum counts UTF-16 code units. */
  function PasswordIssues(password: string): seq<string>
  {
    if Utf16Length(password) >= MinPasswordLength then [] else [ShortPasswordMessage]
  }

  /** The message the password field shows after a submit; None when the form is accepted. */
  function PasswordFieldError(password: string): (r: Option<string>)
    ensures r.None? <==> Utf16Length(password) >= 6
    ensures r.Some? ==> r.value == ShortPasswordMessage
  {
    Forms.FirstIssue(PasswordIssues(password))
  }

  /** The minimum counts code units, not characters: three characters outside the Basic
      Multilingual Plane, such as three emoji, already pass it. */
  lemma PasswordLengthInCodeUnits(password: string)
    requires forall i :: 0 <= i < |password| ==> password[i] as int >= 0x10000
    requires |password| >= 3
    ensures PasswordFieldError(password) == None
  {
    Utf16LengthOfAstral(password);
  }

  // ----- the simulated verification -----

  datatype Verdict = Incorrect | SecondFactorRequired | SignedIn

  /** The simulated credential check a password submit ends with: a second factor exactly for
      the demo password with "2fa" occurring in the email, a sign-in exactly for the demo
      password with no occurrence, and an incorrect password otherwise. */
  function PasswordVerdict(email: string, password: string): (v: Verdict)
    ensures v == SecondFactorRequired
        <==> password == DemoPassword && exists i :: OccursAt(email, SecondFactorMarker, i)
    ensures v == SignedIn
        <==> password == DemoPassword && forall i :: !OccursAt(email, SecondFactorMarker, i)
    ensures v == Incorrect <==> password != DemoPassword
  {
    ContainsIff(email, SecondFactorMarker);
    if password == DemoPassword then
      if Contains(email, SecondFactorMarker) then SecondFactorRequired else SignedIn
    else Incorrect
  }

  /** What the controller emits to its host. */
  datatype Outcome =
    | Stay
    | Require2FA(email: string)
    | LoginSuccess(email: string)
    | ForgotPassword(hint: Option<string>)
    | CreateAccount

  /** The outcome a password check emits: an error that stays put, a demand for the second
      factor, or a successful sign-in, the last two carrying the email that was checked. */
  function PasswordOutcome(email: string, password: string): (o: Outcome)
    ensures o == Stay || o == Require2FA(email) || o == LoginSuccess(email)
    ensures o == Stay <==> password != DemoPassword
    ensures o.Require2FA? <==> password == DemoPassword && exists i :: OccursAt(email, SecondFactorMarker, i)
  {
    match PasswordVerdict(email, password)
    case Incorrect => Stay
    case SecondFactorRequired => Require2FA(email)
    case SignedIn => LoginSuccess(email)
  }

  // ----- the controller -----

  datatype Step = EmailStep | PasswordStep

  /** The submission whose simulated response is still awaited, with the data it was made with. */
  datatype Request = Idle | CheckingEmail(email: string) | CheckingPassword(email: string, password: string)

  /** Every field of the controller and of its two forms. */
  datatype LoginState = LoginState(
    step: Step,
    currentEmail: string,
    isLoading: bool,
    error: Option<string>,
    request: Request,
    emailInput: string,
    emailFieldError: Option<string>,
    passwordInput: string,
    passwordFieldError: Option<string>)

  class LoginFlowManager {
    var step: Step
    var currentEmail: string
    var isLoading: bool
    /** The message shown under the form, set by a failed credential check. */
    var error: Option<string>
    var request: Request
    /** What the email form holds, and the message under its field. */
    var emailInput: string
    var emailFieldError: Option<string>
    /** What the password form holds, and the message under its field. */
    var passwordInput: string
    var passwordFieldError: Option<string>

    ghost function Snapshot(): LoginState
      reads this
    {
      LoginState(step, currentEmail, isLoading, error, request,
                 emailInput, emailFieldError, passwordInput, passwordFieldError)
    }

    /** The busy flag is set exactly while a check is awaited; the password step is only ever
        reached with an accepted email; an awaited check was started with the error cleared, and
        a password check with the email now current. */
    ghost predicate Valid()
      reads this
    {
      && (isLoading <==> !request.Idle?)
      && (step == PasswordStep ==> EmailAccepted(currentEmail))
      && (request.CheckingEmail? ==> step == EmailStep && EmailAccepted(request.email) && error == None)
      && (request.CheckingPassword? ==> request.email == currentEmail && error == None)
    }

    /** The wizard as it mounts: on the email step, both forms filled from their defaults. */
    constructor (initialEmail: string)
      ensures Valid()
      ensures Snapshot() == LoginState(EmailStep, initialEmail, false, None, Idle, initialEmail, None, "", None)
    {
      step := EmailStep;
      currentEmail := initialEmail;
      isLoading := false;
      error := None;
      request := Idle;
      emailInput := initialEmail;
      emailFieldError := None;
      passwordInput := "";
      passwordFieldError := None;
    }

    /** Typing in the email field, which is shown on the email step only. */
    method EditEmail(value: string)
      requires Valid() && step == EmailStep
      modifies this
      ensures Valid()
      ensures Snapshot() == old(Snapshot()).(emailInput := value)
    {
      emailInput := value;
    }

    /** Typing in the password field, which is shown on the password step only. */
    method EditPassword(value: string)
      requires Valid() && step == PasswordStep
      modifies this
      ensures Valid()
      ensures Snapshot() == old(Snapshot()).(passwordInput := value)
    {
      passwordInput := value;
    }

    /** Submitting the email form; its button is disabled while a check is awaited. A rejected
        address only sets the field's message. An accepted one starts the email check. */
    method SubmitEmail()
      requires Valid() && step == EmailStep && !isLoading
      modifies this
      ensures Valid()
      ensures Snapshot() ==
        if EmailAccepted(old(emailInput)) then
          old(Snapshot()).(isLoading := true, error := None, emailFieldError := None,
                           request := CheckingEmail(old(emailInput)))
        else old(Snapshot()).(emailFieldError := Some(InvalidEmailMessage))
    {
      if EmailAccepted(emailInput) {
        emailFieldError := None;
        isLoading := true;
        error := None;
        request := CheckingEmail(emailInput);
      } else {
        emailFieldError := EmailFieldError(emailInput);
        assert emailFieldError == Some(InvalidEmailMessage);
      }
    }

    /** The email check's response: any address is accepted, so the controller always moves to
        the password step with exactly the submitted address, and the password form is reset. */
    method FinishEmailCheck()
      requires Valid() && request.CheckingEmail?
      modifies this
      ensures Valid()
      ensures Snapshot() == old(Snapshot()).(step := PasswordStep, currentEmail := old(request.email),
                                             isLoading := false, request := Idle,
                                             passwordInput := "", passwordFieldError := None)
      ensures step == PasswordStep && currentEmail == old(request.email) && error == None && !isLoading
    {
      currentEmail := request.email;
      step := PasswordStep;
      isLoading := false;
      request := Idle;
      passwordInput := "";
      passwordFieldError := None;
    }

    /** Submitting the password form; its button is disabled while a check is awaited. A short
        password only sets the field's message. An accepted one starts the credential check for
        the current email. */
    method SubmitPassword()
      requires Valid() && step == PasswordStep && !isLoading
      modifies this
      ensures Valid()
      ensures Utf16Length(old(passwordInput)) >= MinPasswordLength ==>
        Snapshot() == old(Snapshot()).(isLoading := true, error := None, passwordFieldError := None,
                                       request := CheckingPassword(old(currentEmail), old(passwordInput)))
      ensures Utf16Length(old(passwordInput)) < MinPasswordLength ==>
        Snapshot() == old(Snapshot()).(passwordFieldError := Some(ShortPasswordMessage))
    {
      var fieldError := PasswordFieldError(passwordInput);
      if fieldError.None? {
        passwordFieldError := None;
        isLoading := true;
        error := None;
        request := CheckingPassword(currentEmail, passwordInput);
      } else {
        passwordFieldError := fieldError;
      }
    }

    /** The credential check's response. A wrong password sets the error and emits nothing; the
        right one emits the second-factor demand or the sign-in, with the current email. Step and
        email never change here, and the busy flag always ends false. The step may meanwhile have
        gone back to the email step, since going back is not blocked while a check is awaited. */
    method FinishPasswordCheck() returns (outcome: Outcome)
      requires Valid() && request.CheckingPassword?
      modifies this
      ensures Valid()
      ensures outcome == PasswordOutcome(old(currentEmail), old(request.password))
      ensures Snapshot() == old(Snapshot()).(isLoading := false, request := Idle,
                                             error := if outcome == Stay then Some(IncorrectPasswordMessage) else None)
    {
      outcome := PasswordOutcome(request.email, request.password);
      if outcome == Stay {
        error := Some(IncorrectPasswordMessage);
      }
      isLoading := false;
      request := Idle;
    }

    /** The back button of the password step: back to the email step, with the error cleared and
        the email field filled with the current email. It is not disabled while a check is awaited. */
    method BackToEmail()
      requires Valid() && step == PasswordStep
      modifies this
      ensures Valid()
      ensures Snapshot() == old(Snapshot()).(step := EmailStep, error := None, emailInput := old(currentEmail))
    {
      step := EmailStep;
      error := None;
      emailInput := currentEmail;
    }

    /** "Forgot email?" on the email step: recovery without a hint. */
    method ForgotEmail() returns (outcome: Outcome)
      requires step == EmailStep
      ensures outcome == ForgotPassword(None)
    {
      outcome := ForgotPassword(None);
    }

    /** "Forgot password?" on the password step: recovery with the current email as the hint. */
    method ForgotPasswordLink() returns (outcome: Outcome)
      requires step == PasswordStep
      ensures outcome == ForgotPassword(Some(currentEmail))
    {
      outcome := ForgotPassword(Some(currentEmail));
    }

    /** "Create account", shown on the email step only. */
    method CreateAccountLink() returns (outcome: Outcome)
      requires step == EmailStep
      ensures outcome == CreateAccount
    {
      outcome := CreateAccount;
    }
  }
}
