/**
 * Whole journeys through the screens, driven event by event through the controller and the
 * pages, with what each one ends in.
 */
module Journeys {
  import opened Wrappers
  import Text
  import Location
  import Routes
  import LoginFlow
  import LoginPage
  import TwoFactorAuth

  /** An address containing "2fa" with the right password: the wizard asks for the second
      factor, the page opens the two-factor screen naming that address, and the accepted code
      leads to the dashboard. */
  method SecondFactorSignIn(email: string) returns (hint: Option<string>, route: Option<string>)
    requires LoginFlow.EmailAccepted(email) && Text.Contains(email, LoginFlow.SecondFactorMarker)
    ensures hint == Some(email)
    ensures route == Some(Routes.Dashboard)
  {
    var wizard := LoginPage.MountWizard();
    wizard.EditEmail(email);
    wizard.SubmitEmail();
    wizard.FinishEmailCheck();
    wizard.EditPassword(LoginFlow.DemoPassword);
    wizard.SubmitPassword();
    var outcome := wizard.FinishPasswordCheck();
    Text.ContainsIff(email, LoginFlow.SecondFactorMarker);
    assert outcome == LoginFlow.Require2FA(email);
    var next := LoginPage.Navigation(outcome);
    var screen := new TwoFactorAuth.TwoFactorAuthPage(Location.Query(next.value));
    hint := screen.email;
    TwoFactorAuth.AcceptedCodeLength();
    screen.EditCode(TwoFactorAuth.AcceptedCode);
    screen.Submit();
    route := screen.Finish();
  }

  /** A wrong password that passes the schema, then back: the error is shown and cleared, nothing
      is emitted, and the email field holds the address that was used. */
  method WrongPasswordThenBack(email: string, password: string)
      returns (outcome: LoginFlow.Outcome, shown: Option<string>, after: Option<string>, field: string)
    requires LoginFlow.EmailAccepted(email)
    requires Text.Utf16Length(password) >= LoginFlow.MinPasswordLength
    requires password != LoginFlow.DemoPassword
    ensures outcome == LoginFlow.Stay
    ensures shown == Some(LoginFlow.IncorrectPasswordMessage)
    ensures after == None
    ensures field == email
  {
    var wizard := LoginPage.MountWizard();
    wizard.EditEmail(email);
    wizard.SubmitEmail();
    wizard.FinishEmailCheck();
    wizard.EditPassword(password);
    wizard.SubmitPassword();
    outcome := wizard.FinishPasswordCheck();
    shown := wizard.error;
    wizard.BackToEmail();
    after := wizard.error;
    field := wizard.emailInput;
  }

  /** Going back while the credential check is awaited, which nothing prevents: the check still
      completes, and its verdict is applied on the email step. */
  method BackWhileChecking(email: string) returns (step: LoginFlow.Step, outcome: LoginFlow.Outcome)
    requires LoginFlow.EmailAccepted(email) && Text.Contains(email, LoginFlow.SecondFactorMarker)
    ensures step == LoginFlow.EmailStep
    ensures outcome == LoginFlow.Require2FA(email)
  {
    var wizard := LoginPage.MountWizard();
    wizard.EditEmail(email);
    wizard.SubmitEmail();
    wizard.FinishEmailCheck();
    wizard.EditPassword(LoginFlow.DemoPassword);
    wizard.SubmitPassword();
    wizard.BackToEmail();
    outcome := wizard.FinishPasswordCheck();
    Text.ContainsIff(email, LoginFlow.SecondFactorMarker);
    step := wizard.step;
  }
}
