/**
 * The sign-in page hosting the wizard: it mounts the controller and turns each outcome the
 * controller emits into a navigation, carrying the email in the route where one is needed.
 */
module LoginPage {
  import opened Wrappers
  import UriComponent
  import Location
  import Routes
  import LoginFlow
  import TwoFactorAuth
  import PasswordRecovery

  /** After a sign-in: the dashboard, whoever signed in; the route carries no email. */
  function LoginSuccessRoute(email: string): (route: string)
    ensures Location.Path(route) == Routes.Dashboard
    ensures Location.SearchParam(Location.Query(route), Location.EmailParam) == None
  {
    Location.BareRoute(Routes.Dashboard, Location.EmailParam);
    Routes.Dashboard
  }

  /** After "Forgot ...?": the recovery screen, with the email as a parameter when there is a
      non-empty one (an absent and an empty email both count as none). The recovery screen opens
      with its field holding that email, or empty when there is none; the route is the bare
      path exactly when the email is absent or empty. */
  function ForgotPasswordRoute(email: Option<string>): (route: string)
    ensures Location.Path(route) == Routes.PasswordRecovery
    ensures PasswordRecovery.InitialEmail(Location.Query(route)) == email.GetOr("")
    ensures route == Routes.PasswordRecovery <==> email.GetOr("") == ""
  {
    if email.Some? && email.value != "" then
      Location.EmailParamRoundTrip(Routes.PasswordRecovery, email.value);
      Routes.PasswordRecovery + "?email=" + UriComponent.Encode(email.value)
    else
      Location.BareRoute(Routes.PasswordRecovery, Location.EmailParam);
      Routes.PasswordRecovery
  }

  /** After "Create account": the creation screen; the route carries no email. */
  function CreateAccountRoute(): (route: string)
    ensures Location.Path(route) == Routes.AccountCreation
    ensures Location.SearchParam(Location.Query(route), Location.EmailParam) == None
  {
    Location.BareRoute(Routes.AccountCreation, Location.EmailParam);
    Routes.AccountCreation
  }

  /** After a password that needs a second factor: the two-factor screen, naming exactly the
      email that needed it. */
  function Require2FARoute(email: string): (route: string)
    ensures Location.Path(route) == Routes.TwoFactorAuth
    ensures TwoFactorAuth.EmailHint(Location.Query(route)) == Some(email)
  {
    Location.EmailParamRoundTrip(Routes.TwoFactorAuth, email);
    Routes.TwoFactorAuth + "?email=" + UriComponent.Encode(email)
  }

  /** Two emails never share a two-factor route. */
  lemma Require2FARouteInjective(email: string, other: string)
    ensures Require2FARoute(email) == Require2FARoute(other) <==> email == other
  {
    var prefix := Routes.TwoFactorAuth + "?email=";
    if Require2FARoute(email) == Require2FARoute(other) {
      assert UriComponent.Encode(email) == Require2FARoute(email)[|prefix|..];
      assert UriComponent.Encode(other) == Require2FARoute(other)[|prefix|..];
      UriComponent.EncodeInjective(email, other);
    }
  }

  /** Where the page goes for each outcome of the controller; nowhere while the wizard stays. */
  function Navigation(outcome: LoginFlow.Outcome): (route: Option<string>)
    ensures route.None? <==> outcome.Stay?
    ensures outcome.LoginSuccess? ==> route == Some(Routes.Dashboard)
    ensures outcome.CreateAccount? ==> route == Some(Routes.AccountCreation)
    ensures outcome.Require2FA? ==>
      route.Some? && Location.Path(route.value) == Routes.TwoFactorAuth
      && TwoFactorAuth.EmailHint(Location.Query(route.value)) == Some(outcome.email)
    ensures outcome.ForgotPassword? ==>
      route.Some? && Location.Path(route.value) == Routes.PasswordRecovery
      && PasswordRecovery.InitialEmail(Location.Query(route.value)) == outcome.hint.GetOr("")
  {
    match outcome
    case Stay => None
    case LoginSuccess(email) => Some(LoginSuccessRoute(email))
    case ForgotPassword(hint) => Some(ForgotPasswordRoute(hint))
    case CreateAccount => Some(CreateAccountRoute())
    case Require2FA(email) => Some(Require2FARoute(email))
  }

  /** The page mounts the wizard without an initial email, so it starts on the email step with
      both fields empty. */
  method MountWizard() returns (wizard: LoginFlow.LoginFlowManager)
    ensures fresh(wizard) && wizard.Valid()
    ensures wizard.Snapshot() == LoginFlow.LoginState(LoginFlow.EmailStep, "", false, None, LoginFlow.Idle, "", None, "", None)
  {
    wizard := new LoginFlow.LoginFlowManager("");
  }
}
