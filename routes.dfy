/** The paths the router serves, as the application's route table declares them. */
module Routes {
  const Login := "/login"
  const PasswordRecovery := "/password-recovery"
  const EmailDiscovery := "/email-discovery"
  const AccountCreation := "/account-creation"
  const TwoFactorAuth := "/two-factor-auth"
  const Dashboard := "/dashboard"
}
