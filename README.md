# Sign-in wizard: a verified model

This project models the decision logic of a client-side sign-in wizard and its sibling screens,
and proves what each of them does with the user's input.

- **The two-step controller** (`LoginFlow`). The email step comes first, then the password
  step. Each submit passes a schema, then a simulated check. The asynchronous submit is split in
  two: `Submit…` validates and sets the busy flag, and `Finish…` applies the simulated response.
  A wrong password leaves an error on screen. The password `password123` signs the user in, or,
  when the email contains `2fa`, asks for a second factor. The "Forgot …?" and "Create account"
  links leave the wizard.
- **The sign-in page** (`LoginPage`). It mounts the controller without an initial email. It
  turns each outcome into a route, carrying the email as an `email` parameter written with
  `encodeURIComponent`.
- **The single-step screens**: two-factor code (`TwoFactorAuth`), account creation
  (`AccountCreation`), password recovery (`PasswordRecovery`) and email discovery
  (`EmailDiscovery`). Each one validates, sets its busy flag, and then gives a fixed verdict or
  acknowledgement.

Helper modules:

- `EmailSyntax` is the address pattern that `z.string().email()` checks.
- `UriComponent` is `encodeURIComponent` together with the decoding that `URLSearchParams`
  applies. Decoding is proved to undo encoding.
- `Location` covers what `useSearchParams().get` reads from a route.
- `Journeys` drives whole journeys through several screens.

The main cross-screen results are the contracts of `LoginPage.Require2FARoute` and
`LoginPage.ForgotPasswordRoute`. The route the page navigates to opens the next screen
with exactly the email the wizard held, or with an empty field when no email was carried.

Some behaviours of the code worth knowing:

- The two-factor challenge is a separate page, not a step of the controller.
- Whether a second factor is needed is decided by the substring `2fa` in the email, not by a
  `requiresSecondFactor` answer.
- Going back from the password step is not blocked while a check is awaited. So a credential
  check can finish while the email step is showing (`Journeys.BackWhileChecking`).
- A two-factor code is any six UTF-16 code units, not necessarily digits.
- Every length rule counts UTF-16 code units, as JavaScript's `length` does, so a character
  outside the Basic Multilingual Plane, such as an emoji, counts twice (`Text.Utf16Length`).
- "Forgot email?" leads to the password-recovery screen. The email-discovery screen is reachable
  only by its own route.
- The identity field accepts email addresses only, not phone numbers.
- No "collaborator unavailable" error exists.

The email schema runs both of its checks, and the form shows the first issue. So an empty field
shows "Invalid email address.", and "Email is required." is never displayed
(`LoginFlow.EmailFieldError`).

## Model

| member | source | states |
|---|---|---|
| `Text.Contains` | src/components/LoginFlowManager.tsx:83 | `includes` of the empty string always holds, and nothing longer than the string is included in it; `ContainsIff` gives the full meaning |
| `Text.ContainsIff` | src/components/LoginFlowManager.tsx:83 | `includes` holds exactly when the substring occurs at some index |
| `Text.Utf16LengthOfAstral` | src/components/LoginFlowManager.tsx:18 | a string of characters outside the Basic Multilingual Plane has a JavaScript length of twice its number of characters |
| `Text.Utf16Length` | src/components/LoginFlowManager.tsx:18 | JavaScript's `length`, which every `.min`/`.max` and `maxLength` compares: between one and two units per character, and zero exactly for the empty string |
| `EmailSyntax.IsEmail` | src/components/LoginFlowManager.tsx:14 | the address check `.email()` makes; an accepted address holds an '@' and is never empty |
| `UriComponent.Encode` | src/pages/LoginPage.tsx:28 | `encodeURIComponent` emits only unreserved characters and '%', at least one per input character |
| `UriComponent.EncodeHasNoDelimiter` | src/pages/LoginPage.tsx:28 | an encoded email holds no '&', '=', '+', '#' or '?', so it stays one query value |
| `UriComponent.RoundTrip` | src/pages/LoginPage.tsx:38 | decoding a query value undoes `encodeURIComponent` for every string |
| `UriComponent.EncodeInjective` | src/pages/LoginPage.tsx:38 | two strings share an encoding exactly when they are equal |
| `Location.SearchParam` | src/pages/TwoFactorAuthPage.tsx:28 | `get(name)` is null exactly when no decoded pair of the query has that name, and otherwise the value of the first pair that has it |
| `Location.EmailParamRoundTrip` | src/pages/TwoFactorAuthPage.tsx:27-28 | a route `path?email=<enc(v)>` has that path, and its `email` parameter reads back as exactly `v` |
| `Location.BareRoute` | src/pages/PasswordRecoveryPage.tsx:28 | a route without a query has no `email` parameter (`get` gives null) |
| `LoginFlow.EmailFieldError` | src/components/LoginFlowManager.tsx:13-15 | the email form is accepted exactly when the address syntax holds; an accepted address is non-empty; the message shown is always "Invalid email address.", the empty field included |
| `LoginFlow.PasswordFieldError` | src/components/LoginFlowManager.tsx:17-19 | the password form is accepted exactly when the password's JavaScript length (UTF-16 code units) is at least 6, otherwise it shows the length message |
| `LoginFlow.PasswordLengthInCodeUnits` | src/components/LoginFlowManager.tsx:18 | any three or more characters outside the Basic Multilingual Plane, such as three emoji, pass the six-unit minimum, since each takes two UTF-16 code units |
| `LoginFlow.PasswordVerdict` | src/components/LoginFlowManager.tsx:80-97 | second factor exactly for `password123` with "2fa" occurring in the email; sign-in exactly for `password123` with no occurrence; incorrect exactly for any other password |
| `LoginFlow.PasswordOutcome` | src/components/LoginFlowManager.tsx:80-97 | a password check emits only Stay, Require2FA(email) or LoginSuccess(email) for the checked email; Stay exactly for a wrong password; Require2FA exactly when "2fa" occurs |
| `LoginFlow.LoginFlowManager.constructor` | src/components/LoginFlowManager.tsx:39-57 | starts on the email step, with `currentEmail` and the email field both the initial email, not loading, no error, empty password field, the invariant established |
| `LoginFlow.LoginFlowManager.EditEmail` | src/components/LoginFlowManager.tsx:117-123 | typing changes only the email field's value |
| `LoginFlow.LoginFlowManager.EditPassword` | src/components/LoginFlowManager.tsx:160-165 | typing changes only the password field's value |
| `LoginFlow.LoginFlowManager.SubmitEmail` | src/components/LoginFlowManager.tsx:59-62 | only when not loading (button disabled at line 139); an accepted address sets loading, clears the error and starts the check with exactly the typed string; a rejected one sets only the field message, all else unchanged |
| `LoginFlow.LoginFlowManager.FinishEmailCheck` | src/components/LoginFlowManager.tsx:63-71 | always moves to the password step, with `currentEmail` the submitted string, no error, not loading, and the password form reset |
| `LoginFlow.LoginFlowManager.SubmitPassword` | src/components/LoginFlowManager.tsx:73-76 | only when not loading (button disabled at line 179); a password of 6 or more UTF-16 code units sets loading, clears the error and starts the check for the current email; a shorter one sets only the field message |
| `LoginFlow.LoginFlowManager.FinishPasswordCheck` | src/components/LoginFlowManager.tsx:77-98 | emits `PasswordOutcome` of the current email and the submitted password; a wrong password sets the error text; step and email unchanged; loading ends false |
| `LoginFlow.LoginFlowManager.BackToEmail` | src/components/LoginFlowManager.tsx:100-104 | returns to the email step, clears the error, fills the email field with `currentEmail`, keeps `currentEmail`; no busy guard |
| `LoginFlow.LoginFlowManager.ForgotEmail` | src/components/LoginFlowManager.tsx:130 | on the email step, "Forgot email?" emits recovery with no email |
| `LoginFlow.LoginFlowManager.ForgotPasswordLink` | src/components/LoginFlowManager.tsx:172 | on the password step, "Forgot password?" emits recovery carrying `currentEmail` |
| `LoginFlow.LoginFlowManager.CreateAccountLink` | src/components/LoginFlowManager.tsx:136 | "Create account" exists on the email step only and emits CreateAccount |
| `LoginPage.LoginSuccessRoute` | src/pages/LoginPage.tsx:20-24 | a sign-in leads to the path `/dashboard`, whoever signed in, and the route carries no email |
| `LoginPage.ForgotPasswordRoute` | src/pages/LoginPage.tsx:26-29 | the route's path is `/password-recovery`; the recovery field opens holding the email, or "" when it is absent; the route is bare exactly when the email is absent or empty |
| `LoginPage.CreateAccountRoute` | src/pages/LoginPage.tsx:31-34 | "Create account" leads to the path `/account-creation`, and the route carries no email |
| `LoginPage.Require2FARoute` | src/pages/LoginPage.tsx:36-39 | the route's path is `/two-factor-auth` and the two-factor screen reads its email as exactly the email that needed the second factor |
| `LoginPage.Require2FARouteInjective` | src/pages/LoginPage.tsx:38 | distinct emails give distinct two-factor routes |
| `LoginPage.Navigation` | src/pages/LoginPage.tsx:20-39 | no navigation exactly for Stay; sign-in goes to exactly `/dashboard`; create-account to exactly `/account-creation`; Require2FA and ForgotPassword carry the email to the next screen as above |
| `LoginPage.MountWizard` | src/pages/LoginPage.tsx:57-63 | the wizard is mounted without an initial email: a fresh, valid controller on the email step with everything empty |
| `TwoFactorAuth.CodeFieldError` | src/pages/TwoFactorAuthPage.tsx:15-17 | a code passes validation exactly when its JavaScript length (UTF-16 code units) is 6, whatever the characters; otherwise the length message |
| `TwoFactorAuth.EmailHint` | src/pages/TwoFactorAuthPage.tsx:28 | the screen's email is absent exactly when no pair of the route's query is called `email`, and otherwise is the value of such a pair |
| `TwoFactorAuth.CodeVerdict` | src/pages/TwoFactorAuthPage.tsx:47-62 | a checked code leads to `/dashboard` exactly when it is `123456`, and nowhere otherwise |
| `TwoFactorAuth.TwoFactorAuthPage.constructor` | src/pages/TwoFactorAuthPage.tsx:27-38 | the screen's email is the route's `email` parameter, possibly absent; empty code, not loading |
| `TwoFactorAuth.TwoFactorAuthPage.EditCode` | src/pages/TwoFactorAuthPage.tsx:92-96 | typing at most six UTF-16 code units (the input's `maxLength`) changes only the code |
| `TwoFactorAuth.TwoFactorAuthPage.Submit` | src/pages/TwoFactorAuthPage.tsx:40-42 | only when not loading (Verify disabled at line 117); a code of six UTF-16 code units sets loading and starts the check; any other length sets only the length message |
| `TwoFactorAuth.TwoFactorAuthPage.Finish` | src/pages/TwoFactorAuthPage.tsx:43-63 | the route is `CodeVerdict` of the submitted code; a wrong code sets "Invalid verification code. Please try again." and stays resubmittable; loading ends false in both branches; no attempt count |
| `AccountCreation.CreationErrors` | src/pages/AccountCreationPage.tsx:16-26 | no message exactly when both names are non-empty, the email syntax holds, the password's JavaScript length (UTF-16 code units) is at least 8, it equals the confirmation, and the terms are agreed; each field has a message exactly when its own rule fails, that message is the field's own text from the schema, and a mismatch is reported on the confirmation field |
| `AccountCreation.DefaultFormRejected` | src/pages/AccountCreationPage.tsx:43-53 | the untouched form is refused, with a message on every field except the confirmation |
| `AccountCreation.AccountCreationPage.constructor` | src/pages/AccountCreationPage.tsx:43-53 | opens with the default form, not loading, no messages |
| `AccountCreation.AccountCreationPage.Edit` | src/pages/AccountCreationPage.tsx:95-122 | editing changes only the form's values |
| `AccountCreation.AccountCreationPage.Submit` | src/pages/AccountCreationPage.tsx:55-57 | only when not loading (button disabled at line 133); the messages are `CreationErrors` of the form, and loading starts exactly when there are none |
| `AccountCreation.AccountCreationPage.Finish` | src/pages/AccountCreationPage.tsx:58-66 | loading ends false and the screen navigates to exactly `/login`, unconditionally |
| `AccountCreation.AccountCreationPage.SignInInstead` | src/pages/AccountCreationPage.tsx:130 | "Already have an account? Sign in" goes to exactly `/login` |
| `PasswordRecovery.InitialEmail` | src/pages/PasswordRecoveryPage.tsx:28 | the field starts with the route's `email` parameter, or "" when it is absent |
| `PasswordRecovery.EmailFieldError` | src/pages/PasswordRecoveryPage.tsx:15-17 | the form is accepted exactly when the address syntax holds |
| `PasswordRecovery.RecoveryAcknowledgement` | src/pages/PasswordRecoveryPage.tsx:46-49 | the title is "Recovery Email Sent" and the text repeats the submitted email between a fixed opening and a fixed closing |
| `PasswordRecovery.AcknowledgementNamesOnlyTheEmail` | src/pages/PasswordRecoveryPage.tsx:46-49 | every email gets the same title and template; two acknowledgements are equal exactly when the emails are, so nothing but the email varies, whether or not an account exists |
| `PasswordRecovery.PasswordRecoveryPage.constructor` | src/pages/PasswordRecoveryPage.tsx:27-38 | the field opens holding `InitialEmail` of the route's query; not loading |
| `PasswordRecovery.PasswordRecoveryPage.EditEmail` | src/pages/PasswordRecoveryPage.tsx:80-84 | typing changes only the field's value |
| `PasswordRecovery.PasswordRecoveryPage.Submit` | src/pages/PasswordRecoveryPage.tsx:40-42 | only when not loading (button disabled at line 96); a well-formed address sets loading and starts the request; any other sets only the field message |
| `PasswordRecovery.PasswordRecoveryPage.Finish` | src/pages/PasswordRecoveryPage.tsx:43-52 | loading ends false; the result is the acknowledgement for the submitted email, and nothing navigates |
| `PasswordRecovery.PasswordRecoveryPage.BackToSignIn` | src/pages/PasswordRecoveryPage.tsx:93 | "Back to Sign In" goes to exactly `/login` |
| `EmailDiscovery.IdentifierFieldError` | src/pages/EmailDiscoveryPage.tsx:15-17 | any non-empty identifier is accepted, with no syntax check |
| `EmailDiscovery.EmailDiscoveryPage.constructor` | src/pages/EmailDiscoveryPage.tsx:33-36 | opens with an empty identifier, not loading |
| `EmailDiscovery.EmailDiscoveryPage.EditIdentifier` | src/pages/EmailDiscoveryPage.tsx:77-81 | typing changes only the field's value |
| `EmailDiscovery.EmailDiscoveryPage.Submit` | src/pages/EmailDiscoveryPage.tsx:38-40 | only when not loading (button disabled at line 96); a non-empty identifier sets loading and starts the search; an empty one sets only the field message |
| `EmailDiscovery.EmailDiscoveryPage.Finish` | src/pages/EmailDiscoveryPage.tsx:41-49 | loading ends false; the acknowledgement is one constant for every identifier, so it does not depend on it; nothing navigates |
| `EmailDiscovery.EmailDiscoveryPage.BackToSignIn` | src/pages/EmailDiscoveryPage.tsx:93 | "Back to Sign In" goes to exactly `/login` |
| `Journeys.SecondFactorSignIn` | src/components/LoginFlowManager.tsx:81-86 | any accepted address in which "2fa" occurs, with `password123`, opens the two-factor screen naming that address, and `123456` then leads to `/dashboard` |
| `Journeys.WrongPasswordThenBack` | src/components/LoginFlowManager.tsx:92-104 | for any accepted address and any wrong password that passes the schema, the check emits nothing and shows the error; going back clears it and fills the field with the address used |
| `Journeys.BackWhileChecking` | src/components/LoginFlowManager.tsx:150 | for any accepted address in which "2fa" occurs, going back while the credential check is awaited still lets the check emit its second-factor demand, with the email step showing |

## Left out

- Presentation: all JSX, the language selector footer, spinners and `console.log`.
- Toasts: the notifications of the controller, the two-factor page and the account-creation
  page (`src/pages/AccountCreationPage.tsx:61-64`) are left out. The
  acknowledgements of the recovery and discovery screens are kept, as the value their `Finish`
  returns, because the information-hiding property is about them.
- Latency: each `setTimeout` await is the split between `Submit…` and `Finish…`, not a delay. A
  check that is never finished stays busy, as in the code.
- Leaving a screen: what happens to a component after it navigates away or unmounts is not
  modelled. The model still applies the rest of the handler, such as clearing the busy flag.
- Form library: react-hook-form is modelled only by its effect. The handler runs exactly when
  the schema accepts, each rejected field shows its first issue, and `reset`/`setValue` are
  field assignments. Re-validation while typing after a failed submit is not modelled: a field
  message stays until the next submit.
- `TwoFactorAuth.TwoFactorAuthPage.EditCode` keeps the field message. The page asks for validation
  on each change at `src/pages/TwoFactorAuthPage.tsx:95`. The registration spread at line 96
  replaces that handler, though, so whether a message shows while typing depends on the form
  library's re-validation mode, which is not modelled.
- Back button: the button at `src/components/LoginFlowManager.tsx:150` has no `type` inside the
  form, so in a browser it could also submit the password form. It is modelled as its own event.
- "Resend code" (`src/pages/TwoFactorAuthPage.tsx:112-114`) has no handler, so it is not modelled.
- `EmailSyntax.IsEmail`: the code does not pin the validation library's version, and its
  email pattern changed between releases. `IsEmail` assumes the pattern of zod 3.23 and later 3.x releases,
  written out as a left-to-right matcher. Every contract is stated in terms of `IsEmail`.
- `UriComponent.Decode`: ill-formed UTF-8 after percent-decoding is replaced one byte at a time,
  not by the maximal-subpart rule of the URL standard. This only matters for hand-typed routes;
  no route the page builds contains ill-formed UTF-8.
- `Location.Path`: a `#` fragment is not split off. No route the page builds contains `#`.
- Router wiring in `src/App.tsx` is not part of this model. Only its path strings are reused,
  in `Routes`.
