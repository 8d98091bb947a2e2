/**
 * The account-creation screen: a six-field form checked by a schema with a cross-field rule,
 * then a simulated creation that always succeeds and leads to the sign-in screen.
 */
module AccountCreation {
  import opened Text
  import EmailSyntax
  import Routes

  datatype CreationForm = CreationForm(
    firstName: string,
    lastName: string,
    email: string,
    password: string,
    confirmPassword: string,
    agreeToTerms: bool)

  datatype Field = FirstName | LastName | Email | Password | ConfirmPassword | AgreeToTerms

  /** The form as the screen opens: every text empty, the agreement unticked. */
  const DefaultForm := CreationForm("", "", "", "", "", false)

  const MinPasswordLength := 8
  const FirstNameMessage := "First name is required."
  const LastNameMessage := "Last name is required."
  const InvalidEmailMessage := "Invalid email address."
  const ShortPasswordMessage := "Password must be at least 8 characters."
  const TermsMessage := "You must agree to the terms and conditions."
  const MismatchMessage := "Passwords do not match."

  const AllFields: set<Field> := {FirstName, LastName, Email, Password, ConfirmPassword, AgreeToTerms}

  /** The issues `accountCreationSchema` reports for one field: each field's own check, and for
      the confirmation field the cross-field rule, which the schema reports there. The library
      runs the rule even where field checks failed, since none of those failures stops the parse. */
  function FieldIssues(f: CreationForm, field: Field): seq<string>
  {
    match field
    case FirstName => if |f.firstName| >= 1 then [] else [FirstNameMessage]
    case LastName => if |f.lastName| >= 1 then [] else [LastNameMessage]
    case Email => if EmailSyntax.IsEmail(f.email) then [] else [InvalidEmailMessage]
    case Password => if Utf16Length(f.password) >= MinPasswordLength then [] else [ShortPasswordMessage]
    case ConfirmPassword => if f.password == f.confirmPassword then [] else [MismatchMessage]
    case AgreeToTerms => if f.agreeToTerms then [] else [TermsMessage]
  }

  /** The messages a submit of `f` shows, the first issue of each offending field; empty exactly
      when every rule holds, and only then does the submit handler run. */
  function CreationErrors(f: CreationForm): (errors: map<Field, string>)
    ensures errors == map[] <==> AllRulesHold(f)
    ensures FirstName in errors <==> f.firstName == ""
    ensures LastName in errors <==> f.lastName == ""
    ensures Email in errors <==> !EmailSyntax.IsEmail(f.email)
    ensures Password in errors <==> Utf16Length(f.password) < MinPasswordLength
    ensures AgreeToTerms in errors <==> !f.agreeToTerms
    ensures ConfirmPassword in errors <==> f.password != f.confirmPassword
    ensures FirstName in errors ==> errors[FirstName] == FirstNameMessage
    ensures LastName in errors ==> errors[LastName] == LastNameMessage
    ensures Email in errors ==> errors[Email] == InvalidEmailMessage
    ensures Password in errors ==> errors[Password] == ShortPasswordMessage
    ensures AgreeToTerms in errors ==> errors[AgreeToTerms] == TermsMessage
    ensures ConfirmPassword in errors ==> errors[ConfirmPassword] == MismatchMessage
  {
    var errors := map field | field in AllFields && FieldIssues(f, field) != [] :: FieldIssues(f, field)[0];
    NoErrorsNoIssues(f, errors);
    assert FirstName in AllFields && LastName in AllFields && Email in AllFields;
    assert Password in AllFields && ConfirmPassword in AllFields && AgreeToTerms in AllFields;
    errors
  }

  /** The form passes every rule. */
  predicate AllRulesHold(f: CreationForm) {
    && |f.firstName| >= 1 && |f.lastName| >= 1
    && EmailSyntax.IsEmail(f.email)
    && Utf16Length(f.password) >= MinPasswordLength
    && f.password == f.confirmPassword
    && f.agreeToTerms
  }

  lemma NoErrorsNoIssues(f: CreationForm, errors: map<Field, string>)
    requires errors == map field | field in AllFields && FieldIssues(f, field) != [] :: FieldIssues(f, field)[0]
    ensures errors == map[] <==> AllRulesHold(f)
  {
    if AllRulesHold(f) {
      forall field ensures FieldIssues(f, field) == [] {
        match field
        case FirstName => case LastName => case Email =>
        case Password => case ConfirmPassword => case AgreeToTerms =>
      }
      assert errors.Keys == {};
    } else {
      var field :=
        if |f.firstName| < 1 then FirstName
        else if |f.lastName| < 1 then LastName
        else if !EmailSyntax.IsEmail(f.email) then Email
        else if Utf16Length(f.password) < MinPasswordLength then Password
        else if f.password != f.confirmPassword then ConfirmPassword
        else AgreeToTerms;
      assert field in AllFields && FieldIssues(f, field) != [];
      assert field in errors;
    }
  }

  /** The untouched form is refused: every field but the confirmation has a message (two empty
      passwords match). */
  lemma DefaultFormRejected()
    ensures CreationErrors(DefaultForm).Keys == {FirstName, LastName, Email, Password, AgreeToTerms}
  {
    var errors := CreationErrors(DefaultForm);
    assert !EmailSyntax.IsEmail("");
    assert errors.Keys == {FirstName, LastName, Email, Password, AgreeToTerms} by {
      forall x: Field ensures x in errors.Keys <==> x in {FirstName, LastName, Email, Password, AgreeToTerms} {
      }
    }
  }

  class AccountCreationPage {
    var form: CreationForm
    var isLoading: bool
    var errors: map<Field, string>

    /** A creation is only ever awaited for a form that was accepted. */
    ghost predicate Valid()
      reads this
    {
      isLoading ==> errors == map[]
    }

    constructor ()
      ensures Valid()
      ensures form == DefaultForm && !isLoading && errors == map[]
    {
      form := DefaultForm;
      isLoading := false;
      errors := map[];
    }

    /** Editing the form. */
    method Edit(value: CreationForm)
      requires Valid()
      modifies this
      ensures Valid()
      ensures form == value && isLoading == old(isLoading) && errors == old(errors)
    {
      form := value;
    }

    /** Submitting; Create Account is disabled while a creation is awaited. A refused form only
        sets the messages; an accepted one starts the creation. */
    method Submit()
      requires Valid() && !isLoading
      modifies this
      ensures Valid() && form == old(form)
      ensures errors == CreationErrors(old(form))
      ensures isLoading == (errors == map[])
    {
      errors := CreationErrors(form);
      if errors == map[] {
        isLoading := true;
      }
    }

    /** The simulated creation's response: the busy flag ends false, and the screen always
        navigates to sign-in. */
    method Finish() returns (route: string)
      requires Valid() && isLoading
      modifies this
      ensures Valid() && form == old(form) && errors == old(errors)
      ensures !isLoading
      ensures route == Routes.Login
    {
      isLoading := false;
      route := Routes.Login;
    }

    /** "Already have an account? Sign in". */
    method SignInInstead() returns (route: string)
      ensures route == Routes.Login
    {
      route := Routes.Login;
    }
  }
}
