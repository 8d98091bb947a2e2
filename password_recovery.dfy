/**
 * The password-recovery screen: an email, pre-filled from the route, checked for syntax, then
 * a simulated request acknowledged in words that do not say whether the account exists.
 */
module PasswordRecovery {
  import opened Wrappers
  import EmailSyntax
  import Forms
  import Location
  import Routes

  const InvalidEmailMessage := "Invalid email address."
  const AcknowledgementTitle := "Recovery Email Sent"
  const AcknowledgementOpening := "If an account exists for "
  const AcknowledgementClosing := ", you will receive an email with instructions to reset your password."

  /** The email the field starts with: the route's `email` parameter when it is present and not
      empty, and "" otherwise; that is, the parameter or "". */
  function InitialEmail(query: string): (email: string)
    ensures email == Location.SearchParam(query, Location.EmailParam).GetOr("")
  {
    var hint := Location.SearchParam(query, Location.EmailParam);
    if hint.Some? && hint.value != "" then hint.value else ""
  }

  /** The message the email field shows after a submit: `recoverySchema` checks syntax only. */
  function EmailFieldError(email: string): (r: Option<string>)
    ensures r.None? <==> EmailSyntax.IsEmail(email)
    ensures r.Some? ==> r.value == InvalidEmailMessage
  {
    Forms.FirstIssue(if EmailSyntax.IsEmail(email) then [] else [InvalidEmailMessage])
  }

  /** The acknowledgement of a recovery request for `email`: a fixed title, and a text that
      repeats the email between a fixed opening and a fixed closing. */
  function RecoveryAcknowledgement(email: string): (ack: Forms.Acknowledgement)
    ensures ack.title == AcknowledgementTitle
    ensures |ack.description| == |AcknowledgementOpening| + |email| + |AcknowledgementClosing|
    ensures ack.description[..|AcknowledgementOpening|] == AcknowledgementOpening
    ensures ack.description[|AcknowledgementOpening|..|AcknowledgementOpening| + |email|] == email
    ensures ack.description[|AcknowledgementOpening| + |email|..] == AcknowledgementClosing
  {
    Forms.Acknowledgement(AcknowledgementTitle, AcknowledgementOpening + email + AcknowledgementClosing)
  }

  /** The acknowledgement has one wording for every email: the same title, and a text that
      differs only where it repeats the email; so two requests are acknowledged alike exactly
      when they name the same email, whatever accounts exist. */
  lemma AcknowledgementNamesOnlyTheEmail(e1: string, e2: string)
    ensures RecoveryAcknowledgement(e1).title == RecoveryAcknowledgement(e2).title
    ensures RecoveryAcknowledgement(e1) == RecoveryAcknowledgement(e2) <==> e1 == e2
  {
    var d1 := RecoveryAcknowledgement(e1).description;
    var d2 := RecoveryAcknowledgement(e2).description;
    var n := |AcknowledgementOpening|;
    if d1 == d2 {
      assert |e1| == |e2|;
      assert d1[n..n + |e1|] == e1;
      assert d2[n..n + |e2|] == e2;
    }
  }

  class PasswordRecoveryPage {
    var emailInput: string
    var isLoading: bool
    var emailError: Option<string>
    /** The email whose simulated request is awaited. */
    var request: Option<string>

    ghost predicate Valid()
      reads this
    {
      (isLoading <==> request.Some?) && (request.Some? ==> EmailSyntax.IsEmail(request.value) && emailError == None)
    }

    /** The screen as it opens at a route with query string `query`. */
    constructor (query: string)
      ensures Valid()
      ensures emailInput == InitialEmail(query) && !isLoading && emailError == None && request == None
    {
      emailInput := InitialEmail(query);
      isLoading := false;
      emailError := None;
      request := None;
    }

    method EditEmail(value: string)
      requires Valid()
      modifies this
      ensures Valid()
      ensures emailInput == value && isLoading == old(isLoading) && emailError == old(emailError)
      ensures request == old(request)
    {
      emailInput := value;
    }

    /** Submitting; Send Recovery Link is disabled while a request is awaited. */
    method Submit()
      requires Valid() && !isLoading
      modifies this
      ensures Valid() && emailInput == old(emailInput)
      ensures EmailSyntax.IsEmail(old(emailInput)) ==>
        isLoading && emailError == None && request == Some(old(emailInput))
      ensures !EmailSyntax.IsEmail(old(emailInput)) ==>
        !isLoading && emailError == Some(InvalidEmailMessage) && request == None
    {
      var fieldError := EmailFieldError(emailInput);
      if fieldError.None? {
        emailError := None;
        isLoading := true;
        request := Some(emailInput);
      } else {
        emailError := fieldError;
      }
    }

    /** The simulated request's response: the busy flag ends false and the screen stays where it
        is, showing the acknowledgement for the submitted email. */
    method Finish() returns (ack: Forms.Acknowledgement)
      requires Valid() && request.Some?
      modifies this
      ensures Valid() && emailInput == old(emailInput) && emailError == old(emailError)
      ensures !isLoading && request == None
      ensures ack == RecoveryAcknowledgement(old(request.value))
    {
      ack := RecoveryAcknowledgement(request.value);
      isLoading := false;
      request := None;
    }

    /** "Back to Sign In". */
    method BackToSignIn() returns (route: string)
      ensures route == Routes.Login
    {
      route := Routes.Login;
    }
  }
}
