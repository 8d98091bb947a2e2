/**
 * The email-discovery screen: a phone number or recovery email, required but not checked for
 * syntax, then a simulated search acknowledged in one fixed wording.
 */
module EmailDiscovery {
  import opened Wrappers
  import Forms
  import Routes

  const IdentifierMessage := "Please enter your phone number or recovery email."

  /** The one acknowledgement every search gets. */
  const DiscoveryAcknowledgement := Forms.Acknowledgement(
    "Account Search Initiated",
    "If an account is found matching your information, we will send details to your recovery method.")

  /** The message the identifier field shows after a submit: `discoverySchema` only requires the
      field to be non-empty, so any non-empty text is accepted. */
  function IdentifierFieldError(identifier: string): (r: Option<string>)
    ensures r.None? <==> identifier != ""
    ensures r.Some? ==> r.value == IdentifierMessage
  {
    Forms.FirstIssue(if |identifier| >= 1 then [] else [IdentifierMessage])
  }

  class EmailDiscoveryPage {
    var identifierInput: string
    var isLoading: bool
    var identifierError: Option<string>
    /** The identifier whose simulated search is awaited. */
    var request: Option<string>

    ghost predicate Valid()
      reads this
    {
      (isLoading <==> request.Some?) && (request.Some? ==> request.value != "" && identifierError == None)
    }

    constructor ()
      ensures Valid()
      ensures identifierInput == "" && !isLoading && identifierError == None && request == None
    {
      identifierInput := "";
      isLoading := false;
      identifierError := None;
      request := None;
    }

    method EditIdentifier(value: string)
      requires Valid()
      modifies this
      ensures Valid()
      ensures identifierInput == value && isLoading == old(isLoading)
      ensures identifierError == old(identifierError) && request == old(request)
    {
      identifierInput := value;
    }

    /** Submitting; Find Email is disabled while a search is awaited. */
    method Submit()
      requires Valid() && !isLoading
      modifies this
      ensures Valid() && identifierInput == old(identifierInput)
      ensures old(identifierInput) != "" ==>
        isLoading && identifierError == None && request == Some(old(identifierInput))
      ensures old(identifierInput) == "" ==>
        !isLoading && identifierError == Some(IdentifierMessage) && request == None
    {
      var fieldError := IdentifierFieldError(identifierInput);
      if fieldError.None? {
        identifierError := None;
        isLoading := true;
        request := Some(identifierInput);
      } else {
        identifierError := fieldError;
      }
    }

    /** The simulated search's response: the busy flag ends false and the screen stays where it
        is, showing the same acknowledgement whatever was searched for. */
    method Finish() returns (ack: Forms.Acknowledgement)
      requires Valid() && request.Some?
      modifies this
      ensures Valid() && identifierInput == old(identifierInput) && identifierError == old(identifierError)
      ensures !isLoading && request == None
      ensures ack == DiscoveryAcknowledgement
    {
      ack := DiscoveryAcknowledgement;
      isLoading := false;
      request := None;
    }

    /** "Back to Sign In". */
    method BackToSignIn() returns (route: string)
      ensures route == Routes.Login
    {
      route := Routes.Login;
    }
  }
}
