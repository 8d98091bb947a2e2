/**
 * The two-factor screen: a code of six UTF-16 code units, checked against one fixed code after a
 * simulated delay, with unlimited retries.
 */
module TwoFactorAuth {
  import opened Wrappers
  import opened Text
  import Forms
  import Location
  import Routes

  const CodeLength := 6
  const CodeLengthMessage := "Verification code must be 6 digits."
  const InvalidCodeMessage := "Invalid verification code. Please try again."
  /** The one code the simulated check accepts. */
  const AcceptedCode := "123456"

  /** The issues `twoFactorSchema` reports: a minimum and a maximum length of six, with the same
      message, both counting UTF-16 code units; nothing restricts the characters. */
  function CodeIssues(code: string): seq<string>
  {
    (if Utf16Length(code) >= CodeLength then [] else [CodeLengthMessage])
    + (if Utf16Length(code) <= CodeLength then [] else [CodeLengthMessage])
  }

  /** The message the code field shows after a submit; None exactly for six UTF-16 code units, of
      whatever kind. */
  function CodeFieldError(code: string): (r: Option<string>)
    ensures r.None? <==> Utf16Length(code) == CodeLength
    ensures r.Some? ==> r.value == CodeLengthMessage
  {
    Forms.FirstIssue(CodeIssues(code))
  }

  /** The email named on the screen: the route's `email` parameter, absent exactly when no pair
      of the query has that name. */
  function EmailHint(query: string): (email: Option<string>)
    ensures email.None? <==>
      forall i :: 0 <= i < |Location.Pairs(query)| ==> Location.Pairs(query)[i].name != Location.EmailParam
    ensures email.Some? ==>
      exists i :: 0 <= i < |Location.Pairs(query)| && Location.Pairs(query)[i] == Location.Param(Location.EmailParam, email.value)
  {
    Location.SearchParam(query, Location.EmailParam)
  }

  /** The accepted code has the length the schema demands. */
  lemma AcceptedCodeLength()
    ensures Utf16Length(AcceptedCode) == CodeLength
  {
    Utf16LengthOfBmp(AcceptedCode);
  }

  /** Where a checked code leads: the dashboard for the accepted code, nowhere otherwise. */
  function CodeVerdict(code: string): (route: Option<string>)
    ensures route.Some? <==> code == AcceptedCode
    ensures route.Some? ==> route.value == Routes.Dashboard
  {
    if code == AcceptedCode then Some(Routes.Dashboard) else None
  }

  class TwoFactorAuthPage {
    const email: Option<string>
    var code: string
    var isLoading: bool
    var codeError: Option<string>
    /** The code whose simulated check is awaited. */
    var request: Option<string>

    ghost predicate Valid()
      reads this
    {
      && (isLoading <==> request.Some?)
      && (request.Some? ==> Utf16Length(request.value) == CodeLength && codeError == None)
    }

    /** The screen as it opens at a route with query string `query`. */
    constructor (query: string)
      ensures Valid()
      ensures email == EmailHint(query)
      ensures code == "" && !isLoading && codeError == None && request == None
    {
      email := EmailHint(query);
      code := "";
      isLoading := false;
      codeError := None;
      request := None;
    }

    /** Typing in the code field, which stays editable while a check is awaited; the input takes
        six UTF-16 code units at most (its `maxLength`). */
    method EditCode(value: string)
      requires Valid() && Utf16Length(value) <= CodeLength
      modifies this
      ensures Valid()
      ensures code == value && isLoading == old(isLoading) && codeError == old(codeError)
      ensures request == old(request)
    {
      code := value;
    }

    /** Submitting the form; Verify is disabled while a check is awaited. A code of the wrong
        length only sets the field's message; one of six code units starts the check. */
    method Submit()
      requires Valid() && !isLoading
      modifies this
      ensures Valid() && code == old(code)
      ensures Utf16Length(old(code)) == CodeLength ==> isLoading && codeError == None && request == Some(old(code))
      ensures Utf16Length(old(code)) != CodeLength ==>
        !isLoading && codeError == Some(CodeLengthMessage) && request == None
    {
      var fieldError := CodeFieldError(code);
      if fieldError.None? {
        codeError := None;
        isLoading := true;
        request := Some(code);
      } else {
        codeError := fieldError;
      }
    }

    /** The simulated check's response: the accepted code goes to the dashboard; any other code
        sets the field's message and stays, ready for another try, since nothing counts the
        attempts. The busy flag ends false either way, and the result depends on the code alone. */
    method Finish() returns (route: Option<string>)
      requires Valid() && request.Some?
      modifies this
      ensures Valid() && code == old(code) && !isLoading && request == None
      ensures route == CodeVerdict(old(request.value))
      ensures codeError == if route.Some? then None else Some(InvalidCodeMessage)
    {
      route := CodeVerdict(request.value);
      if route.None? {
        codeError := Some(InvalidCodeMessage);
      }
      isLoading := false;
      request := None;
    }
  }
}
