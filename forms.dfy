/** What a form shows the user: field errors and acknowledgements. */
module Forms {
  import opened Wrappers

  /** The message a field shows after a rejected submit: the form resolver keeps the first issue
      the schema reported for that field; no issue means no message. */
  function FirstIssue(issues: seq<string>): Option<string>
  {
    if issues == [] then None else Some(issues[0])
  }

  /** A notification shown after a submit, with its title and its text. */
  datatype Acknowledgement = Acknowledgement(title: string, description: string)
}
