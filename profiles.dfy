/**
 * The details a message carries about its chat and its sender
 * (`msg.chat`, `msg.from`), and the display name derived from a sender's.
 */
module Profiles {
  import opened Wrappers

  /**
   * A details object: its id and the optional name fields the cache reads.
   * The cache stores it whole and replaces it whole.
   */
  datatype Profile = Profile(
    id: int,
    firstName: Option<string>,
    lastName: Option<string>,
    username: Option<string>)

  /**
   * A field counts when it is present and not the empty string: lodash's
   * `!_.isEmpty(field)` and JavaScript truthiness agree on this for fields
   * that are strings or absent.
   */
  predicate Filled(field: Option<string>)
  {
    field.Some? && field.value != ""
  }

  /** `name()`: first and last name, else either alone, else the username, else "". */
  function DisplayName(p: Profile): (r: string)
    ensures r == "" <==> !Filled(p.firstName) && !Filled(p.lastName) && !Filled(p.username)
    ensures Filled(p.firstName) ==>
              |p.firstName.value| <= |r| && r[..|p.firstName.value|] == p.firstName.value
    ensures Filled(p.firstName) && Filled(p.lastName) ==>
              |p.firstName.value| <= |r| && r[|p.firstName.value|..] == " " + p.lastName.value
    ensures !Filled(p.firstName) && Filled(p.lastName) ==> r == p.lastName.value
    ensures !Filled(p.firstName) && !Filled(p.lastName) && Filled(p.username) ==> r == p.username.value
    ensures Filled(p.firstName) && !Filled(p.lastName) ==> r == p.firstName.value
  {
    if Filled(p.firstName) && Filled(p.lastName) then p.firstName.value + " " + p.lastName.value
    else if Filled(p.firstName) then p.firstName.value
    else if Filled(p.lastName) then p.lastName.value
    else if Filled(p.username) then p.username.value
    else ""
  }

  /** The five senders of the display-name scenario and the names they get. */
  lemma DisplayNameScenario()
    ensures DisplayName(Profile(1, Some("stubFirstName"), Some("stubLastName"), Some("stubUsername")))
              == "stubFirstName stubLastName"
    ensures DisplayName(Profile(2, Some("stubFirstName"), Some(""), Some("stubUsername"))) == "stubFirstName"
    ensures DisplayName(Profile(3, Some(""), Some("stubLastName"), Some("stubUsername"))) == "stubLastName"
    ensures DisplayName(Profile(4, Some(""), Some(""), Some("stubUsername"))) == "stubUsername"
    ensures DisplayName(Profile(5, Some(""), Some(""), Some(""))) == ""
  {
  }
}
