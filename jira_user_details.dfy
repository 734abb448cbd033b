/**
 * `JiraUserDetailsService.loadUserByUsername`: the Spring Security user built from Jira's user
 * record. The two Jira lookups are given as functions: `None` is a null map, `Some(members)`
 * the map Jackson produced (an empty one when `JiraApiService` swallowed an HTTP error).
 */
module JiraUserDetails {
  import opened Wrappers
  import opened JsonTree

  /** The one authority every Jira user gets. */
  const RoleUser := "ROLE_USER"

  /** Spring Security's `User`: username, password and granted authorities. */
  datatype UserDetails = UserDetails(username: string, password: string, authorities: set<string>)

  datatype NotFoundReason = UnknownUser | InactiveUser

  /** The exceptions an authentication step can end with. */
  datatype AuthError =
    | UsernameNotFound(reason: NotFoundReason)
    | BadCredentials
    | ClassCast        // a map value that is not of the type the code casts it to
    | IllegalArgument  // Spring's `User` refuses a null or empty username

  /** A user record as `Map<String, Object>`. */
  type UserInfo = seq<(string, JsonNode)>

  /** `getUserByUsername` / `getUserByEmail`. */
  type UserLookup = string -> Option<UserInfo>

  /** The record consulted: the username lookup's, or the email lookup's when that one is null. */
  function ConsultedRecord(username: string, byUsername: UserLookup, byEmail: UserLookup): Option<UserInfo> {
    if byUsername(username).Some? then byUsername(username) else byEmail(username)
  }

  /** `(Boolean) userInfo.get("active")` lets the user through: absent, JSON null or true. */
  predicate ActiveAllows(info: UserInfo) {
    var active := Lookup(info, "active");
    active.None? || active.value.JNull? || active.value == JBool(true)
  }

  function LoadUserByUsername(username: string, byUsername: UserLookup, byEmail: UserLookup)
    : (r: Result<UserDetails, AuthError>)
    ensures ConsultedRecord(username, byUsername, byEmail).None? ==>
              r == Failure(UsernameNotFound(UnknownUser))
    ensures ConsultedRecord(username, byUsername, byEmail).Some? &&
            Lookup(ConsultedRecord(username, byUsername, byEmail).value, "active") == Some(JBool(false)) ==>
              r == Failure(UsernameNotFound(InactiveUser))
    ensures r.Success? <==>
              && ConsultedRecord(username, byUsername, byEmail).Some?
              && ActiveAllows(ConsultedRecord(username, byUsername, byEmail).value)
              && exists name :: name != "" &&
                   Lookup(ConsultedRecord(username, byUsername, byEmail).value, "name") == Some(JString(name))
    ensures r.Success? ==>
              && r.value.password == ""
              && r.value.authorities == {RoleUser}
              && Lookup(ConsultedRecord(username, byUsername, byEmail).value, "name") == Some(JString(r.value.username))
  {
    var first := byUsername(username);
    var userInfo := if first.None? then byEmail(username) else first;
    if userInfo.None? then Failure(UsernameNotFound(UnknownUser))
    else
      var active := Lookup(userInfo.value, "active");
      if active.Some? && !active.value.JNull? && !active.value.JBool? then Failure(ClassCast)
      else if active.Some? && active.value == JBool(false) then Failure(UsernameNotFound(InactiveUser))
      else
        var name := Lookup(userInfo.value, "name");
        if name.Some? && !name.value.JNull? && !name.value.JString? then Failure(ClassCast)
        else if name.None? || name.value.JNull? || name.value.s == "" then Failure(IllegalArgument)
        else Success(UserDetails(name.value.s, "", {RoleUser}))
  }

  /** The email lookup matters only when the username lookup returned null. */
  lemma EmailLookupOnlyAsFallback(username: string, byUsername: UserLookup, byEmail1: UserLookup, byEmail2: UserLookup)
    requires byUsername(username).Some?
    ensures LoadUserByUsername(username, byUsername, byEmail1) == LoadUserByUsername(username, byUsername, byEmail2)
  {
  }

  /** Both lookups are asked about exactly the given username: nothing else influences the result. */
  lemma OnlyTheGivenUsernameIsLookedUp(username: string, byUsername1: UserLookup, byEmail1: UserLookup,
                                       byUsername2: UserLookup, byEmail2: UserLookup)
    requires byUsername1(username) == byUsername2(username) && byEmail1(username) == byEmail2(username)
    ensures LoadUserByUsername(username, byUsername1, byEmail1) == LoadUserByUsername(username, byUsername2, byEmail2)
  {
  }

  /**
   * The empty map `getUserByUsername` returns on an HTTP error is not "missing": there is no
   * email fallback and no not-found; Spring's `User` then rejects the null name.
   */
  lemma EmptyRecordIsNotMissing(username: string, byUsername: UserLookup, byEmail: UserLookup)
    requires byUsername(username) == Some([])
    ensures LoadUserByUsername(username, byUsername, byEmail) == Failure(IllegalArgument)
  {
  }
}
