/**
 * `JiraAuthenticationProvider`: accepts a username/password pair when Jira accepts it, then
 * loads the user's details. Credential validation and the details service are given as functions.
 */
module JiraAuthenticationProvider {
  import opened Wrappers
  import opened JiraUserDetails
  import JsonTree

  /** The incoming `UsernamePasswordAuthenticationToken`: its name and its credentials' text. */
  datatype LoginAttempt = LoginAttempt(name: string, credentials: string)

  /** The authenticated `UsernamePasswordAuthenticationToken` built on success. */
  datatype AuthenticatedToken = AuthenticatedToken(principal: UserDetails, credentials: string,
                                                   authorities: set<string>, authenticated: bool)

  /** `JiraApiService.validateCredentials(username, password)`. */
  type CredentialCheck = (string, string) -> bool

  /** `UserDetailsService.loadUserByUsername(username)`. */
  type DetailsLoader = string -> Result<UserDetails, AuthError>

  function Authenticate(attempt: LoginAttempt, validate: CredentialCheck, loadUser: DetailsLoader)
    : (r: Result<AuthenticatedToken, AuthError>)
    ensures !validate(attempt.name, attempt.credentials) ==> r == Failure(BadCredentials)
    ensures validate(attempt.name, attempt.credentials) && loadUser(attempt.name).Failure? ==>
              r == Failure(loadUser(attempt.name).error)
    ensures validate(attempt.name, attempt.credentials) && loadUser(attempt.name).Success? ==>
              r == Success(AuthenticatedToken(loadUser(attempt.name).value, attempt.credentials,
                                              loadUser(attempt.name).value.authorities, true))
    ensures r.Success? ==>
              && validate(attempt.name, attempt.credentials)
              && loadUser(attempt.name).Success?
              && r.value.principal == loadUser(attempt.name).value
              && r.value.credentials == attempt.credentials
              && r.value.authorities == loadUser(attempt.name).value.authorities
              && r.value.authenticated
  {
    var username := attempt.name;
    var password := attempt.credentials;
    if validate(username, password) then
      match loadUser(username)
      case Success(userDetails) =>
        Success(AuthenticatedToken(userDetails, password, userDetails.authorities, true))
      case Failure(e) => Failure(e)
    else Failure(BadCredentials)
  }

  /** A rejected password never reaches the details service: any loader gives the same result. */
  lemma RejectedCredentialsLoadNothing(attempt: LoginAttempt, validate: CredentialCheck,
                                       loadUser1: DetailsLoader, loadUser2: DetailsLoader)
    requires !validate(attempt.name, attempt.credentials)
    ensures Authenticate(attempt, validate, loadUser1) == Authenticate(attempt, validate, loadUser2)
  {
  }

  /** Details are loaded for exactly the validated username and for no other. */
  lemma DetailsOfTheValidatedUserOnly(attempt: LoginAttempt, validate: CredentialCheck,
                                      loadUser1: DetailsLoader, loadUser2: DetailsLoader)
    requires loadUser1(attempt.name) == loadUser2(attempt.name)
    ensures Authenticate(attempt, validate, loadUser1) == Authenticate(attempt, validate, loadUser2)
  {
  }

  /** A Java class: its fully qualified name and those of its superclasses. */
  datatype JavaClass = JavaClass(qualifiedName: string, superclasses: seq<string>)

  const UsernamePasswordTokenClass := JavaClass(
    "org.springframework.security.authentication.UsernamePasswordAuthenticationToken",
    ["org.springframework.security.authentication.AbstractAuthenticationToken", "java.lang.Object"])

  /** `supports(c)`: class equality with `UsernamePasswordAuthenticationToken.class`. */
  function Supports(authentication: JavaClass): (b: bool)
    ensures b ==> authentication.qualifiedName == UsernamePasswordTokenClass.qualifiedName
    ensures b ==> UsernamePasswordTokenClass.qualifiedName !in authentication.superclasses
    ensures authentication == UsernamePasswordTokenClass ==> b
  {
    authentication == UsernamePasswordTokenClass
  }

  /** A subclass of the token class is not supported: the check is equality, not assignability. */
  lemma SubclassesAreNotSupported(c: JavaClass)
    requires UsernamePasswordTokenClass.qualifiedName in c.superclasses
    ensures !Supports(c)
  {
  }

  /**
   * With the Jira details service behind it: a login Jira accepts, whose record (from either
   * lookup) is not inactive and has a non-empty string `name`, yields a token whose principal is
   * that name, with no stored password and exactly `ROLE_USER`; any other accepted login fails
   * with the details service's error; a login Jira rejects yields bad credentials whatever the
   * lookups say.
   */
  lemma JiraLogin(attempt: LoginAttempt, validate: CredentialCheck, byUsername: UserLookup,
                  byEmail: UserLookup, info: UserInfo, name: string)
    requires ConsultedRecord(attempt.name, byUsername, byEmail) == Some(info)
    requires JsonTree.Lookup(info, "name") == Some(JsonTree.JString(name))
    requires name != "" && ActiveAllows(info)
    ensures var r := Authenticate(attempt, validate, u => LoadUserByUsername(u, byUsername, byEmail));
      && (validate(attempt.name, attempt.credentials) ==>
            r == Success(AuthenticatedToken(UserDetails(name, "", {RoleUser}), attempt.credentials,
                                            {RoleUser}, true)))
      && (!validate(attempt.name, attempt.credentials) ==> r == Failure(BadCredentials))
  {
    var loaded := LoadUserByUsername(attempt.name, byUsername, byEmail);
    assert loaded.Success?;
    assert loaded.value == UserDetails(name, "", {RoleUser});
  }
}
