/** The authorization controller of the original backend. It reads the HTTP context directly,
    throws when no OpenID Connect request is present on either endpoint, falls back to the empty
    string for a missing email or user name, and describes the unsupported-grant error. */
module LegacyAuthorization {
  import opened Wrappers
  import opened Oidc

  const RequestMissingMessage := "The OpenID Connect request cannot be retrieved."
  const UserMissingMessage := "The user details cannot be retrieved."
  const UnsupportedGrantDescription := "The specified grant type is not supported."

  /** `Authorize`: as in the API project, but a null email or user name becomes "" so the sign-in
      always goes ahead once a user is found. */
  method Authorize(request: Option<OidcRequest>, cookie: AuthenticateResult, findUser: Principal -> Option<User>)
    returns (r: AuthorizationOutcome)
    ensures request.None? ==> r == Thrown(InvalidOperation(RequestMissingMessage))
    ensures request.Some? && cookie.Failed? ==> r == Challenge(ApplicationScheme)
    ensures request.Some? && cookie.Succeeded? && findUser(cookie.principal).None? ==>
      r == Thrown(InvalidOperation(UserMissingMessage))
    ensures request.Some? && cookie.Succeeded? && findUser(cookie.principal).Some? ==>
      var u := findUser(cookie.principal).value;
      r == SignIn(IssuedPrincipal(request.value, u.id, u.email.GetOr(""), u.userName.GetOr("")), ServerScheme)
  {
    if request.None? {
      return Thrown(InvalidOperation(RequestMissingMessage));
    }
    if cookie.Failed? {
      return Challenge(ApplicationScheme);
    }
    var found := findUser(cookie.principal);
    if found.None? {
      return Thrown(InvalidOperation(UserMissingMessage));
    }
    var user := found.value;
    var email := user.email.GetOr("");
    var name := user.userName.GetOr("");
    var claims := [Claim(SubjectClaim, user.id, []), Claim(EmailClaim, email, []), Claim(NameClaim, name, [])];
    var tagged := TagDestinations(claims);
    ghost var issued := IssuedPrincipal(request.value, user.id, email, name);
    assert tagged[0] == issued.claims[0] && tagged[1] == issued.claims[1] && tagged[2] == issued.claims[2];
    assert tagged == issued.claims;
    var principal := Principal(ServerScheme, tagged, request.value.scopes);
    assert principal == issued;
    return SignIn(principal, ServerScheme);
  }

  /** `Exchange`: for the authorization-code grant, sign in with the principal the server scheme
      recovers, where a null principal makes `SignIn` throw as in the API project; otherwise a
      BadRequest with `unsupported_grant_type` and the fixed description. */
  function Exchange(request: Option<OidcRequest>, server: AuthenticateResult): (r: AuthorizationOutcome)
    ensures request.None? ==> r == Thrown(InvalidOperation(RequestMissingMessage))
    ensures r.SignIn? <==> request.Some? && IsAuthorizationCodeGrantType(request.value) && server.Succeeded?
    ensures r.SignIn? ==> r == SignIn(server.principal, ServerScheme)
    ensures request.Some? && IsAuthorizationCodeGrantType(request.value) && server.Failed? ==>
      r == Thrown(ArgumentNull(SignInPrincipalParameter))
    ensures request.Some? && !IsAuthorizationCodeGrantType(request.value) ==>
      r == BadRequest(UnsupportedGrantType, Some(UnsupportedGrantDescription))
  {
    if request.None? then Thrown(InvalidOperation(RequestMissingMessage))
    else if IsAuthorizationCodeGrantType(request.value) then
      match PrincipalOf(server)
      case Some(principal) => SignIn(principal, ServerScheme)
      case None => Thrown(ArgumentNull(SignInPrincipalParameter))
    else BadRequest(UnsupportedGrantType, Some(UnsupportedGrantDescription))
  }

}
