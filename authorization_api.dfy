/** The authorization controller of the API project. It reaches the HTTP context only through
    the OIDC provider seam: the request it hands out, the authentication results it reports and
    the sign-in or challenge results it wraps. The user lookup is a function of the principal. */
module AuthorizationApi {
  import opened Wrappers
  import opened Oidc

  /** The provider's message when the context holds no OpenID Connect request. */
  const RequestMissingMessage := "The OIDC request cannot be retrieved."
  const UserNotFoundMessage := "User not found."
  /** The parameter the `Claim` constructor names when it is given a null value. */
  const ClaimValueParameter := "value"

  /** `Authorize`: fetch the request, authenticate the Identity cookie, look the user up, and sign
      in a principal with the `sub`, `email` and `name` claims. A failed cookie authentication is a
      Challenge whatever the user lookup would say; a null email or user name makes the `Claim`
      constructor throw. */
  method Authorize(request: Option<OidcRequest>, cookie: AuthenticateResult, findUser: Principal -> Option<User>)
    returns (r: AuthorizationOutcome)
    ensures request.None? ==> r == Thrown(InvalidOperation(RequestMissingMessage))
    ensures request.Some? && cookie.Failed? ==> r == Challenge(ApplicationScheme)
    ensures request.Some? && cookie.Succeeded? && findUser(cookie.principal).None? ==>
      r == Thrown(InvalidOperation(UserNotFoundMessage))
    ensures request.Some? && cookie.Succeeded? && findUser(cookie.principal).Some? ==>
      var u := findUser(cookie.principal).value;
      if u.email.None? || u.userName.None? then r == Thrown(ArgumentNull(ClaimValueParameter))
      else r == SignIn(IssuedPrincipal(request.value, u.id, u.email.value, u.userName.value), ServerScheme)
  {
    if request.None? {
      return Thrown(InvalidOperation(RequestMissingMessage));
    }
    if cookie.Failed? {
      return Challenge(ApplicationScheme);
    }
    var found := findUser(cookie.principal);
    if found.None? {
      return Thrown(InvalidOperation(UserNotFoundMessage));
    }
    var user := found.value;
    if user.email.None? || user.userName.None? {
      return Thrown(ArgumentNull(ClaimValueParameter));
    }
    var claims := [Claim(SubjectClaim, user.id, []), Claim(EmailClaim, user.email.value, []),
                   Claim(NameClaim, user.userName.value, [])];
    var tagged := TagDestinations(claims);
    ghost var issued := IssuedPrincipal(request.value, user.id, user.email.value, user.userName.value);
    assert tagged[0] == issued.claims[0] && tagged[1] == issued.claims[1] && tagged[2] == issued.claims[2];
    assert tagged == issued.claims;
    var principal := Principal(ServerScheme, tagged, request.value.scopes);
    assert principal == issued;
    return SignIn(principal, ServerScheme);
  }

  /** `Exchange`: for the authorization-code grant, sign in with the principal the server scheme
      recovers; when it recovers none, the null principal makes the `SignInResult` constructor
      throw. Any other grant type is a BadRequest with `unsupported_grant_type` and no
      description, decided without authenticating. */
  function Exchange(request: Option<OidcRequest>, server: AuthenticateResult): (r: AuthorizationOutcome)
    ensures request.None? ==> r == Thrown(InvalidOperation(RequestMissingMessage))
    ensures r.SignIn? <==> request.Some? && IsAuthorizationCodeGrantType(request.value) && server.Succeeded?
    ensures r.SignIn? ==> r == SignIn(server.principal, ServerScheme)
    ensures request.Some? && IsAuthorizationCodeGrantType(request.value) && server.Failed? ==>
      r == Thrown(ArgumentNull(SignInPrincipalParameter))
    ensures request.Some? && !IsAuthorizationCodeGrantType(request.value) ==>
      r == BadRequest(UnsupportedGrantType, None)
  {
    if request.None? then Thrown(InvalidOperation(RequestMissingMessage))
    else if IsAuthorizationCodeGrantType(request.value) then
      match PrincipalOf(server)
      case Some(principal) => SignIn(principal, ServerScheme)
      case None => Thrown(ArgumentNull(SignInPrincipalParameter))
    else BadRequest(UnsupportedGrantType, None)
  }
}
