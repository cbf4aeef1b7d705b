/** The vocabulary shared by both authorization controllers (OAuth 2.0 Authorization Code
    grant, section 4.1 of RFC 6749): claims, principals, the OpenID Connect request, the
    action outcomes, the claim-routing rule `GetDestinations` and the destination-tagging loop. */
module Oidc {
  import opened Wrappers

  // Claim types (OpenIddict `Claims.*`).
  const SubjectClaim := "sub"
  const EmailClaim := "email"
  const NameClaim := "name"

  // Token destinations (OpenIddict `Destinations.*`).
  const AccessToken := "access_token"
  const IdentityToken := "id_token"

  /** `IdentityConstants.ApplicationScheme`: the Identity cookie. */
  const ApplicationScheme := "Identity.Application"
  /** `OpenIddictServerAspNetCoreDefaults.AuthenticationScheme`. */
  const ServerScheme := "OpenIddict.Server.AspNetCore"

  /** `GrantTypes.AuthorizationCode`. */
  const AuthorizationCodeGrant := "authorization_code"
  /** `Errors.UnsupportedGrantType` (section 5.2 of RFC 6749). */
  const UnsupportedGrantType := "unsupported_grant_type"

  /** A claim with the token destinations it has been tagged with. */
  datatype Claim = Claim(claimType: string, value: string, destinations: seq<string>)

  /** A claims principal: one identity's authentication type, its claims in order, and its scopes. */
  datatype Principal = Principal(authenticationType: string, claims: seq<Claim>, scopes: seq<string>)

  /** The parsed OpenID Connect request: its grant type (null when absent) and its scopes. */
  datatype OidcRequest = OidcRequest(grantType: Option<string>, scopes: seq<string>)

  /** What `AuthenticateAsync` on a scheme produced. */
  datatype AuthenticateResult = Succeeded(principal: Principal) | Failed

  /** An Identity user; `Email` and `UserName` are nullable. */
  datatype User = User(id: string, email: Option<string>, userName: Option<string>)

  /** An exception escaping an endpoint. */
  datatype Fault = InvalidOperation(message: string) | ArgumentNull(paramName: string)

  /** The action results of the two endpoints. A `SignInResult` always holds a principal:
      its constructor throws on a null one. */
  datatype AuthorizationOutcome =
    | Challenge(scheme: string)
    | SignIn(principal: Principal, scheme: string)
    | BadRequest(error: string, description: Option<string>)
    | Thrown(fault: Fault)

  /** The parameter `SignInResult`'s constructor names when it is given a null principal. */
  const SignInPrincipalParameter := "principal"

  /** `AuthenticateResult.Principal`: null unless authentication succeeded. */
  function PrincipalOf(a: AuthenticateResult): (p: Option<Principal>)
    ensures p.Some? <==> a.Succeeded?
    ensures a.Succeeded? ==> p.value == a.principal
  {
    match a
    case Succeeded(principal) => Some(principal)
    case Failed => None
  }

  /** `IsAuthorizationCodeGrantType`: the grant type is present and equals `authorization_code` ordinally. */
  predicate IsAuthorizationCodeGrantType(request: OidcRequest) {
    request.grantType == Some(AuthorizationCodeGrant)
  }

  /** `GetDestinations`: every claim goes to the access token; `name` and `email` claims also
      go to the identity token, after it. */
  function GetDestinations(claimType: string): (d: seq<string>)
    ensures 1 <= |d| <= 2 && d[0] == AccessToken
    ensures IdentityToken in d <==> claimType == NameClaim || claimType == EmailClaim
    ensures |d| == 2 ==> d[1] == IdentityToken
  {
    if claimType == NameClaim || claimType == EmailClaim then [AccessToken, IdentityToken]
    else [AccessToken]
  }

  /** The `foreach` over the identity's claims calling `SetDestinations(GetDestinations(claim))`:
      each claim keeps its type and value and is routed by its type; order and count are kept. */
  method TagDestinations(claims: seq<Claim>) returns (tagged: seq<Claim>)
    ensures |tagged| == |claims|
    ensures forall i | 0 <= i < |claims| ::
      tagged[i] == claims[i].(destinations := GetDestinations(claims[i].claimType))
  {
    tagged := claims;
    var i := 0;
    while i < |tagged|
      invariant 0 <= i <= |tagged| == |claims|
      invariant forall j | 0 <= j < i ::
        tagged[j] == claims[j].(destinations := GetDestinations(claims[j].claimType))
      invariant forall j | i <= j < |claims| :: tagged[j] == claims[j]
    {
      var claim := tagged[i];
      tagged := tagged[i := claim.(destinations := GetDestinations(claim.claimType))];
      i := i + 1;
    }
  }

  /** The principal both `Authorize` endpoints sign in: on the server scheme, carrying exactly the
      claims `sub`, `email` and `name` with the given values, each routed by `GetDestinations`,
      and the request's scopes. */
  function IssuedPrincipal(request: OidcRequest, id: string, email: string, name: string): (p: Principal)
    ensures p.authenticationType == ServerScheme && p.scopes == request.scopes
    ensures |p.claims| == 3
    ensures p.claims[0].claimType == SubjectClaim && p.claims[0].value == id
    ensures p.claims[1].claimType == EmailClaim && p.claims[1].value == email
    ensures p.claims[2].claimType == NameClaim && p.claims[2].value == name
    ensures forall c | c in p.claims :: c.destinations == GetDestinations(c.claimType)
  {
    Principal(ServerScheme,
      [Claim(SubjectClaim, id, [AccessToken]),
       Claim(EmailClaim, email, [AccessToken, IdentityToken]),
       Claim(NameClaim, name, [AccessToken, IdentityToken])],
      request.scopes)
  }

  /** Only the profile claims reach the identity token read by the PHP front end; the subject
      claim stays in the access token alone. */
  lemma IdentityTokenCarriesProfileOnly(request: OidcRequest, id: string, email: string, name: string)
    ensures forall c | c in IssuedPrincipal(request, id, email, name).claims ::
      AccessToken in c.destinations &&
      (IdentityToken in c.destinations <==> c.claimType != SubjectClaim)
  {
  }
}
