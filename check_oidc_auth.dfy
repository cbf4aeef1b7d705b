/** The front end's route guard: a request on one of the public routes goes on; any other
    request goes on only when the session holds a backend token, and is otherwise redirected
    to the login page. */
module CheckOidcAuth {
  import opened Wrappers

  /** The routes that need no token. None contains `*`, so a path matches one exactly. */
  const ExcludedRoutes: seq<string> := ["", "login", "login/callback", "api/account/login"]

  datatype GuardOutcome = PassToNext | RedirectToLogin

  predicate IsExcluded(path: string) {
    path in ExcludedRoutes
  }

  /** `handle`: `path` is the request path as the framework reports it, `apiToken` the session's
      `api_token` entry (None when absent or null). */
  function Handle(path: string, apiToken: Option<string>): (r: GuardOutcome)
    ensures r == PassToNext <==> IsExcluded(path) || apiToken.Some?
    ensures r == RedirectToLogin <==> !IsExcluded(path) && apiToken.None?
  {
    if IsExcluded(path) then PassToNext
    else if apiToken.None? then RedirectToLogin
    else PassToNext
  }

  /** An excluded route passes with or without a token. */
  lemma PublicRoutesAlwaysPass(apiToken: Option<string>)
    ensures forall i | 0 <= i < |ExcludedRoutes| :: Handle(ExcludedRoutes[i], apiToken) == PassToNext
  {
  }

  /** The outcome depends only on whether the path is excluded and whether a token is present:
      neither the path's own spelling nor the token's value matters. */
  lemma OutcomeDependsOnlyOnMatchAndToken(p1: string, t1: Option<string>, p2: string, t2: Option<string>)
    requires IsExcluded(p1) == IsExcluded(p2) && t1.Some? == t2.Some?
    ensures Handle(p1, t1) == Handle(p2, t2)
  {
  }
}
