/** `LoginController`: the `/login` page and the per-provider redirect.
    Servlet I/O is replaced by the outcome record: the view returned (or the
    exception raised), the model attributes added and the session and
    response effects requested, in order. */
module Login {
  import opened Common
  import opened OAuth2Settings

  const REDIRECT_URL_SESSION_ATTRIBUTE: string := "REDIRECT_URL"
  const SERVLET_CONTEXT_SESSION_ATTRIBUTE: string := "SERVLET_CONTEXT"

  const ERROR_VIEW: string := "error"
  const NO_LOGIN_OPTIONS_VIEW: string := "no-login-options"
  const LOGIN_OPTIONS_VIEW: string := "login-options"
  const NO_REDIRECT_URL: string := "No redirect URL provided"

  datatype Effect =
    | SetSessionAttribute(name: string, value: string)
    | InvalidateSession
    | SetMaxInactiveInterval(seconds: int)
    | SendRedirect(location: string)

  datatype ModelValue = Text(text: string) | Names(names: seq<string>)

  datatype ModelAttribute = ModelAttribute(name: string, value: ModelValue)

  datatype LoginError =
    | AuthenticationError(message: string)   // CzertainlyAuthenticationException
    | RedirectIOError(message: string)       // IOException from sendRedirect

  datatype LoginOutcome = LoginOutcome(view: Result<string, LoginError>, model: seq<ModelAttribute>, effects: seq<Effect>)

  /** What the request and the servlet container supply. `redirectFailure`
      is the message of the `IOException` `sendRedirect` throws for a
      location, if it throws; `describe` is a provider's `toString()`. */
  datatype LoginRequest = LoginRequest(
    redirect: Option<string>,
    error: Option<string>,
    contextPath: string,
    baseUrl: string,
    redirectFailure: string -> Option<string>,
    describe: ProviderSettings -> string)

  function ProviderNames(ps: seq<ProviderSettings>): (r: seq<string>)
    ensures |r| == |ps| && forall i :: 0 <= i < |ps| ==> r[i] == ps[i].name
    decreases |ps|
  {
    if |ps| == 0 then [] else [ps[0].name] + ProviderNames(ps[1..])
  }

  function AuthorizationPath(name: string): string
  {
    "oauth2/authorization/" + name
  }

  /** `loginPage(model, redirect, request, response, error)`. */
  function LoginPage(req: LoginRequest, settings: AuthenticationSettings): (r: LoginOutcome)
    // the servlet context is always recorded first
    ensures |r.effects| > 0 && r.effects[0] == SetSessionAttribute("SERVLET_CONTEXT", req.contextPath)
    ensures req.error.Some? ==>
      r == LoginOutcome(Ok("error"), [ModelAttribute("error", Text("An error occurred: " + req.error.value))],
                        [SetSessionAttribute("SERVLET_CONTEXT", req.contextPath), InvalidateSession])
    ensures req.error.None? && (req.redirect.None? || req.redirect.value == "") ==>
      r == LoginOutcome(Ok("error"), [ModelAttribute("error", Text("No redirect URL provided"))],
                        [SetSessionAttribute("SERVLET_CONTEXT", req.contextPath)])
    ensures req.error.None? && req.redirect.Some? && req.redirect.value != "" ==>
      |r.effects| >= 2 && r.effects[1] == SetSessionAttribute("REDIRECT_URL", req.baseUrl + req.redirect.value)
    ensures req.error.None? && req.redirect.Some? && req.redirect.value != "" && |settings.providers| == 0 ==>
      r.view == Ok("no-login-options") && r.model == []
  {
    var context := SetSessionAttribute(SERVLET_CONTEXT_SESSION_ATTRIBUTE, req.contextPath);
    if req.error.Some? then
      LoginOutcome(Ok(ERROR_VIEW), [ModelAttribute(ERROR_VIEW, Text("An error occurred: " + req.error.value))],
                   [context, InvalidateSession])
    else if req.redirect.None? || req.redirect.value == "" then
      LoginOutcome(Ok(ERROR_VIEW), [ModelAttribute(ERROR_VIEW, Text(NO_REDIRECT_URL))], [context])
    else
      var stored := [context, SetSessionAttribute(REDIRECT_URL_SESSION_ATTRIBUTE, req.baseUrl + req.redirect.value)];
      if |settings.providers| == 0 then LoginOutcome(Ok(NO_LOGIN_OPTIONS_VIEW), [], stored)
      else
        var offered := WithClientId(settings.providers);
        var options := [ModelAttribute("providers", Names(ProviderNames(offered)))];
        if |offered| == 1 then
          var location := AuthorizationPath(offered[0].name);
          var effects := stored + [SetMaxInactiveInterval(offered[0].sessionMaxInactiveInterval), SendRedirect(location)];
          match req.redirectFailure(location)
          case Some(m) =>
            var message := "Error when redirecting to OAuth2 Provider with name " + req.describe(offered[0]) + " : " + m;
            LoginOutcome(Err(AuthenticationError(message)), [], effects)
          case None => LoginOutcome(Ok(LOGIN_OPTIONS_VIEW), options, effects)
        else LoginOutcome(Ok(LOGIN_OPTIONS_VIEW), options, stored)
  }

  /** A redirect request reaching the provider choice: no error parameter,
      a non-empty redirect, and some configured provider. */
  predicate ReachesProviderChoice(req: LoginRequest, settings: AuthenticationSettings)
  {
    req.error.None? && req.redirect.Some? && req.redirect.value != "" && |settings.providers| > 0
  }

  /** The provider choice: the offered providers are exactly those with a
      client id, in settings order; a redirect to the authorization
      endpoint is sent iff exactly one is offered, after the session timeout
      is set to that provider's; a view other than an error is always
      "login-options" listing the offered names. */
  lemma ProviderChoice(req: LoginRequest, settings: AuthenticationSettings)
    requires ReachesProviderChoice(req, settings)
    ensures var r := LoginPage(req, settings);
      var offered := WithClientId(settings.providers);
      && (r.view.Ok? ==> r.view.value == "login-options" && r.model == [ModelAttribute("providers", Names(ProviderNames(offered)))])
      && ((exists loc :: SendRedirect(loc) in r.effects) <==> |offered| == 1)
      && (|offered| == 1 ==> r.effects[2..] == [SetMaxInactiveInterval(offered[0].sessionMaxInactiveInterval),
                                               SendRedirect("oauth2/authorization/" + offered[0].name)])
      && (r.view.Err? ==> |offered| == 1 && req.redirectFailure("oauth2/authorization/" + offered[0].name).Some?)
  {
    var r := LoginPage(req, settings);
    var offered := WithClientId(settings.providers);
    if |offered| == 1 {
      assert SendRedirect(AuthorizationPath(offered[0].name)) in r.effects;
    }
  }

  /** Providers configured only for JWT validation are never offered: with
      no provider carrying a client id the page lists no names and sends
      no redirect. */
  lemma JwtOnlyProvidersNotOffered(req: LoginRequest, settings: AuthenticationSettings)
    requires ReachesProviderChoice(req, settings)
    requires forall i :: 0 <= i < |settings.providers| ==> settings.providers[i].provider.clientId.None?
    ensures LoginPage(req, settings) == LoginOutcome(Ok("login-options"), [ModelAttribute("providers", Names([]))],
      [SetSessionAttribute("SERVLET_CONTEXT", req.contextPath), SetSessionAttribute("REDIRECT_URL", req.baseUrl + req.redirect.value)])
  {
  }

  /** `loginWithProvider(provider, response, request)`: the provider is
      looked up by its settings key. */
  function LoginWithProvider(provider: string, settings: AuthenticationSettings, contextPath: string,
                             redirectFailure: string -> Option<string>): (r: LoginOutcome)
    ensures r.model == []
    ensures ProviderByKey(settings.providers, provider).None? ==>
      r.view == Err(AuthenticationError("Unknown OAuth2 Provider with name '" + provider + "'")) && r.effects == []
    ensures ProviderByKey(settings.providers, provider).Some? ==>
      r.effects == [SetMaxInactiveInterval(ProviderByKey(settings.providers, provider).value.sessionMaxInactiveInterval),
                    SendRedirect(contextPath + "/oauth2/authorization/" + provider)]
    ensures ProviderByKey(settings.providers, provider).Some? ==>
      (r.view.Err? <==> redirectFailure(contextPath + "/oauth2/authorization/" + provider).Some?)
  {
    match ProviderByKey(settings.providers, provider)
    case None => LoginOutcome(Err(AuthenticationError("Unknown OAuth2 Provider with name '" + provider + "'")), [], [])
    case Some(p) =>
      var location := contextPath + "/oauth2/authorization/" + provider;
      var effects := [SetMaxInactiveInterval(p.sessionMaxInactiveInterval), SendRedirect(location)];
      match redirectFailure(location)
      case Some(m) => LoginOutcome(Err(RedirectIOError(m)), [], effects)
      case None => LoginOutcome(Ok(""), [], effects)
  }
  /** The per-provider location is the login page's relative redirect
      resolved below the context path. */
  lemma PathBelowContext(contextPath: string, name: string)
    ensures contextPath + "/oauth2/authorization/" + name == contextPath + "/" + AuthorizationPath(name)
  {
    assert contextPath + "/oauth2/authorization/" + name == contextPath + ("/oauth2/authorization/" + name);
  }

  /** Every provider the login page offers is accepted by the per-provider
      endpoint under its name: the session takes that provider's timeout
      and the browser is sent to its authorization endpoint below the
      context path, the same path the page redirects to relative to it. */
  lemma {:induction false} OfferedProviderAccepted(settings: AuthenticationSettings, p: ProviderSettings, contextPath: string,
                                                   redirectFailure: string -> Option<string>)
    requires WellFormed(settings) && KeyedByName(settings)
    requires p in WithClientId(settings.providers)
    ensures var location := contextPath + "/oauth2/authorization/" + p.name;
      var r := LoginWithProvider(p.name, settings, contextPath, redirectFailure);
      && location == contextPath + "/" + AuthorizationPath(p.name)
      && r.effects == [SetMaxInactiveInterval(p.sessionMaxInactiveInterval), SendRedirect(location)]
      && (r.view.Err? <==> redirectFailure(location).Some?)
      && (r.view.Ok? ==> r.view.value == "")
  {
    OfferedFoundByName(settings, p);
    PathBelowContext(contextPath, p.name);
  }


}
