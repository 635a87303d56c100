/** `CzertainlyJwtAuthenticationConverter.convert` and the bearer-token
    pipeline it ends: the decoder's `Jwt` (or null) is turned into the
    request's platform token. */
module JwtConverter {
  import opened Common
  import opened Security
  import opened JwtClaims
  import opened OAuth2Settings
  import opened JwtDecoder

  /** A decoded `Jwt`: the raw token value and its claims. */
  datatype Jwt = Jwt(tokenValue: string, claims: Claims)

  datatype ConvertError =
    | ClassCast                              // the context holds another kind of token
    | AuthenticationServiceFailed(message: string)

  /** The returned token's user details (None for a null token), and the
      header sets presented to the authentication service. */
  datatype ConvertOutcome = ConvertOutcome(result: Result<Option<UserDetails>, ConvertError>, calls: seq<seq<Header>>)

  /** The single header that carries a token to the authentication service. */
  function TokenHeaders(tokenValue: string): seq<Header>
  {
    [Header(TOKEN_AUTHENTICATION_HEADER, tokenValue)]
  }

  function Convert(source: Option<Jwt>, ctx: Ctx, client: AuthenticationClient): (r: ConvertOutcome)
    ensures source.Some? ==> r.calls == [[Header("Token-Authentication", source.value.tokenValue)]]
    ensures source.Some? ==> (r.result.Ok? <==> client(r.calls[0]).Ok?)
    ensures source.Some? && r.result.Ok? ==> r.result.value == Some(UserDetails(client(r.calls[0]).value))
    ensures source.Some? && r.result.Err? ==> r.result.error == AuthenticationServiceFailed(client(r.calls[0]).error)
    ensures source.None? ==> r.calls == []
    ensures source.None? ==> (r.result.Err? <==> ctx.Anonymous? || ctx.Other?)
    ensures source.None? && r.result.Err? ==> r.result.error == ClassCast
    // a null Jwt never yields a fresh principal: only the context's own one
    ensures source.None? && r.result.Ok? && r.result.value.Some? ==> ctx == Czertainly(r.result.value.value)
    ensures source.None? && r.result.Ok? && r.result.value.None? ==> ctx == NoAuth
  {
    match source
    case Some(jwt) =>
      var headers := TokenHeaders(jwt.tokenValue);
      (match client(headers)
       case Ok(info) => ConvertOutcome(Ok(Some(UserDetails(info))), [headers])
       case Err(m) => ConvertOutcome(Err(AuthenticationServiceFailed(m)), [headers]))
    case None =>
      match ctx
      case Czertainly(d) => ConvertOutcome(Ok(Some(d)), [])
      case NoAuth => ConvertOutcome(Ok(None), [])
      case _ => ConvertOutcome(Err(ClassCast), [])
  }

  /** Why a bearer token did not yield a principal. */
  datatype PipelineError = DecoderFailed(decodeError: DecodeError) | ConverterFailed(convertError: ConvertError)

  /** The context after the request's bearer-token authentication, whether
      it succeeded, the audit entries written and the authentication-service
      calls made. */
  datatype PipelineOutcome = PipelineOutcome(
    ctx: Ctx,
    error: Option<PipelineError>,
    audit: seq<AuditEntry>,
    serviceCalls: seq<seq<Header>>)

  /** The resource server's bearer-token flow: decode, convert, and install
      the converted token in the context. */
  function AuthenticateBearer(ctx: Ctx, token: string, settings: AuthenticationSettings, env: DecoderEnv,
                              rule: AudienceRule, client: AuthenticationClient): (r: PipelineOutcome)
    // the converter writes no audit entries of its own
    ensures r.audit == Decode(ctx, token, settings, env, rule).audit
    ensures |r.serviceCalls| <= 1
    // a decoder rejection stops the flow before the service is called
    ensures Decode(ctx, token, settings, env, rule).result.Rejected? <==>
      r.error.Some? && r.error.value.DecoderFailed?
    ensures Decode(ctx, token, settings, env, rule).result.Rejected? ==>
      r.error == Some(DecoderFailed(Decode(ctx, token, settings, env, rule).result.error)) && r.serviceCalls == []
    // the context changes only by installing a platform token on success
    ensures r.ctx != ctx ==> r.error.None? && r.ctx.Czertainly?
    ensures r.error.Some? ==> r.ctx == ctx
  {
    var d := Decode(ctx, token, settings, env, rule);
    match d.result
    case Rejected(e) => PipelineOutcome(ctx, Some(DecoderFailed(e)), d.audit, [])
    case _ =>
      var source := match d.result case Decoded(claims) => Some(Jwt(token, claims)) case _ => None;
      var c := Convert(source, ctx, client);
      match c.result
      case Err(e) => PipelineOutcome(ctx, Some(ConverterFailed(e)), d.audit, c.calls)
      case Ok(None) => PipelineOutcome(ctx, None, d.audit, c.calls)
      case Ok(Some(details)) => PipelineOutcome(Czertainly(details), None, d.audit, c.calls)
  }

  /** A request that is already authenticated with a platform token keeps
      it: nothing is audited and the authentication service is not called. */
  lemma AuthenticatedRequestReusesPrincipal(details: UserDetails, token: string, settings: AuthenticationSettings,
                                            env: DecoderEnv, rule: AudienceRule, client: AuthenticationClient)
    ensures AuthenticateBearer(Czertainly(details), token, settings, env, rule, client)
      == PipelineOutcome(Czertainly(details), None, [], [])
  {
  }

  /** A token the decoder rejects never reaches the authentication service
      and leaves the context unchanged. */
  lemma RejectedTokenNotPresented(ctx: Ctx, token: string, settings: AuthenticationSettings,
                                  env: DecoderEnv, rule: AudienceRule, client: AuthenticationClient)
    requires Decode(ctx, token, settings, env, rule).result.Rejected?
    ensures var r := AuthenticateBearer(ctx, token, settings, env, rule, client);
      r.serviceCalls == [] && r.ctx == ctx && r.error.Some?
  {
  }

  /** An unauthenticated request whose token is accepted presents exactly
      that raw token, once, and is then authenticated as the service's
      answer; a failing service leaves the context unchanged. */
  lemma AcceptedTokenPresentedOnce(ctx: Ctx, token: string, settings: AuthenticationSettings,
                                   env: DecoderEnv, rule: AudienceRule, client: AuthenticationClient)
    requires AuthenticationNeeded(ctx)
    requires Decode(ctx, token, settings, env, rule).result.Decoded?
    ensures var r := AuthenticateBearer(ctx, token, settings, env, rule, client);
      && r.serviceCalls == [TokenHeaders(token)]
      && (r.error.None? <==> client(TokenHeaders(token)).Ok?)
      && (r.error.None? ==> r.ctx == Czertainly(UserDetails(client(TokenHeaders(token)).value)))
      && (r.error.Some? ==> r.ctx == ctx)
  {
  }

  /** Whatever the outcome, an unauthenticated request makes at most one
      service call, and a successful one ends with a platform token. */
  lemma AtMostOneServiceCall(ctx: Ctx, token: string, settings: AuthenticationSettings,
                             env: DecoderEnv, rule: AudienceRule, client: AuthenticationClient)
    requires AuthenticationNeeded(ctx)
    ensures var r := AuthenticateBearer(ctx, token, settings, env, rule, client);
      |r.serviceCalls| <= 1 && (r.error.None? ==> r.ctx.Czertainly?)
  {
  }

  /** Running the flow again after it succeeded changes nothing and calls
      nothing, whatever token the second run sees. */
  lemma SecondRunIsFree(ctx: Ctx, token: string, token2: string, settings: AuthenticationSettings,
                        env: DecoderEnv, rule: AudienceRule, client: AuthenticationClient)
    requires AuthenticationNeeded(ctx)
    requires AuthenticateBearer(ctx, token, settings, env, rule, client).error.None?
    ensures var r := AuthenticateBearer(ctx, token, settings, env, rule, client);
      AuthenticateBearer(r.ctx, token2, settings, env, rule, client) == PipelineOutcome(r.ctx, None, [], [])
  {
    var r := AuthenticateBearer(ctx, token, settings, env, rule, client);
    AtMostOneServiceCall(ctx, token, settings, env, rule, client);
    AuthenticatedRequestReusesPrincipal(r.ctx.details, token2, settings, env, rule, client);
  }
}
