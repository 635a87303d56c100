/** The principal, the request's security context and the side-channel
    headers presented to the platform's authentication service. The ambient
    `SecurityContextHolder` state of the source is the explicit value `Ctx`. */
module Security {
  import opened Common

  /** The authentication service's answer (`AuthenticationInfo`); `rawData`
      is the profile forwarded verbatim to the policy engine. */
  datatype AuthInfo = AuthInfo(username: string, userUuid: string, rawData: string)

  /** `CzertainlyUserDetails`, built from one `AuthInfo`. A
      `CzertainlyAuthenticationToken` wraps exactly one of these. */
  datatype UserDetails = UserDetails(authInfo: AuthInfo)

  /** What `SecurityContextHolder.getContext().getAuthentication()` holds:
      nothing, an anonymous token, a platform token, or some other
      authentication whose principal may or may not be platform user details. */
  datatype Ctx =
    | NoAuth
    | Anonymous
    | Czertainly(details: UserDetails)
    | Other(principal: Option<UserDetails>)

  /** `CzertainlyJwtDecoder.isAuthenticationNeeded`: no authentication or an
      anonymous one. */
  predicate AuthenticationNeeded(ctx: Ctx)
  {
    ctx.NoAuth? || ctx.Anonymous?
  }

  /** The principal's user details when the principal is platform user
      details (the cast `(CzertainlyUserDetails) auth.getPrincipal()`). */
  function PrincipalDetails(ctx: Ctx): (r: Option<UserDetails>)
    ensures r.Some? <==> ctx.Czertainly? || (ctx.Other? && ctx.principal.Some?)
  {
    match ctx
    case Czertainly(d) => Some(d)
    case Other(p) => p
    case _ => None
  }

  datatype Header = Header(name: string, value: string)

  /** `CzertainlyAuthenticationClient.authenticate(headers, false)`: the
      service's answer, or the message of the exception it throws. */
  type AuthenticationClient = seq<Header> -> Result<AuthInfo, string>

  /** The header carrying a validated bearer token to the service. */
  const TOKEN_AUTHENTICATION_HEADER: string := "Token-Authentication"

  datatype ActorType = UserActor | ProtocolActor | CoreActor

  datatype AuthMethod = TokenMethod

  /** One `LoggingHelper.putActorInfoWhenNull` request for the MDC. */
  datatype ActorInfo = ActorInfo(
    actorType: ActorType,
    authMethod: Option<AuthMethod>,
    userUuid: Option<string>,
    userName: Option<string>)
}
