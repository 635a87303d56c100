/** `CzertainlyJwtDecoder.decode`: bearer-token acceptance.

    The decoder reads the issuer from the token without checking its
    signature, finds the first configured provider with exactly that issuer,
    obtains the provider's verifying decoder by discovery, and lets that
    decoder check the signature and three validators: issuer equality
    (section 4.1.1 of RFC 7519), the `exp`/`nbf` window widened by the
    provider's skew (sections 4.1.4 and 4.1.5), and audience membership
    (section 4.1.3). Every failure it handles writes one audit entry.

    Discovery, the signature check and the wording of a validation failure
    are oracles in `DecoderEnv`; the audit log, the MDC actor record and the
    external calls made are returned as sequences in `DecodeOutcome`. */
module JwtDecoder {
  import opened Common
  import opened Security
  import opened JwtClaims
  import opened OAuth2Settings

  datatype OperationResult = Success | Failure

  /** One `auditLogService.log(AUTH, USER, AUTHENTICATION, result, message)`. */
  datatype AuditEntry = AuditEntry(result: OperationResult, message: string)

  const EXTRACT_ISSUER_FAILED: string := "Could not extract issuer from JWT token"
  const ISSUER_NOT_PRESENT: string := "Issuer URI is not present in JWT token"

  function NoProviderMessage(issuer: string): string
  {
    "No OAuth2 Provider with issuer URI '" + issuer + "' configured for authentication with JWT token"
  }

  function CouldNotAuthenticate(cause: string): string
  {
    "Could not authenticate user using JWT token: " + cause
  }

  /** The validator checks that can fail, in the order they are combined. */
  datatype Check = IssuerCheck | ExpiryCheck | NotBeforeCheck | AudienceCheck

  datatype DecoderEnv = DecoderEnv(
    parse: JwtParser,
    /** `JwtDecoders.fromIssuerLocation(issuer)`: the exception message on failure. */
    discover: string -> Result<Unit, string>,
    /** The discovered decoder's structure and signature check of the token:
        None when it passes, else the `JwtException` message. */
    verifySignature: (string, string) -> Option<string>,
    /** The `JwtValidationException` message for the failed checks. */
    validationMessage: seq<Check> -> string,
    /** The validators' clock, in seconds since the epoch. */
    now: int)

  /** How the audience validator treats a token without an `aud` claim.
      `AsWritten` is the source's behaviour: the claim predicate dereferences
      the missing list. `MissingAudienceRejected` is the evidently intended
      one: the audience check fails. */
  datatype AudienceRule = AsWritten | MissingAudienceRejected

  /** `JwtTimestampValidator`: expired when now - skew is after `exp`. */
  predicate Expired(claims: Claims, now: int, skew: int)
  {
    claims.exp.Some? && now - skew > claims.exp.value
  }

  /** `JwtTimestampValidator`: premature when now + skew is before `nbf`. */
  predicate Premature(claims: Claims, now: int, skew: int)
  {
    claims.nbf.Some? && now + skew < claims.nbf.value
  }

  /** Some audience of the token is one of the configured ones. */
  predicate AudienceOverlaps(aud: seq<string>, configured: seq<string>)
  {
    exists a :: a in aud && a in configured
  }

  /** The combined validator's verdict: the failed checks, or the
      `NullPointerException` raised inside the audience predicate. */
  datatype Verdict = Failed(checks: seq<Check>) | NullPointerInValidator

  function Validate(claims: Claims, issuer: string, skew: int, audiences: seq<string>, now: int, rule: AudienceRule): (v: Verdict)
    ensures v.Failed? ==> (IssuerCheck in v.checks <==> claims.iss != Some(issuer))
    ensures v.Failed? ==> (ExpiryCheck in v.checks <==> Expired(claims, now, skew))
    ensures v.Failed? ==> (NotBeforeCheck in v.checks <==> !Expired(claims, now, skew) && Premature(claims, now, skew))
    ensures v.Failed? ==> (AudienceCheck in v.checks <==>
      |audiences| > 0 && (claims.aud.None? || !AudienceOverlaps(claims.aud.value, audiences)))
    ensures v.NullPointerInValidator? <==> rule == AsWritten && |audiences| > 0 && claims.aud.None?
    ensures v == Failed([]) <==>
      claims.iss == Some(issuer) && !Expired(claims, now, skew) && !Premature(claims, now, skew)
      && (|audiences| == 0 || (claims.aud.Some? && AudienceOverlaps(claims.aud.value, audiences)))
  {
    var issuerFails := if claims.iss == Some(issuer) then [] else [IssuerCheck];
    var timeFails :=
      if Expired(claims, now, skew) then [ExpiryCheck]
      else if Premature(claims, now, skew) then [NotBeforeCheck]
      else [];
    if |audiences| == 0 then Failed(issuerFails + timeFails)
    else match claims.aud
      case None =>
        if rule == AsWritten then NullPointerInValidator
        else Failed(issuerFails + timeFails + [AudienceCheck])
      case Some(aud) =>
        Failed(issuerFails + timeFails + (if AudienceOverlaps(aud, audiences) then [] else [AudienceCheck]))
  }

  datatype DecodeError =
    | AuthenticationFailed(message: string)   // CzertainlyAuthenticationException
    | DiscoveryFailed(message: string)        // rethrown from discovery
    | JwtRejected(message: string)            // JwtException from the decoder
    | NullPointer                             // escapes the catch for JwtException

  datatype DecodeResult =
    | NotNeeded                // `decode` returns null
    | Decoded(claims: Claims)
    | Rejected(error: DecodeError)

  /** An external call the decoder makes. */
  datatype Call = ParseIssuer | ReadSettings | Discovery(issuer: string) | Verification(issuer: string)

  datatype DecodeOutcome = DecodeOutcome(
    result: DecodeResult,
    audit: seq<AuditEntry>,
    actor: seq<ActorInfo>,
    calls: seq<Call>)

  /** The MDC actor record `decode` requests. */
  const TOKEN_USER: ActorInfo := ActorInfo(UserActor, Some(TokenMethod), None, None)

  function Reject(error: DecodeError, message: string, calls: seq<Call>): DecodeOutcome
  {
    DecodeOutcome(Rejected(error), [AuditEntry(Failure, message)], [TOKEN_USER], calls)
  }

  function Decode(ctx: Ctx, token: string, settings: AuthenticationSettings, env: DecoderEnv, rule: AudienceRule): (r: DecodeOutcome)
    // an authenticated context is left alone: nothing parsed, read, called or audited
    ensures !AuthenticationNeeded(ctx) <==> r.result.NotNeeded?
    ensures !AuthenticationNeeded(ctx) ==> r.audit == [] && r.actor == [] && r.calls == []
    ensures AuthenticationNeeded(ctx) ==> r.actor == [TOKEN_USER] && |r.calls| > 0 && r.calls[0] == ParseIssuer
    // the handled failures
    ensures AuthenticationNeeded(ctx) && env.parse(token).Err? ==>
      r.result == Rejected(AuthenticationFailed(EXTRACT_ISSUER_FAILED)) && r.calls == [ParseIssuer]
    ensures AuthenticationNeeded(ctx) && env.parse(token).Ok? && env.parse(token).value.iss.None? ==>
      r.result == Rejected(AuthenticationFailed(ISSUER_NOT_PRESENT)) && r.calls == [ParseIssuer]
    ensures AuthenticationNeeded(ctx) && env.parse(token).Ok? && env.parse(token).value.iss.Some? ==>
      ReadSettings in r.calls
    ensures (AuthenticationNeeded(ctx) && env.parse(token).Ok? && env.parse(token).value.iss.Some? &&
             FirstWithIssuer(settings.providers, env.parse(token).value.iss.value).None?) ==>
      r.result == Rejected(AuthenticationFailed(NoProviderMessage(env.parse(token).value.iss.value)))
      && r.calls == [ParseIssuer, ReadSettings]
    // discovery and verification happen only for the configured issuer
    ensures forall i :: Discovery(i) in r.calls ==>
      env.parse(token).Ok? && env.parse(token).value.iss == Some(i) && FirstWithIssuer(settings.providers, i).Some?
    ensures forall i :: Verification(i) in r.calls ==> Discovery(i) in r.calls && env.discover(i).Ok?
    // audits: none on success, exactly one failure entry on each handled rejection
    ensures r.result.Decoded? ==> r.audit == []
    ensures r.result.Rejected? && r.result.error != NullPointer ==> |r.audit| == 1 && r.audit[0].result == Failure
    ensures r.result.Rejected? && r.result.error.AuthenticationFailed? ==> r.audit[0].message == r.result.error.message
    ensures r.result.Rejected? && (r.result.error.DiscoveryFailed? || r.result.error.JwtRejected?) ==>
      r.audit[0].message == CouldNotAuthenticate(r.result.error.message)
    ensures r.result.Rejected? && r.result.error.NullPointer? ==> r.audit == [] && rule == AsWritten
    // what an accepted token satisfies
    ensures r.result.Decoded? ==>
      var c := r.result.claims;
      && env.parse(token) == Ok(c)
      && c.iss.Some?
      && FirstWithIssuer(settings.providers, c.iss.value).Some?
      && var p := FirstWithIssuer(settings.providers, c.iss.value).value;
      && env.discover(c.iss.value).Ok?
      && env.verifySignature(c.iss.value, token).None?
      && !Expired(c, env.now, p.skew) && !Premature(c, env.now, p.skew)
      && (|p.audiences| == 0 || (c.aud.Some? && AudienceOverlaps(c.aud.value, p.audiences)))
  {
    if !AuthenticationNeeded(ctx) then DecodeOutcome(NotNeeded, [], [], [])
    else match env.parse(token)
      case Err(_) => Reject(AuthenticationFailed(EXTRACT_ISSUER_FAILED), EXTRACT_ISSUER_FAILED, [ParseIssuer])
      case Ok(claims) =>
        if claims.iss.None? then
          Reject(AuthenticationFailed(ISSUER_NOT_PRESENT), ISSUER_NOT_PRESENT, [ParseIssuer])
        else
          var issuer := claims.iss.value;
          match FirstWithIssuer(settings.providers, issuer)
          case None =>
            Reject(AuthenticationFailed(NoProviderMessage(issuer)), NoProviderMessage(issuer), [ParseIssuer, ReadSettings])
          case Some(provider) => Verify(claims, issuer, provider, token, env, rule)
  }

  /** The part of `decode` after the provider is found: discovery, then the
      discovered decoder's signature check and the combined validator. */
  function Verify(claims: Claims, issuer: string, provider: ProviderSettings, token: string, env: DecoderEnv, rule: AudienceRule): (r: DecodeOutcome)
    ensures r.actor == [TOKEN_USER] && !r.result.NotNeeded?
    ensures r.calls == [ParseIssuer, ReadSettings, Discovery(issuer)] + (if env.discover(issuer).Ok? then [Verification(issuer)] else [])
    ensures env.discover(issuer).Err? ==> r.result == Rejected(DiscoveryFailed(env.discover(issuer).error))
    ensures env.discover(issuer).Ok? && env.verifySignature(issuer, token).Some? ==>
      r.result == Rejected(JwtRejected(env.verifySignature(issuer, token).value))
    ensures r.result.Decoded? ==>
      && r.audit == [] && r.result.claims == claims
      && env.discover(issuer).Ok? && env.verifySignature(issuer, token).None?
      && Validate(claims, issuer, provider.skew, provider.audiences, env.now, rule) == Failed([])
    // and conversely: with discovery and the signature passing, the
    // validators' verdict decides
    ensures r.result.Decoded? <==>
      env.discover(issuer).Ok? && env.verifySignature(issuer, token).None?
      && Validate(claims, issuer, provider.skew, provider.audiences, env.now, rule) == Failed([])
    ensures env.discover(issuer).Ok? && env.verifySignature(issuer, token).None? ==>
      var v := Validate(claims, issuer, provider.skew, provider.audiences, env.now, rule);
      && (v.NullPointerInValidator? ==> r.result == Rejected(NullPointer))
      && (v.Failed? && v.checks != [] ==> r.result == Rejected(JwtRejected(env.validationMessage(v.checks))))
    ensures r.result.Rejected? && r.result.error != NullPointer ==> |r.audit| == 1 && r.audit[0].result == Failure
    ensures r.result.Rejected? ==> !r.result.error.AuthenticationFailed?
    ensures r.result.Rejected? && (r.result.error.DiscoveryFailed? || r.result.error.JwtRejected?) ==>
      r.audit[0].message == CouldNotAuthenticate(r.result.error.message)
    ensures r.result.Rejected? && r.result.error.NullPointer? ==> r.audit == [] && rule == AsWritten
  {
    match env.discover(issuer)
    case Err(m) =>
      Reject(DiscoveryFailed(m), CouldNotAuthenticate(m), [ParseIssuer, ReadSettings, Discovery(issuer)])
    case Ok(_) =>
      var calls := [ParseIssuer, ReadSettings, Discovery(issuer), Verification(issuer)];
      match env.verifySignature(issuer, token)
      case Some(m) => Reject(JwtRejected(m), CouldNotAuthenticate(m), calls)
      case None =>
        match Validate(claims, issuer, provider.skew, provider.audiences, env.now, rule)
        case NullPointerInValidator => DecodeOutcome(Rejected(NullPointer), [], [TOKEN_USER], calls)
        case Failed(checks) =>
          if |checks| == 0 then DecodeOutcome(Decoded(claims), [], [TOKEN_USER], calls)
          else
            var m := env.validationMessage(checks);
            Reject(JwtRejected(m), CouldNotAuthenticate(m), calls)
  }

  /** The converse of what `decode` promises an accepted token: a token is
      accepted exactly when authentication is needed, its issuer has a
      configured provider, and discovery, the signature and the combined
      validator all pass. Once the provider is found, each later step
      rejects with its own error. */
  lemma {:induction false} DecodeVerdict(ctx: Ctx, token: string, settings: AuthenticationSettings, env: DecoderEnv, rule: AudienceRule)
    ensures var r := Decode(ctx, token, settings, env, rule);
      r.result.Decoded? <==>
        && AuthenticationNeeded(ctx)
        && env.parse(token).Ok? && env.parse(token).value.iss.Some?
        && var c := env.parse(token).value;
        && FirstWithIssuer(settings.providers, c.iss.value).Some?
        && var p := FirstWithIssuer(settings.providers, c.iss.value).value;
        && env.discover(c.iss.value).Ok?
        && env.verifySignature(c.iss.value, token).None?
        && Validate(c, c.iss.value, p.skew, p.audiences, env.now, rule) == Failed([])
    ensures AuthenticationNeeded(ctx) && env.parse(token).Ok? && env.parse(token).value.iss.Some? ==>
      var r := Decode(ctx, token, settings, env, rule);
      var c := env.parse(token).value;
      var found := FirstWithIssuer(settings.providers, c.iss.value);
      found.Some? ==>
        var v := Validate(c, c.iss.value, found.value.skew, found.value.audiences, env.now, rule);
        && (env.discover(c.iss.value).Err? ==> r.result == Rejected(DiscoveryFailed(env.discover(c.iss.value).error)))
        && (env.discover(c.iss.value).Ok? && env.verifySignature(c.iss.value, token).Some? ==>
              r.result == Rejected(JwtRejected(env.verifySignature(c.iss.value, token).value)))
        && (env.discover(c.iss.value).Ok? && env.verifySignature(c.iss.value, token).None? ==>
              && (v.NullPointerInValidator? ==> r.result == Rejected(NullPointer))
              && (v.Failed? && v.checks != [] ==> r.result == Rejected(JwtRejected(env.validationMessage(v.checks)))))
  {
    if AuthenticationNeeded(ctx) && env.parse(token).Ok? && env.parse(token).value.iss.Some? {
      var c := env.parse(token).value;
      var found := FirstWithIssuer(settings.providers, c.iss.value);
      if found.Some? {
        assert Decode(ctx, token, settings, env, rule) == Verify(c, c.iss.value, found.value, token, env, rule);
      }
    }
  }

  /** With no configured audiences the audience claim plays no part: two
      tokens that differ only in `aud` get the same verdict. */
  lemma NoAudiencesNoConstraint(c: Claims, aud1: Option<seq<string>>, aud2: Option<seq<string>>,
                                issuer: string, skew: int, now: int, rule: AudienceRule)
    ensures Validate(c.(aud := aud1), issuer, skew, [], now, rule) == Validate(c.(aud := aud2), issuer, skew, [], now, rule)
  {
  }

  /** The skew widens the validity window symmetrically: a token is inside
      it at `now` exactly when `exp + skew` has not passed and `nbf - skew`
      has been reached. */
  lemma SkewWindow(c: Claims, now: int, skew: int)
    ensures !Expired(c, now, skew) && !Premature(c, now, skew) <==>
      (c.exp.None? || now <= c.exp.value + skew) && (c.nbf.None? || c.nbf.value - skew <= now)
  {
  }

  /** Widening the skew never turns an accepted token into a rejected one. */
  lemma LargerSkewAcceptsMore(c: Claims, issuer: string, skew: int, skew2: int, audiences: seq<string>, now: int, rule: AudienceRule)
    requires skew <= skew2
    requires Validate(c, issuer, skew, audiences, now, rule) == Failed([])
    ensures Validate(c, issuer, skew2, audiences, now, rule) == Failed([])
  {
  }

  /** As written, a token without `aud` checked against a provider with
      configured audiences is rejected by a null dereference that the
      decoder's catch for `JwtException` does not see: the request fails
      with no audit entry. */
  lemma MissingAudienceEscapesAudit(ctx: Ctx, token: string, settings: AuthenticationSettings, env: DecoderEnv)
    requires AuthenticationNeeded(ctx)
    requires env.parse(token).Ok? && env.parse(token).value.iss.Some? && env.parse(token).value.aud.None?
    requires FirstWithIssuer(settings.providers, env.parse(token).value.iss.value).Some?
    requires |FirstWithIssuer(settings.providers, env.parse(token).value.iss.value).value.audiences| > 0
    requires env.discover(env.parse(token).value.iss.value).Ok?
    requires env.verifySignature(env.parse(token).value.iss.value, token).None?
    ensures Decode(ctx, token, settings, env, AsWritten).result == Rejected(NullPointer)
    ensures Decode(ctx, token, settings, env, AsWritten).audit == []
  {
  }

  /** A concrete instance: issuer "https://idp", audience "core" configured,
      no `aud` in the token. */
  lemma MissingAudienceExample()
    ensures
      var provider := ProviderSettings("idp", "https://idp", ["core"], 0, None, 300);
      var settings := AuthenticationSettings([ProviderEntry("idp", provider)]);
      var claims := Claims(Some("https://idp"), None, None, None);
      var env := DecoderEnv(t => Ok(claims), i => Ok(Unit), (i, t) => None, cs => "invalid", 0);
      var r := Decode(NoAuth, "t", settings, env, AsWritten);
      r.result == Rejected(NullPointer) && r.audit == []
  {
    var provider := ProviderSettings("idp", "https://idp", ["core"], 0, None, 300);
    var settings := AuthenticationSettings([ProviderEntry("idp", provider)]);
    var claims := Claims(Some("https://idp"), None, None, None);
    var env := DecoderEnv(t => Ok(claims), i => Ok(Unit), (i, t) => None, cs => "invalid", 0);
    MissingAudienceEscapesAudit(NoAuth, "t", settings, env);
  }

  /** With the missing audience rejected, every rejection writes exactly one
      failure audit entry and every success writes none. */
  lemma RejectionsAuditedOnce(ctx: Ctx, token: string, settings: AuthenticationSettings, env: DecoderEnv)
    ensures var r := Decode(ctx, token, settings, env, MissingAudienceRejected);
      (r.result.Rejected? ==> |r.audit| == 1 && r.audit[0].result == Failure)
      && (!r.result.Rejected? ==> r.audit == [])
  {
  }

  /** The two audience rules agree on every token that carries `aud` or
      meets a provider without configured audiences. */
  lemma RulesAgreeWhenAudiencePresent(ctx: Ctx, token: string, settings: AuthenticationSettings, env: DecoderEnv)
    requires Decode(ctx, token, settings, env, AsWritten).result != Rejected(NullPointer)
    ensures Decode(ctx, token, settings, env, AsWritten) == Decode(ctx, token, settings, env, MissingAudienceRejected)
  {
  }
}
