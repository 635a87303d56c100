/** `CzertainlyOAuth2TokenRequestHeadersConverter`: the HTTP headers of an
    outbound token request to an OAuth2 provider.

    Client authentication follows section 2.3.1 of RFC 6749: the client id
    and secret are form-encoded and then joined by ':' as the Basic
    credentials of section 2 of RFC 7617. `HttpHeaders.setBasicAuth` refuses
    a user id containing ':' and characters outside ISO-8859-1; its Base64
    step is not modelled, so the credentials are kept as the joined text.

    For the platform's internal provider the `X-Forwarded-*` headers are
    derived from the issuer of the grant's access token, read without
    checking its signature. URI parsing is an oracle. */
module TokenHeaders {
  import opened Common
  import opened JavaText
  import opened FormEncoding
  import opened JwtClaims

  datatype MediaType = MediaType(mainType: string, subType: string, charset: Option<string>)

  const APPLICATION_JSON: MediaType := MediaType("application", "json", None)
  const APPLICATION_FORM_URLENCODED: MediaType := MediaType("application", "x-www-form-urlencoded", None)

  /** The converter's settings. */
  datatype ConverterConfig = ConverterConfig(accept: seq<MediaType>, contentType: MediaType, encodeClientCredentials: bool)

  /** A converter as constructed. */
  const DEFAULT_CONFIG: ConverterConfig := ConverterConfig([APPLICATION_JSON], APPLICATION_FORM_URLENCODED, true)

  /** `withCharsetUtf8()`: the default converter with UTF-8 on both media types. */
  function WithCharsetUtf8(): (c: ConverterConfig)
    ensures c.accept == [APPLICATION_JSON.(charset := Some("UTF-8"))]
    ensures c.contentType == APPLICATION_FORM_URLENCODED.(charset := Some("UTF-8"))
    ensures c.encodeClientCredentials
  {
    DEFAULT_CONFIG.(accept := [MediaType("application", "json", Some("UTF-8"))],
                    contentType := MediaType("application", "x-www-form-urlencoded", Some("UTF-8")))
  }

  /** `setEncodeClientCredentials(b)`. */
  function SetEncodeClientCredentials(c: ConverterConfig, b: bool): (r: ConverterConfig)
    ensures r.encodeClientCredentials == b && r.accept == c.accept && r.contentType == c.contentType
  {
    c.(encodeClientCredentials := b)
  }

  datatype ClientAuthenticationMethod = ClientSecretBasic | ClientSecretPost | ClientSecretJwt | PrivateKeyJwt | NoClientAuthentication

  datatype ClientRegistration = ClientRegistration(
    registrationId: string,
    clientId: string,
    clientSecret: string,
    authenticationMethod: ClientAuthenticationMethod)

  /** The grant requests the converter sees; only a refresh-token grant
      carries an access token. */
  datatype GrantRequest =
    | RefreshTokenGrant(registration: ClientRegistration, accessToken: string, refreshToken: string)
    | OtherGrant(registration: ClientRegistration)

  /** A parsed `java.net.URI`: the port is -1 when the URI gives none. */
  datatype Uri = Uri(scheme: Option<string>, host: Option<string>, port: int)

  /** `new URI(s)`: the URI, or the `URISyntaxException` message. */
  type UriParser = string -> Result<Uri, string>

  /** The Basic credentials before Base64: user id, ':', password. */
  datatype BasicCredentials = BasicCredentials(userPass: string)

  /** The `X-Forwarded-*` headers. A None host or proto is a header set to
      null; a None port is an absent header. */
  datatype Forwarded = Forwarded(host: Option<string>, port: Option<string>, proto: Option<string>)

  datatype RequestHeaders = RequestHeaders(
    accept: seq<MediaType>,
    contentType: MediaType,
    authorization: Option<BasicCredentials>,
    forwarded: Option<Forwarded>)

  datatype HeadersError =
    | IllegalArgument          // from setBasicAuth
    | ClassCast                // the internal provider's grant is not a refresh grant
    | NullPointer              // the access token has no issuer: `new URI(null)`
    | AuthenticationFailed(message: string)

  const ISSUER_PARSE_FAILED: string := "Could not parse issuer URL in token: "

  /** `encodeClientCredentialIfRequired`. */
  function EncodeCredential(c: ConverterConfig, credential: string): (r: string)
    ensures c.encodeClientCredentials ==> FormDecode(r) == Some(credential) && FormSafe(r)
    ensures !c.encodeClientCredentials ==> r == credential
  {
    EncodeRoundTrip(credential);
    if c.encodeClientCredentials then FormEncode(credential) else credential
  }

  predicate Latin1(s: string)
  {
    forall i :: 0 <= i < |s| ==> (s[i] as int) < 256
  }

  /** `HttpHeaders.setBasicAuth(user, password)` with its default ISO-8859-1
      charset. */
  function BasicAuth(user: string, password: string): (r: Result<BasicCredentials, HeadersError>)
    ensures r.Ok? <==> ':' !in user && Latin1(user) && Latin1(password)
    ensures r.Ok? ==> r.value.userPass == user + ":" + password
  {
    if ':' in user || !Latin1(user) || !Latin1(password) then Err(IllegalArgument)
    else Ok(BasicCredentials(user + ":" + password))
  }

  /** The forwarded headers for an issuer URI. */
  function ForwardedFor(u: Uri): (f: Forwarded)
    ensures f.host == u.host && f.proto == u.scheme
    ensures f.port.Some? <==> u.port > 0
    ensures f.port.Some? ==> IsDecimal(f.port.value) && DecimalValue(f.port.value) == u.port
  {
    if u.port > 0 then
      DecimalRoundTrip(u.port);
      Forwarded(u.host, Some(NatToString(u.port)), u.scheme)
    else Forwarded(u.host, None, u.scheme)
  }

  /** The registration's client credentials, if it sends them as HTTP
      Basic, pass `setBasicAuth`'s checks. */
  predicate BasicAuthAccepted(c: ConverterConfig, reg: ClientRegistration)
  {
    reg.authenticationMethod == ClientSecretBasic ==>
      BasicAuth(EncodeCredential(c, reg.clientId), EncodeCredential(c, reg.clientSecret)).Ok?
  }

  /** `convert(grantRequest)`; `internalName` is the internal provider's
      reserved registration id. */
  function Convert(c: ConverterConfig, grant: GrantRequest, internalName: string,
                   parse: JwtParser, parseUri: UriParser): (r: Result<RequestHeaders, HeadersError>)
    ensures r.Ok? ==> r.value.accept == c.accept && r.value.contentType == c.contentType
    ensures r.Ok? ==> (r.value.authorization.Some? <==> grant.registration.authenticationMethod == ClientSecretBasic)
    ensures r.Ok? && r.value.authorization.Some? ==>
      r.value.authorization.value.userPass ==
        EncodeCredential(c, grant.registration.clientId) + ":" + EncodeCredential(c, grant.registration.clientSecret)
    ensures r.Ok? ==> (r.value.forwarded.Some? <==> grant.registration.registrationId == internalName)
    // the issuer that is forwarded is the access token's
    ensures r.Ok? && r.value.forwarded.Some? ==>
      && grant.RefreshTokenGrant?
      && parse(grant.accessToken).Ok? && parse(grant.accessToken).value.iss.Some?
      && parseUri(parse(grant.accessToken).value.iss.value).Ok?
      && r.value.forwarded.value == ForwardedFor(parseUri(parse(grant.accessToken).value.iss.value).value)
    // an unparsable access token aborts the internal provider's request
    ensures (grant.registration.registrationId == internalName && grant.RefreshTokenGrant? &&
             parse(grant.accessToken).Err? && r != Err(IllegalArgument)) ==>
      r == Err(AuthenticationFailed(ISSUER_PARSE_FAILED + parse(grant.accessToken).error))
    ensures r.Err? && r.error.AuthenticationFailed? ==>
      grant.registration.registrationId == internalName && grant.RefreshTokenGrant? &&
      (parse(grant.accessToken).Err? ||
       (parse(grant.accessToken).value.iss.Some? && parseUri(parse(grant.accessToken).value.iss.value).Err?))
    ensures r == Err(IllegalArgument) ==> grant.registration.authenticationMethod == ClientSecretBasic && !c.encodeClientCredentials
    ensures r == Err(ClassCast) ==> grant.OtherGrant? && grant.registration.registrationId == internalName
    ensures r == Err(NullPointer) ==>
      && grant.registration.registrationId == internalName && grant.RefreshTokenGrant?
      && parse(grant.accessToken).Ok? && parse(grant.accessToken).value.iss.None?
    // any other registration never reads the token: only the Basic
    // credentials can fail it
    ensures grant.registration.registrationId != internalName ==>
      (r.Ok? <==> BasicAuthAccepted(c, grant.registration)) && (r.Err? ==> r.error == IllegalArgument)
    // the internal provider's request also needs a refresh grant whose
    // access token names an issuer that parses as a URI
    ensures grant.registration.registrationId == internalName ==>
      (r.Ok? <==>
        && BasicAuthAccepted(c, grant.registration)
        && grant.RefreshTokenGrant?
        && parse(grant.accessToken).Ok? && parse(grant.accessToken).value.iss.Some?
        && parseUri(parse(grant.accessToken).value.iss.value).Ok?)
  {
    var reg := grant.registration;
    var auth: Result<Option<BasicCredentials>, HeadersError> :=
      if reg.authenticationMethod == ClientSecretBasic then
        var id := EncodeCredential(c, reg.clientId);
        var secret := EncodeCredential(c, reg.clientSecret);
        EncodedCredentialsAccepted(c, reg.clientId, reg.clientSecret);
        match BasicAuth(id, secret)
        case Ok(b) => Ok(Some(b))
        case Err(e) => Err(e)
      else Ok(None);
    if auth.Err? then Err(auth.error)
    else if reg.registrationId != internalName then
      Ok(RequestHeaders(c.accept, c.contentType, auth.value, None))
    else if !grant.RefreshTokenGrant? then Err(ClassCast)
    else match parse(grant.accessToken)
      case Err(m) => Err(AuthenticationFailed(ISSUER_PARSE_FAILED + m))
      case Ok(claims) =>
        if claims.iss.None? then Err(NullPointer)
        else match parseUri(claims.iss.value)
          case Err(m) => Err(AuthenticationFailed(ISSUER_PARSE_FAILED + m))
          case Ok(u) => Ok(RequestHeaders(c.accept, c.contentType, auth.value, Some(ForwardedFor(u))))
  }

  /** Form-encoded credentials never trip `setBasicAuth`: they contain no
      ':' and only ASCII characters. */
  lemma EncodedCredentialsAccepted(c: ConverterConfig, id: string, secret: string)
    ensures c.encodeClientCredentials ==>
      BasicAuth(EncodeCredential(c, id), EncodeCredential(c, secret)).Ok?
  {
    if c.encodeClientCredentials {
      var i := EncodeCredential(c, id);
      var s := EncodeCredential(c, secret);
      assert forall k :: 0 <= k < |i| ==> (i[k] as int) < 128;
      assert forall k :: 0 <= k < |s| ==> (s[k] as int) < 128;
      assert forall k :: 0 <= k < |i| ==> i[k] != ':';
    }
  }

  /** With encoding on, the receiving authorization server recovers the
      exact client id and secret from the Basic credentials: the id is the
      text before the first ':', the secret everything after it, and form
      decoding inverts the encoding of each. */
  lemma {:induction false} BasicCredentialsRecoverable(c: ConverterConfig, grant: GrantRequest, internalName: string,
                                      parse: JwtParser, parseUri: UriParser)
    requires c.encodeClientCredentials
    requires Convert(c, grant, internalName, parse, parseUri).Ok?
    requires grant.registration.authenticationMethod == ClientSecretBasic
    ensures var up := Convert(c, grant, internalName, parse, parseUri).value.authorization.value.userPass;
      var id := Before(up, ':');
      && |id| < |up|
      && FormDecode(id) == Some(grant.registration.clientId)
      && FormDecode(up[|id| + 1..]) == Some(grant.registration.clientSecret)
  {
    var up := Convert(c, grant, internalName, parse, parseUri).value.authorization.value.userPass;
    var i := EncodeCredential(c, grant.registration.clientId);
    var s := EncodeCredential(c, grant.registration.clientSecret);
    EncodedCredentialsAccepted(c, grant.registration.clientId, grant.registration.clientSecret);
    assert up == i + ":" + s;
    BeforeOfPlainPrefix(i, s, ':');
    assert up[|i| + 1..] == s;
  }

  lemma {:induction false} BeforeOfPlainPrefix(a: string, b: string, sep: char)
    requires sep !in a
    ensures Before(a + [sep] + b, sep) == a
    decreases |a|
  {
    if |a| > 0 {
      assert (a + [sep] + b)[1..] == a[1..] + [sep] + b;
      BeforeOfPlainPrefix(a[1..], b, sep);
      assert [a[0]] + a[1..] == a;
    } else {
      assert a + [sep] + b == [sep] + b;
    }
  }

  /** The refresh token itself plays no part in the headers. */
  lemma RefreshTokenIrrelevant(c: ConverterConfig, reg: ClientRegistration, access: string, refresh1: string, refresh2: string,
                               internalName: string, parse: JwtParser, parseUri: UriParser)
    ensures Convert(c, RefreshTokenGrant(reg, access, refresh1), internalName, parse, parseUri)
         == Convert(c, RefreshTokenGrant(reg, access, refresh2), internalName, parse, parseUri)
  {
  }
}
