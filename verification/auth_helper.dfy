/** `AuthHelper`: materialising a system user or a user by uuid as the
    request principal, asking whether the principal is a protocol user,
    turning a policy-engine answer into an object-permission filter, and
    choosing the client IP address behind proxies. */
module AuthHelper {
  import opened Common
  import opened Security
  import opened JavaText

  const SYSTEM_USER_HEADER_NAME: string := "systemUsername"
  const USER_UUID_HEADER_NAME: string := "userUuid"

  const ACME_USERNAME: string := "acme"
  const SCEP_USERNAME: string := "scep"
  const CMP_USERNAME: string := "cmp"

  /** The system users that act for a certificate-management protocol. */
  const PROTOCOL_USERS: set<string> := {ACME_USERNAME, SCEP_USERNAME, CMP_USERNAME}

  /** What the helper asks of the outside world, in order. */
  datatype Effect =
    | PutActorInfo(info: ActorInfo)            // LoggingHelper.putActorInfoWhenNull
    | CallAuthentication(headers: seq<Header>) // CzertainlyAuthenticationClient.authenticate

  /** The context after the call, the effects requested, and the message of
      the exception the authentication client threw, if it threw. */
  datatype Materialised = Materialised(ctx: Ctx, effects: seq<Effect>, error: Option<string>)

  /** The actor type recorded for a system user. */
  function SystemActorType(username: string): ActorType
  {
    if username in PROTOCOL_USERS then ProtocolActor else CoreActor
  }

  /** Presents `headers` to the authentication service and installs a
      platform token for its answer; a failure leaves the context as it was. */
  function Materialise(ctx: Ctx, actor: ActorInfo, headers: seq<Header>, client: AuthenticationClient): Materialised
  {
    var effects := [PutActorInfo(actor), CallAuthentication(headers)];
    match client(headers)
    case Ok(info) => Materialised(Czertainly(UserDetails(info)), effects, None)
    case Err(m) => Materialised(ctx, effects, Some(m))
  }

  /** `authenticateAsSystemUser(username)`. */
  function AuthenticateAsSystemUser(ctx: Ctx, username: string, client: AuthenticationClient): (r: Materialised)
    ensures |r.effects| == 2
    ensures r.effects[0].PutActorInfo? && r.effects[0].info.userName == Some(username)
      && r.effects[0].info.userUuid.None? && r.effects[0].info.authMethod.None?
    ensures r.effects[0].info.actorType == ProtocolActor <==> username in {"acme", "scep", "cmp"}
    ensures r.effects[0].info.actorType != ProtocolActor ==> r.effects[0].info.actorType == CoreActor
    ensures r.effects[1] == CallAuthentication([Header("systemUsername", username)])
    ensures r.error.None? <==> client([Header("systemUsername", username)]).Ok?
    ensures r.error.None? ==> r.ctx == Czertainly(UserDetails(client([Header("systemUsername", username)]).value))
    ensures r.error.Some? ==> r.ctx == ctx && r.error.value == client([Header("systemUsername", username)]).error
  {
    var actor := ActorInfo(SystemActorType(username), None, None, Some(username));
    Materialise(ctx, actor, [Header(SYSTEM_USER_HEADER_NAME, username)], client)
  }

  /** `authenticateAsUser(userUuid)`, with the uuid in its string form. */
  function AuthenticateAsUser(ctx: Ctx, userUuid: string, client: AuthenticationClient): (r: Materialised)
    ensures r.effects == [PutActorInfo(ActorInfo(UserActor, None, Some(userUuid), None)),
                          CallAuthentication([Header("userUuid", userUuid)])]
    ensures r.error.None? <==> client([Header("userUuid", userUuid)]).Ok?
    ensures r.error.None? ==> r.ctx == Czertainly(UserDetails(client([Header("userUuid", userUuid)]).value))
    ensures r.error.Some? ==> r.ctx == ctx
  {
    Materialise(ctx, ActorInfo(UserActor, None, Some(userUuid), None), [Header(USER_UUID_HEADER_NAME, userUuid)], client)
  }

  const UNKNOWN_PROTOCOL_USER: string :=
    "Cannot retrieve information of logged protocol user for Unknown/Anonymous user"

  /** `isLoggedProtocolUser()`: a missing authentication or a principal that
      is not platform user details becomes a `ValidationException`. */
  function IsLoggedProtocolUser(ctx: Ctx): (r: Result<bool, string>)
    ensures r.Ok? <==> ctx.Czertainly? || (ctx.Other? && ctx.principal.Some?)
    ensures r.Ok? ==> (r.value <==> PrincipalDetails(ctx).value.authInfo.username in {"acme", "scep", "cmp"})
    ensures r.Err? ==> r.error == UNKNOWN_PROTOCOL_USER
  {
    match PrincipalDetails(ctx)
    case Some(d) => Ok(d.authInfo.username in PROTOCOL_USERS)
    case None => Err(UNKNOWN_PROTOCOL_USER)
  }

  const UNKNOWN_IDENTIFICATION: string :=
    "Cannot retrieve user identification for Unknown/Anonymous user"
  const UNKNOWN_PROFILE: string :=
    "Cannot retrieve profile information for Unknown/Anonymous user"

  /** `NameAndUuidDto`. */
  datatype NameAndUuid = NameAndUuid(uuid: string, name: string)

  /** `getUserIdentification()`: the uuid and name of platform user details;
      any other principal becomes a `ValidationException`. */
  function GetUserIdentification(ctx: Ctx): (r: Result<NameAndUuid, string>)
    ensures r.Ok? <==> PrincipalDetails(ctx).Some?
    ensures r.Ok? ==> r.value.uuid == PrincipalDetails(ctx).value.authInfo.userUuid
    ensures r.Ok? ==> r.value.name == PrincipalDetails(ctx).value.authInfo.username
    ensures r.Err? ==> r.error == UNKNOWN_IDENTIFICATION
  {
    match PrincipalDetails(ctx)
    case Some(d) => Ok(NameAndUuid(d.authInfo.userUuid, d.authInfo.username))
    case None => Err(UNKNOWN_IDENTIFICATION)
  }

  /** `getUserProfile()`: `readProfile` is the lenient JSON mapping of the
      raw profile, `None` when it throws. A missing principal and an
      unreadable profile give the same `ValidationException`. */
  function GetUserProfile<P>(ctx: Ctx, readProfile: string -> Option<P>): (r: Result<P, string>)
    ensures r.Ok? <==> PrincipalDetails(ctx).Some? && readProfile(PrincipalDetails(ctx).value.authInfo.rawData).Some?
    ensures r.Ok? ==> r.value == readProfile(PrincipalDetails(ctx).value.authInfo.rawData).value
    ensures r.Err? ==> r.error == UNKNOWN_PROFILE
  {
    match PrincipalDetails(ctx)
    case None => Err(UNKNOWN_PROFILE)
    case Some(d) =>
      match readProfile(d.authInfo.rawData)
      case None => Err(UNKNOWN_PROFILE)
      case Some(profile) => Ok(profile)
  }

  /** After `authenticateAsUser` the helpers read back the user the service
      answered with: identification, protocol-user test and profile all
      come from that answer. When the service refuses, every reader sees the
      context the call started from. */
  lemma AuthenticatedUserReadBack<P>(ctx: Ctx, userUuid: string, client: AuthenticationClient,
                                     readProfile: string -> Option<P>)
    ensures var r := AuthenticateAsUser(ctx, userUuid, client);
      var answer := client([Header(USER_UUID_HEADER_NAME, userUuid)]);
      && (answer.Ok? ==>
            && GetUserIdentification(r.ctx) == Ok(NameAndUuid(answer.value.userUuid, answer.value.username))
            && IsLoggedProtocolUser(r.ctx) == Ok(answer.value.username in PROTOCOL_USERS)
            && GetUserProfile(r.ctx, readProfile) == (if readProfile(answer.value.rawData).Some?
                                                     then Ok(readProfile(answer.value.rawData).value)
                                                     else Err(UNKNOWN_PROFILE)))
      && (answer.Err? ==>
            && GetUserIdentification(r.ctx) == GetUserIdentification(ctx)
            && IsLoggedProtocolUser(r.ctx) == IsLoggedProtocolUser(ctx)
            && GetUserProfile(r.ctx, readProfile) == GetUserProfile(ctx, readProfile))
  {
  }

  /** A system user the service confirms under its own name is classified
      the same way by the MDC record and by `isLoggedProtocolUser`. */
  lemma SystemUserClassifiedConsistently(ctx: Ctx, username: string, client: AuthenticationClient)
    requires client([Header(SYSTEM_USER_HEADER_NAME, username)]).Ok?
    requires client([Header(SYSTEM_USER_HEADER_NAME, username)]).value.username == username
    ensures var r := AuthenticateAsSystemUser(ctx, username, client);
      IsLoggedProtocolUser(r.ctx) == Ok(r.effects[0].info.actorType == ProtocolActor)
  {
  }

  // ---- object permissions ----

  datatype Resource = Resource(code: string)
  datatype ResourceAction = ResourceAction(code: string)

  /** One `opaClient.checkObjectAccess(OBJECTS, properties, rawData, details)`
      request; the request details carry no object uuid. */
  datatype PolicyQuery = PolicyQuery(properties: map<string, string>, subject: string)

  /** `OpaObjectAccessResult`. */
  datatype ObjectAccessResult = ObjectAccessResult(
    allowedObjects: seq<string>,
    forbiddenObjects: seq<string>,
    actionAllowedForGroupOfObjects: bool)

  /** The policy engine: its answer, or the message of the exception it throws. */
  type PolicyEngine = PolicyQuery -> Result<ObjectAccessResult, string>

  /** `SecurityResourceFilter`. */
  datatype ResourceFilter = ResourceFilter(
    resource: Option<Resource>,
    action: Option<ResourceAction>,
    allowedObjects: seq<string>,
    deniedObjects: seq<string>,
    onlySpecificObjects: bool)

  /** How the filter is read: with only specific objects allowed an object
      must be listed as allowed, otherwise it must not be listed as denied. */
  predicate Permits(f: ResourceFilter, objectUuid: string)
  {
    if f.onlySpecificObjects then objectUuid in f.allowedObjects else objectUuid !in f.deniedObjects
  }

  datatype PermissionOutcome = PermissionOutcome(result: Result<ResourceFilter, string>, queries: seq<PolicyQuery>)

  /** The filter returned without a platform token. */
  const NOTHING_ALLOWED: ResourceFilter := ResourceFilter(None, None, [], [], true)

  /** `loadObjectPermissions(resource, action)`. */
  function LoadObjectPermissions(ctx: Ctx, resource: Resource, action: ResourceAction, engine: PolicyEngine): (r: PermissionOutcome)
    ensures !ctx.Czertainly? ==> r.result == Ok(NOTHING_ALLOWED) && r.queries == []
    ensures ctx.Czertainly? ==>
      r.queries == [PolicyQuery(map["name" := resource.code, "action" := action.code], ctx.details.authInfo.rawData)]
    ensures ctx.Czertainly? ==> (r.result.Ok? <==> engine(r.queries[0]).Ok?)
    ensures ctx.Czertainly? && r.result.Ok? ==>
      var answer := engine(r.queries[0]).value;
      && r.result.value.resource == Some(resource) && r.result.value.action == Some(action)
      && r.result.value.allowedObjects == answer.allowedObjects
      && r.result.value.deniedObjects == answer.forbiddenObjects
      && r.result.value.onlySpecificObjects == !answer.actionAllowedForGroupOfObjects
  {
    if !ctx.Czertainly? then PermissionOutcome(Ok(NOTHING_ALLOWED), [])
    else
      var query := PolicyQuery(map["name" := resource.code, "action" := action.code], ctx.details.authInfo.rawData);
      match engine(query)
      case Err(m) => PermissionOutcome(Err(m), [query])
      case Ok(answer) =>
        var filter := ResourceFilter(Some(resource), Some(action), answer.allowedObjects,
                                     answer.forbiddenObjects, !answer.actionAllowedForGroupOfObjects);
        PermissionOutcome(Ok(filter), [query])
  }

  /** Fail-closed: an object is permitted exactly when there is a platform
      token and the policy engine's answer permits it, either as a listed
      object or, when the action is allowed for the whole group, as an
      object it does not forbid. */
  lemma PermittedIffPolicyAllows(ctx: Ctx, resource: Resource, action: ResourceAction, engine: PolicyEngine, objectUuid: string)
    ensures var r := LoadObjectPermissions(ctx, resource, action, engine);
      (r.result.Ok? && Permits(r.result.value, objectUuid)) <==>
      (ctx.Czertainly? && engine(r.queries[0]).Ok? &&
       var answer := engine(r.queries[0]).value;
       if answer.actionAllowedForGroupOfObjects then objectUuid !in answer.forbiddenObjects
       else objectUuid in answer.allowedObjects)
  {
  }

  // ---- client IP address ----

  /** The proxy headers consulted, in order. */
  const PROXY_HEADERS: seq<string> :=
    ["X-Forwarded-For", "X-Real-IP", "HTTP_X_FORWARDED_FOR", "Proxy-Client-IP", "WL-Proxy-Client-IP", "HTTP_CLIENT_IP"]

  /** A header value the scan stops at: present, not blank, not "unknown". */
  predicate Usable(v: Option<string>)
  {
    v.Some? && !IsBlank(v.value) && !SpellsUnknown(v.value)
  }

  /** The untrimmed text before the first comma of a forwarded-for list; a
      value made only of commas has no such text and the lookup fails. */
  function FirstListEntry(v: Option<string>): Result<Option<string>, Unit>
  {
    if v.None? || ',' !in v.value then Ok(v)
    else if forall i :: 0 <= i < |v.value| ==> v.value[i] == ',' then Err(Unit)
    else Ok(Some(Before(v.value, ',')))
  }

  /** `getClientIPAddress(request)`: `header` is `request.getHeader` and
      `remoteAddr` is `request.getRemoteAddr()`. The error is the
      `ArrayIndexOutOfBoundsException` of indexing an empty split. */
  method GetClientIPAddress(header: string -> Option<string>, remoteAddr: Option<string>) returns (r: Result<Option<string>, Unit>)
    ensures forall k ::
      (0 <= k < |PROXY_HEADERS| && Usable(header(PROXY_HEADERS[k])) &&
       (forall j :: 0 <= j < k ==> !Usable(header(PROXY_HEADERS[j])))) ==>
        r == FirstListEntry(header(PROXY_HEADERS[k]))
    ensures (forall j :: 0 <= j < |PROXY_HEADERS| ==> !Usable(header(PROXY_HEADERS[j]))) ==>
      r == FirstListEntry(if header(PROXY_HEADERS[5]).None? then remoteAddr else header(PROXY_HEADERS[5]))
  {
    var ip: Option<string> := None;
    var i := 0;
    while i < |PROXY_HEADERS|
      invariant 0 <= i <= |PROXY_HEADERS|
      invariant forall j :: 0 <= j < i ==> !Usable(header(PROXY_HEADERS[j]))
      invariant i > 0 ==> ip == header(PROXY_HEADERS[i - 1])
    {
      ip := header(PROXY_HEADERS[i]);
      if Usable(ip) {
        break;
      }
      i := i + 1;
    }
    if ip.None? {
      ip := remoteAddr;
    }
    if ip.Some? && ',' in ip.value {
      var parts := Split(ip.value, ',');
      SplitEmptyIffOnlySeparators(ip.value, ',');
      if |parts| == 0 {
        return Err(Unit);
      }
      SplitHead(ip.value, ',');
      ip := Some(parts[0]);
    }
    r := Ok(ip);
  }
}
