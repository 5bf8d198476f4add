/**
 * The authorization and audit aspect (aspect/SecurityAspect.java). The
 * advice is modelled as explicit calls: the interceptor takes the current
 * request (absent outside an HTTP request), the descriptor and the clock;
 * the audit recorder takes the method name, the arguments, the ambient
 * authentication and the set of stored usernames.
 */
module Security {
  import opened Wrappers
  import opened Text
  import opened Roles
  import opened Policy
  import opened JwtClaims
  import opened Jwt

  const Unauthorized: int := 401
  const Forbidden: int := 403
  const InternalServerError: int := 500

  /** The authorization scheme of section 2.1 of RFC 6750, with its separating space. */
  const BearerPrefix: string := "Bearer "

  const AuthenticationRequired: string := "Authentication required"
  const InvalidOrExpiredToken: string := "Invalid or expired token"
  const AuthorizationCheckFailed: string := "Authorization check failed"

  /** The current HTTP request, as far as the interceptor reads it: the `Authorization` header. */
  datatype Request = Request(authorization: Option<string>)

  /** The advice returns normally, or throws a ResponseStatusException with a status and a reason. */
  datatype Decision = Allow | Deny(status: int, reason: string)

  // ---------------------------------------------------------------------
  // Role policy evaluation

  /** `checkUserRoles`: do the caller's roles satisfy the required roles under ANY or ALL? */
  function CheckUserRoles(userRoles: Option<set<Role>>, requiredRoles: seq<Role>, requireAll: bool): (ok: bool)
    ensures userRoles.None? || userRoles.value == {} ==> !ok
    ensures userRoles.Some? && userRoles.value != {} && requireAll ==>
              (ok <==> forall i :: 0 <= i < |requiredRoles| ==> requiredRoles[i] in userRoles.value)
    ensures userRoles.Some? && userRoles.value != {} && !requireAll ==>
              (ok <==> exists i :: 0 <= i < |requiredRoles| && requiredRoles[i] in userRoles.value)
    ensures userRoles.Some? && userRoles.value != {} && requiredRoles == [] ==> ok == requireAll
  {
    if userRoles.None? || userRoles.value == {} then false
    else if requireAll then ContainsAll(userRoles.value, requiredRoles)
    else AnyIn(userRoles.value, requiredRoles)
  }

  /** Sample policies, evaluated; no role implies another. */
  lemma PolicyExamples()
    ensures CheckUserRoles(Some({ADMIN, HR, MANAGER}), [ADMIN, HR], true)
    ensures !CheckUserRoles(Some({ADMIN}), [ADMIN, HR], true)
    ensures CheckUserRoles(Some({MANAGER, HR}), [ADMIN, HR], false)
    ensures !CheckUserRoles(Some({MANAGER}), [ADMIN, HR], false)
    ensures !CheckUserRoles(Some({ADMIN}), [MANAGER], false)
  {
    assert [ADMIN, HR][1] == HR;
  }

  // ---------------------------------------------------------------------
  // The interceptor

  /** The credential a request presents: what follows `Bearer ` in its Authorization header. */
  function BearerToken(request: Option<Request>): (t: Option<string>)
    ensures t.Some? <==> request.Some? && request.value.authorization.Some?
                         && StartsWith(request.value.authorization.value, BearerPrefix)
    ensures t.Some? ==> request.value.authorization.value == BearerPrefix + t.value
  {
    if request.Some? && request.value.authorization.Some? && StartsWith(request.value.authorization.value, BearerPrefix)
    then
      var header := request.value.authorization.value;
      assert header == header[..|BearerPrefix|] + header[|BearerPrefix|..];
      Some(header[|BearerPrefix|..])
    else None
  }

  /** The request presents a correctly signed, unexpired token carrying both `sub` and `exp`. */
  predicate AcceptedToken(jwt: JwtUtil, request: Option<Request>, now: nat)
  {
    && BearerToken(request).Some?
    && ParseClaims(jwt, BearerToken(request).value, now).Success?
    && ParseClaims(jwt, BearerToken(request).value, now).value.subject.Some?
    && ParseClaims(jwt, BearerToken(request).value, now).value.expiration.Some?
  }

  /** The roles an accepted token grants. */
  function GrantedRoles(jwt: JwtUtil, request: Option<Request>, now: nat): set<Role>
    requires AcceptedToken(jwt, request, now)
  {
    RolesOf(ParseClaims(jwt, BearerToken(request).value, now).value)
  }

  /** The accepted token's expiry has passed at the clock reading `date`. */
  predicate ExpiredBy(jwt: JwtUtil, request: Option<Request>, now: nat, date: nat)
    requires AcceptedToken(jwt, request, now)
  {
    ExpiredAt(ParseClaims(jwt, BearerToken(request).value, now).value, date)
  }

  /**
   * `checkRoleAccess`: 401 without a request or a bearer header, 500 when
   * the token cannot be read, 401 when it expired between the parser's
   * clock reading `now` and the validity check's `date`, 403 with the
   * descriptor's message when the roles do not satisfy it, and otherwise
   * the call proceeds.
   */
  function CheckRoleAccess(jwt: JwtUtil, request: Option<Request>, requireRole: RequireRole, now: nat, date: nat): (d: Decision)
    ensures BearerToken(request).None? ==> d == Deny(Unauthorized, AuthenticationRequired)
    ensures BearerToken(request).Some? && !AcceptedToken(jwt, request, now) ==>
              d == Deny(InternalServerError, AuthorizationCheckFailed)
    ensures AcceptedToken(jwt, request, now) && ExpiredBy(jwt, request, now, date) ==>
              d == Deny(Unauthorized, InvalidOrExpiredToken)
    ensures AcceptedToken(jwt, request, now) && !ExpiredBy(jwt, request, now, date) ==>
              d == if CheckUserRoles(Some(GrantedRoles(jwt, request, now)), requireRole.value, requireRole.requireAll)
                   then Allow else Deny(Forbidden, requireRole.message)
    ensures d == Deny(Unauthorized, InvalidOrExpiredToken) ==> now < date
  {
    if request.None? then Deny(Unauthorized, AuthenticationRequired)
    else
      var authHeader := request.value.authorization;
      if authHeader.None? || !StartsWith(authHeader.value, BearerPrefix) then Deny(Unauthorized, AuthenticationRequired)
      else
        var token := authHeader.value[7..];
        match ExtractUsername(jwt, token, now)
        case Failure(_) => Deny(InternalServerError, AuthorizationCheckFailed)
        case Success(username) =>
          match ExtractRoles(jwt, token, now)
          case Failure(_) => Deny(InternalServerError, AuthorizationCheckFailed)
          case Success(userRoles) =>
            match ValidateToken(jwt, token, username, now, date)
            case Failure(_) => Deny(InternalServerError, AuthorizationCheckFailed)
            case Success(valid) =>
              if !valid then Deny(Unauthorized, InvalidOrExpiredToken)
              else if !CheckUserRoles(Some(userRoles), requireRole.value, requireRole.requireAll)
              then Deny(Forbidden, requireRole.message)
              else Allow
  }

  /** `checkClassRoleAccess`: a type-level descriptor is enforced by the same procedure. */
  function CheckClassRoleAccess(jwt: JwtUtil, request: Option<Request>, requireRole: RequireRole, now: nat, date: nat): (d: Decision)
    ensures d == CheckRoleAccess(jwt, request, requireRole, now, date)
  {
    CheckRoleAccess(jwt, request, requireRole, now, date)
  }

  /** `getRequireRoleAnnotation`: the method's own descriptor, else its type's. */
  function GetRequireRoleAnnotation(onMethod: Option<RequireRole>, onType: Option<RequireRole>): (r: Option<RequireRole>)
    ensures onMethod.Some? ==> r == onMethod
    ensures onMethod.None? ==> r == onType
  {
    if onMethod.Some? then onMethod else onType
  }

  /**
   * The two before-advices together: the method-level one when the method
   * carries a descriptor, the class-level one only when it does not, and
   * nothing for an unguarded method.
   */
  function BeforeAdvice(jwt: JwtUtil, request: Option<Request>, onMethod: Option<RequireRole>,
                        onType: Option<RequireRole>, now: nat, date: nat): (d: Decision)
    ensures d == match GetRequireRoleAnnotation(onMethod, onType)
                 case None => Allow
                 case Some(p) => CheckRoleAccess(jwt, request, p, now, date)
  {
    if onMethod.Some? then CheckRoleAccess(jwt, request, onMethod.value, now, date)
    else if onType.Some? then CheckClassRoleAccess(jwt, request, onType.value, now, date)
    else Allow
  }

  /** A call through the proxy: a before-advice that throws keeps the method from running. */
  datatype Invocation<T> = Proceeded(value: T) | Rejected(status: int, reason: string)

  function Invoke<T>(d: Decision, call: () -> T): (r: Invocation<T>)
    ensures r.Proceeded? <==> d.Allow?
    ensures d.Deny? ==> r == Rejected(d.status, d.reason)
  {
    if d.Allow? then Proceeded(call()) else Rejected(d.status, d.reason)
  }

  /**
   * A token issued to a user, presented in a bearer header before it
   * expires, is decided by the user's roles alone.
   */
  lemma IssuedTokenDecidedByRoles(jwt: JwtUtil, username: string, roles: Option<set<Role>>, now: nat, later: nat,
                                  date: nat, requireRole: RequireRole)
    requires later <= ExpiryMillis(now) && date <= ExpiryMillis(now)
    ensures var request := Some(Request(Some(BearerPrefix + GenerateToken(jwt, username, roles, now))));
            CheckRoleAccess(jwt, request, requireRole, later, date)
            == if CheckUserRoles(Some(if roles.Some? then roles.value else {}), requireRole.value, requireRole.requireAll)
               then Allow else Deny(Forbidden, requireRole.message)
  {
    var token := GenerateToken(jwt, username, roles, now);
    var request := Some(Request(Some(BearerPrefix + token)));
    assert (BearerPrefix + token)[..|BearerPrefix|] == BearerPrefix;
    assert BearerToken(request) == Some(token);
    ParseSign(jwt, IssuedClaims(username, roles, now), later);
  }

  /**
   * A token that expires after the parser's clock reading but before the
   * validity check's own reading is answered with 401 "Invalid or expired
   * token", whatever the roles.
   */
  lemma IssuedTokenExpiringBetweenReadings(jwt: JwtUtil, username: string, roles: Option<set<Role>>, now: nat,
                                           later: nat, date: nat, requireRole: RequireRole)
    requires later <= ExpiryMillis(now) < date
    ensures CheckRoleAccess(jwt, Some(Request(Some(BearerPrefix + GenerateToken(jwt, username, roles, now)))), requireRole, later, date)
            == Deny(Unauthorized, InvalidOrExpiredToken)
  {
    var token := GenerateToken(jwt, username, roles, now);
    var request := Some(Request(Some(BearerPrefix + token)));
    assert (BearerPrefix + token)[..|BearerPrefix|] == BearerPrefix;
    assert BearerToken(request) == Some(token);
    ParseSign(jwt, IssuedClaims(username, roles, now), later);
  }

  /**
   * A token already expired when the parser reads the clock makes the claim
   * extraction throw, so the caller gets 500, not the 401 of the validity check.
   */
  lemma ExpiredTokenIsInternalError(jwt: JwtUtil, username: string, roles: Option<set<Role>>, now: nat, later: nat,
                                    date: nat, requireRole: RequireRole)
    requires later > ExpiryMillis(now)
    ensures CheckRoleAccess(jwt, Some(Request(Some(BearerPrefix + GenerateToken(jwt, username, roles, now)))), requireRole, later, date)
            == Deny(InternalServerError, AuthorizationCheckFailed)
  {
    var token := GenerateToken(jwt, username, roles, now);
    var request := Some(Request(Some(BearerPrefix + token)));
    assert (BearerPrefix + token)[..|BearerPrefix|] == BearerPrefix;
    assert BearerToken(request) == Some(token);
    ParseSign(jwt, IssuedClaims(username, roles, now), later);
  }

  // ---------------------------------------------------------------------
  // The audit recorder

  /** The kinds of change the audit trail records. */
  datatype Action = CREATE | UPDATE | DELETE

  const DeletePrefix: string := "deleteEmployee"
  const CreatePrefix: string := "createEmployee"
  const UpdatePrefix: string := "updateEmployee"

  /** The action a monitored method records, from its name alone. */
  function ActionFor(methodName: string): (a: Action)
    ensures a == DELETE <==> StartsWith(methodName, DeletePrefix)
    ensures a == CREATE <==> !StartsWith(methodName, DeletePrefix) && StartsWith(methodName, CreatePrefix)
  {
    if StartsWith(methodName, DeletePrefix) then DELETE
    else if StartsWith(methodName, CreatePrefix) then CREATE
    else UPDATE
  }

  /** Where an intercepted method is declared. */
  datatype Layer = Controller | Service

  /** The `transactionMethods` pointcut. */
  predicate Monitored(layer: Layer, methodName: string)
  {
    || (layer == Controller && StartsWith(methodName, CreatePrefix))
    || (layer == Service && StartsWith(methodName, UpdatePrefix))
    || (layer == Service && StartsWith(methodName, DeletePrefix))
  }

  /** Every monitored method records the action its name prefix announces. */
  lemma MonitoredActions(layer: Layer, methodName: string)
    requires Monitored(layer, methodName)
    ensures StartsWith(methodName, CreatePrefix) ==> ActionFor(methodName) == CREATE
    ensures StartsWith(methodName, UpdatePrefix) ==> ActionFor(methodName) == UPDATE
    ensures StartsWith(methodName, DeletePrefix) ==> ActionFor(methodName) == DELETE
  {
    if StartsWith(methodName, CreatePrefix) || StartsWith(methodName, UpdatePrefix) {
      assert methodName[0] == methodName[..|CreatePrefix|][0];
      assert !StartsWith(methodName, DeletePrefix) by {
        assert DeletePrefix[0] == 'd';
        assert methodName[0] != 'd';
      }
    }
    if StartsWith(methodName, UpdatePrefix) {
      assert !StartsWith(methodName, CreatePrefix) by {
        assert CreatePrefix[0] == 'c';
        assert methodName[0] == 'u';
      }
    }
  }

  /** The first argument of the call, as far as the recorder reads it. */
  datatype Argument =
    | Null
      /** An object: its class's simple name and what a reflective `getId()` yields (`None` for no such method, a null id, or any failure). */
    | Object(simpleName: string, id: Option<int>)

  /** The ambient authentication, when there is one. */
  datatype Authentication = Authentication(name: string, authenticated: bool)

  /** An audit log record (entity/AuditLog.java), without its generated id. */
  datatype AuditEntry = AuditEntry(action: Action, entityName: string, entityId: Option<int>, username: string, timestamp: int)

  const SystemActor: string := "system"
  const UnknownActor: string := "unknown"

  /**
   * The user an entry is attributed to: the authenticated principal, else
   * "system", kept only if a stored user has that name, else "unknown".
   */
  function Actor(auth: Option<Authentication>, registered: set<string>): (name: string)
    ensures name == UnknownActor || name in registered
    ensures auth.Some? && auth.value.authenticated && auth.value.name in registered ==> name == auth.value.name
    ensures (auth.None? || !auth.value.authenticated) ==> name == (if SystemActor in registered then SystemActor else UnknownActor)
  {
    var claimed := if auth.Some? && auth.value.authenticated then auth.value.name else SystemActor;
    if claimed in registered then claimed else UnknownActor
  }

  /** The audit log repository: an append-only sequence of entries. */
  class AuditLogRepository {
    var entries: seq<AuditEntry>

    constructor ()
      ensures entries == []
    {
      entries := [];
    }

    method Save(entry: AuditEntry)
      modifies this
      ensures entries == old(entries) + [entry]
    {
      entries := entries + [entry];
    }
  }

  /**
   * `logTransaction`: after a monitored method returns, append one entry
   * describing it. Every failure is swallowed, and then nothing is appended:
   * no argument, a null first argument, or a store that throws (`storeUp`
   * false).
   */
  method LogTransaction(repo: AuditLogRepository, methodName: string, args: seq<Argument>,
                        auth: Option<Authentication>, registered: set<string>, storeUp: bool, timestamp: int)
    modifies repo
    ensures old(repo.entries) <= repo.entries && |repo.entries| <= |old(repo.entries)| + 1
    ensures (|args| == 0 || args[0].Null? || !storeUp) ==> repo.entries == old(repo.entries)
    ensures |args| > 0 && args[0].Object? && storeUp ==>
              repo.entries == old(repo.entries)
                + [AuditEntry(ActionFor(methodName), args[0].simpleName, args[0].id, Actor(auth, registered), timestamp)]
  {
    if |args| == 0 {
      return;
    }
    var action: Action;
    if StartsWith(methodName, DeletePrefix) {
      action := DELETE;
    } else if StartsWith(methodName, CreatePrefix) {
      action := CREATE;
    } else {
      action := UPDATE;
    }
    var entity := args[0];
    var entityId: Option<int> := None;
    if entity.Object? {
      entityId := entity.id;
    }
    var username := SystemActor;
    if auth.Some? && auth.value.authenticated {
      username := auth.value.name;
    }
    if !storeUp {
      return;
    }
    var finalUsername := if username in registered then username else UnknownActor;
    if entity.Null? {
      return;
    }
    repo.Save(AuditEntry(action, entity.simpleName, entityId, finalUsername, timestamp));
  }
}
