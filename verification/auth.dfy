/**
 * The authentication handlers (src/domains/auth.ts): the password policy, the failed-attempt
 * lockout, registration, login, MFA verification, logout and `/me`. Each handler is a method on
 * the store; the decisions it takes are functions of the store it starts from.
 */
module Auth {
  import opened Wrappers
  import Json
  import Text
  import opened Errors
  import opened Library
  import opened Store
  import Log
  import Audit
  import opened HashChain
  import opened AuthMiddleware

  // ---------------------------------------------------------------- password policy

  predicate IsUpper(c: char) { 'A' <= c <= 'Z' }
  predicate IsLower(c: char) { 'a' <= c <= 'z' }
  predicate IsDigit(c: char) { '0' <= c <= '9' }

  /** `/[...]/.test(s)` for a one-character class: some character of `s` is in the class. */
  function AnyChar(s: string, inClass: char -> bool): (r: bool)
    ensures r <==> exists k :: 0 <= k < |s| && inClass(s[k])
  {
    if s == [] then false
    else if inClass(s[0]) then true
    else
      var r := AnyChar(s[1..], inClass);
      assert r ==> exists k :: 1 <= k < |s| && inClass(s[k]) by {
        if r {
          var k :| 0 <= k < |s| - 1 && inClass(s[1..][k]);
          assert inClass(s[k + 1]);
        }
      }
      r
  }

  const MinPasswordLength: nat := 12

  /**
   * `passwordPolicy`: at least 12 UTF-16 code units (`p.length`), with an upper-case letter, a
   * lower-case letter and a digit. A code unit of a surrogate pair is never an ASCII letter or
   * digit, so the three class tests read the same over characters as over code units.
   */
  function PasswordPolicy(p: string): (ok: bool)
    ensures ok <==> && Text.Utf16Length(p) >= MinPasswordLength
                    && (exists k :: 0 <= k < |p| && IsUpper(p[k]))
                    && (exists k :: 0 <= k < |p| && IsLower(p[k]))
                    && (exists k :: 0 <= k < |p| && IsDigit(p[k]))
  {
    Text.Utf16Length(p) >= MinPasswordLength && AnyChar(p, IsUpper) && AnyChar(p, IsLower) && AnyChar(p, IsDigit)
  }

  /**
   * A password of eight characters passes the length test when five of them lie beyond the Basic
   * Multilingual Plane, since each of those counts twice in `p.length`.
   */
  lemma PasswordPolicyCountsCodeUnits()
    ensures var p := "Aa1" + ['\U{1F600}', '\U{1F600}', '\U{1F600}', '\U{1F600}', '\U{1F600}'];
            |p| == 8 && PasswordPolicy(p)
  {
    var p := "Aa1" + ['\U{1F600}', '\U{1F600}', '\U{1F600}', '\U{1F600}', '\U{1F600}'];
    Text.Utf16LengthAppend("Aa1", p[3..]);
    assert p[3..] == ['\U{1F600}', '\U{1F600}', '\U{1F600}', '\U{1F600}', '\U{1F600}'];
    assert IsUpper(p[0]) && IsLower(p[1]) && IsDigit(p[2]);
  }

  /** For a password within the Basic Multilingual Plane the length test counts characters. */
  lemma PasswordPolicyBmp(p: string)
    requires forall k :: 0 <= k < |p| ==> p[k] as int < 0x1_0000
    ensures PasswordPolicy(p) <==> && |p| >= MinPasswordLength
                                   && (exists k :: 0 <= k < |p| && IsUpper(p[k]))
                                   && (exists k :: 0 <= k < |p| && IsLower(p[k]))
                                   && (exists k :: 0 <= k < |p| && IsDigit(p[k]))
  {
  }

  // ---------------------------------------------------------------- token signing

  /** `signAccess(claims)`: a plain error when `JWT_ACCESS_SECRET` is unset or empty. */
  function SignAccess(claims: Claims, lib: Primitives, cfg: Config, now: int): (r: Result<string, Err>)
    ensures r.Failure? <==> EnvOr(cfg.accessSecret, "") == ""
    ensures r.Failure? ==> r.error == PlainError("JWT_ACCESS_SECRET missing")
    ensures r.Success? ==> r.value == lib.jwtSign(claims, cfg.accessSecret.value, AccessLifetimeMs, now)
  {
    var s := EnvOr(cfg.accessSecret, "");
    if s == "" then Failure(PlainError("JWT_ACCESS_SECRET missing"))
    else Success(lib.jwtSign(claims, s, AccessLifetimeMs, now))
  }

  /** `signRefresh(claims)`: a plain error when `JWT_REFRESH_SECRET` is unset or empty. */
  function SignRefresh(claims: Claims, lib: Primitives, cfg: Config, now: int): (r: Result<string, Err>)
    ensures r.Failure? <==> EnvOr(cfg.refreshSecret, "") == ""
    ensures r.Failure? ==> r.error == PlainError("JWT_REFRESH_SECRET missing")
    ensures r.Success? ==> r.value == lib.jwtSign(claims, cfg.refreshSecret.value, RefreshLifetimeMs, now)
  {
    var s := EnvOr(cfg.refreshSecret, "");
    if s == "" then Failure(PlainError("JWT_REFRESH_SECRET missing"))
    else Success(lib.jwtSign(claims, s, RefreshLifetimeMs, now))
  }

  // ---------------------------------------------------------------- lockout

  const LockoutWindowMs: int := 15 * 60 * 1000
  const LockoutThreshold: nat := 10

  /** The `lockoutCheck` filter: a failed attempt of this exact triple within the last 15 minutes. */
  predicate RecentFailure(a: AuthAttempt, communityId: string, email: string, ip: string, now: int)
  {
    a.communityId == communityId && a.email == email && a.ip == ip && !a.ok && a.ts >= now - LockoutWindowMs
  }

  /** The number of failed attempts `lockoutCheck` counts. */
  function FailedInWindow(attempts: seq<AuthAttempt>, communityId: string, email: string, ip: string, now: int): nat
  {
    Count(attempts, (a: AuthAttempt) => RecentFailure(a, communityId, email, ip, now))
  }

  /** `lockoutCheck`: 429 once ten recent failures of the triple are on record. */
  function LockoutCheck(attempts: seq<AuthAttempt>, communityId: string, email: string, ip: string, now: int): (r: Option<Err>)
    ensures r.Some? <==> FailedInWindow(attempts, communityId, email, ip, now) >= LockoutThreshold
    ensures r.Some? ==> r.value == HttpError(429, "Too many attempts")
  {
    if FailedInWindow(attempts, communityId, email, ip, now) >= LockoutThreshold
    then Some(HttpError(429, "Too many attempts")) else None
  }

  /**
   * Recording an attempt changes the count of a triple by one exactly when it is a failure of that
   * triple inside the window: successes and other triples' attempts never count.
   */
  lemma RecordedAttemptCount(attempts: seq<AuthAttempt>, a: AuthAttempt, communityId: string, email: string, ip: string, now: int)
    ensures FailedInWindow(attempts + [a], communityId, email, ip, now)
            == FailedInWindow(attempts, communityId, email, ip, now) + (if RecentFailure(a, communityId, email, ip, now) then 1 else 0)
    ensures a.ok ==> FailedInWindow(attempts + [a], communityId, email, ip, now) == FailedInWindow(attempts, communityId, email, ip, now)
    ensures (a.communityId, a.email, a.ip) != (communityId, email, ip)
            ==> FailedInWindow(attempts + [a], communityId, email, ip, now) == FailedInWindow(attempts, communityId, email, ip, now)
  {
    CountSnoc(attempts, a, (a: AuthAttempt) => RecentFailure(a, communityId, email, ip, now));
  }

  /** Recent failures add up one by one. */
  lemma {:induction false} FailuresAccumulate(attempts: seq<AuthAttempt>, recent: seq<AuthAttempt>,
                                              communityId: string, email: string, ip: string, now: int)
    requires forall k :: 0 <= k < |recent| ==> RecentFailure(recent[k], communityId, email, ip, now)
    ensures FailedInWindow(attempts + recent, communityId, email, ip, now)
            == FailedInWindow(attempts, communityId, email, ip, now) + |recent|
  {
    if recent == [] {
      assert attempts + recent == attempts;
    } else {
      var n := |recent| - 1;
      FailuresAccumulate(attempts, recent[..n], communityId, email, ip, now);
      assert attempts + recent == (attempts + recent[..n]) + [recent[n]];
      RecordedAttemptCount(attempts + recent[..n], recent[n], communityId, email, ip, now);
    }
  }

  /** Ten failures of a triple within the window lock it out, whatever else is on record. */
  lemma TenFailuresLockOut(attempts: seq<AuthAttempt>, recent: seq<AuthAttempt>,
                           communityId: string, email: string, ip: string, now: int)
    requires |recent| >= LockoutThreshold
    requires forall k :: 0 <= k < |recent| ==> RecentFailure(recent[k], communityId, email, ip, now)
    ensures LockoutCheck(attempts + recent, communityId, email, ip, now) == Some(HttpError(429, "Too many attempts"))
  {
    FailuresAccumulate(attempts, recent, communityId, email, ip, now);
  }

  /** `recordAuthAttempt`: insert one attempt stamped `now`. */
  method RecordAuthAttempt(db: Db, id: string, communityId: string, email: string, ip: string, ok: bool, now: int)
    modifies db`authAttempts
    ensures db.authAttempts == old(db.authAttempts) + [AuthAttempt(id, communityId, email, ip, ok, now)]
  {
    db.authAttempts := db.authAttempts + [AuthAttempt(id, communityId, email, ip, ok, now)];
  }

  // ---------------------------------------------------------------- devices

  /** `String(x-forwarded-for || remoteAddress || "")`: the header verbatim when present. */
  function ClientIp(forwardedFor: Option<string>, remoteAddress: Option<string>): (ip: string)
    ensures forwardedFor.Some? && forwardedFor.value != "" ==> ip == forwardedFor.value
    ensures (forwardedFor.None? || forwardedFor.value == "") ==> ip == remoteAddress.GetOr("")
  {
    if forwardedFor.Some? && forwardedFor.value != "" then forwardedFor.value else remoteAddress.GetOr("")
  }

  const DeviceIdLength: nat := 24

  /** The first 24 characters of `sha256Hex(deviceName + ":" + ip + ":" + userAgent)`. */
  function DeviceId(lib: Primitives, deviceName: string, ip: string, ua: string): (id: string)
    ensures |id| <= DeviceIdLength
    ensures |lib.sha256Hex(deviceName + ":" + ip + ":" + ua)| >= DeviceIdLength ==> |id| == DeviceIdLength
    ensures id <= lib.sha256Hex(deviceName + ":" + ip + ":" + ua)
  {
    Text.Prefix(lib.sha256Hex(deviceName + ":" + ip + ":" + ua), DeviceIdLength)
  }

  /** The filter of the device upsert: (community, user, deviceId). */
  predicate SameDevice(a: Device, b: Device)
  {
    a.communityId == b.communityId && a.userId == b.userId && a.deviceId == b.deviceId
  }

  /**
   * `updateOne({ communityId, userId, deviceId }, { $set: device }, { upsert: true })`: the first
   * matching record becomes `d`; with no match, `d` is inserted.
   */
  function UpsertDevice(devices: seq<Device>, d: Device): (r: seq<Device>)
    ensures (exists i :: 0 <= i < |devices| && SameDevice(devices[i], d)) ==>
              |r| == |devices| && exists i :: 0 <= i < |devices| && SameDevice(devices[i], d)
                                              && (forall j :: 0 <= j < i ==> !SameDevice(devices[j], d))
                                              && r == devices[i := d]
    ensures (forall i :: 0 <= i < |devices| ==> !SameDevice(devices[i], d)) ==> r == devices + [d]
  {
    var i := FirstIndex(devices, (x: Device) => SameDevice(x, d));
    if i.Some? then devices[i.value := d] else devices + [d]
  }

  /** Upserting the same device twice is upserting it once; afterwards the device is on record. */
  lemma UpsertDeviceIdempotent(devices: seq<Device>, d: Device)
    ensures d in UpsertDevice(devices, d)
    ensures UpsertDevice(UpsertDevice(devices, d), d) == UpsertDevice(devices, d)
  {
    var p := (x: Device) => SameDevice(x, d);
    var r := UpsertDevice(devices, d);
    var i := FirstIndex(devices, p);
    if i.Some? {
      assert FirstAt(r, p, i.value);
    } else {
      assert FirstAt(r, p, |devices|);
    }
  }

  // ---------------------------------------------------------------- register

  /** The validated body of `/register`; `role` already carries its "Civilian" default. */
  datatype RegisterInput = RegisterInput(communityId: string, email: string, username: string, password: string, role: string)

  /** `{ _id: communityId, status: "active" }` with the string from the body: never an ObjectId. */
  predicate ActiveCommunity(c: Community, communityId: string)
  {
    c.id == StrId(communityId) && c.status == "active"
  }

  predicate RoleOf(r: Role, communityId: string, name: string)
  {
    r.communityId == communityId && r.name == name
  }

  /** The checks of `/register`, in order; on success, the role whose perms the user receives. */
  function RegisterDecision(communities: seq<Community>, roles: seq<Role>, input: RegisterInput): (r: Result<Role, Err>)
    ensures !PasswordPolicy(input.password) ==> r == Failure(HttpError(400, "Password does not meet policy"))
    ensures PasswordPolicy(input.password) && (forall i :: 0 <= i < |communities| ==> !ActiveCommunity(communities[i], input.communityId))
            ==> r == Failure(HttpError(400, "Community not found"))
    ensures PasswordPolicy(input.password) && (exists i :: 0 <= i < |communities| && ActiveCommunity(communities[i], input.communityId))
            && (forall i :: 0 <= i < |roles| ==> !RoleOf(roles[i], input.communityId, input.role))
            ==> r == Failure(HttpError(400, "Role not found"))
    ensures r.Success? ==> exists i :: FirstAt(roles, (x: Role) => RoleOf(x, input.communityId, input.role), i) && roles[i] == r.value
    ensures r.Success? <==> && PasswordPolicy(input.password)
                            && (exists i :: 0 <= i < |communities| && ActiveCommunity(communities[i], input.communityId))
                            && (exists i :: 0 <= i < |roles| && RoleOf(roles[i], input.communityId, input.role))
  {
    if !PasswordPolicy(input.password) then Failure(HttpError(400, "Password does not meet policy"))
    else if First(communities, (c: Community) => ActiveCommunity(c, input.communityId)).None? then
      Failure(HttpError(400, "Community not found"))
    else
      var role := First(roles, (x: Role) => RoleOf(x, input.communityId, input.role));
      if role.None? then Failure(HttpError(400, "Role not found")) else Success(role.value)
  }

  /** The user document `/register` inserts. */
  function NewUser(input: RegisterInput, role: Role, userId: string, passwordHash: string, now: int): (u: User)
    ensures u.id == userId && u.communityId == input.communityId && u.username == input.username
    ensures u.email == Text.ToLower(input.email) && u.role == input.role && u.perms == role.perms
    ensures u.status == "active" && u.passwordHash == passwordHash && u.createdAt == now && u.updatedAt == now
  {
    User(userId, input.communityId, Text.ToLower(input.email), input.username, passwordHash,
         input.role, role.perms, "active", now, now)
  }

  /** The audit event `/register` appends. */
  function RegisterAudit(input: RegisterInput, userId: string): Audit.AuditInput
  {
    Audit.AuditInput(input.communityId, None, None, "create", "user", Some(userId), None,
                     Some(Json.Obj([("email", Json.Str(Text.ToLower(input.email))), ("role", Json.Str(input.role))])),
                     Some(Json.Obj([("by", Json.Str("self"))])))
  }

  /**
   * `POST /register`. `userId` is the new `_id`, `salt` stands for bcrypt's random salt, `nonce`
   * for the audit event's random `_id` suffix. A rejected registration writes nothing but the
   * metric; an accepted one inserts one user and appends one audit event.
   */
  method Register(db: Db, metrics: Log.Metrics, lib: Primitives, input: RegisterInput,
                  userId: string, salt: string, now: int, nonce: string) returns (r: Result<string, Err>)
    modifies db`users, db.auditEvents`events, metrics
    ensures Log.Bumped(metrics, "auth_register")
    ensures match RegisterDecision(db.communities, db.roles, input)
            case Failure(e) =>
              && r == Failure(e)
              && db.users == old(db.users) && db.auditEvents.events == old(db.auditEvents.events)
            case Success(role) =>
              && r == Success(userId)
              && db.users == old(db.users) + [NewUser(input, role, userId, lib.bcryptHash(input.password, salt), now)]
              && AppendedOne(old(db.auditEvents.events), db.auditEvents.events, input.communityId, now, nonce,
                             Audit.NormalizeAudit(RegisterAudit(input, userId)), db.auditEvents.digest)
  {
    metrics.MetricInc(now, "auth_register");
    if !PasswordPolicy(input.password) {
      return Failure(HttpError(400, "Password does not meet policy"));
    }
    var community := First(db.communities, (c: Community) => ActiveCommunity(c, input.communityId));
    if community.None? {
      return Failure(HttpError(400, "Community not found"));
    }
    var role := First(db.roles, (x: Role) => RoleOf(x, input.communityId, input.role));
    if role.None? {
      return Failure(HttpError(400, "Role not found"));
    }
    var hash := lib.bcryptHash(input.password, salt);
    db.users := db.users + [NewUser(input, role.value, userId, hash, now)];
    var _ := Audit.AuditAppend(db.auditEvents, RegisterAudit(input, userId), now, nonce);
    r := Success(userId);
  }

  // ---------------------------------------------------------------- login

  /** The validated body of `/login`; `deviceName` already carries its "Browser" default. */
  datatype LoginInput = LoginInput(communityId: string, email: string, password: string, deviceName: string)

  /** What a login that passes the checks answers: 202 `{ mfaRequired, userId }` or 200 with the tokens. */
  datatype LoginOutcome = MfaRequired(userId: string) | LoggedIn(userId: string, access: string, refreshId: string)

  /** The user lookup of `/login`: `{ communityId, email (lower-cased), status: "active" }`. */
  predicate LoginMatch(u: User, communityId: string, email: string)
  {
    u.communityId == communityId && u.email == email && u.status == "active"
  }

  predicate MfaOf(m: MfaSecret, communityId: string, userId: string)
  {
    m.communityId == communityId && m.userId == userId
  }

  /** The branch `/login` takes, decided by the store as the request finds it. */
  datatype LoginStep = LockedOut | UnknownUser | WrongPassword | NeedsMfa(user: User) | Proceed(user: User)

  const InvalidCredentials: Err := HttpError(401, "Invalid credentials")

  /**
   * The checks of `/login`, in order: lockout, then the user lookup, then the password, then the
   * MFA record of that user in that community.
   */
  function LoginDecision(attempts: seq<AuthAttempt>, users: seq<User>, mfaSecrets: seq<MfaSecret>, lib: Primitives,
                         communityId: string, email: string, password: string, ip: string, now: int): (s: LoginStep)
    ensures s == LockedOut <==> FailedInWindow(attempts, communityId, email, ip, now) >= LockoutThreshold
    ensures s == UnknownUser <==> s != LockedOut && forall i :: 0 <= i < |users| ==> !LoginMatch(users[i], communityId, email)
    ensures (s.NeedsMfa? || s.Proceed?) ==>
              && (exists i :: FirstAt(users, (u: User) => LoginMatch(u, communityId, email), i) && users[i] == s.user)
              && lib.bcryptCompare(password, s.user.passwordHash)
    ensures s == WrongPassword ==>
              exists i :: FirstAt(users, (u: User) => LoginMatch(u, communityId, email), i)
                          && !lib.bcryptCompare(password, users[i].passwordHash)
    ensures s.NeedsMfa? <==>
              (s.NeedsMfa? || s.Proceed?) && (exists i :: FirstAt(mfaSecrets, (m: MfaSecret) => MfaOf(m, communityId, s.user.id), i) && mfaSecrets[i].enabled)
  {
    if LockoutCheck(attempts, communityId, email, ip, now).Some? then LockedOut
    else
      var user := First(users, (u: User) => LoginMatch(u, communityId, email));
      if user.None? then UnknownUser
      else if !lib.bcryptCompare(password, user.value.passwordHash) then WrongPassword
      else
        var mfa := First(mfaSecrets, (m: MfaSecret) => MfaOf(m, communityId, user.value.id));
        if mfa.Some? && mfa.value.enabled then NeedsMfa(user.value) else Proceed(user.value)
  }

  /** A locked-out triple is refused before its credentials are looked at. */
  lemma LockoutBeforeCredentials(attempts: seq<AuthAttempt>, users: seq<User>, mfaSecrets: seq<MfaSecret>, lib: Primitives,
                                 communityId: string, email: string, password: string, ip: string, now: int)
    requires FailedInWindow(attempts, communityId, email, ip, now) >= LockoutThreshold
    ensures forall password', users' :: LoginDecision(attempts, users', mfaSecrets, lib, communityId, email, password', ip, now) == LockedOut
  {
  }

  const SessionLifetimeMs: int := 20 * 60 * 1000

  /** The session a successful login inserts: unrevoked, expiring 20 minutes after `now`. */
  function NewSession(sid: string, communityId: string, user: User, deviceId: string, deviceName: string,
                      ip: string, ua: string, now: int): (s: Session)
    ensures s.id == sid && s.communityId == communityId && s.userId == user.id && s.deviceId == deviceId
    ensures s.revokedAt.None? && s.createdAt == now && s.expiresAt == now + SessionLifetimeMs
  {
    Session(sid, communityId, user.id, deviceId, deviceName, ip, ua, now, now + SessionLifetimeMs, None)
  }

  /** The refresh-token record: the token's hash, never the token, expiring 30 days after `now`. */
  function NewRefreshToken(refreshId: string, communityId: string, user: User, refresh: string, lib: Primitives, now: int): (t: RefreshToken)
    ensures t.id == refreshId && t.userId == user.id && t.tokenHash == lib.sha256Hex(refresh)
    ensures t.revokedAt.None? && t.expiresAt == now + RefreshLifetimeMs
  {
    RefreshToken(refreshId, communityId, user.id, lib.sha256Hex(refresh), now, now + RefreshLifetimeMs, None)
  }

  function AccessClaims(user: User, sid: string, communityId: string): Claims
  {
    Claims(Some(user.id), Some(sid), Some(communityId), None)
  }

  function RefreshClaims(user: User, refreshId: string, communityId: string): Claims
  {
    Claims(Some(user.id), None, Some(communityId), Some(refreshId))
  }

  /**
   * `POST /login`. `ip` is `ClientIp(...)` of the request, `ua` its user agent or "", `attemptId`,
   * `sid` and `refreshId` the fresh ids it draws.
   */
  method Login(db: Db, metrics: Log.Metrics, lib: Primitives, cfg: Config, input: LoginInput,
               ip: string, ua: string, attemptId: string, sid: string, refreshId: string, now: int)
    returns (r: Result<LoginOutcome, Err>)
    modifies db`authAttempts, db`sessions, db`devices, db`refreshTokens, metrics
    ensures Log.Bumped(metrics, "auth_login")
    ensures var email := Text.ToLower(input.email);
            match LoginDecision(old(db.authAttempts), db.users, db.mfaSecrets, lib, input.communityId, email, input.password, ip, now)
            case LockedOut =>
              && r == Failure(HttpError(429, "Too many attempts"))
              && db.authAttempts == old(db.authAttempts) && db.sessions == old(db.sessions)
              && db.devices == old(db.devices) && db.refreshTokens == old(db.refreshTokens)
            case UnknownUser =>
              && r == Failure(InvalidCredentials)
              && db.authAttempts == old(db.authAttempts) + [AuthAttempt(attemptId, input.communityId, email, ip, false, now)]
              && db.sessions == old(db.sessions) && db.devices == old(db.devices) && db.refreshTokens == old(db.refreshTokens)
            case WrongPassword =>
              && r == Failure(InvalidCredentials)
              && db.authAttempts == old(db.authAttempts) + [AuthAttempt(attemptId, input.communityId, email, ip, false, now)]
              && db.sessions == old(db.sessions) && db.devices == old(db.devices) && db.refreshTokens == old(db.refreshTokens)
            case NeedsMfa(user) =>
              && r == Success(MfaRequired(user.id))
              && db.authAttempts == old(db.authAttempts) && db.sessions == old(db.sessions)
              && db.devices == old(db.devices) && db.refreshTokens == old(db.refreshTokens)
            case Proceed(user) =>
              var deviceId := DeviceId(lib, input.deviceName, ip, ua);
              && db.authAttempts == old(db.authAttempts) + [AuthAttempt(attemptId, input.communityId, email, ip, true, now)]
              && db.sessions == old(db.sessions) + [NewSession(sid, input.communityId, user, deviceId, input.deviceName, ip, ua, now)]
              && db.devices == UpsertDevice(old(db.devices), Device(input.communityId, user.id, deviceId, input.deviceName, now))
              && match (SignAccess(AccessClaims(user, sid, input.communityId), lib, cfg, now),
                        SignRefresh(RefreshClaims(user, refreshId, input.communityId), lib, cfg, now))
                 case (Failure(e), _) => r == Failure(e) && db.refreshTokens == old(db.refreshTokens)
                 case (Success(_), Failure(e)) => r == Failure(e) && db.refreshTokens == old(db.refreshTokens)
                 case (Success(access), Success(refresh)) =>
                   && r == Success(LoggedIn(user.id, access, refreshId))
                   && db.refreshTokens == old(db.refreshTokens) + [NewRefreshToken(refreshId, input.communityId, user, refresh, lib, now)]
  {
    metrics.MetricInc(now, "auth_login");
    var email := Text.ToLower(input.email);
    var step := CheckCredentials(db, lib, input.communityId, email, input.password, ip, attemptId, now);
    match step
    case LockedOut =>
      r := Failure(HttpError(429, "Too many attempts"));
    case UnknownUser =>
      r := Failure(InvalidCredentials);
    case WrongPassword =>
      r := Failure(InvalidCredentials);
    case NeedsMfa(u) =>
      r := Success(MfaRequired(u.id));
    case Proceed(u) =>
      r := StartSession(db, lib, cfg, input, u, ip, ua, sid, refreshId, now);
  }

  /**
   * The checks of `/login` up to the recorded attempt: a failure of the lookup or the password
   * records a failed attempt, a user without MFA a successful one; lockout and MFA record nothing.
   */
  method CheckCredentials(db: Db, lib: Primitives, communityId: string, email: string, password: string,
                          ip: string, attemptId: string, now: int) returns (step: LoginStep)
    modifies db`authAttempts
    ensures step == LoginDecision(old(db.authAttempts), db.users, db.mfaSecrets, lib, communityId, email, password, ip, now)
    ensures step.LockedOut? || step.NeedsMfa? ==> db.authAttempts == old(db.authAttempts)
    ensures step.UnknownUser? || step.WrongPassword? ==>
              db.authAttempts == old(db.authAttempts) + [AuthAttempt(attemptId, communityId, email, ip, false, now)]
    ensures step.Proceed? ==>
              db.authAttempts == old(db.authAttempts) + [AuthAttempt(attemptId, communityId, email, ip, true, now)]
  {
    step := LoginDecision(db.authAttempts, db.users, db.mfaSecrets, lib, communityId, email, password, ip, now);
    var locked := LockoutCheck(db.authAttempts, communityId, email, ip, now);
    if locked.Some? {
      return;
    }
    var user := First(db.users, (u: User) => LoginMatch(u, communityId, email));
    if user.None? || !lib.bcryptCompare(password, user.value.passwordHash) {
      RecordAuthAttempt(db, attemptId, communityId, email, ip, false, now);
      return;
    }
    var mfa := First(db.mfaSecrets, (m: MfaSecret) => MfaOf(m, communityId, user.value.id));
    if mfa.Some? && mfa.value.enabled {
      return;
    }
    RecordAuthAttempt(db, attemptId, communityId, email, ip, true, now);
  }

  /**
   * The tail of a successful `/login`: insert the session, upsert the device, sign both tokens and
   * store the refresh token's hash. A signing failure stops the sequence where it occurs.
   */
  method StartSession(db: Db, lib: Primitives, cfg: Config, input: LoginInput, user: User,
                      ip: string, ua: string, sid: string, refreshId: string, now: int)
    returns (r: Result<LoginOutcome, Err>)
    modifies db`sessions, db`devices, db`refreshTokens
    ensures var deviceId := DeviceId(lib, input.deviceName, ip, ua);
            && db.sessions == old(db.sessions) + [NewSession(sid, input.communityId, user, deviceId, input.deviceName, ip, ua, now)]
            && db.devices == UpsertDevice(old(db.devices), Device(input.communityId, user.id, deviceId, input.deviceName, now))
    ensures match (SignAccess(AccessClaims(user, sid, input.communityId), lib, cfg, now),
                   SignRefresh(RefreshClaims(user, refreshId, input.communityId), lib, cfg, now))
            case (Failure(e), _) => r == Failure(e) && db.refreshTokens == old(db.refreshTokens)
            case (Success(_), Failure(e)) => r == Failure(e) && db.refreshTokens == old(db.refreshTokens)
            case (Success(access), Success(refresh)) =>
              && r == Success(LoggedIn(user.id, access, refreshId))
              && db.refreshTokens == old(db.refreshTokens) + [NewRefreshToken(refreshId, input.communityId, user, refresh, lib, now)]
  {
    var deviceId := DeviceId(lib, input.deviceName, ip, ua);
    db.sessions := db.sessions + [NewSession(sid, input.communityId, user, deviceId, input.deviceName, ip, ua, now)];
    db.devices := UpsertDevice(db.devices, Device(input.communityId, user.id, deviceId, input.deviceName, now));
    var access := SignAccess(AccessClaims(user, sid, input.communityId), lib, cfg, now);
    if access.Failure? {
      return Failure(access.error);
    }
    var refresh := SignRefresh(RefreshClaims(user, refreshId, input.communityId), lib, cfg, now);
    if refresh.Failure? {
      return Failure(refresh.error);
    }
    db.refreshTokens := db.refreshTokens + [NewRefreshToken(refreshId, input.communityId, user, refresh.value, lib, now)];
    r := Success(LoggedIn(user.id, access.value, refreshId));
  }

  /**
   * The session a successful login creates authenticates the access token it issues, provided the
   * token verifies to the claims it was signed with and the user is still the active match.
   */
  lemma LoginSessionAuthenticates(sessions: seq<Session>, users: seq<User>, user: User, sid: string,
                                  communityId: string, deviceId: string, deviceName: string, ip: string, ua: string,
                                  token: string, lib: Primitives, cfg: Config, now: int, later: int)
    requires user in users && user.communityId == communityId && user.status == "active"
    requires Verified(token, lib, cfg, later) == Some(AccessClaims(user, sid, communityId))
    ensures Authenticate(sessions + [NewSession(sid, communityId, user, deviceId, deviceName, ip, ua, now)],
                         users, Some(token), lib, cfg, later).Success?
  {
    var s' := sessions + [NewSession(sid, communityId, user, deviceId, deviceName, ip, ua, now)];
    assert LiveSession(s'[|sessions|], AccessClaims(user, sid, communityId));
    var j :| 0 <= j < |users| && users[j] == user;
    assert ActiveMember(users[j], AccessClaims(user, sid, communityId));
  }

  // ---------------------------------------------------------------- MFA verify

  /**
   * `POST /mfa/verify`: the first MFA record of `userId` in any community must be enabled and
   * accept the code; the access token then carries `sub` alone.
   */
  function MfaVerify(mfaSecrets: seq<MfaSecret>, userId: string, code: string, lib: Primitives, cfg: Config, now: int)
    : (r: Result<string, Err>)
    ensures (forall i :: 0 <= i < |mfaSecrets| ==> mfaSecrets[i].userId != userId) ==> r == Failure(HttpError(400, "MFA not configured"))
    ensures (exists i :: FirstAt(mfaSecrets, (m: MfaSecret) => m.userId == userId, i) && !mfaSecrets[i].enabled)
            ==> r == Failure(HttpError(400, "MFA not configured"))
    ensures (exists i :: FirstAt(mfaSecrets, (m: MfaSecret) => m.userId == userId, i) && mfaSecrets[i].enabled
                         && !lib.totpValidate(mfaSecrets[i].secret, code, now))
            ==> r == Failure(HttpError(401, "Invalid code"))
    ensures (exists i :: FirstAt(mfaSecrets, (m: MfaSecret) => m.userId == userId, i) && mfaSecrets[i].enabled
                         && lib.totpValidate(mfaSecrets[i].secret, code, now))
            ==> r == SignAccess(Claims(Some(userId), None, None, None), lib, cfg, now)
    ensures r.Success? ==>
              && (exists i :: FirstAt(mfaSecrets, (m: MfaSecret) => m.userId == userId, i) && mfaSecrets[i].enabled
                              && lib.totpValidate(mfaSecrets[i].secret, code, now))
              && r == SignAccess(Claims(Some(userId), None, None, None), lib, cfg, now)
  {
    var mfa := First(mfaSecrets, (m: MfaSecret) => m.userId == userId);
    if mfa.None? || !mfa.value.enabled then Failure(HttpError(400, "MFA not configured"))
    else if !lib.totpValidate(mfa.value.secret, code, now) then Failure(HttpError(401, "Invalid code"))
    else SignAccess(Claims(Some(userId), None, None, None), lib, cfg, now)
  }

  /**
   * The token `/mfa/verify` issues names no session, so `authRequired` refuses it whenever it
   * verifies to the claims it was signed with.
   */
  lemma MfaTokenNeverAuthenticates(mfaSecrets: seq<MfaSecret>, userId: string, code: string, sessions: seq<Session>,
                                   users: seq<User>, lib: Primitives, cfg: Config, now: int, later: int)
    requires MfaVerify(mfaSecrets, userId, code, lib, cfg, now).Success?
    requires var t := MfaVerify(mfaSecrets, userId, code, lib, cfg, now).value;
             Verified(t, lib, cfg, later) == Some(Claims(Some(userId), None, None, None))
    ensures Authenticate(sessions, users, Some(MfaVerify(mfaSecrets, userId, code, lib, cfg, now).value), lib, cfg, later)
            == Failure(Unauthorized)
  {
    NoSidRejected(sessions, users, MfaVerify(mfaSecrets, userId, code, lib, cfg, now).value, lib, cfg, later);
  }

  // ---------------------------------------------------------------- logout and me

  /**
   * `POST /logout`: behind `authRequired`; clears the session and refresh cookies (their names are
   * returned). No session or refresh token is revoked.
   */
  method Logout(db: Db, req: Request, metrics: Log.Metrics, lib: Primitives, cfg: Config, now: int)
    returns (r: Result<seq<string>, Err>)
    modifies req`user, metrics
    ensures match Authenticate(db.sessions, db.users, Token(req.cookies, cfg), lib, cfg, now)
            case Failure(e) => r == Failure(e) && unchanged(metrics)
            case Success(_) =>
              && r == Success([CookieName(cfg), CookieName(cfg) + "_refresh"])
              && Log.Bumped(metrics, "auth_logout")
  {
    var err := AuthRequired(db, req, lib, cfg, now);
    if err.Some? {
      return Failure(err.value);
    }
    metrics.MetricInc(now, "auth_logout");
    r := Success([CookieName(cfg), CookieName(cfg) + "_refresh"]);
  }

  /** The `user` object `/me` answers; a field is None where the lookup found nothing. */
  datatype Profile = Profile(id: Option<string>, email: Option<string>, username: Option<string>, role: Option<string>)

  function ProfileOf(u: Option<User>): (p: Profile)
    ensures u.Some? ==> p == Profile(Some(u.value.id), Some(u.value.email), Some(u.value.username), Some(u.value.role))
    ensures u.None? ==> p == Profile(None, None, None, None)
  {
    match u
    case None => Profile(None, None, None, None)
    case Some(x) => Profile(Some(x.id), Some(x.email), Some(x.username), Some(x.role))
  }

  /** `GET /me`: behind `authRequired`; looks the user up by id alone. */
  method Me(db: Db, req: Request, lib: Primitives, cfg: Config, now: int) returns (r: Result<Profile, Err>)
    modifies req`user
    ensures match Authenticate(db.sessions, db.users, Token(req.cookies, cfg), lib, cfg, now)
            case Failure(e) => r == Failure(e)
            case Success(u) => r.Success? && r.value.id == Some(u.userId)
                               && exists i :: FirstAt(db.users, (x: User) => x.id == u.userId, i)
                                              && r.value == ProfileOf(Some(db.users[i]))
  {
    var err := AuthRequired(db, req, lib, cfg, now);
    if err.Some? {
      return Failure(err.value);
    }
    var id := req.user.value.userId;
    var u := First(db.users, (x: User) => x.id == id);
    assert u.Some? by {
      var c := Verified(Token(req.cookies, cfg).value, lib, cfg, now).value;
      var j :| FirstAt(db.users, (x: User) => ActiveMember(x, c), j) && req.user.value == ToSessionUser(db.users[j]);
      assert db.users[j].id == id;
    }
    r := Success(ProfileOf(u));
  }
}
