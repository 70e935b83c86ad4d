/**
 * The request authorisation gate (src/middleware/auth.ts): `authRequired` resolves the session
 * cookie to a user through the token, the sessions and the users collections; `requirePerm` is
 * the flat capability test; `communityScope` picks the community a request acts on.
 */
module AuthMiddleware {
  import opened Wrappers
  import opened Errors
  import opened Library
  import opened Store

  /** `req.user` after a successful `authRequired`. */
  datatype SessionUser = SessionUser(userId: string, communityId: string, role: string, perms: seq<string>)

  /** The capability test: the wildcard or the literal key. */
  predicate HasPerm(perms: seq<string>, key: string)
  {
    "*" in perms || key in perms
  }

  /** The session-cookie value, if the request carries a non-empty one. */
  function Token(cookies: map<string, string>, cfg: Config): (t: Option<string>)
    ensures t.Some? <==> CookieName(cfg) in cookies && cookies[CookieName(cfg)] != ""
    ensures t.Some? ==> t.value == cookies[CookieName(cfg)]
  {
    var name := CookieName(cfg);
    if name in cookies && cookies[name] != "" then Some(cookies[name]) else None
  }

  /** The claims of a token that verifies under `JWT_ACCESS_SECRET || ""`. */
  function Verified(token: string, lib: Primitives, cfg: Config, now: int): Option<Claims>
  {
    lib.jwtVerify(token, EnvOr(cfg.accessSecret, ""), now)
  }

  /**
   * `{ _id: claims.sid, revokedAt: null }`. An absent `sid` matches no session. Expiry is not part
   * of the filter.
   */
  predicate LiveSession(s: Session, c: Claims)
  {
    c.sid == Some(s.id) && s.revokedAt.None?
  }

  /** `{ _id: claims.sub, communityId: claims.communityId, status: "active" }` */
  predicate ActiveMember(u: User, c: Claims)
  {
    c.sub == Some(u.id) && c.communityId == Some(u.communityId) && u.status == "active"
  }

  /** The user record as the request sees it: a perms field that is not an array becomes []. */
  function ToSessionUser(u: User): (r: SessionUser)
    ensures r.userId == u.id && r.communityId == u.communityId && r.role == u.role
    ensures u.perms.Some? ==> r.perms == u.perms.value
    ensures u.perms.None? ==> r.perms == []
  {
    SessionUser(u.id, u.communityId, u.role, u.perms.GetOr([]))
  }

  /**
   * The decision of `authRequired` on a request carrying `token`. Every failure is the same 401;
   * success needs a verified token, an unrevoked session named by its `sid` and an active user of
   * the token's community named by its `sub`.
   */
  function Authenticate(sessions: seq<Session>, users: seq<User>, token: Option<string>,
                        lib: Primitives, cfg: Config, now: int): (r: Result<SessionUser, Err>)
    ensures r.Failure? ==> r.error == Unauthorized
    ensures r.Success? <==>
              && token.Some?
              && Verified(token.value, lib, cfg, now).Some?
              && (exists i :: 0 <= i < |sessions| && LiveSession(sessions[i], Verified(token.value, lib, cfg, now).value))
              && (exists j :: 0 <= j < |users| && ActiveMember(users[j], Verified(token.value, lib, cfg, now).value))
    ensures r.Success? ==>
              exists j :: FirstAt(users, (u: User) => ActiveMember(u, Verified(token.value, lib, cfg, now).value), j)
                          && r.value == ToSessionUser(users[j])
  {
    if token.None? then Failure(Unauthorized)
    else
      var claims := Verified(token.value, lib, cfg, now);
      if claims.None? then Failure(Unauthorized)
      else
        var c := claims.value;
        var s := First(sessions, (s: Session) => LiveSession(s, c));
        if s.None? then Failure(Unauthorized)
        else
          var u := First(users, (u: User) => ActiveMember(u, c));
          if u.None? then Failure(Unauthorized)
          else Success(ToSessionUser(u.value))
  }

  /** A session past its `expiresAt` still authenticates while it is unrevoked. */
  lemma ExpiredSessionAccepted(sessions: seq<Session>, users: seq<User>, token: string,
                               lib: Primitives, cfg: Config, now: int, k: int)
    requires Verified(token, lib, cfg, now).Some?
    requires 0 <= k < |sessions| && LiveSession(sessions[k], Verified(token, lib, cfg, now).value)
    requires sessions[k].expiresAt < now
    requires exists j :: 0 <= j < |users| && ActiveMember(users[j], Verified(token, lib, cfg, now).value)
    ensures Authenticate(sessions, users, Some(token), lib, cfg, now).Success?
  {
  }

  /** A token without a `sid` claim (such as the one `/mfa/verify` issues) never authenticates. */
  lemma NoSidRejected(sessions: seq<Session>, users: seq<User>, token: string,
                      lib: Primitives, cfg: Config, now: int)
    requires Verified(token, lib, cfg, now).Some? && Verified(token, lib, cfg, now).value.sid.None?
    ensures Authenticate(sessions, users, Some(token), lib, cfg, now) == Failure(Unauthorized)
  {
  }

  /** Revoking every session a token could name shuts that token out. */
  lemma RevokedRejected(sessions: seq<Session>, users: seq<User>, token: string,
                        lib: Primitives, cfg: Config, now: int)
    requires forall i :: 0 <= i < |sessions| && Some(sessions[i].id) == Verified(token, lib, cfg, now).GetOr(Claims(None, None, None, None)).sid
                         ==> sessions[i].revokedAt.Some?
    ensures Authenticate(sessions, users, Some(token), lib, cfg, now) == Failure(Unauthorized)
  {
  }

  /** An incoming request: its parsed cookies and the `user` slot the gate fills in. */
  class Request {
    const cookies: map<string, string>
    var user: Option<SessionUser>

    constructor (cookies: map<string, string>)
      ensures this.cookies == cookies && user.None?
    {
      this.cookies := cookies;
      user := None;
    }
  }

  /**
   * `authRequired`: read the cookie, verify the token, look up the session, then the user; on
   * success set `req.user`, otherwise pass the 401 on and leave the request as it was.
   */
  method AuthRequired(db: Db, req: Request, lib: Primitives, cfg: Config, now: int) returns (err: Option<Err>)
    modifies req`user
    ensures match Authenticate(db.sessions, db.users, Token(req.cookies, cfg), lib, cfg, now)
            case Success(u) => err.None? && req.user == Some(u)
            case Failure(e) => err == Some(e) && req.user == old(req.user)
  {
    var token := Token(req.cookies, cfg);
    if token.None? {
      return Some(Unauthorized);
    }
    var claims := Verified(token.value, lib, cfg, now);
    if claims.None? {
      return Some(Unauthorized);
    }
    var c := claims.value;
    var s := First(db.sessions, (s: Session) => LiveSession(s, c));
    if s.None? {
      return Some(Unauthorized);
    }
    var u := First(db.users, (u: User) => ActiveMember(u, c));
    if u.None? {
      return Some(Unauthorized);
    }
    req.user := Some(ToSessionUser(u.value));
    err := None;
  }

  /** `requirePerm(entity, action)`: None lets the request through. */
  function RequirePerm(user: Option<SessionUser>, entity: string, action: string): (r: Option<Err>)
    ensures r.None? <==> user.Some? && HasPerm(user.value.perms, entity + ":" + action)
    ensures user.None? ==> r == Some(Unauthorized)
    ensures user.Some? && r.Some? ==> r == Some(Forbidden)
  {
    if user.None? then Some(Unauthorized)
    else if HasPerm(user.value.perms, entity + ":" + action) then None
    else Some(Forbidden)
  }

  /** The wildcard grants every capability; a user without it needs the exact key. */
  lemma WildcardGrantsAll(user: SessionUser, entity: string, action: string)
    ensures "*" in user.perms ==> RequirePerm(Some(user), entity, action).None?
    ensures "*" !in user.perms && entity + ":" + action !in user.perms
            ==> RequirePerm(Some(user), entity, action) == Some(Forbidden)
  {
  }

  /** `communityScope`: the `x-community-id` header, else the user's community, else 400. */
  function CommunityScope(header: Option<string>, user: Option<SessionUser>): (r: Result<string, Err>)
    ensures r.Success? ==> r.value != ""
    ensures header.Some? && header.value != "" ==> r == Success(header.value)
    ensures (header.None? || header.value == "") && user.Some? && user.value.communityId != ""
            ==> r == Success(user.value.communityId)
    ensures r.Failure? <==> (header.None? || header.value == "") && (user.None? || user.value.communityId == "")
    ensures r.Failure? ==> r.error == HttpError(400, "Community required")
  {
    if header.Some? && header.value != "" then Success(header.value)
    else if user.Some? && user.value.communityId != "" then Success(user.value.communityId)
    else Failure(HttpError(400, "Community required"))
  }
}
