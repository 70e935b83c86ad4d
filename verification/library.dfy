/**
 * The library calls and configuration the core depends on but does not implement.
 * SHA-256, bcrypt, JSON Web Tokens, TOTP and URI decoding are uninterpreted: the model
 * passes them around as function values and assumes nothing about them.
 */
module Library {
  import opened Wrappers

  /** JWT claims; an absent claim is None. */
  datatype Claims = Claims(sub: Option<string>, sid: Option<string>, communityId: Option<string>, jti: Option<string>)

  /** Access tokens live 20 minutes ("20m"), refresh tokens 30 days ("30d"). */
  const AccessLifetimeMs: int := 20 * 60 * 1000
  const RefreshLifetimeMs: int := 30 * 24 * 3600 * 1000

  datatype Primitives = Primitives(
    /** `sha256Hex(s)` */
    sha256Hex: string -> string,
    /** `bcrypt.hash(password, 12)` with the salt it draws */
    bcryptHash: (string, string) -> string,
    /** `bcrypt.compare(password, hash)` */
    bcryptCompare: (string, string) -> bool,
    /** `jwt.sign(claims, secret, { expiresIn })` at time `now`: (claims, secret, lifetime, now) */
    jwtSign: (Claims, string, int, int) -> string,
    /** `jwt.verify(token, secret)` at time `now`; None when it throws */
    jwtVerify: (string, string, int) -> Option<Claims>,
    /** `new TOTP({ secret }).validate({ token: code, window: 1 })` at time `now` */
    totpValidate: (string, string, int) -> bool,
    /** `decodeURIComponent(s)`; None when it throws */
    decodeUriComponent: string -> Option<string>)

  /** The environment variables the core reads; None for unset. */
  datatype Config = Config(cookieName: Option<string>, accessSecret: Option<string>, refreshSecret: Option<string>)

  /** `process.env.X || fallback` */
  function EnvOr(v: Option<string>, fallback: string): (r: string)
    ensures v.Some? && v.value != "" ==> r == v.value
    ensures v.None? || v.value == "" ==> r == fallback
  {
    if v.Some? && v.value != "" then v.value else fallback
  }

  /** `process.env.COOKIE_NAME || "opslinkcad_session"` */
  function CookieName(cfg: Config): string
  {
    EnvOr(cfg.cookieName, "opslinkcad_session")
  }
}
