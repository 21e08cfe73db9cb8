/**
 * AuthMiddleware (src/infrastructure/middleware/auth.middleware.ts): the
 * Bearer-header extraction and the decision the middleware takes for one
 * request. It either calls next(), with the verified payload attached or
 * with no user, or it answers with a status and a message. The middleware
 * reads process.env.JWT_SECRET itself; the header's text is turned into a
 * token by `parse`, the compact-serialization decoder.
 */
module AuthMiddleware {
  import opened Wrappers
  import opened Text
  import opened Jwt
  import opened Responses
  import opened Users
  import AuthUtil
  import EnvValidation
  import AuthenticateUser

  const BearerPrefix: string := "Bearer "
  const TokenRequired: string := "Access token is required"
  const InvalidToken: string := "Invalid or expired token"
  const InsufficientPermissions: string := "Insufficient permissions"

  /** AuthenticationOptions after defaulting: required, and the roles allowed (none means any). */
  datatype Options = Options(required: bool, roles: seq<string>)

  datatype Decision = Next(user: Option<Payload>) | Respond(status: nat, message: string)

  /** `const { required = true, roles = [] } = options`. */
  function Configure(required: Option<bool>, roles: Option<seq<string>>): (o: Options)
    ensures o.required == required.GetOr(true) && o.roles == roles.GetOr([])
  {
    Options(required.GetOr(true), roles.GetOr([]))
  }

  function RequireAuth(): (o: Options)
    ensures o.required && o.roles == []
  {
    Configure(Some(true), None)
  }

  function RequireRoles(roles: seq<string>): (o: Options)
    ensures o.required && o.roles == roles
  {
    Configure(Some(true), Some(roles))
  }

  function OptionalAuth(): (o: Options)
    ensures !o.required && o.roles == []
  {
    Configure(Some(false), None)
  }

  /** extractToken: the text after "Bearer ", case-sensitively, or null. */
  function ExtractToken(header: Option<string>): (t: Option<string>)
    ensures t.Some? <==> header.Some? && StartsWith(header.value, BearerPrefix)
    ensures t.Some? ==> header.value == BearerPrefix + t.value
  {
    if header.Some? && StartsWith(header.value, BearerPrefix) then
      Some(header.value[|BearerPrefix|..])
    else None
  }

  /** Whatever follows "Bearer " comes back out. */
  lemma ExtractRoundTrip(token: string)
    ensures ExtractToken(Some(BearerPrefix + token)) == Some(token)
  {
    assert (BearerPrefix + token)[..|BearerPrefix|] == BearerPrefix;
    assert (BearerPrefix + token)[|BearerPrefix|..] == token;
  }

  /** The scheme is matched case-sensitively: "bearer" is no Bearer header. */
  lemma SchemeIsCaseSensitive(token: string)
    ensures ExtractToken(Some("bearer " + token)).None?
  {
    assert ("bearer " + token)[0] == 'b';
  }

  /** The role claim, when the payload has one. */
  function RoleOf(p: Payload): (role: Option<string>)
    ensures role.Some? <==> "role" in p.claims
    ensures role.Some? ==> role.value == p.claims["role"]
  {
    if "role" in p.claims then Some(p.claims["role"]) else None
  }

  /** `roles.length > 0 && !roles.includes(payload.role)`: a missing role is in no list. */
  predicate RoleRefused(roles: seq<string>, p: Payload) {
    |roles| > 0 && (RoleOf(p).None? || RoleOf(p).value !in roles)
  }

  /** The middleware that authenticate(options) returns, for one request. */
  function Authenticate(opts: Options, header: Option<string>, jwtSecret: Option<string>,
                        parse: string -> Token, now: int): (d: Decision)
    ensures (ExtractToken(header).None? || ExtractToken(header).value == "") ==>
      d == if opts.required then Respond(Unauthorized, TokenRequired) else Next(None)
    ensures ExtractToken(header).Some? && ExtractToken(header).value != "" ==>
      d != Respond(Unauthorized, TokenRequired) && d != Next(None)
    ensures d.Next? && d.user.Some? <==>
      && ExtractToken(header).Some? && ExtractToken(header).value != ""
      && jwtSecret.Some? && Verify(parse(ExtractToken(header).value), jwtSecret.value, now).Some?
      && !RoleRefused(opts.roles, Verify(parse(ExtractToken(header).value), jwtSecret.value, now).value)
    ensures d.Next? && d.user.Some? ==> d.user == Verify(parse(ExtractToken(header).value), jwtSecret.value, now)
    ensures d.Respond? ==> d.status in {Unauthorized, Forbidden} && d.message in {TokenRequired, InvalidToken, InsufficientPermissions}
    ensures d.Respond? && d.status == Forbidden <==>
      && ExtractToken(header).Some? && ExtractToken(header).value != ""
      && jwtSecret.Some? && Verify(parse(ExtractToken(header).value), jwtSecret.value, now).Some?
      && RoleRefused(opts.roles, Verify(parse(ExtractToken(header).value), jwtSecret.value, now).value)
  {
    var token := ExtractToken(header);
    if token.None? || token.value == "" then
      if opts.required then Respond(Unauthorized, TokenRequired) else Next(None)
    else if jwtSecret.None? || jwtSecret.value == "" then Respond(Unauthorized, InvalidToken)
    else match Verify(parse(token.value), jwtSecret.value, now)
      case None => Respond(Unauthorized, InvalidToken)
      case Some(p) =>
        if RoleRefused(opts.roles, p) then Respond(Forbidden, InsufficientPermissions)
        else Next(Some(p))
  }

  /** The header "Bearer " alone carries an empty token, which counts as none. */
  lemma EmptyBearerIsNoToken(opts: Options, jwtSecret: Option<string>, parse: string -> Token, now: int)
    ensures Authenticate(opts, Some(BearerPrefix), jwtSecret, parse, now)
      == if opts.required then Respond(Unauthorized, TokenRequired) else Next(None)
  {
    assert BearerPrefix == BearerPrefix + "";
    ExtractRoundTrip("");
  }

  /** An unset or empty JWT_SECRET rejects every token that was presented. */
  lemma UnsetSecretRejects(opts: Options, token: string, jwtSecret: Option<string>, parse: string -> Token, now: int)
    requires token != "" && (jwtSecret.None? || jwtSecret.value == "")
    ensures Authenticate(opts, Some(BearerPrefix + token), jwtSecret, parse, now) == Respond(Unauthorized, InvalidToken)
  {
    ExtractRoundTrip(token);
  }

  /** requireAuth never answers 403, and optionalAuth lets every token-less request through. */
  lemma PresetGates(header: Option<string>, jwtSecret: Option<string>, parse: string -> Token, now: int)
    ensures Authenticate(RequireAuth(), header, jwtSecret, parse, now) != Respond(Forbidden, InsufficientPermissions)
    ensures ExtractToken(header).None? ==> Authenticate(OptionalAuth(), header, jwtSecret, parse, now) == Next(None)
    ensures ExtractToken(header).None? ==>
      Authenticate(RequireAuth(), header, jwtSecret, parse, now) == Respond(Unauthorized, TokenRequired)
  {
  }

  /** For a verified token, requireRoles(rs) passes exactly when the payload's role is one of rs. */
  lemma RoleGate(roles: seq<string>, token: string, jwtSecret: string, parse: string -> Token, now: int)
    requires token != "" && |roles| > 0
    requires Verify(parse(token), jwtSecret, now).Some?
    ensures Authenticate(RequireRoles(roles), Some(BearerPrefix + token), Some(jwtSecret), parse, now).Next?
      <==> "role" in parse(token).payload.claims && parse(token).payload.claims["role"] in roles
  {
    ExtractRoundTrip(token);
  }

  /**
   * The refresh token of a login, as written, is signed with JWT_SECRET, so
   * requireAuth accepts it as an access token for its whole 7 days; it
   * carries no role, so requireRoles turns it away with 403.
   */
  lemma {:induction false} LoginRefreshTokenPassesRequireAuth(users: UserStore, bcrypt: AuthUtil.Bcrypt,
      config: EnvValidation.JwtConfig, email: string, password: string, draws: seq<AuthUtil.Draw>,
      text: string, parse: string -> Token, roles: seq<string>, now: int, later: int)
    requires |draws| == RefreshNonceLength && |roles| > 0
    requires AuthenticateUser.Login(Some(users), bcrypt, Some(config), email, password, draws, now).Authenticated?
    requires text != ""
    requires parse(text) == AuthenticateUser.Login(Some(users), bcrypt, Some(config), email, password, draws, now).tokens.refreshToken
    requires later + 1000 <= now + RefreshTokenExpiry * 1000
    ensures Authenticate(RequireAuth(), Some(BearerPrefix + text), Some(config.secret), parse, later).Next?
    ensures Authenticate(RequireRoles(roles), Some(BearerPrefix + text), Some(config.secret), parse, later)
      == Respond(Forbidden, InsufficientPermissions)
  {
    var u := FindByEmail(users, email).value;
    ExtractRoundTrip(text);
    LifetimeBounds(RefreshClaims(u.id, draws), config.secret, RefreshTokenExpiry, now, later);
    assert Verify(parse(text), config.secret, later).Some?;
    assert "role" !in parse(text).payload.claims;
  }

  /** Corrected, a refresh token under a distinct refresh secret is refused as an access token. */
  lemma LoginFixedRefreshTokenRefused(users: UserStore, bcrypt: AuthUtil.Bcrypt,
      config: EnvValidation.JwtConfig, email: string, password: string, draws: seq<AuthUtil.Draw>,
      text: string, parse: string -> Token, opts: Options, now: int, later: int)
    requires |draws| == RefreshNonceLength && config.secret != config.refreshSecret
    requires AuthenticateUser.LoginFixed(Some(users), bcrypt, Some(config), email, password, draws, now).Authenticated?
    requires text != ""
    requires parse(text) == AuthenticateUser.LoginFixed(Some(users), bcrypt, Some(config), email, password, draws, now).tokens.refreshToken
    ensures Authenticate(opts, Some(BearerPrefix + text), Some(config.secret), parse, later) == Respond(Unauthorized, InvalidToken)
  {
    ExtractRoundTrip(text);
  }
}
