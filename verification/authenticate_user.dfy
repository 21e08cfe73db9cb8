/**
 * AuthenticateUser (src/usecases/user/authenticateUser/authenticateUser.ts):
 * login, token refresh and logout. The things that can throw inside the
 * use case's try block are inputs:
 *   - the users table is None when the repository query throws;
 *   - the JWT configuration is None when EnvValidation.validate() throws;
 *   - jwt.sign throws on an empty secret.
 * bcrypt.compare is the oracle of AuthUtil, the 64 Math.random() draws of
 * the refresh nonce are a parameter and `now` is the clock in milliseconds.
 */
module AuthenticateUser {
  import opened Wrappers
  import opened Users
  import opened Jwt
  import AuthUtil
  import EnvValidation

  const InvalidCredentials: string := "Invalid credentials"
  const AuthenticationFailed: string := "Authentication failed"
  const InvalidRefreshToken: string := "Invalid refresh token"
  const UserNotFound: string := "User not found"

  /** The `user` field of a successful response. */
  datatype UserView = UserView(id: string, email: string, role: string)

  /** AuthenticateUserResponse: success with the user and the tokens, or failure with an error. */
  datatype Response = Authenticated(user: UserView, tokens: TokenPair) | Denied(error: string)

  /** `user.role || 'user'`: an absent or empty role reads as 'user'. */
  function RoleOrDefault(role: Option<string>): (r: string)
    ensures r != ""
    ensures role.Some? && role.value != "" ==> r == role.value
    ensures role.None? || role.value == "" ==> r == "user"
  {
    if role.Some? && role.value != "" then role.value else "user"
  }

  function ViewOf(u: User): (v: UserView)
    ensures v.id == u.id && v.email == u.email && v.role == RoleOrDefault(u.role)
  {
    UserView(u.id, u.email, RoleOrDefault(u.role))
  }

  /** The claims of the access token: exactly the fields of the user view. */
  function ClaimsOf(v: UserView): (c: Claims)
    ensures "userId" in c && c == AccessClaims(v.id, v.email, v.role)
  {
    AccessClaims(v.id, v.email, v.role)
  }

  /** How the tokens of a pair are signed: as the source does, or as corrected. */
  datatype Signing = AsWritten | RefreshUnderRefreshSecret

  function Pair(signing: Signing, v: UserView, config: EnvValidation.JwtConfig,
                draws: seq<AuthUtil.Draw>, now: int): (pair: TokenPair)
    requires |draws| == RefreshNonceLength
    ensures pair.accessToken.Jws? && pair.accessToken.key == config.secret
    ensures pair.accessToken.payload.claims == ClaimsOf(v)
    ensures pair.refreshToken.Jws? && pair.refreshToken.payload.claims == RefreshClaims(v.id, draws)
    ensures pair.refreshToken.key == if signing == AsWritten then config.secret else config.refreshSecret
  {
    match signing
    case AsWritten => GenerateTokenPair(ClaimsOf(v), config.secret, draws, now)
    case RefreshUnderRefreshSecret => GenerateTokenPairWith(ClaimsOf(v), config.secret, config.refreshSecret, draws, now)
  }

  // ---------------------------------------------------------------------
  // Login
  // ---------------------------------------------------------------------

  /** execute({email, password}) with a given way of signing the pair. */
  function LoginWith(signing: Signing, users: Option<UserStore>, bcrypt: AuthUtil.Bcrypt,
                     config: Option<EnvValidation.JwtConfig>, email: string, password: string,
                     draws: seq<AuthUtil.Draw>, now: int): (r: Response)
    requires |draws| == RefreshNonceLength
    ensures users.None? ==> r == Denied(AuthenticationFailed)
    ensures users.Some? && FindByEmail(users.value, email).None? ==> r == Denied(InvalidCredentials)
    ensures users.Some? && FindByEmail(users.value, email).Some?
            && !AuthUtil.ComparePassword(bcrypt, password, FindByEmail(users.value, email).value.password) ==>
      r == Denied(InvalidCredentials)
    ensures r.Authenticated? <==>
      && users.Some? && FindByEmail(users.value, email).Some?
      && AuthUtil.ComparePassword(bcrypt, password, FindByEmail(users.value, email).value.password)
      && config.Some? && config.value.secret != ""
    ensures r.Authenticated? ==>
      var u := FindByEmail(users.value, email).value;
      r == Authenticated(ViewOf(u), Pair(signing, ViewOf(u), config.value, draws, now))
    ensures r.Denied? ==> r.error in {InvalidCredentials, AuthenticationFailed}
  {
    if users.None? then Denied(AuthenticationFailed)
    else match FindByEmail(users.value, email)
      case None => Denied(InvalidCredentials)
      case Some(u) =>
        if !AuthUtil.ComparePassword(bcrypt, password, u.password) then Denied(InvalidCredentials)
        else if config.None? || config.value.secret == "" then Denied(AuthenticationFailed)
        else Authenticated(ViewOf(u), Pair(signing, ViewOf(u), config.value, draws, now))
  }

  /** execute as written: the pair of generateTokenPair. */
  function Login(users: Option<UserStore>, bcrypt: AuthUtil.Bcrypt, config: Option<EnvValidation.JwtConfig>,
                 email: string, password: string, draws: seq<AuthUtil.Draw>, now: int): (r: Response)
    requires |draws| == RefreshNonceLength
    ensures r.Authenticated? ==>
      && config.Some? && r.tokens.accessToken.Jws? && r.tokens.refreshToken.Jws?
      && r.tokens.accessToken.key == config.value.secret && r.tokens.refreshToken.key == config.value.secret
  {
    LoginWith(AsWritten, users, bcrypt, config, email, password, draws, now)
  }

  /** execute corrected: the refresh token is signed with the refresh secret. */
  function LoginFixed(users: Option<UserStore>, bcrypt: AuthUtil.Bcrypt, config: Option<EnvValidation.JwtConfig>,
                      email: string, password: string, draws: seq<AuthUtil.Draw>, now: int): (r: Response)
    requires |draws| == RefreshNonceLength
    ensures r.Authenticated? ==>
      && config.Some? && r.tokens.accessToken.Jws? && r.tokens.refreshToken.Jws?
      && r.tokens.accessToken.key == config.value.secret && r.tokens.refreshToken.key == config.value.refreshSecret
  {
    LoginWith(RefreshUnderRefreshSecret, users, bcrypt, config, email, password, draws, now)
  }

  /** An unknown email never consults bcrypt or the configuration: the answer is the same for all of them. */
  lemma UnknownEmailSkipsCompare(users: UserStore, b1: AuthUtil.Bcrypt, b2: AuthUtil.Bcrypt,
                                 c1: Option<EnvValidation.JwtConfig>, c2: Option<EnvValidation.JwtConfig>,
                                 email: string, password: string, draws: seq<AuthUtil.Draw>, now: int)
    requires |draws| == RefreshNonceLength
    requires FindByEmail(users, email).None?
    ensures Login(Some(users), b1, c1, email, password, draws, now)
         == Login(Some(users), b2, c2, email, password, draws, now)
         == Denied(InvalidCredentials)
  {
  }

  /** An unknown email and a wrong password give the same answer, so the response does not reveal which. */
  lemma UniformCredentialsError(users: UserStore, bcrypt: AuthUtil.Bcrypt, config: Option<EnvValidation.JwtConfig>,
                                unknown: string, known: string, password: string, draws: seq<AuthUtil.Draw>, now: int)
    requires |draws| == RefreshNonceLength
    requires FindByEmail(users, unknown).None? && FindByEmail(users, known).Some?
    requires !AuthUtil.ComparePassword(bcrypt, password, FindByEmail(users, known).value.password)
    ensures Login(Some(users), bcrypt, config, unknown, password, draws, now)
         == Login(Some(users), bcrypt, config, known, password, draws, now)
  {
  }

  /** With a sound bcrypt, the right password for a stored hash always logs in once the configuration is valid. */
  lemma RightPasswordLogsIn(users: UserStore, bcrypt: AuthUtil.Bcrypt, config: EnvValidation.JwtConfig,
                            email: string, password: string, salt: nat, draws: seq<AuthUtil.Draw>, now: int)
    requires |draws| == RefreshNonceLength && AuthUtil.Sound(bcrypt) && config.secret != ""
    requires FindByEmail(users, email).Some?
    requires FindByEmail(users, email).value.password == AuthUtil.HashPassword(bcrypt, password, salt)
    ensures Login(Some(users), bcrypt, Some(config), email, password, draws, now).Authenticated?
  {
    AuthUtil.CompareOwnHash(bcrypt, password, salt);
  }

  // ---------------------------------------------------------------------
  // Refresh
  // ---------------------------------------------------------------------

  /** The `userId` of a verified payload when it is present and truthy. */
  function SubjectOf(p: Payload): (id: Option<string>)
    ensures id.Some? <==> "userId" in p.claims && p.claims["userId"] != ""
    ensures id.Some? ==> id.value == p.claims["userId"]
  {
    if "userId" in p.claims && p.claims["userId"] != "" then Some(p.claims["userId"]) else None
  }

  /** refreshToken(token) with a given way of signing the new pair. */
  function RefreshWith(signing: Signing, users: Option<UserStore>, config: Option<EnvValidation.JwtConfig>,
                       token: Token, draws: seq<AuthUtil.Draw>, now: int): (r: Response)
    requires |draws| == RefreshNonceLength
    ensures config.None? ==> r == Denied(InvalidRefreshToken)
    ensures config.Some? && Verify(token, config.value.refreshSecret, now).None? ==> r == Denied(InvalidRefreshToken)
    ensures config.Some? && Verify(token, config.value.refreshSecret, now).Some?
            && SubjectOf(Verify(token, config.value.refreshSecret, now).value).None? ==>
      r == Denied(InvalidRefreshToken)
    ensures r.Authenticated? <==>
      && config.Some? && Verify(token, config.value.refreshSecret, now).Some?
      && SubjectOf(Verify(token, config.value.refreshSecret, now).value).Some?
      && users.Some?
      && FindById(users.value, SubjectOf(Verify(token, config.value.refreshSecret, now).value).value).Some?
      && config.value.secret != ""
    ensures r.Authenticated? ==>
      var u := FindById(users.value, SubjectOf(Verify(token, config.value.refreshSecret, now).value).value).value;
      r == Authenticated(ViewOf(u), Pair(signing, ViewOf(u), config.value, draws, now))
    ensures r.Denied? ==> r.error in {InvalidRefreshToken, UserNotFound}
  {
    if config.None? then Denied(InvalidRefreshToken)
    else match Verify(token, config.value.refreshSecret, now)
      case None => Denied(InvalidRefreshToken)
      case Some(p) =>
        match SubjectOf(p)
        case None => Denied(InvalidRefreshToken)
        case Some(id) =>
          if users.None? then Denied(InvalidRefreshToken)
          else match FindById(users.value, id)
            case None => Denied(UserNotFound)
            case Some(u) =>
              if config.value.secret == "" then Denied(InvalidRefreshToken)
              else Authenticated(ViewOf(u), Pair(signing, ViewOf(u), config.value, draws, now))
  }

  /** refreshToken as written. */
  function Refresh(users: Option<UserStore>, config: Option<EnvValidation.JwtConfig>,
                   token: Token, draws: seq<AuthUtil.Draw>, now: int): (r: Response)
    requires |draws| == RefreshNonceLength
    ensures r.Authenticated? ==>
      && config.Some? && Verify(token, config.value.refreshSecret, now).Some?
      && r.tokens.refreshToken.Jws? && r.tokens.refreshToken.key == config.value.secret
  {
    RefreshWith(AsWritten, users, config, token, draws, now)
  }

  /** refreshToken corrected: the new refresh token is again under the refresh secret. */
  function RefreshFixed(users: Option<UserStore>, config: Option<EnvValidation.JwtConfig>,
                        token: Token, draws: seq<AuthUtil.Draw>, now: int): (r: Response)
    requires |draws| == RefreshNonceLength
    ensures r.Authenticated? ==>
      && config.Some? && Verify(token, config.value.refreshSecret, now).Some?
      && r.tokens.refreshToken.Jws? && r.tokens.refreshToken.key == config.value.refreshSecret
  {
    RefreshWith(RefreshUnderRefreshSecret, users, config, token, draws, now)
  }

  /**
   * The refresh token a login hands out is rejected by refresh whenever the
   * two secrets differ, at any time: it was signed with the access secret
   * and is verified with the refresh secret.
   */
  lemma LoginRefreshTokenRejected(users: UserStore, bcrypt: AuthUtil.Bcrypt, config: EnvValidation.JwtConfig,
                                  email: string, password: string, d1: seq<AuthUtil.Draw>, d2: seq<AuthUtil.Draw>,
                                  now: int, later: int)
    requires |d1| == RefreshNonceLength && |d2| == RefreshNonceLength
    requires config.secret != config.refreshSecret
    requires Login(Some(users), bcrypt, Some(config), email, password, d1, now).Authenticated?
    ensures
      var login := Login(Some(users), bcrypt, Some(config), email, password, d1, now);
      Refresh(Some(users), Some(config), login.tokens.refreshToken, d2, later) == Denied(InvalidRefreshToken)
  {
  }

  /**
   * Corrected: for as long as the refresh token lives, a fresh login's
   * refresh token refreshes, for the same user. A user id is the decimal
   * text of a number, so it is never empty.
   */
  lemma {:induction false} LoginFixedRefreshes(users: UserStore, bcrypt: AuthUtil.Bcrypt, config: EnvValidation.JwtConfig,
                                               email: string, password: string, d1: seq<AuthUtil.Draw>, d2: seq<AuthUtil.Draw>,
                                               now: int, later: int)
    requires |d1| == RefreshNonceLength && |d2| == RefreshNonceLength
    requires config.refreshSecret != ""
    requires later + 1000 <= now + RefreshTokenExpiry * 1000
    requires LoginFixed(Some(users), bcrypt, Some(config), email, password, d1, now).Authenticated?
    requires FindByEmail(users, email).Some? && FindByEmail(users, email).value.id != ""
    ensures
      var login := LoginFixed(Some(users), bcrypt, Some(config), email, password, d1, now);
      var again := RefreshFixed(Some(users), Some(config), login.tokens.refreshToken, d2, later);
      again.Authenticated? && again.user.id == login.user.id
  {
    var login := LoginFixed(Some(users), bcrypt, Some(config), email, password, d1, now);
    var u := FindByEmail(users, email).value;
    LifetimeBounds(RefreshClaims(u.id, d1), config.refreshSecret, RefreshTokenExpiry, now, later);
    assert Verify(login.tokens.refreshToken, config.refreshSecret, later).Some?;
    assert SubjectOf(Verify(login.tokens.refreshToken, config.refreshSecret, later).value) == Some(u.id);
    assert FindById(users, u.id).Some? by {
      assert u in users && u.id == u.id;
    }
  }

  /** A refresh token without a userId, or with an empty one, is refused before any lookup. */
  lemma MissingSubjectRefused(users: Option<UserStore>, config: EnvValidation.JwtConfig, token: Token,
                              draws: seq<AuthUtil.Draw>, now: int)
    requires |draws| == RefreshNonceLength
    requires token.Jws? && ("userId" !in token.payload.claims || token.payload.claims["userId"] == "")
    ensures Refresh(users, Some(config), token, draws, now) == Denied(InvalidRefreshToken)
  {
  }
}
