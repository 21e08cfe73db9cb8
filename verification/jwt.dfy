/**
 * JWTUtil (src/adapters/util/jwt.util.ts) over an abstract JSON Web
 * Signature. A token is the structure its compact serialization carries:
 * the header's algorithm, the payload, and the key it was signed with.
 * Signing and verification are symbolic, so a token verifies under a key
 * exactly when that key signed it; no cryptography is modelled. Times are
 * milliseconds; the iat and exp claims are whole seconds, as the exp claim
 * of section 4.1.4 of RFC 7519 specifies.
 */
module Jwt {
  import opened Wrappers
  import AuthUtil

  const Algorithm: string := "HS256"
  /** '15m' and '7d', in seconds. */
  const AccessTokenExpiry: int := 15 * 60
  const RefreshTokenExpiry: int := 7 * 24 * 60 * 60
  /** The refresh token's nonce: AuthUtil.generateToken(64). */
  const RefreshNonceLength: nat := 64

  /** The JSON claims of a payload besides iat and exp, all string valued here. */
  type Claims = map<string, string>

  datatype Payload = Payload(claims: Claims, iat: int, exp: Option<int>)

  /** A token as its compact serialization encodes it, or text that does not parse as one. */
  datatype Token = Jws(alg: string, payload: Payload, key: string) | Unreadable

  datatype TokenPair = TokenPair(accessToken: Token, refreshToken: Token)

  /** Math.floor(Date.now() / 1000): Dafny's division by a positive constant floors. */
  function Seconds(now: int): (s: int)
    ensures s * 1000 <= now < s * 1000 + 1000
  {
    now / 1000
  }

  /** jwt.sign(payload, secret, {expiresIn, algorithm: 'HS256'}): iat is now, exp is iat + expiresIn. */
  function Sign(claims: Claims, secret: string, expiresIn: int, now: int): (t: Token)
    ensures t.Jws? && t.alg == Algorithm && t.key == secret
    ensures t.payload == Payload(claims, Seconds(now), Some(Seconds(now) + expiresIn))
  {
    Jws(Algorithm, Payload(claims, Seconds(now), Some(Seconds(now) + expiresIn)), secret)
  }

  /**
   * jwt.verify(token, secret, {algorithms: ['HS256']}): the payload when the
   * token parses, names HS256, was signed with this non-empty secret and its
   * exp, if any, is still ahead of the current second; otherwise it throws.
   * verifyAccessToken and verifyRefreshToken are both this call.
   */
  function Verify(t: Token, secret: string, now: int): (p: Option<Payload>)
    ensures p.Some? <==>
      t.Jws? && t.alg == Algorithm && secret != "" && t.key == secret
      && (t.payload.exp.Some? ==> Seconds(now) < t.payload.exp.value)
    ensures p.Some? ==> p.value == t.payload
  {
    if t.Unreadable? || t.alg != Algorithm || secret == "" || t.key != secret then None
    else if t.payload.exp.Some? && Seconds(now) >= t.payload.exp.value then None
    else Some(t.payload)
  }

  /** jwt.decode(token) inside try/catch: the payload without any check, or null. */
  function DecodeToken(t: Token): (p: Option<Payload>)
    ensures p.None? <==> t.Unreadable?
    ensures t.Jws? ==> p == Some(t.payload)
  {
    match t
    case Unreadable => None
    case Jws(_, payload, _) => Some(payload)
  }

  /** isTokenExpired: no payload, no exp or exp 0 count as expired; else now >= exp * 1000. */
  function IsTokenExpired(t: Token, now: int): (expired: bool)
    ensures DecodeToken(t).None? ==> expired
    ensures t.Jws? && (t.payload.exp.None? || t.payload.exp.value == 0) ==> expired
    ensures t.Jws? && t.payload.exp.Some? && t.payload.exp.value != 0 ==>
      (expired <==> now >= t.payload.exp.value * 1000)
  {
    match DecodeToken(t)
    case None => true
    case Some(p) =>
      if p.exp.None? || p.exp.value == 0 then true
      else now >= p.exp.value * 1000
  }

  /** For a token carrying a non-zero exp, isTokenExpired and verify's own expiry check agree. */
  lemma ExpiryAgreesWithVerify(t: Token, now: int)
    requires t.Jws? && t.alg == Algorithm && t.key != ""
    requires t.payload.exp.Some? && t.payload.exp.value != 0
    ensures IsTokenExpired(t, now) <==> Verify(t, t.key, now).None?
  {
  }

  /** A token without exp never expires for verify, yet isTokenExpired reports it expired. */
  lemma NoExpIsExpiredButVerifies(claims: Claims, secret: string, now: int, later: int)
    requires secret != ""
    ensures
      var t := Jws(Algorithm, Payload(claims, Seconds(now), None), secret);
      IsTokenExpired(t, later) && Verify(t, secret, later) == Some(t.payload)
  {
  }

  // ---------------------------------------------------------------------
  // Claims and token pairs
  // ---------------------------------------------------------------------

  /** The access payload {userId, email, role}. */
  function AccessClaims(userId: string, email: string, role: string): (c: Claims)
    ensures c.Keys == {"userId", "email", "role"}
    ensures c["userId"] == userId && c["email"] == email && c["role"] == role
  {
    map["userId" := userId, "email" := email, "role" := role]
  }

  /** The refresh payload {userId, type: 'refresh', token}, the nonce spelt by 64 draws. */
  function RefreshClaims(userId: string, draws: seq<AuthUtil.Draw>): (c: Claims)
    requires |draws| == RefreshNonceLength
    ensures c.Keys == {"userId", "type", "token"}
    ensures c["userId"] == userId && c["type"] == "refresh"
    ensures |c["token"]| == RefreshNonceLength
    ensures forall i :: 0 <= i < |c["token"]| ==> AuthUtil.IsAlphanumeric(c["token"][i])
  {
    map["userId" := userId, "type" := "refresh", "token" := AuthUtil.RandomToken(draws)]
  }

  /** generateAccessToken: HS256 under `secret`, expiring 15 minutes after it is issued. */
  function GenerateAccessToken(claims: Claims, secret: string, now: int): (t: Token)
    ensures t.Jws? && t.alg == Algorithm && t.key == secret && t.payload.claims == claims
    ensures t.payload.iat == Seconds(now) && t.payload.exp == Some(t.payload.iat + 900)
  {
    Sign(claims, secret, AccessTokenExpiry, now)
  }

  /** generateRefreshToken: HS256 under `secret`, expiring 7 days after it is issued. */
  function GenerateRefreshToken(userId: string, secret: string, draws: seq<AuthUtil.Draw>, now: int): (t: Token)
    requires |draws| == RefreshNonceLength
    ensures t.Jws? && t.alg == Algorithm && t.key == secret && t.payload.claims == RefreshClaims(userId, draws)
    ensures t.payload.iat == Seconds(now) && t.payload.exp == Some(t.payload.iat + 604800)
  {
    Sign(RefreshClaims(userId, draws), secret, RefreshTokenExpiry, now)
  }

  /** generateTokenPair(payload, secret): BOTH tokens are signed with the one secret passed in. */
  function GenerateTokenPair(claims: Claims, secret: string, draws: seq<AuthUtil.Draw>, now: int): (pair: TokenPair)
    requires "userId" in claims && |draws| == RefreshNonceLength
    ensures pair.accessToken.Jws? && pair.accessToken.key == secret
    ensures pair.refreshToken.Jws? && pair.refreshToken.key == secret
    ensures pair.accessToken.payload.claims == claims
    ensures pair.refreshToken.payload.claims == RefreshClaims(claims["userId"], draws)
  {
    TokenPair(GenerateAccessToken(claims, secret, now), GenerateRefreshToken(claims["userId"], secret, draws, now))
  }

  /** The corrected pair: the refresh token is signed with the refresh secret. */
  function GenerateTokenPairWith(claims: Claims, secret: string, refreshSecret: string,
                                 draws: seq<AuthUtil.Draw>, now: int): (pair: TokenPair)
    requires "userId" in claims && |draws| == RefreshNonceLength
    ensures pair.accessToken == GenerateTokenPair(claims, secret, draws, now).accessToken
    ensures pair.refreshToken.Jws? && pair.refreshToken.key == refreshSecret
    ensures pair.refreshToken.payload == GenerateTokenPair(claims, secret, draws, now).refreshToken.payload
  {
    TokenPair(GenerateAccessToken(claims, secret, now), GenerateRefreshToken(claims["userId"], refreshSecret, draws, now))
  }

  // ---------------------------------------------------------------------
  // Sign / verify
  // ---------------------------------------------------------------------

  /** A signed token verifies under its secret exactly while the current second is before exp. */
  lemma SignVerify(claims: Claims, secret: string, expiresIn: int, now: int, later: int)
    requires secret != ""
    ensures Verify(Sign(claims, secret, expiresIn, now), secret, later).Some?
      <==> Seconds(later) < Seconds(now) + expiresIn
    ensures Verify(Sign(claims, secret, expiresIn, now), secret, later).Some? ==>
      Verify(Sign(claims, secret, expiresIn, now), secret, later).value.claims == claims
  {
  }

  /** Within its lifetime less one second, a token verifies; from its full lifetime on, it does not. */
  lemma {:induction false} LifetimeBounds(claims: Claims, secret: string, expiresIn: int, now: int, later: int)
    requires secret != ""
    ensures later + 1000 <= now + expiresIn * 1000 ==> Verify(Sign(claims, secret, expiresIn, now), secret, later).Some?
    ensures later >= now + expiresIn * 1000 ==> Verify(Sign(claims, secret, expiresIn, now), secret, later).None?
  {
    SignVerify(claims, secret, expiresIn, now, later);
    var s, l := Seconds(now), Seconds(later);
    if later + 1000 <= now + expiresIn * 1000 {
      assert l * 1000 <= later && now < s * 1000 + 1000;
      assert l * 1000 < (s + expiresIn) * 1000;
    }
    if later >= now + expiresIn * 1000 {
      assert later < l * 1000 + 1000 && s * 1000 <= now;
      assert (s + expiresIn) * 1000 < l * 1000 + 1000;
    }
  }

  /** A token verifies under no key but the one that signed it. */
  lemma OnlySigningSecretVerifies(claims: Claims, secret: string, other: string, expiresIn: int, now: int, later: int)
    requires other != secret
    ensures Verify(Sign(claims, secret, expiresIn, now), other, later).None?
  {
  }

  /** Verification never reads the claims, so `type: 'refresh'` does not tell the two kinds apart. */
  lemma VerifyIgnoresClaims(alg: string, p: Payload, claims: Claims, key: string, secret: string, now: int)
    ensures Verify(Jws(alg, p, key), secret, now).Some? <==> Verify(Jws(alg, p.(claims := claims), key), secret, now).Some?
  {
  }

  /** A token under another algorithm, "none" included, never verifies. */
  lemma OnlyHs256(alg: string, p: Payload, key: string, secret: string, now: int)
    requires alg != Algorithm
    ensures Verify(Jws(alg, p, key), secret, now).None?
  {
  }

  /** Both tokens of a pair verify under the pair's secret for the access lifetime; the refresh token lasts 7 days. */
  lemma {:induction false} PairLifetimes(claims: Claims, secret: string, draws: seq<AuthUtil.Draw>, now: int, later: int)
    requires "userId" in claims && |draws| == RefreshNonceLength && secret != ""
    ensures var pair := GenerateTokenPair(claims, secret, draws, now);
      && (later + 1000 <= now + AccessTokenExpiry * 1000 ==> Verify(pair.accessToken, secret, later).Some?)
      && (later >= now + AccessTokenExpiry * 1000 ==> Verify(pair.accessToken, secret, later).None?)
      && (later + 1000 <= now + RefreshTokenExpiry * 1000 ==> Verify(pair.refreshToken, secret, later).Some?)
      && (later >= now + RefreshTokenExpiry * 1000 ==> Verify(pair.refreshToken, secret, later).None?)
  {
    LifetimeBounds(claims, secret, AccessTokenExpiry, now, later);
    LifetimeBounds(RefreshClaims(claims["userId"], draws), secret, RefreshTokenExpiry, now, later);
  }

  /** A decoded token of ours carries its payload: decodeToken only fails on unreadable text. */
  lemma DecodeSigned(claims: Claims, secret: string, expiresIn: int, now: int)
    ensures DecodeToken(Sign(claims, secret, expiresIn, now)) == Some(Payload(claims, Seconds(now), Some(Seconds(now) + expiresIn)))
  {
  }
}
