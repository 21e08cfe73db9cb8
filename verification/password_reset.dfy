/**
 * Password reset: the PasswordResetDomain record
 * (src/domains/passwordReset.domain.ts) and the two use cases that issue
 * and redeem it (SendPasswordReset, ResetPassword). A record is a
 * TokenTable.Row whose `redeemed` flag is isUsed. The clock is `now` in
 * milliseconds, the token's sixteen random bytes are a parameter, and the
 * password hash is the abstract CryptoUtil.createHmac.
 */
module PasswordReset {
  import opened Wrappers
  import opened Bits
  import opened Users
  import opened TokenTable
  import opened Responses
  import TokenUtil
  import Crypto

  /** setHours(getHours() + 1), as a fixed number of milliseconds. */
  const ResetTokenLifetime: int := 60 * 60 * 1000

  const ResetPath: string := "/auth/reset-password?token="

  const UserNotFound: Failure := Failure("USER_NOT_FOUND", NotFound)
  const InvalidToken: Failure := Failure("INVALID_RESET_TOKEN", BadRequest)
  const TokenExpired: Failure := Failure("RESET_TOKEN_EXPIRED", BadRequest)
  /** The used-token error keeps INVALID_TOKEN's code but has its own message. */
  const TokenAlreadyUsed: Failure := Failure("RESET_TOKEN_ALREADY_USED", BadRequest)

  // ---------------------------------------------------------------------
  // The domain record
  // ---------------------------------------------------------------------

  /** new PasswordResetDomain(userId, email, token, expiresAt): not yet used. */
  function NewReset(userId: string, email: string, token: string, expiresAt: int): (r: Row)
    ensures !r.redeemed
    ensures r.userId == userId && r.email == email && r.token == token && r.expiresAt == expiresAt
  {
    Row(userId, email, token, expiresAt, false)
  }

  /** markAsUsed(): sets isUsed and nothing else. */
  function MarkAsUsed(r: Row): (r': Row)
    ensures r'.redeemed
    ensures r'.(redeemed := r.redeemed) == r
  {
    r.(redeemed := true)
  }

  /** Marking twice is marking once. */
  lemma MarkAsUsedIdempotent(r: Row)
    ensures MarkAsUsed(MarkAsUsed(r)) == MarkAsUsed(r)
  {
  }

  /** generateResetUrl(baseUrl): the base, the reset path, then the token. */
  function GenerateResetUrl(r: Row, baseUrl: string): (url: string)
    ensures |url| == |baseUrl| + |ResetPath| + |r.token|
    ensures url[..|baseUrl|] == baseUrl
    ensures url[|baseUrl|..|baseUrl| + |ResetPath|] == ResetPath
  {
    baseUrl + ResetPath + r.token
  }

  /** The token can be read back off the URL, so distinct tokens give distinct URLs. */
  lemma ResetUrlToken(r: Row, s: Row, baseUrl: string)
    ensures GenerateResetUrl(r, baseUrl)[|baseUrl| + |ResetPath|..] == r.token
    ensures GenerateResetUrl(r, baseUrl) == GenerateResetUrl(s, baseUrl) ==> r.token == s.token
  {
    var u := GenerateResetUrl(r, baseUrl);
    assert u[|baseUrl| + |ResetPath|..] == r.token;
    var v := GenerateResetUrl(s, baseUrl);
    assert v[|baseUrl| + |ResetPath|..] == s.token;
  }

  /** A token stays good up to and including its expiry instant. */
  lemma ExpiryIsStrict(r: Row)
    ensures !Expired(r, r.expiresAt) && Expired(r, r.expiresAt + 1)
  {
  }

  // ---------------------------------------------------------------------
  // The use cases
  // ---------------------------------------------------------------------

  /** A use case's outcome and both stores after it. */
  datatype Outcome = Outcome(result: Result<string, Failure>, resets: Table, users: UserStore)

  /**
   * SendPasswordReset.execute: find the user by email, delete their reset
   * rows, save a fresh one valid for an hour, and return its token.
   */
  function SendPasswordReset(users: UserStore, resets: Table, email: string, random: seq<byte>, now: int): (out: Outcome)
    requires |random| == TokenUtil.TokenBytes
    ensures out.users == users
    ensures FindByEmail(users, email).None? ==> out == Outcome(Err(UserNotFound), resets, users)
    ensures FindByEmail(users, email).Some? ==>
      var token := TokenUtil.GenerateToken(random);
      var row := NewReset(FindByEmail(users, email).value.id, email, token, now + ResetTokenLifetime);
      && out.result == Ok(token)
      && RowsOf(out.resets, row.userId) == [row]
      && (forall other :: other != row.userId ==> RowsOf(out.resets, other) == RowsOf(resets, other))
  {
    match FindByEmail(users, email)
    case None => Outcome(Err(UserNotFound), resets, users)
    case Some(user) =>
      var token := TokenUtil.GenerateToken(random);
      var row := NewReset(user.id, email, token, now + ResetTokenLifetime);
      var deleted := DeleteByUserId(resets, user.id);
      DeleteThenSave(resets, row);
      assert forall other :: other != row.userId ==> RowsOf(Save(deleted, row), other) == RowsOf(resets, other) by {
        forall other | other != row.userId
          ensures RowsOf(Save(deleted, row), other) == RowsOf(resets, other)
        {
          SaveKeepsOthers(deleted, row, other);
          DeleteKeepsOthers(resets, user.id, other);
        }
      }
      Outcome(Ok(token), Save(deleted, row), users)
  }

  /**
   * ResetPassword.execute: the token must be known, then unexpired, then
   * unused; the row is then marked used and the owner's password becomes
   * createHmac(newPassword, JWT_SECRET || 'default').
   */
  function ResetPassword(resets: Table, users: UserStore, token: string, newPassword: string,
                         hmac: Crypto.CreateHmac, jwtSecret: Option<string>, now: int): (out: Outcome)
    ensures FindByToken(resets, token).None? ==> out == Outcome(Err(InvalidToken), resets, users)
    ensures FindByToken(resets, token).Some? && Expired(FindByToken(resets, token).value, now) ==>
      out == Outcome(Err(TokenExpired), resets, users)
    ensures (FindByToken(resets, token).Some? && !Expired(FindByToken(resets, token).value, now)
             && FindByToken(resets, token).value.redeemed) ==>
      out == Outcome(Err(TokenAlreadyUsed), resets, users)
    ensures out.result.Ok? <==> Redeemable(resets, token, now)
    ensures out.result.Err? ==> out.resets == resets && out.users == users
    ensures out.result.Ok? ==>
      var owner := FindByToken(resets, token).value.userId;
      && out.resets == MarkRedeemed(resets, token)
      && out.users == UpdatePassword(users, owner, hmac(newPassword, Crypto.SecretOrDefault(jwtSecret)))
  {
    match FindByToken(resets, token)
    case None => Outcome(Err(InvalidToken), resets, users)
    case Some(reset) =>
      if Expired(reset, now) then Outcome(Err(TokenExpired), resets, users)
      else if reset.redeemed then Outcome(Err(TokenAlreadyUsed), resets, users)
      else
        var hashed := hmac(newPassword, Crypto.SecretOrDefault(jwtSecret));
        Outcome(Ok("Password reset successfully"), MarkRedeemed(resets, token), UpdatePassword(users, reset.userId, hashed))
  }

  /** A used token that has also expired reports the expiry: expiry is checked first. */
  lemma ExpiryBeforeUse(resets: Table, users: UserStore, token: string, newPassword: string,
                        hmac: Crypto.CreateHmac, jwtSecret: Option<string>, now: int)
    requires FindByToken(resets, token).Some?
    requires FindByToken(resets, token).value.redeemed && Expired(FindByToken(resets, token).value, now)
    ensures ResetPassword(resets, users, token, newPassword, hmac, jwtSecret, now).result == Err(TokenExpired)
  {
  }

  /** A reset token works once: redeeming it again, at any time, fails. */
  lemma {:induction false} SingleUse(resets: Table, users: UserStore, token: string, p1: string, p2: string,
                                     hmac: Crypto.CreateHmac, jwtSecret: Option<string>, t1: int, t2: int)
    requires ResetPassword(resets, users, token, p1, hmac, jwtSecret, t1).result.Ok?
    ensures
      var first := ResetPassword(resets, users, token, p1, hmac, jwtSecret, t1);
      var second := ResetPassword(first.resets, first.users, token, p2, hmac, jwtSecret, t2);
      second.result.Err? && second.result.error in {TokenExpired, TokenAlreadyUsed}
  {
    FindAfterMark(resets, token);
  }

  /** After a successful reset the owner's row carries the new hash and no one else's changed. */
  lemma ResetWritesOwnerPassword(resets: Table, users: UserStore, token: string, newPassword: string,
                                 hmac: Crypto.CreateHmac, jwtSecret: Option<string>, now: int, other: string)
    requires ResetPassword(resets, users, token, newPassword, hmac, jwtSecret, now).result.Ok?
    ensures
      var out := ResetPassword(resets, users, token, newPassword, hmac, jwtSecret, now);
      var owner := FindByToken(resets, token).value.userId;
      && (FindById(users, owner).Some? ==>
            FindById(out.users, owner).Some?
            && Crypto.PasswordMatches(hmac, jwtSecret, newPassword, FindById(out.users, owner).value.password))
      && (other != owner ==> FindById(out.users, other) == FindById(users, other))
  {
    var owner := FindByToken(resets, token).value.userId;
    var hashed := hmac(newPassword, Crypto.SecretOrDefault(jwtSecret));
    UpdatePasswordFound(users, owner, hashed);
    if other != owner {
      UpdatePasswordOthers(users, owner, hashed, other);
    }
  }

  /** A token just issued by SendPasswordReset redeems within the hour. */
  lemma IssuedTokenRedeems(users: UserStore, resets: Table, email: string, random: seq<byte>, now: int, later: int)
    requires |random| == TokenUtil.TokenBytes
    requires FindByEmail(users, email).Some?
    requires forall r :: r in resets ==> r.token != TokenUtil.GenerateToken(random)
    requires now <= later <= now + ResetTokenLifetime
    ensures
      var sent := SendPasswordReset(users, resets, email, random, now);
      Redeemable(sent.resets, sent.result.value, later)
  {
    var sent := SendPasswordReset(users, resets, email, random, now);
    var token := TokenUtil.GenerateToken(random);
    var row := NewReset(FindByEmail(users, email).value.id, email, token, now + ResetTokenLifetime);
    assert row in RowsOf(sent.resets, row.userId);
    assert forall x :: x in sent.resets && x.token == token ==> x == row;
  }
}
