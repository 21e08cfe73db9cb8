/**
 * Email verification: the EmailVerificationDomain record
 * (src/domains/emailVerification.domain.ts) and the use cases that issue
 * it (SendEmailVerification, ResendEmailVerification) and redeem it
 * (VerifyEmail). A record is a TokenTable.Row whose `redeemed` flag is
 * isVerified. The clock is `now` in milliseconds and the token's sixteen
 * random bytes are a parameter.
 */
module EmailVerification {
  import opened Wrappers
  import opened Bits
  import opened Users
  import opened TokenTable
  import opened Responses
  import TokenUtil

  /** setHours(getHours() + 24), as a fixed number of milliseconds. */
  const VerificationTokenLifetime: int := 24 * 60 * 60 * 1000

  const VerifyPath: string := "/auth/verify-email?token="

  const UserNotFound: Failure := Failure("USER_NOT_FOUND", NotFound)
  const InvalidToken: Failure := Failure("INVALID_VERIFICATION_TOKEN", BadRequest)
  const TokenExpired: Failure := Failure("VERIFICATION_TOKEN_EXPIRED", BadRequest)
  const AlreadyVerified: Failure := Failure("EMAIL_ALREADY_VERIFIED", BadRequest)

  /**
   * The resend use case's own response table is not part of this model, so
   * its two errors are told apart by kind only.
   */
  datatype ResendFailure = ResendUserNotFound | ResendAlreadyVerified

  // ---------------------------------------------------------------------
  // The domain record
  // ---------------------------------------------------------------------

  /** new EmailVerificationDomain(userId, email, token, expiresAt): not yet verified. */
  function NewVerification(userId: string, email: string, token: string, expiresAt: int): (r: Row)
    ensures !r.redeemed
    ensures r.userId == userId && r.email == email && r.token == token && r.expiresAt == expiresAt
  {
    Row(userId, email, token, expiresAt, false)
  }

  /** markAsVerified(): sets isVerified and nothing else. */
  function MarkAsVerified(r: Row): (r': Row)
    ensures r'.redeemed
    ensures r'.(redeemed := r.redeemed) == r
  {
    r.(redeemed := true)
  }

  lemma MarkAsVerifiedIdempotent(r: Row)
    ensures MarkAsVerified(MarkAsVerified(r)) == MarkAsVerified(r)
  {
  }

  /** generateVerificationUrl(baseUrl): the base, the verification path, then the token. */
  function GenerateVerificationUrl(r: Row, baseUrl: string): (url: string)
    ensures |url| == |baseUrl| + |VerifyPath| + |r.token|
    ensures url[..|baseUrl|] == baseUrl
    ensures url[|baseUrl|..|baseUrl| + |VerifyPath|] == VerifyPath
  {
    baseUrl + VerifyPath + r.token
  }

  /** The token can be read back off the URL, so distinct tokens give distinct URLs. */
  lemma VerificationUrlToken(r: Row, s: Row, baseUrl: string)
    ensures GenerateVerificationUrl(r, baseUrl)[|baseUrl| + |VerifyPath|..] == r.token
    ensures GenerateVerificationUrl(r, baseUrl) == GenerateVerificationUrl(s, baseUrl) ==> r.token == s.token
  {
    var u := GenerateVerificationUrl(r, baseUrl);
    assert u[|baseUrl| + |VerifyPath|..] == r.token;
    var v := GenerateVerificationUrl(s, baseUrl);
    assert v[|baseUrl| + |VerifyPath|..] == s.token;
  }

  // ---------------------------------------------------------------------
  // The use cases
  // ---------------------------------------------------------------------

  datatype Outcome<E> = Outcome(result: Result<string, E>, verifications: Table, users: UserStore)

  /**
   * SendEmailVerification.execute: the user must exist; a row for the
   * request's userId and email, valid for a day, is saved and its token
   * returned. Nothing is deleted first and the verified flag is not read.
   */
  function SendEmailVerification(users: UserStore, verifications: Table, userId: string, email: string,
                                 random: seq<byte>, now: int): (out: Outcome<Failure>)
    requires |random| == TokenUtil.TokenBytes
    ensures out.users == users
    ensures FindById(users, userId).None? ==> out == Outcome(Err(UserNotFound), verifications, users)
    ensures FindById(users, userId).Some? ==>
      var token := TokenUtil.GenerateToken(random);
      var row := NewVerification(userId, email, token, now + VerificationTokenLifetime);
      && out.result == Ok(token)
      && row in out.verifications
      && (forall x :: x in out.verifications ==> x == row || x in verifications)
      && (forall x :: x in verifications && x.userId != userId ==> x in out.verifications)
  {
    if FindById(users, userId).None? then Outcome(Err(UserNotFound), verifications, users)
    else
      var token := TokenUtil.GenerateToken(random);
      Outcome(Ok(token), Save(verifications, NewVerification(userId, email, token, now + VerificationTokenLifetime)), users)
  }

  /**
   * Without a delete, the primary key on user_id still makes the save
   * replace the user's previous row: afterwards the user has exactly one.
   */
  lemma SendReplacesPrevious(users: UserStore, verifications: Table, userId: string, email: string,
                             random: seq<byte>, now: int)
    requires |random| == TokenUtil.TokenBytes
    requires KeyedByUser(verifications) && FindById(users, userId).Some?
    ensures
      var out := SendEmailVerification(users, verifications, userId, email, random, now);
      |RowsOf(out.verifications, userId)| == 1 && KeyedByUser(out.verifications)
  {
    var token := TokenUtil.GenerateToken(random);
    SaveReplaces(verifications, NewVerification(userId, email, token, now + VerificationTokenLifetime));
  }

  /**
   * ResendEmailVerification.execute: find the user by email; refuse an
   * already verified user; otherwise delete their rows, save a fresh one
   * valid for a day and return its token.
   */
  function ResendEmailVerification(users: UserStore, verifications: Table, email: string,
                                   random: seq<byte>, now: int): (out: Outcome<ResendFailure>)
    requires |random| == TokenUtil.TokenBytes
    ensures out.users == users
    ensures FindByEmail(users, email).None? ==> out == Outcome(Err(ResendUserNotFound), verifications, users)
    ensures FindByEmail(users, email).Some? && FindByEmail(users, email).value.emailVerified ==>
      out == Outcome(Err(ResendAlreadyVerified), verifications, users)
    ensures out.result.Ok? <==> FindByEmail(users, email).Some? && !FindByEmail(users, email).value.emailVerified
    ensures out.result.Ok? ==>
      var token := TokenUtil.GenerateToken(random);
      var row := NewVerification(FindByEmail(users, email).value.id, email, token, now + VerificationTokenLifetime);
      && out.result == Ok(token)
      && RowsOf(out.verifications, row.userId) == [row]
      && (forall other :: other != row.userId ==> RowsOf(out.verifications, other) == RowsOf(verifications, other))
  {
    match FindByEmail(users, email)
    case None => Outcome(Err(ResendUserNotFound), verifications, users)
    case Some(user) =>
      if user.emailVerified then Outcome(Err(ResendAlreadyVerified), verifications, users)
      else
        var token := TokenUtil.GenerateToken(random);
        var row := NewVerification(user.id, email, token, now + VerificationTokenLifetime);
        var deleted := DeleteByUserId(verifications, user.id);
        DeleteThenSave(verifications, row);
        assert forall other :: other != row.userId ==> RowsOf(Save(deleted, row), other) == RowsOf(verifications, other) by {
          forall other | other != row.userId
            ensures RowsOf(Save(deleted, row), other) == RowsOf(verifications, other)
          {
            SaveKeepsOthers(deleted, row, other);
            DeleteKeepsOthers(verifications, user.id, other);
          }
        }
        Outcome(Ok(token), Save(deleted, row), users)
  }

  /**
   * VerifyEmail.execute: the token must be known, then unexpired, then not
   * yet verified; the row is then marked verified and its owner's
   * emailVerified flag set.
   */
  function VerifyEmail(verifications: Table, users: UserStore, token: string, now: int): (out: Outcome<Failure>)
    ensures FindByToken(verifications, token).None? ==> out == Outcome(Err(InvalidToken), verifications, users)
    ensures FindByToken(verifications, token).Some? && Expired(FindByToken(verifications, token).value, now) ==>
      out == Outcome(Err(TokenExpired), verifications, users)
    ensures (FindByToken(verifications, token).Some? && !Expired(FindByToken(verifications, token).value, now)
             && FindByToken(verifications, token).value.redeemed) ==>
      out == Outcome(Err(AlreadyVerified), verifications, users)
    ensures out.result.Ok? <==> Redeemable(verifications, token, now)
    ensures out.result.Err? ==> out.verifications == verifications && out.users == users
    ensures out.result.Ok? ==>
      && out.verifications == MarkRedeemed(verifications, token)
      && out.users == UpdateEmailVerified(users, FindByToken(verifications, token).value.userId, true)
  {
    match FindByToken(verifications, token)
    case None => Outcome(Err(InvalidToken), verifications, users)
    case Some(v) =>
      if Expired(v, now) then Outcome(Err(TokenExpired), verifications, users)
      else if v.redeemed then Outcome(Err(AlreadyVerified), verifications, users)
      else Outcome(Ok("Email verified successfully"), MarkRedeemed(verifications, token),
                   UpdateEmailVerified(users, v.userId, true))
  }

  /**
   * A second verification with the same token fails: ALREADY_VERIFIED while
   * the token is unexpired, TOKEN_EXPIRED after.
   */
  lemma SecondVerifyFails(verifications: Table, users: UserStore, token: string, t1: int, t2: int)
    requires VerifyEmail(verifications, users, token, t1).result.Ok?
    ensures
      var first := VerifyEmail(verifications, users, token, t1);
      var second := VerifyEmail(first.verifications, first.users, token, t2);
      second.result == Err(if Expired(FindByToken(verifications, token).value, t2) then TokenExpired else AlreadyVerified)
  {
    FindAfterMark(verifications, token);
  }

  /**
   * After a successful verification the owner is verified, so a resend to
   * an email that finds the owner is refused.
   */
  lemma VerifiedOwnerCannotResend(verifications: Table, users: UserStore, token: string, now: int,
                                  email: string, random: seq<byte>, later: int)
    requires |random| == TokenUtil.TokenBytes
    requires VerifyEmail(verifications, users, token, now).result.Ok?
    requires FindByEmail(users, email).Some?
    requires FindByEmail(users, email).value.id == FindByToken(verifications, token).value.userId
    ensures
      var v := VerifyEmail(verifications, users, token, now);
      ResendEmailVerification(v.users, v.verifications, email, random, later).result == Err(ResendAlreadyVerified)
  {
    UpdateEmailVerifiedByEmail(users, FindByToken(verifications, token).value.userId, true, email);
  }

  /** A verified token that has also expired reports the expiry: expiry is checked first. */
  lemma ExpiryBeforeVerified(verifications: Table, users: UserStore, token: string, now: int)
    requires FindByToken(verifications, token).Some?
    requires FindByToken(verifications, token).value.redeemed && Expired(FindByToken(verifications, token).value, now)
    ensures VerifyEmail(verifications, users, token, now).result == Err(TokenExpired)
  {
  }
}
