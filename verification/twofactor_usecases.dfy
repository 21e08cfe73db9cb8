/**
 * The two-factor use cases (src/usecases/twoFactorAuth/*): setup, enable,
 * verify and disable, each a function from the stores to an outcome and the
 * new factor store.
 *
 * The factor store is the two_factor_auth table keyed by user id. Two
 * details of its repository shape the model:
 *   - createTwoFactorAuth saves the whole factor;
 *   - updateTwoFactorAuth writes only isEnabled and backupCodes, never the
 *     secret.
 *
 * verifyTOTPToken reads the clock and calls HMAC-SHA1, so the use cases take
 * the TOTP check as a parameter; `TotpAt` instantiates it with the model of
 * that function.
 */
module TwoFactorUseCases {
  import opened Wrappers
  import opened Bits
  import opened Users
  import opened Responses
  import opened TwoFactor
  import Totp
  import Base32
  import Crypto

  type Store = map<string, Factor>

  /** verifyTOTPToken(token, secret) at some fixed instant. */
  type TotpCheck = (string, string) -> bool

  function TotpAt(hmac: Totp.HmacSha1, nowMs: nat): (check: TotpCheck)
    ensures forall token, secret :: check(token, secret) == Totp.Verify(token, secret, hmac, nowMs)
  {
    (token, secret) => Totp.Verify(token, secret, hmac, nowMs)
  }

  const UserNotFound := Failure("USER_NOT_FOUND", NotFound)
  const SetupAlreadyEnabled := Failure("TWO_FACTOR_AUTH_ALREADY_ENABLED", Conflict)
  const NotSetup := Failure("TWO_FACTOR_NOT_SETUP", BadRequest)
  const AlreadyEnabled := Failure("TWO_FACTOR_ALREADY_ENABLED", Conflict)
  const InvalidToken := Failure("INVALID_TWO_FACTOR_TOKEN", BadRequest)
  const InvalidPassword := Failure("INVALID_PASSWORD", BadRequest)
  const NotEnabled := Failure("TWO_FACTOR_NOT_ENABLED", BadRequest)

  datatype Step<T> = Step(result: Result<T, Failure>, store: Store)

  datatype SetupData = SetupData(secret: string, qrCode: string, backupCodes: seq<string>)
  datatype EnableData = EnableData(isEnabled: bool, backupCodes: seq<string>)
  datatype StateData = StateData(isEnabled: bool)

  /** The store differs from the old one at most in the row of `id`. */
  predicate OnlyRowChanged(old: Store, new: Store, id: string) {
    (forall k :: k in new && k != id ==> k in old && new[k] == old[k])
    && (forall k :: k in old && k != id ==> k in new)
  }

  // ---------------------------------------------------------------------
  // Repository
  // ---------------------------------------------------------------------

  function FindByUserId(store: Store, userId: string): (r: Option<Factor>)
    ensures r.Some? <==> userId in store
    ensures r.Some? ==> r.value == store[userId]
  {
    if userId in store then Some(store[userId]) else None
  }

  function CreateFactor(store: Store, f: Factor): (s: Store)
    ensures f.userId in s && s[f.userId] == f
    ensures OnlyRowChanged(store, s, f.userId)
  {
    store[f.userId := f]
  }

  /** updateTwoFactorAuth: UPDATE ... SET is_enabled, backup_codes WHERE user_id. */
  function UpdateFactor(store: Store, f: Factor): (s: Store)
    ensures s.Keys == store.Keys
    ensures forall id :: id in s ==> s[id].secret == store[id].secret && s[id].userId == store[id].userId
    ensures f.userId in s ==> s[f.userId].isEnabled == f.isEnabled && s[f.userId].backupCodes == f.backupCodes
    ensures OnlyRowChanged(store, s, f.userId)
  {
    if f.userId in store then
      store[f.userId := store[f.userId].(isEnabled := f.isEnabled, backupCodes := f.backupCodes)]
    else store
  }

  // ---------------------------------------------------------------------
  // Setup
  // ---------------------------------------------------------------------

  function QrCode(email: string, secret: string): (uri: string)
  {
    "otpauth://totp/MyApp:" + email + "?secret=" + secret + "&issuer=MyApp"
  }

  predicate CodeBytes(codeBytes: seq<seq<byte>>) {
    |codeBytes| == BackupCodeCount && forall i :: 0 <= i < |codeBytes| ==> |codeBytes[i]| == BackupCodeBytes
  }

  /**
   * SetupTwoFactorAuth.execute. The new secret and backup codes come from
   * random bytes given as parameters.
   */
  function Setup(users: UserStore, store: Store, userId: string, secretBytes: seq<byte>, codeBytes: seq<seq<byte>>): (out: Step<SetupData>)
    requires |secretBytes| == Totp.SecretBytes && CodeBytes(codeBytes)
    ensures FindById(users, userId).None? ==> out == Step(Err(UserNotFound), store)
    ensures FindById(users, userId).Some? && userId in store && store[userId].isEnabled ==>
      out == Step(Err(SetupAlreadyEnabled), store)
    ensures out.result.Ok? <==> FindById(users, userId).Some? && !(userId in store && store[userId].isEnabled)
    ensures out.result.Ok? ==>
      var d := out.result.value;
      |d.secret| == 32 && Base32.Decode(d.secret) == secretBytes
      && d.backupCodes == GenerateBackupCodes(codeBytes)
      && d.qrCode == QrCode(FindById(users, userId).value.email, d.secret)
      && userId in out.store && !out.store[userId].isEnabled
      && out.store[userId].backupCodes == d.backupCodes
      && out.store[userId].secret == (if userId in store then store[userId].secret else d.secret)
      && OnlyRowChanged(store, out.store, userId)
  {
    match FindById(users, userId)
    case None => Step(Err(UserNotFound), store)
    case Some(user) =>
      var existing := FindByUserId(store, userId);
      if existing.Some? && existing.value.isEnabled then Step(Err(SetupAlreadyEnabled), store)
      else
        var secret := Totp.GenerateSecret(secretBytes);
        var codes := GenerateBackupCodes(codeBytes);
        var factor := New(userId, secret, codes);
        var store' := if existing.Some? then UpdateFactor(store, factor) else CreateFactor(store, factor);
        Step(Ok(SetupData(secret, QrCode(user.email, secret), codes)), store')
  }

  // ---------------------------------------------------------------------
  // Enable
  // ---------------------------------------------------------------------

  /** EnableTwoFactorAuth.execute: only a TOTP code enables. */
  function Enable(users: UserStore, store: Store, totp: TotpCheck, userId: string, token: string): (out: Step<EnableData>)
    ensures FindById(users, userId).None? ==> out.result == Err(UserNotFound)
    ensures FindById(users, userId).Some? && userId !in store ==> out.result == Err(NotSetup)
    ensures FindById(users, userId).Some? && userId in store && store[userId].isEnabled ==>
      out.result == Err(AlreadyEnabled)
    ensures FindById(users, userId).Some? && userId in store && !store[userId].isEnabled
      && !totp(token, store[userId].secret) ==> out.result == Err(InvalidToken)
    ensures out.result.Err? ==> out.store == store
    ensures out.result.Ok? ==>
      userId in store && out.result.value == EnableData(true, store[userId].backupCodes)
      && out.store == store[userId := store[userId].(isEnabled := true)]
  {
    if FindById(users, userId).None? then Step(Err(UserNotFound), store)
    else match FindByUserId(store, userId)
      case None => Step(Err(NotSetup), store)
      case Some(f) =>
        if f.isEnabled then Step(Err(AlreadyEnabled), store)
        else if !totp(token, f.secret) then Step(Err(InvalidToken), store)
        else
          var g := TwoFactor.Enable(f);
          Step(Ok(EnableData(true, g.backupCodes)), UpdateFactor(store, g))
  }

  /** Enable succeeds exactly for a known user with a disabled factor and a good code. */
  lemma EnableSucceedsIff(users: UserStore, store: Store, totp: TotpCheck, userId: string, token: string)
    ensures Enable(users, store, totp, userId, token).result.Ok? <==>
      FindById(users, userId).Some? && userId in store && !store[userId].isEnabled
      && totp(token, store[userId].secret)
  {
  }

  /** With the real TOTP check, a backup code (eight characters) never enables. */
  lemma BackupCodeCannotEnable(users: UserStore, store: Store, hmac: Totp.HmacSha1, nowMs: nat, userId: string, code: string)
    requires IsBackupCodeShape(code)
    ensures Enable(users, store, TotpAt(hmac, nowMs), userId, code).result.Err?
  {
    if userId in store {
      Totp.MalformedTokenRejected(code, store[userId].secret, hmac, nowMs);
    }
  }

  // ---------------------------------------------------------------------
  // Verify
  // ---------------------------------------------------------------------

  /**
   * VerifyTwoFactorAuth.execute: a TOTP code, or failing that a backup code,
   * which is then used up. The enabled flag is not consulted.
   */
  function Verify(users: UserStore, store: Store, totp: TotpCheck, userId: string, token: string): (out: Step<StateData>)
    ensures FindById(users, userId).None? ==> out.result == Err(UserNotFound)
    ensures FindById(users, userId).Some? && userId !in store ==> out.result == Err(NotSetup)
    ensures out.result.Ok? <==> FindById(users, userId).Some? && userId in store
      && (totp(token, store[userId].secret) || token in store[userId].backupCodes)
    ensures out.result.Err? ==> out.store == store
    ensures out.result.Ok? ==> out.result.value == StateData(store[userId].isEnabled)
    ensures out.result.Ok? && totp(token, store[userId].secret) ==> out.store == store
    ensures out.result.Ok? && !totp(token, store[userId].secret) ==>
      out.store == store[userId := RemoveBackupCode(store[userId], token)]
  {
    if FindById(users, userId).None? then Step(Err(UserNotFound), store)
    else match FindByUserId(store, userId)
      case None => Step(Err(NotSetup), store)
      case Some(f) =>
        if totp(token, f.secret) then Step(Ok(StateData(f.isEnabled)), store)
        else if !IsBackupCodeValid(f, token) then Step(Err(InvalidToken), store)
        else
          var g := RemoveBackupCode(f, token);
          Step(Ok(StateData(g.isEnabled)), UpdateFactor(store, g))
  }

  /** A backup code accepted once is refused the second time, unless it is then a TOTP code. */
  lemma BackupCodeSingleUse(users: UserStore, store: Store, totp: TotpCheck, userId: string, code: string)
    requires FindById(users, userId).Some? && userId in store
    requires multiset(store[userId].backupCodes)[code] == 1
    requires !totp(code, store[userId].secret)
    ensures Verify(users, store, totp, userId, code).result.Ok?
    ensures Verify(users, Verify(users, store, totp, userId, code).store, totp, userId, code).result == Err(InvalidToken)
  {
    TwoFactor.BackupCodeSingleUse(store[userId], code);
  }

  /** Verification ignores the enabled flag: a disabled factor verifies just the same. */
  lemma VerifyIgnoresEnabled(users: UserStore, store: Store, totp: TotpCheck, userId: string, token: string, enabled: bool)
    requires userId in store
    ensures Verify(users, store, totp, userId, token).result.Ok? ==
      Verify(users, store[userId := store[userId].(isEnabled := enabled)], totp, userId, token).result.Ok?
  {
  }

  // ---------------------------------------------------------------------
  // Disable
  // ---------------------------------------------------------------------

  /**
   * DisableTwoFactorAuth.execute. The password check is the keyed hash of
   * the password under `JWT_SECRET || 'default'`, compared with verifyHmac.
   */
  function Disable(users: UserStore, store: Store, hmac: Crypto.CreateHmac, env: Option<string>, userId: string, password: string): (out: Step<StateData>)
    ensures FindById(users, userId).None? ==> out.result == Err(UserNotFound)
    ensures FindById(users, userId).Some?
      && hmac(password, Crypto.SecretOrDefault(env)) != FindById(users, userId).value.password ==>
      out.result == Err(InvalidPassword)
    ensures FindById(users, userId).Some?
      && hmac(password, Crypto.SecretOrDefault(env)) == FindById(users, userId).value.password
      && (userId !in store || !store[userId].isEnabled) ==> out.result == Err(NotEnabled)
    ensures out.result.Err? ==> out.store == store
    ensures out.result.Ok? ==>
      userId in store && out.result.value == StateData(false)
      && out.store == store[userId := store[userId].(isEnabled := false)]
  {
    match FindById(users, userId)
    case None => Step(Err(UserNotFound), store)
    case Some(user) =>
      if !Crypto.PasswordMatches(hmac, env, password, user.password) then Step(Err(InvalidPassword), store)
      else match FindByUserId(store, userId)
        case None => Step(Err(NotEnabled), store)
        case Some(f) =>
          if !f.isEnabled then Step(Err(NotEnabled), store)
          else
            var g := TwoFactor.Disable(f);
            Step(Ok(StateData(false)), UpdateFactor(store, g))
  }

  /** A wrong password is reported even for a user who has no factor at all. */
  lemma WrongPasswordFirst(users: UserStore, store: Store, hmac: Crypto.CreateHmac, env: Option<string>, userId: string, password: string)
    requires FindById(users, userId).Some? && userId !in store
    requires hmac(password, Crypto.SecretOrDefault(env)) != FindById(users, userId).value.password
    ensures Disable(users, store, hmac, env, userId, password).result == Err(InvalidPassword)
  {
  }

  /** Disabling after enabling restores the flag and keeps secret and codes. */
  lemma EnableThenDisable(users: UserStore, store: Store, totp: TotpCheck, hmac: Crypto.CreateHmac, env: Option<string>, userId: string, token: string, password: string)
    requires Enable(users, store, totp, userId, token).result.Ok?
    requires Disable(users, Enable(users, store, totp, userId, token).store, hmac, env, userId, password).result.Ok?
    ensures Disable(users, Enable(users, store, totp, userId, token).store, hmac, env, userId, password).store == store
  {
  }

  // ---------------------------------------------------------------------
  // Re-setup over a disabled factor
  // ---------------------------------------------------------------------

  /**
   * As written: re-running setup over a disabled factor goes through the
   * update path, which does not write the secret. The stored secret stays
   * the old one while the response hands out a new one.
   */
  lemma ReSetupKeepsOldSecret(users: UserStore, store: Store, userId: string, secretBytes: seq<byte>, codeBytes: seq<seq<byte>>)
    requires |secretBytes| == Totp.SecretBytes && CodeBytes(codeBytes)
    requires FindById(users, userId).Some? && userId in store && !store[userId].isEnabled
    requires Base32.Decode(store[userId].secret) != secretBytes
    ensures Setup(users, store, userId, secretBytes, codeBytes).result.Ok?
    ensures Setup(users, store, userId, secretBytes, codeBytes).store[userId].secret == store[userId].secret
    ensures Setup(users, store, userId, secretBytes, codeBytes).result.value.secret != store[userId].secret
  {
  }

  /**
   * As written, after re-setup, enable checks codes against the OLD secret,
   * not against the secret the user was just given.
   */
  lemma ReSetupEnableChecksOldSecret(users: UserStore, store: Store, totp: TotpCheck, userId: string, secretBytes: seq<byte>, codeBytes: seq<seq<byte>>, token: string)
    requires |secretBytes| == Totp.SecretBytes && CodeBytes(codeBytes)
    requires FindById(users, userId).Some? && userId in store && !store[userId].isEnabled
    ensures Enable(users, Setup(users, store, userId, secretBytes, codeBytes).store, totp, userId, token).result.Ok?
      <==> totp(token, store[userId].secret)
  {
  }

  /** The setup the code evidently intends: the new factor is saved whole. */
  function SetupFixed(users: UserStore, store: Store, userId: string, secretBytes: seq<byte>, codeBytes: seq<seq<byte>>): (out: Step<SetupData>)
    requires |secretBytes| == Totp.SecretBytes && CodeBytes(codeBytes)
    ensures out.result == Setup(users, store, userId, secretBytes, codeBytes).result
    ensures out.result.Ok? ==> userId in out.store && out.store[userId] == New(userId, out.result.value.secret, out.result.value.backupCodes)
    ensures out.result.Ok? ==> OnlyRowChanged(store, out.store, userId)
    ensures out.result.Err? ==> out.store == store
  {
    match FindById(users, userId)
    case None => Step(Err(UserNotFound), store)
    case Some(user) =>
      var existing := FindByUserId(store, userId);
      if existing.Some? && existing.value.isEnabled then Step(Err(SetupAlreadyEnabled), store)
      else
        var secret := Totp.GenerateSecret(secretBytes);
        var codes := GenerateBackupCodes(codeBytes);
        Step(Ok(SetupData(secret, QrCode(user.email, secret), codes)), CreateFactor(store, New(userId, secret, codes)))
  }

  /**
   * With the corrected setup, the current code of the secret just handed out
   * enables two-factor authentication, whether or not a factor existed.
   */
  lemma SetupFixedThenEnable(users: UserStore, store: Store, userId: string, secretBytes: seq<byte>, codeBytes: seq<seq<byte>>, hmac: Totp.HmacSha1, nowMs: nat)
    requires |secretBytes| == Totp.SecretBytes && CodeBytes(codeBytes)
    requires SetupFixed(users, store, userId, secretBytes, codeBytes).result.Ok?
    ensures
      var out := SetupFixed(users, store, userId, secretBytes, codeBytes);
      var token := Totp.TokenAt(Base32.Decode(out.result.value.secret), hmac, Totp.TimeStep(nowMs));
      Enable(users, out.store, TotpAt(hmac, nowMs), userId, token).result.Ok?
  {
    var out := SetupFixed(users, store, userId, secretBytes, codeBytes);
    var secret := out.result.value.secret;
    Totp.CurrentCodeAccepted(secret, hmac, nowMs, nowMs);
  }
}
