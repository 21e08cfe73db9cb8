# Authentication service core, modelled in Dafny

This project models the decision logic of a TypeScript authentication service (Express, Inversify, TypeORM) as pure Dafny functions over explicit state.

**What is modelled**
- the TOTP engine with its base32 codec;
- the two-factor state machine and its four use cases;
- the single-use password-reset and e-mail-verification tokens;
- the two fixed-window rate limiters;
- login, refresh and the bearer-token middleware over an abstract JWT;
- the role, session, API-key, notification, data-export, bulk-operation, profile, metrics, performance, analytics and audit domain objects;
- the profile use cases;
- the pagination, token, HMAC-compare and environment-validation helpers.

**How the model is set up**
- Every use case is a transformer from a store to a result and a new store. A failure is the `ResponseErrorDomain` message and HTTP status the code throws, and it leaves every store unchanged.
- The clock is a parameter `now` in milliseconds.
- Randomness arrives as parameters: random bytes, UUIDs, tokens.
- Each cryptographic primitive is an oracle parameter with only the shape the code relies on: HMAC-SHA1 yields 20 bytes, SHA-256 yields 64 hex digits, bcrypt and the JWT library are abstract.
- Repositories become Dafny collections that follow their keys:
  - the password-reset and e-mail-verification tables are keyed by `user_id`;
  - the user table is searched first-match;
  - profiles are keyed by their unique `user_id`;
  - roles are keyed by `id`.

The files follow the program's layout:

| file | models |
|---|---|
| `bits.dfy`, `text.dfy`, `seqs.dfy`, `wrappers.dfy`, `clock.dfy` | JavaScript value semantics the rest relies on: bit strings, `toString`, `padStart`, `trim`, `join`, hex, `indexOf`/`splice`, results, and the hour and day in milliseconds |
| `base32.dfy`, `totp.dfy` | `totp.util.ts` |
| `twofactor.dfy`, `twofactor_schema.dfy`, `twofactor_usecases.dfy` | the two-factor domain, request schemas and use cases |
| `token_table.dfy`, `password_reset.dfy`, `email_verification.dfy` | the reset and verification tokens, their repositories and use cases |
| `rate_limit.dfy`, `api_rate_limit.dfy` | the rate-limit middleware and `ApiRateLimitDomain` |
| `jwt.dfy`, `authenticate_user.dfy`, `auth_middleware.dfy` | `jwt.util.ts`, `authenticateUser.ts`, `auth.middleware.ts` |
| `users.dfy`, `crypto.dfy`, `token_util.dfy`, `auth_util.dfy`, `pagination.dfy`, `env_validation.dfy`, `responses.dfy` | the user table, the utilities and the environment configuration |
| the remaining files | one domain object each, plus `role_management.dfy` and `profile_usecases.dfy` for their service and use cases |

## Model

| member | source | states |
|---|---|---|
| Base32.Encode | src/adapters/util/totp.util.ts:55-76 | The encoding of n bytes has exactly ceil(8n/5) characters: the bits of the bytes in groups of five, the last group zero-filled, with no padding. |
| Base32.EncodeBits | src/adapters/util/totp.util.ts:61-73 | A bit string of length n encodes to ceil(n/5) letters. |
| Base32.EncodeLoop | src/adapters/util/totp.util.ts:55-76 | The accumulator loop, with its shift, mask and final left shift, produces exactly `Encode(buffer)`. |
| Base32.EmitLetters | src/adapters/util/totp.util.ts:65-68 | The inner loop emits letters until fewer than five bits are pending. The bits consumed plus the bits pending stay equal to the input bits, and the output is the encoding of the consumed bits. |
| Base32.EncodeAlphabet | src/adapters/util/totp.util.ts:56-72 | Every character of an encoding lies in `A-Z2-7`. |
| Base32.SecretLength | src/adapters/util/totp.util.ts:7-10 | A 20-byte buffer encodes to exactly 32 characters. |
| Base32.ToUpper | src/adapters/util/totp.util.ts:91 | Upper-casing maps `a-z` to `A-Z` and leaves every other character alone. |
| Base32.IndexOf | src/adapters/util/totp.util.ts:92-96 | `alphabet.indexOf` finds the position of an alphabet letter and reports every other character, `=` included, as absent. |
| Base32.IndexOfLetter | src/adapters/util/totp.util.ts:84-92 | Looking up the letter of value g gives back g, and upper-casing leaves an alphabet letter unchanged. |
| Base32.Decode | src/adapters/util/totp.util.ts:83-108 | The decoded bytes number at most floor(5·len/8). |
| Base32.DecodeBits | src/adapters/util/totp.util.ts:90-105 | Decoding yields five bits per alphabet character and nothing for the others. |
| Base32.DecodeBitsAppend | src/adapters/util/totp.util.ts:90-105 | Decoding works character by character: the bits of a concatenation are the concatenated bits. |
| Base32.DecodeLoop | src/adapters/util/totp.util.ts:83-108 | The accumulator loop, which skips unknown characters and emits a byte whenever eight bits are pending, produces exactly `Decode(encoded)`. |
| Base32.DecodeEncodeBits | src/adapters/util/totp.util.ts:71-73 | Decoding the encoding of any bit string gives the bits back followed by the zero fill of the last group. |
| Base32.DecodeEncode | src/adapters/util/totp.util.ts:55-108 | Round trip: decoding the encoding of any byte string gives that byte string. |
| Base32.DecodeIgnoresCase | src/adapters/util/totp.util.ts:91 | Two strings that agree after upper-casing decode to the same bytes. |
| Base32.SkipsNonAlphabet | src/adapters/util/totp.util.ts:94-96 | Inserting a character outside the alphabet, such as `=`, anywhere in the input leaves the decoded bytes unchanged. |
| Totp.GenerateSecret | src/adapters/util/totp.util.ts:7-10 | The secret made from 20 random bytes has 32 characters and decodes back to those bytes. |
| Totp.TimeStep | src/adapters/util/totp.util.ts:20 | The step is the 30-second interval containing now: `t·30000 <= now < (t+1)·30000`. |
| Totp.Counter | src/adapters/util/totp.util.ts:24-26 | The counter block has 8 bytes. |
| Totp.BigEndianRoundTrip | src/adapters/util/totp.util.ts:26 | Reading back an n-byte big-endian encoding of v < 256^n gives v. |
| Totp.CounterValue | src/adapters/util/totp.util.ts:26 | The counter read as a big-endian integer is the step modulo 2^64, and the step itself for steps in range. |
| Totp.CounterInjective | src/adapters/util/totp.util.ts:26 | Distinct steps in range give distinct counter blocks. |
| Totp.CounterOfMinusOne | src/adapters/util/totp.util.ts:26 | Because `setBigUint64` wraps modulo 2^64, step -1 becomes eight 0xff bytes. |
| Totp.Offset | src/adapters/util/totp.util.ts:32 | The offset `digest[19] & 0x0f` is at most 15, so the four bytes read lie inside the 20-byte digest. |
| Totp.TruncatedFields | src/adapters/util/totp.util.ts:33-37 | The truncated value is below 2^27. The masked first byte and the three whole bytes can each be read back out of it. |
| Totp.Code | src/adapters/util/totp.util.ts:33-38 | Every code is below 1,000,000. |
| Totp.FormatCode | src/adapters/util/totp.util.ts:40 | The formatted code has exactly six decimal digits, and their value is the code. |
| Totp.FormatCodeInjective | src/adapters/util/totp.util.ts:40-42 | Different codes format to different texts, so leading zeros matter in the comparison. |
| Totp.TokenAt | src/adapters/util/totp.util.ts:24-40 | The token of a step is six characters long. |
| Totp.TokenShape | src/adapters/util/totp.util.ts:33-40 | Every step's token is six decimal digits naming that step's code. |
| Totp.Candidate | src/adapters/util/totp.util.ts:23-26 | The i-th candidate is six decimal digits whose value is the HOTP code of step t + i, the counter the source builds from `timeStep + i`. |
| Totp.VerifyToken | src/adapters/util/totp.util.ts:18-48 | The result is true iff the token string-equals the token of step t-1, t or t+1, where t is the current step. |
| Totp.MalformedTokenRejected | src/adapters/util/totp.util.ts:40-44 | A token that is not exactly six decimal digits never verifies. |
| Totp.NotAToken | src/adapters/util/totp.util.ts:40-44 | A token that is not six decimal digits differs from every step's token. |
| Totp.CurrentCodeAccepted | src/adapters/util/totp.util.ts:20-23 | The code issued in one step is accepted whenever the current step is that step or a neighbour of it. |
| Totp.StepInWindow | src/adapters/util/totp.util.ts:23 | A step's own token lies in the window of each neighbouring step. |
| Totp.GeneratedSecretKey | src/adapters/util/totp.util.ts:7-19 | A generated secret verifies a token iff the random key's window contains it. |
| Totp.RfcTruncated | src/adapters/util/totp.util.ts:34 | Reference truncation with the 0x7f mask of section 5.3 of RFC 4226: a value below 2^31. |
| Totp.TruncationDeviation | src/adapters/util/totp.util.ts:34 | The code's 0x07 mask and the RFC's 0x7f mask agree exactly when bits 3 to 6 of the first byte are clear. |
| Totp.TruncationDeviationExample | src/adapters/util/totp.util.ts:34-38 | A digest whose first byte is 8 yields code 0 here, while the RFC truncation gives 217728. |
| Text.PadStart | src/adapters/util/totp.util.ts:40 | `padStart(n, c)` leaves strings of length n or more alone and prefixes shorter ones with copies of c up to length n. |
| Text.DecimalRoundTrip | src/adapters/util/totp.util.ts:40 | The digits `toString` gives for n read back as n. |
| Text.LeadingZeros | src/adapters/util/totp.util.ts:40 | Leading zeros do not change the value of a digit string. |
| Text.UpperHex | src/domains/twoFactorAuth.domain.ts:54 | `toUpperCase` on hex text keeps the length and upper-cases each digit in place. |
| Text.Hex | src/adapters/util/token.util.ts:7-17 | `toString('hex')` gives two lower-case hex digits per byte. |
| Text.UnhexHex | src/adapters/util/token.util.ts:7-17 | Parsing the hex rendering gives the bytes back. |
| Text.HexInjective | src/adapters/util/token.util.ts:7-17 | Distinct byte strings render to distinct hex text. |
| Text.Decimal | src/adapters/util/totp.util.ts:40 | `toString` of a non-negative integer is at least one decimal digit, with no leading zero unless it is "0". |
| Text.StartsWith | src/infrastructure/middleware/auth.middleware.ts:101 | `startsWith(p)` holds iff the string is p followed by some rest. |
| Text.TrimStart | src/domains/userProfile.domain.ts:81 | Trimming the start drops a prefix made only of white space and keeps the rest, which does not begin with white space. A string that does not begin with white space is left alone. |
| Text.TrimEnd | src/domains/userProfile.domain.ts:81 | Trimming the end drops a suffix made only of white space and keeps the rest, which does not end with white space. A string that does not end with white space is left alone. |
| Base32.EncodeBitsAlphabet | src/adapters/util/totp.util.ts:61-73 | Every letter the bit-level encoder emits lies in `A-Z2-7`. |
| Base32.DecodeBitsIgnoresCase | src/adapters/util/totp.util.ts:91 | Strings that agree character by character after upper-casing decode to the same bits. |
| Totp.BigEndian | src/adapters/util/totp.util.ts:24-26 | The big-endian rendering has exactly the requested number of bytes. |
| Totp.FromBigEndian | src/adapters/util/totp.util.ts:26 | A big-endian byte string of length n reads as a value below 256^n. |
| Totp.BigEndianAllOnes | src/adapters/util/totp.util.ts:26 | The largest n-byte value renders as n bytes of 0xff. |
| TwoFactor.New | src/domains/twoFactorAuth.domain.ts:18-24 | A new factor is disabled and stores the user, secret and backup codes as given. |
| TwoFactor.Enable | src/domains/twoFactorAuth.domain.ts:27-29 | `enable` sets the flag and keeps user, secret and codes. |
| TwoFactor.Disable | src/domains/twoFactorAuth.domain.ts:32-34 | `disable` clears the flag and keeps user, secret and codes. |
| TwoFactor.EnableDisableLaws | src/domains/twoFactorAuth.domain.ts:27-34 | Enabling and disabling are idempotent, the later call wins, and each is a no-op in its own state. |
| TwoFactor.IsBackupCodeValid | src/domains/twoFactorAuth.domain.ts:37-39 | A code is valid iff it occurs in the list. |
| TwoFactor.RemoveBackupCode | src/domains/twoFactorAuth.domain.ts:42-47 | An absent code leaves the factor unchanged. A present one shortens the list by one, and exactly one copy of it leaves the multiset of codes. |
| TwoFactor.RemoveBackupCodeOrder | src/domains/twoFactorAuth.domain.ts:43-45 | The removal is `splice` at the first index: the codes before and after it keep their order. |
| TwoFactor.BackupCodeSingleUse | src/domains/twoFactorAuth.domain.ts:37-47 | A code that occurs once is valid before its removal and invalid after it. |
| TwoFactor.BackupCode | src/domains/twoFactorAuth.domain.ts:54 | A backup code made from 4 random bytes is 8 upper-case hex digits. |
| TwoFactor.GenerateBackupCodes | src/domains/twoFactorAuth.domain.ts:50-57 | Exactly 10 codes are generated, each 8 characters over `0-9A-F`. The i-th code is the upper-case hex of the i-th draw, and two different draws give two different codes. |
| TwoFactor.BackupCodeInjective | src/domains/twoFactorAuth.domain.ts:54 | Distinct random bytes give distinct backup codes. |
| TwoFactor.UpperHexInjective | src/domains/twoFactorAuth.domain.ts:54 | Upper-casing is injective on lower-case hex text. |
| TwoFactorSchema.TokenAccepted | src/adapters/controller/twoFactorAuth/twoFactorAuth.schema.ts:10-19 | A body the verify or enable schema admits carries a token of exactly six decimal digits. |
| TwoFactorSchema.SixDigitsPass | src/adapters/controller/twoFactorAuth/twoFactorAuth.schema.ts:10-19 | Conversely, a user id and a six-digit token pass both schemas. |
| TwoFactorSchema.DigitsUtf16Length | src/adapters/controller/twoFactorAuth/twoFactorAuth.schema.ts:12 | Digits are one UTF-16 unit each, so `length(6)` counts them exactly. |
| TwoFactorSchema.UserIdRequired | src/adapters/controller/twoFactorAuth/twoFactorAuth.schema.ts:6-23 | A body without a non-empty `userId` fails all four schemas. |
| TwoFactorSchema.BackupCodeRejected | src/adapters/controller/twoFactorAuth/twoFactorAuth.schema.ts:12-18 | No 8-character hex backup code passes the verify or the enable schema. |
| TwoFactorSchema.GeneratedBackupCodeRejected | src/adapters/controller/twoFactorAuth/twoFactorAuth.schema.ts:12 | No generated backup code passes the verify schema, so the backup-code branch of verify cannot be reached through this schema. |
| TwoFactorSchema.LongPasswordPasses | src/adapters/controller/twoFactorAuth/twoFactorAuth.schema.ts:22-25 | A user id with a password of eight or more characters passes the disable schema. |
| TwoFactorSchema.AstralPasswordPasses | src/adapters/controller/twoFactorAuth/twoFactorAuth.schema.ts:24 | `min(8)` counts UTF-16 units, so four emoji pass as a password of length 8. |
| TwoFactorSchema.SetupValid | src/adapters/controller/twoFactorAuth/twoFactorAuth.schema.ts:5-7 | A setup body is valid iff it has only a non-empty userId. |
| TwoFactorSchema.VerifyValid | src/adapters/controller/twoFactorAuth/twoFactorAuth.schema.ts:10-13 | A verify body is valid iff it has only a non-empty userId and a token of six UTF-16 units, all ASCII digits. |
| TwoFactorSchema.EnableValid | src/adapters/controller/twoFactorAuth/twoFactorAuth.schema.ts:16-19 | An enable body obeys the same rule as a verify body. |
| TwoFactorSchema.DisableValid | src/adapters/controller/twoFactorAuth/twoFactorAuth.schema.ts:22-25 | A disable body is valid iff it has only a non-empty userId and a password of at least 8 UTF-16 units. |
| TwoFactorUseCases.TotpAt | src/usecases/twoFactorAuth/enableTwoFactorAuth/enableTwoFactorAuth.ts:76 | The use cases' code check is `verifyTOTPToken(token, secret)` at one fixed instant. |
| TwoFactorUseCases.FindByUserId | src/adapters/repositories/twoFactorAuth/twoFactorAuth.repository.ts:43-66 | A factor is found iff a row for the user exists, and it is that row, enabled flag included. |
| TwoFactorUseCases.CreateFactor | src/adapters/repositories/twoFactorAuth/twoFactorAuth.repository.ts:23-41 | Creating stores the whole factor under its user and touches no other row. |
| TwoFactorUseCases.UpdateFactor | src/adapters/repositories/twoFactorAuth/twoFactorAuth.repository.ts:68-83 | An update writes only `isEnabled` and `backupCodes` of the user's row. Every secret and user id is unchanged, and a missing row is not created. |
| TwoFactorUseCases.Setup | src/usecases/twoFactorAuth/setupTwoFactorAuth/setupTwoFactorAuth.ts:39-94 | An unknown user gets 404 and an enabled factor gets 409, with the store unchanged. Otherwise setup succeeds: it returns a fresh 32-character secret, the QR URI and ten codes. The stored row is disabled, holds the new codes, and keeps the old secret when a row existed. |
| TwoFactorUseCases.Enable | src/usecases/twoFactorAuth/enableTwoFactorAuth/enableTwoFactorAuth.ts:38-101 | The errors come in order: unknown user, no factor, already enabled, bad TOTP code. On success only the enabled flag of the user's row is set and the codes are returned. A failure changes nothing. |
| TwoFactorUseCases.EnableSucceedsIff | src/usecases/twoFactorAuth/enableTwoFactorAuth/enableTwoFactorAuth.ts:44-88 | Enable succeeds exactly for a known user with a disabled factor and a code that the TOTP check accepts. |
| TwoFactorUseCases.BackupCodeCannotEnable | src/usecases/twoFactorAuth/enableTwoFactorAuth/enableTwoFactorAuth.ts:76-84 | An eight-character backup code never enables the factor, because it is never a six-digit TOTP token. |
| TwoFactorUseCases.Verify | src/usecases/twoFactorAuth/verifyTwoFactorAuth/verifyTwoFactorAuth.ts:38-100 | Verify succeeds iff the user and factor exist and the token is a TOTP code or one of the backup codes. A TOTP success changes nothing. A backup-code success removes that code. The reply carries the factor's enabled flag. |
| TwoFactorUseCases.BackupCodeSingleUse | src/usecases/twoFactorAuth/verifyTwoFactorAuth/verifyTwoFactorAuth.ts:66-87 | A backup code held once, which is not also a TOTP code, verifies once and is refused with INVALID_TOKEN the second time. |
| TwoFactorUseCases.VerifyIgnoresEnabled | src/usecases/twoFactorAuth/verifyTwoFactorAuth/verifyTwoFactorAuth.ts:55-66 | Whether verification succeeds does not depend on the enabled flag: a factor that was set up but never enabled verifies just the same. |
| TwoFactorUseCases.Disable | src/usecases/twoFactorAuth/disableTwoFactorAuth/disableTwoFactorAuth.ts:38-91 | The errors come in order: unknown user, then a password whose HMAC under `JWT_SECRET` (or `default`) differs from the stored hash, then no enabled factor. On success only the flag is cleared. |
| TwoFactorUseCases.WrongPasswordFirst | src/usecases/twoFactorAuth/disableTwoFactorAuth/disableTwoFactorAuth.ts:54-75 | The password is checked before the factor, so a user without a factor who gives a wrong password gets INVALID_PASSWORD, not NOT_ENABLED. |
| TwoFactorUseCases.EnableThenDisable | src/usecases/twoFactorAuth/disableTwoFactorAuth/disableTwoFactorAuth.ts:77-79 | A successful disable after a successful enable gives back exactly the store from before. |
| TwoFactorUseCases.ReSetupKeepsOldSecret | src/usecases/twoFactorAuth/setupTwoFactorAuth/setupTwoFactorAuth.ts:73-74 | As written, re-running setup over a disabled factor reports a new secret but keeps the old one in the store. |
| TwoFactorUseCases.ReSetupEnableChecksOldSecret | src/adapters/repositories/twoFactorAuth/twoFactorAuth.repository.ts:68-73 | After such a re-setup, enable accepts a code exactly when it is valid for the old secret. |
| TwoFactorUseCases.SetupFixed | src/usecases/twoFactorAuth/setupTwoFactorAuth/setupTwoFactorAuth.ts:71-77 | The corrected setup gives the same reply but stores the new factor whole, and touches no other row. |
| TwoFactorUseCases.SetupFixedThenEnable | src/usecases/twoFactorAuth/setupTwoFactorAuth/setupTwoFactorAuth.ts:67-93 | After the corrected setup, the current code of the secret it returned enables the factor. |
| TokenTable.DeleteByUserId | src/adapters/repositories/passwordReset/passwordReset.repository.ts:96-107 | Deleting by user removes exactly that user's rows, keeps every other row, and keeps the table keyed by user. |
| TokenTable.Save | src/adapters/repositories/passwordReset/passwordReset.repository.ts:23-42 | `save` on the `user_id` primary key is an upsert. The saved row is present, no other row appears, and other users' rows stay. On a keyed table the saved row is the user's only row. |
| TokenTable.FindByToken | src/adapters/repositories/passwordReset/passwordReset.repository.ts:44-68 | A row is found iff some row carries the token, and the row found carries it. |
| TokenTable.MarkRedeemed | src/adapters/repositories/passwordReset/passwordReset.repository.ts:109-120 | `update({ token }, { isUsed: true })` flags every row with the token and changes nothing else. |
| TokenTable.FindAfterMark | src/adapters/repositories/emailVerification/emailVerification.repository.ts:44-120 | After marking, a lookup by the token finds the same row as before, now flagged. |
| TokenTable.DeleteThenSave | src/adapters/repositories/emailVerification/emailVerification.repository.ts:23-107 | Deleting a user's row and then creating one leaves the user exactly the new row. |
| TokenTable.SaveOwnRow | src/adapters/repositories/passwordReset/passwordReset.repository.ts:23-42 | Saving into a table with no rows for the user leaves exactly the saved row. |
| TokenTable.SaveReplaces | src/adapters/repositories/passwordReset/passwordReset.repository.entity.ts:6-7 | Because `user_id` is the primary key, a save alone replaces the user's previous row. |
| TokenTable.DeleteKeepsOthers | src/adapters/repositories/passwordReset/passwordReset.repository.ts:96-107 | Deleting one user's rows leaves every other user's rows as they were. |
| TokenTable.SaveKeepsOthers | src/adapters/repositories/passwordReset/passwordReset.repository.ts:23-42 | Saving one user's row leaves every other user's rows as they were. |
| PasswordReset.NewReset | src/domains/passwordReset.domain.ts:18-24 | A new reset record stores user, e-mail, token and expiry as given and is not used. |
| PasswordReset.MarkAsUsed | src/domains/passwordReset.domain.ts:32-34 | `markAsUsed` sets the flag and changes nothing else. |
| PasswordReset.MarkAsUsedIdempotent | src/domains/passwordReset.domain.ts:32-34 | Marking twice is marking once. |
| PasswordReset.GenerateResetUrl | src/domains/passwordReset.domain.ts:37-39 | The URL is the base URL, then `/auth/reset-password?token=`, then the token. |
| PasswordReset.ResetUrlToken | src/domains/passwordReset.domain.ts:37-39 | The token can be read back off the end of the URL, so equal URLs over one base carry equal tokens. |
| PasswordReset.ExpiryIsStrict | src/domains/passwordReset.domain.ts:27-29 | `new Date() > expiresAt` is strict: a token is still good at its expiry instant and expired one millisecond later. |
| PasswordReset.SendPasswordReset | src/usecases/passwordReset/sendPasswordReset/sendPasswordReset.ts:39-83 | An unknown e-mail gets 404 and changes nothing. A known one leaves the user exactly one row: the fresh token, expiring one hour from now. The token is returned, other users' rows are untouched, and the users table never changes. |
| PasswordReset.ResetPassword | src/usecases/passwordReset/resetPassword/resetPassword.ts:38-88 | The errors come in order: unknown token, expired, already used. The reset succeeds iff the token's first row is unexpired and unused. Success marks every row with the token and writes the owner's password as the HMAC under `JWT_SECRET` or `default`. A failure changes nothing. |
| PasswordReset.ExpiryBeforeUse | src/usecases/passwordReset/resetPassword/resetPassword.ts:54-72 | A token that is both used and expired is reported as expired, because expiry is checked first. |
| PasswordReset.SingleUse | src/usecases/passwordReset/resetPassword/resetPassword.ts:64-76 | After one successful reset, the same token fails at any later or earlier time, as expired or as already used. |
| PasswordReset.ResetWritesOwnerPassword | src/usecases/passwordReset/resetPassword/resetPassword.ts:78-80 | After a successful reset the new password matches the owner's stored hash, and every other user is unchanged. |
| PasswordReset.IssuedTokenRedeems | src/usecases/passwordReset/sendPasswordReset/sendPasswordReset.ts:55-82 | A token just issued is redeemable at any instant within the following hour. |
| EmailVerification.NewVerification | src/domains/emailVerification.domain.ts:18-24 | A new verification record stores user, e-mail, token and expiry as given and is not verified. |
| EmailVerification.MarkAsVerified | src/domains/emailVerification.domain.ts:32-34 | `markAsVerified` sets the flag and changes nothing else. |
| EmailVerification.MarkAsVerifiedIdempotent | src/domains/emailVerification.domain.ts:32-34 | Marking twice is marking once. |
| EmailVerification.GenerateVerificationUrl | src/domains/emailVerification.domain.ts:37-39 | The URL is the base URL, then `/auth/verify-email?token=`, then the token. |
| EmailVerification.VerificationUrlToken | src/domains/emailVerification.domain.ts:37-39 | The token can be read back off the end of the URL, so equal URLs over one base carry equal tokens. |
| EmailVerification.SendEmailVerification | src/usecases/emailVerification/sendEmailVerification/sendEmailVerification.ts:39-75 | An unknown user id gets 404 and changes nothing. Otherwise the fresh token is saved, valid for 24 hours, with no delete first, and the token is returned. No other row appears, other users' rows stay, and the users table never changes. |
| EmailVerification.SendReplacesPrevious | src/adapters/repositories/emailVerification/emailVerification.repository.entity.ts:5-6 | Even without a delete, the `user_id` primary key leaves the user exactly one row after a send, and the table stays keyed. |
| EmailVerification.ResendEmailVerification | src/usecases/emailVerification/resendEmailVerification/resendEmailVerification.ts:39-83 | An unknown e-mail gets 404 and an already verified user is refused, with nothing changed. Otherwise the user's rows are replaced by exactly one fresh row valid for 24 hours, whose token is returned. Other users' rows are untouched. |
| EmailVerification.VerifyEmail | src/usecases/emailVerification/verifyEmail/verifyEmail.ts:36-70 | The errors come in order: unknown token, expired, already verified. Verification succeeds iff the token's first row is unexpired and unverified. Success marks the token's rows and sets the owner's `emailVerified`. A failure changes nothing. |
| EmailVerification.SecondVerifyFails | src/usecases/emailVerification/verifyEmail/verifyEmail.ts:47-58 | Verifying a token a second time fails: as expired if it has expired by then, otherwise as already verified. |
| EmailVerification.VerifiedOwnerCannotResend | src/usecases/emailVerification/resendEmailVerification/resendEmailVerification.ts:50-53 | Once a token is verified, its owner's resend is refused as already verified. |
| EmailVerification.ExpiryBeforeVerified | src/usecases/emailVerification/verifyEmail/verifyEmail.ts:47-55 | A token that is both verified and expired is reported as expired. |
| Users.FindById | src/usecases/twoFactorAuth/disableTwoFactorAuth/disableTwoFactorAuth.ts:44-52 | The lookup finds a row iff some row has the id, and the row found has it. |
| Users.FindByEmail | src/usecases/passwordReset/sendPasswordReset/sendPasswordReset.ts:45-53 | The lookup finds a row iff some row has the e-mail, and the row found has it. |
| Users.UpdatePassword | src/usecases/passwordReset/resetPassword/resetPassword.ts:79-80 | `updatePassword(id, hash)` rewrites the password of exactly the rows with that id and keeps every other row. |
| Users.UpdateEmailVerified | src/usecases/emailVerification/verifyEmail/verifyEmail.ts:61-62 | The status update sets the flag of exactly the rows with that id and keeps every other row. |
| Users.UpdatePasswordFound | src/usecases/passwordReset/resetPassword/resetPassword.ts:80 | After the update, a lookup of the id finds the same user as before, now with the new hash. |
| Users.UpdatePasswordOthers | src/usecases/passwordReset/resetPassword/resetPassword.ts:80 | A lookup of any other id is unchanged. |
| Users.UpdateEmailVerifiedFound | src/usecases/emailVerification/verifyEmail/verifyEmail.ts:62 | After the update, a lookup of the id finds the same user, now with the new flag. |
| Users.UpdateEmailVerifiedByEmail | src/usecases/emailVerification/resendEmailVerification/resendEmailVerification.ts:45-53 | The flag update leaves e-mail lookups meeting the same row, which carries the new flag if it is the updated user. |
| TokenUtil.GenerateToken | src/adapters/util/token.util.ts:7-17 | A token from 16 random bytes is 32 lower-case hex digits that parse back to those bytes. |
| TokenUtil.GeneratedTokensDistinct | src/adapters/util/token.util.ts:7-17 | Distinct random bytes give distinct tokens. |
| TokenUtil.VerifyToken | src/adapters/util/token.util.ts:34-37 | A token verifies iff its SHA-256 hex digest equals the stored hash. Only a 64-character lower-case hex value can ever match, and the token's own digest always does. |
| TokenUtil.VerifyOwnHash | src/adapters/util/token.util.ts:24-37 | A token verifies against its own hash, and so does any equal token. |
| TokenUtil.MalformedHashRejected | src/adapters/util/token.util.ts:24-37 | A stored hash that is not 64 characters long never verifies, because a SHA-256 hex digest always is. |
| AuthUtil.Pick | src/adapters/util/auth.util.ts:34 | `Math.floor(Math.random() * 62)` is an index below 62: the integer part of the draw times 62. |
| AuthUtil.TokenChar | src/adapters/util/auth.util.ts:31 | Every index below 62 names an ASCII letter or digit. |
| AuthUtil.TokenCharsTable | src/adapters/util/auth.util.ts:31 | `chars.charAt(k)` is the k-th of the upper-case letters, then the lower-case letters, then the digits. |
| AuthUtil.RandomToken | src/adapters/util/auth.util.ts:30-37 | A token has one alphanumeric character per draw. |
| AuthUtil.GenerateToken | src/adapters/util/auth.util.ts:30-37 | The loop builds a string of the requested length whose i-th character is `chars[floor(draw_i · 62)]`. |
| AuthUtil.TokenCharInjective | src/adapters/util/auth.util.ts:31 | The 62 characters are distinct, so a token determines the indices drawn. |
| AuthUtil.CompareOwnHash | src/adapters/util/auth.util.ts:11-23 | For a sound bcrypt, a password compares true against its own hash, whatever the salt. |
| AuthUtil.HashPassword | src/adapters/util/auth.util.ts:11-13 | A password is hashed by the bcrypt oracle with the given salt. |
| AuthUtil.ComparePassword | src/adapters/util/auth.util.ts:21-23 | A password is compared with a hash by the bcrypt oracle. |
| Crypto.CharUtf8 | src/adapters/util/crypto.util.ts:6-7 | One character encodes to one to four UTF-8 bytes. |
| Crypto.Utf8 | src/adapters/util/crypto.util.ts:6-7 | `Buffer.from(s, 'utf-8')` has between 1 and 4 bytes per character. |
| Crypto.SequenceLength | src/adapters/util/crypto.util.ts:6-7 | The lead byte of a UTF-8 sequence announces a length between 1 and 4. |
| Crypto.Points | src/adapters/util/crypto.util.ts:6-7 | A string has one code point per character. |
| Crypto.CharRoundTrip | src/adapters/util/crypto.util.ts:6-7 | The encoding of one character announces its own length and decodes back to the character. |
| Crypto.Utf8RoundTrip | src/adapters/util/crypto.util.ts:6-7 | Decoding the UTF-8 bytes of a string gives its code points back. |
| Crypto.PointsInjective | src/adapters/util/crypto.util.ts:6-7 | Strings with the same code points are equal. |
| Crypto.Utf8Injective | src/adapters/util/crypto.util.ts:6-7 | Strings with the same UTF-8 bytes are equal. |
| Crypto.TimingSafeEqual | src/adapters/util/crypto.util.ts:12 | `timingSafeEqual` throws iff the lengths differ, and otherwise reports byte equality after visiting every byte. |
| Crypto.VerifyHmacLoop | src/adapters/util/crypto.util.ts:5-16 | verifyHmac is true iff the two UTF-8 encodings are equal; the length throw is caught as false. |
| Crypto.VerifyHmac | src/adapters/util/crypto.util.ts:5-16 | verifyHmac is string equality. |
| Crypto.VerifyHmacAgrees | src/adapters/util/crypto.util.ts:5-16 | The byte-level loop and string equality agree on every pair of inputs. |
| Crypto.VerifyHmacReflexive | src/adapters/util/crypto.util.ts:5-16 | Every string verifies against itself. |
| Crypto.VerifyHmacSymmetric | src/adapters/util/crypto.util.ts:5-16 | The argument order does not matter. |
| Crypto.LengthMismatchRejected | src/adapters/util/crypto.util.ts:9-15 | Strings whose encodings differ in length are refused: the caught throw. |
| Crypto.SecretOrDefault | src/usecases/twoFactorAuth/disableTwoFactorAuth/disableTwoFactorAuth.ts:55 | `process.env.JWT_SECRET \|\| 'default'`: an unset or empty secret falls back to `default`. |
| Crypto.PasswordMatches | src/usecases/twoFactorAuth/disableTwoFactorAuth/disableTwoFactorAuth.ts:55-56 | A password matches iff its HMAC under that key equals the stored hash. |
| Pagination.GetPagination | src/adapters/util/pagination.util.ts:4-9 | The offset is a multiple of 10. It is 0 for a null page or a page of at most 1, and for page p >= 1 it is the first row of page p. |
| Pagination.Monotone | src/adapters/util/pagination.util.ts:4-9 | A later page never has an earlier offset. |
| Pagination.Consecutive | src/adapters/util/pagination.util.ts:2-9 | Consecutive pages from 1 on are exactly one limit of 10 apart. |
| RateLimit.Configure | src/infrastructure/middleware/rateLimit.middleware.ts:27-34 | Window and limit are taken as given. The message defaults to `Too many requests, please try again later`, and each skip option is on only when it is passed as true. |
| RateLimit.CeilSeconds | src/infrastructure/middleware/rateLimit.middleware.ts:58 | `Math.ceil(ms / 1000)` is the least whole number of seconds covering ms. |
| RateLimit.Remaining | src/infrastructure/middleware/rateLimit.middleware.ts:66 | `Math.max(0, limit - count)`: never negative, and either 0 or exactly the difference. |
| RateLimit.Handle | src/infrastructure/middleware/rateLimit.middleware.ts:36-86 | A missing or expired record restarts the window with count 1 and passes with no headers. Otherwise the count rises by one, even for a rejected request, and the request is rejected iff the count exceeds the limit. A rejection carries the message and a retry-after of ceil(remaining window / 1000) seconds. A pass sets limit, remaining and reset headers, and installs the send hook iff a skip option is on. |
| RateLimit.Complete | src/infrastructure/middleware/rateLimit.middleware.ts:73-82 | The send hook gives back one count exactly when the response is one the options skip: status below 400 or at least 400. No key appears or disappears and no reset time moves. |
| RateLimit.SkippedRequestNotCounted | src/infrastructure/middleware/rateLimit.middleware.ts:51-82 | A passed request inside a window whose response is skipped leaves the store exactly as it found it. |
| RateLimit.Outcomes | src/infrastructure/middleware/rateLimit.middleware.ts:36-61 | There is one pass-or-reject outcome per arriving request. |
| RateLimit.BurstInWindow | src/infrastructure/middleware/rateLimit.middleware.ts:50-61 | Inside an open window with count c, the j-th further request passes iff c + j + 1 <= the limit. |
| RateLimit.FreshWindow | src/infrastructure/middleware/rateLimit.middleware.ts:41-61 | From a fresh window, the first request always passes and the j-th passes iff j + 1 <= the limit. So exactly max(limit, 1) requests pass and the rest are refused. |
| RateLimit.WindowsStayBounded | src/infrastructure/middleware/rateLimit.middleware.ts:41-82 | Handling and completion keep every window ending at most `windowMs` after the current time, as the clock moves forward. |
| RateLimit.RetryAfterRange | src/infrastructure/middleware/rateLimit.middleware.ts:54-59 | With windows so bounded, retry-after lies between 0 and ceil(windowMs / 1000) seconds. |
| RateLimit.Cleanup | src/infrastructure/middleware/rateLimit.middleware.ts:146-153 | Cleanup removes exactly the expired records and keeps the rest unchanged. |
| RateLimit.CleanupInvisible | src/infrastructure/middleware/rateLimit.middleware.ts:41-48 | Cleaning up first changes no decision, and the resulting store agrees after cleanup: an expired record acts as a missing one. |
| RateLimit.GetDefaultKey | src/infrastructure/middleware/rateLimit.middleware.ts:94-98 | A non-empty `x-forwarded-for` yields its text before the first comma, untrimmed, or `unknown` if that is empty. Otherwise the key is `req.ip`, or `unknown`. The key is never empty. |
| RateLimit.ForwardedKeyExample | src/infrastructure/middleware/rateLimit.middleware.ts:96 | `10.0.0.1, 10.0.0.2` keys as `10.0.0.1`. |
| RateLimit.UntrimmedKeyExample | src/infrastructure/middleware/rateLimit.middleware.ts:96 | The first field is not trimmed, so ` 10.0.0.1,x` keys with its leading space. |
| RateLimit.EmptyFieldExample | src/infrastructure/middleware/rateLimit.middleware.ts:96-97 | An empty first field gives `unknown`; it does not fall back to `req.ip`. |
| RateLimit.PresetLimits | src/infrastructure/middleware/rateLimit.middleware.ts:106-141 | With default arguments, inside one fresh window and with no response completing in between, exactly the first 100 API, 5 authentication and 3 password-reset requests pass. The authentication limiter skips successful requests, so in the program each successful login hands its slot back (see RateLimit.SkippedRequestNotCounted) and more than 5 authentication requests can then pass. |
| RateLimit.SharedStore | src/infrastructure/middleware/rateLimit.middleware.ts:19 | There is one static store for all limiters, so five counts left under a key by any limiter make the authentication limiter refuse that key. |
| ApiRateLimit.ResetWindow | src/domains/apiRateLimit.domain.ts:36-40 | A reset opens a window now, ending `windowMs` later, with nothing counted. Identity, limit and window size are kept. |
| ApiRateLimit.Create | src/domains/apiRateLimit.domain.ts:24-33 | A new window stores user, endpoint, limit and size as given, opens now and counts nothing. |
| ApiRateLimit.IsLimitExceeded | src/domains/apiRateLimit.domain.ts:48-54 | An expired window is reset and reported as not exceeded. Otherwise the limit is exceeded iff count >= limit, and nothing changes. |
| ApiRateLimit.IncrementRequest | src/domains/apiRateLimit.domain.ts:57-62 | In an expired window the request opens a new window counting 1. Otherwise the count rises by one and nothing else changes. |
| ApiRateLimit.RemainingRequests | src/domains/apiRateLimit.domain.ts:65-70 | An expired window reports the whole limit. Otherwise the result is max(0, limit - count). |
| ApiRateLimit.TimeUntilReset | src/domains/apiRateLimit.domain.ts:73-78 | The method reads the clock twice, once for the expiry test and once for the subtraction. A window expired at the first reading reports 0; otherwise the result is the window's end minus the second reading. It is negative exactly when the window ends between the two readings, and then by no more than the time between them. |
| ApiRateLimit.RemainingInRange | src/domains/apiRateLimit.domain.ts:65-70 | For a non-negative limit, the remaining count lies between 0 and the limit. |
| ApiRateLimit.TimeUntilResetInRange | src/domains/apiRateLimit.domain.ts:73-78 | Once the window has opened, the time to reset is at most the window size and at least minus the time between the two clock readings; it is not negative when the second reading still falls inside the window. |
| ApiRateLimit.ResetBetweenReadings | src/domains/apiRateLimit.domain.ts:73-78 | A window still open at the first clock reading and ended 1 ms before the second reports -1. |
| ApiRateLimit.ExceededIffNoneRemaining | src/domains/apiRateLimit.domain.ts:48-70 | For a positive limit, the limit is exceeded exactly when no requests remain. |
| ApiRateLimit.IncrementAll | src/domains/apiRateLimit.domain.ts:57-62 | Counting a series of requests keeps the window well formed, with limit and size unchanged. |
| ApiRateLimit.IncrementsInWindow | src/domains/apiRateLimit.domain.ts:43-62 | n requests inside one window add exactly n to the count, and the limit is then exceeded iff count + n >= limit. |
| ApiRateLimit.FreshWindowAdmitsLimit | src/domains/apiRateLimit.domain.ts:24-62 | A fresh window reports the limit exceeded exactly once `limit` requests have been counted in it. |
| ApiRateLimit.IsWindowExpired | src/domains/apiRateLimit.domain.ts:43-45 | A window has expired strictly after its end. |
| EnvValidation.StringKey | src/infrastructure/config/env.validation.ts:20-66 | A missing key takes its default or fails as required. A listed value of an allow-listed key passes at once; any other value of such a key fails with "must be one of" first, and an empty one also with "is not allowed to be empty". A key without a list passes iff its value is non-empty and has at least the minimum number of UTF-16 units. A passing value is kept, and every failure names the key. |
| EnvValidation.NumberKey | src/infrastructure/config/env.validation.ts:25-27 | A missing numeric key takes its default. A present one is its conversion, or fails as not a number. |
| EnvValidation.ErrorsOf | src/infrastructure/config/env.validation.ts:93-96 | A number key contributes its one failure as a detail, or nothing if it passes. |
| EnvValidation.AllErrorsOf | src/infrastructure/config/env.validation.ts:93-96 | A string key contributes every detail it failed with, in order, or nothing if it passes. |
| EnvValidation.Details | src/infrastructure/config/env.validation.ts:93-96 | With `abortEarly: false`, every failing key contributes all its details in schema order, and there are none iff all thirteen keys pass. |
| EnvValidation.Check | src/infrastructure/config/env.validation.ts:19-75 | The schema accepts iff: both JWT secrets are present with at least 32 units; the three database names are present and non-empty; NODE_ENV and LOG_LEVEL, if set, are on their lists; the host and CORS origin, if set, are non-empty; every numeric key that is set converts. A rejection has at least one detail. |
| EnvValidation.ValueOr | src/infrastructure/config/env.validation.ts:22-73 | A configured value is either its default or the environment's value. |
| EnvValidation.CheckAccepted | src/infrastructure/config/env.validation.ts:19-75 | An accepted configuration meets every schema constraint, and each variable holds its environment value or its default. |
| EnvValidation.Message | src/infrastructure/config/env.validation.ts:187 | Joi's message for a detail begins with the quoted key. |
| EnvValidation.Item | src/infrastructure/config/env.validation.ts:187 | `path (message)` begins with the key. |
| EnvValidation.Items | src/infrastructure/config/env.validation.ts:186-187 | There is one item per detail, in the same order. |
| EnvValidation.FormatValidationError | src/infrastructure/config/env.validation.ts:185-189 | A single detail formats as its item alone, and any list begins with the first key. |
| EnvValidation.FormatListsEvery | src/infrastructure/config/env.validation.ts:185-189 | Every detail's item occurs in the formatted text. |
| EnvValidation.Validate | src/infrastructure/config/env.validation.ts:88-105 | A cached config is returned as it is. Otherwise a success is returned and cached, and a failure throws `Environment validation failed: ` followed by the formatted details, leaving the cache empty. |
| EnvValidation.ResetCache | src/infrastructure/config/env.validation.ts:194-196 | The cache is emptied. |
| EnvValidation.CachedConfigSticks | src/infrastructure/config/env.validation.ts:89-91 | After one success, every later call returns that config, whatever the environment says then. |
| EnvValidation.ResetRereads | src/infrastructure/config/env.validation.ts:194-196 | After a reset, validate succeeds exactly when the current environment passes the schema. |
| EnvValidation.ShortSecretReported | src/infrastructure/config/env.validation.ts:29-32 | A missing JWT_SECRET, or one shorter than 32 units, is rejected with a detail naming JWT_SECRET. |
| EnvValidation.RequiredKeyReported | src/infrastructure/config/env.validation.ts:29-57 | Each of the five required keys, when missing, is rejected with its own "is required" detail. |
| EnvValidation.AllowListReported | src/infrastructure/config/env.validation.ts:20-62 | A NODE_ENV or LOG_LEVEL outside its list is rejected with a detail naming the key and the list. |
| EnvValidation.EmptyAllowListedTwice | src/infrastructure/config/env.validation.ts:20-23 | An empty NODE_ENV is rejected, and the first two details are "must be one of" and "is not allowed to be empty" for NODE_ENV, in that order. |
| EnvValidation.EmptyLogLevelTwice | src/infrastructure/config/env.validation.ts:59-62 | An empty LOG_LEVEL is rejected with both the "must be one of" and the "is not allowed to be empty" detail. |
| EnvValidation.DefaultsApply | src/infrastructure/config/env.validation.ts:20-74 | With only valid required keys set, the config carries the defaults: development, 3000, localhost, 5432, info, `*`, 900000 and 100. |
| EnvValidation.ExactlyOneMode | src/infrastructure/config/env.validation.ts:121-139 | An accepted config is in exactly one of development, production and test. |
| EnvValidation.GetJwtConfig | src/infrastructure/config/env.validation.ts:160-166 | Both secrets of an accepted config are non-empty and at least 32 units long. |
| EnvValidation.DefaultRateLimit | src/infrastructure/config/env.validation.ts:68-74 | Without the two rate-limit variables, the configured window is 15 minutes and the limit is 100. |
| EnvValidation.IsDevelopment | src/infrastructure/config/env.validation.ts:121-123 | The mode is development iff NODE_ENV is `development`. |
| EnvValidation.IsProduction | src/infrastructure/config/env.validation.ts:129-131 | The mode is production iff NODE_ENV is `production`. |
| EnvValidation.IsTest | src/infrastructure/config/env.validation.ts:137-139 | The mode is test iff NODE_ENV is `test`. |
| EnvValidation.GetDatabaseConfig | src/infrastructure/config/env.validation.ts:145-154 | The database config is the validated host, port, name, user name and password. |
| EnvValidation.GetRateLimitConfig | src/infrastructure/config/env.validation.ts:172-178 | The rate-limit config is the validated window and request limit. |
| Text.Join | src/infrastructure/config/env.validation.ts:188 | `join(', ')` of one item is that item. Otherwise the text begins with the first item and is as long as the items plus one separator between each consecutive pair. |
| Text.JoinContains | src/infrastructure/config/env.validation.ts:188 | Every item occurs in the joined text. |
| Text.Utf16Length | src/infrastructure/config/env.validation.ts:31 | A string's length in UTF-16 units is at least its number of characters and at most twice it. |
| Text.FirstField | src/infrastructure/middleware/rateLimit.middleware.ts:96 | `split(',')[0]` is the longest prefix without a comma. |
| Text.FirstFieldAt | src/infrastructure/middleware/rateLimit.middleware.ts:96 | If the first comma is at position i, the first field is the text before it. |
| Text.Trim | src/domains/userProfile.domain.ts:81 | `trim()` gives the slice of the string that remains once white space alone is removed before and after it. The slice neither begins nor ends with white space. |
| Jwt.Seconds | src/adapters/util/jwt.util.ts:111 | The current second: the whole number s with s·1000 <= now < s·1000 + 1000. |
| Jwt.Sign | src/adapters/util/jwt.util.ts:29-32 | `jwt.sign` gives an HS256 token under the secret, with iat the current second and exp iat plus `expiresIn`. |
| Jwt.Verify | src/adapters/util/jwt.util.ts:73-85 | Verification returns the payload iff the token names HS256, was signed with this non-empty secret, and its exp, if present, is after the current second. Otherwise it throws. |
| Jwt.DecodeToken | src/adapters/util/jwt.util.ts:92-98 | Decoding gives the payload unchecked, and null only for unreadable text. |
| Jwt.IsTokenExpired | src/adapters/util/jwt.util.ts:105-112 | A token with no payload, no exp or exp 0 is expired. Otherwise it is expired iff now >= exp·1000. |
| Jwt.ExpiryAgreesWithVerify | src/adapters/util/jwt.util.ts:73-112 | For an HS256 token with a non-zero exp, isTokenExpired agrees with verify's own expiry check. |
| Jwt.NoExpIsExpiredButVerifies | src/adapters/util/jwt.util.ts:105-109 | A token without exp verifies forever, yet isTokenExpired calls it expired. |
| Jwt.AccessClaims | src/adapters/util/jwt.util.ts:4-10 | The access payload holds exactly `userId`, `email` and `role`. |
| Jwt.RefreshClaims | src/adapters/util/jwt.util.ts:42-46 | The refresh payload holds exactly `userId`, `type: 'refresh'` and a 64-character alphanumeric nonce. |
| Jwt.GenerateAccessToken | src/adapters/util/jwt.util.ts:18-33 | An access token is HS256 under the given secret, carries the claims, and expires 900 seconds, that is `15m`, after issue. |
| Jwt.GenerateRefreshToken | src/adapters/util/jwt.util.ts:19-52 | A refresh token is HS256 under the given secret, carries the refresh claims, and expires 604800 seconds, that is `7d`, after issue. |
| Jwt.GenerateTokenPair | src/adapters/util/jwt.util.ts:60-65 | Both tokens of a pair are signed with the one secret passed in: the access token carries the claims, the refresh token the user's refresh claims. |
| Jwt.GenerateTokenPairWith | src/adapters/util/jwt.util.ts:60-65 | The corrected pair has the same access token and refresh payload, but the refresh token is signed with the refresh secret. |
| Jwt.SignVerify | src/adapters/util/jwt.util.ts:29-85 | A token signed with a non-empty secret verifies under it iff the current second is before exp, and then yields the signed claims. |
| Jwt.LifetimeBounds | src/adapters/util/jwt.util.ts:29-85 | A token verifies for at least its lifetime less one second, and never once the full lifetime has passed. |
| Jwt.OnlySigningSecretVerifies | src/adapters/util/jwt.util.ts:73-85 | A token never verifies under a secret other than the one that signed it. |
| Jwt.VerifyIgnoresClaims | src/adapters/util/jwt.util.ts:73-85 | Whether a token verifies does not depend on its claims, so the refresh `type` claim is never checked by verify. |
| Jwt.OnlyHs256 | src/adapters/util/jwt.util.ts:74 | A token naming any algorithm other than HS256 is refused. |
| Jwt.PairLifetimes | src/adapters/util/jwt.util.ts:18-19 | The access token of a pair lives 15 minutes and the refresh token 7 days, to within one second. |
| Jwt.DecodeSigned | src/adapters/util/jwt.util.ts:92-98 | Decoding a token just signed gives its claims, iat and exp back. |
| AuthenticateUser.RoleOrDefault | src/usecases/user/authenticateUser/authenticateUser.ts:61 | `user.role \|\| 'user'`: a missing or empty role becomes `user`, so the role is never empty. |
| AuthenticateUser.ViewOf | src/usecases/user/authenticateUser/authenticateUser.ts:73-77 | The user in the response is id, e-mail and the role or its default. |
| AuthenticateUser.ClaimsOf | src/usecases/user/authenticateUser/authenticateUser.ts:58-62 | The access claims are exactly that view's id, e-mail and role. |
| AuthenticateUser.Pair | src/usecases/user/authenticateUser/authenticateUser.ts:57-64 | The access token is signed with `secret` and carries the user's claims. The refresh token carries the refresh claims and is signed with `secret` as written, or with `refreshSecret` when corrected. |
| AuthenticateUser.LoginWith | src/usecases/user/authenticateUser/authenticateUser.ts:20-91 | An unknown e-mail and a wrong password both give `Invalid credentials`. A throwing repository, configuration or signing gives `Authentication failed`. Login succeeds iff the user exists, bcrypt accepts, and the JWT configuration is valid with a non-empty secret. Success returns the user's view and token pair. |
| AuthenticateUser.Login | src/usecases/user/authenticateUser/authenticateUser.ts:56-64 | As written, both tokens of a login are signed with the access secret. |
| AuthenticateUser.LoginFixed | src/usecases/user/authenticateUser/authenticateUser.ts:56-64 | Corrected, the access token is under the access secret and the refresh token under the refresh secret. |
| AuthenticateUser.UnknownEmailSkipsCompare | src/usecases/user/authenticateUser/authenticateUser.ts:25-37 | For an unknown e-mail the answer does not depend on bcrypt or the configuration. |
| AuthenticateUser.UniformCredentialsError | src/usecases/user/authenticateUser/authenticateUser.ts:27-53 | An unknown e-mail and a wrong password give the same response, so it does not reveal which was wrong. |
| AuthenticateUser.RightPasswordLogsIn | src/usecases/user/authenticateUser/authenticateUser.ts:39-79 | With a sound bcrypt and a valid configuration, the password behind the stored hash always logs in. |
| AuthenticateUser.SubjectOf | src/usecases/user/authenticateUser/authenticateUser.ts:103 | `decoded.userId` counts only when it is present and non-empty. |
| AuthenticateUser.RefreshWith | src/usecases/user/authenticateUser/authenticateUser.ts:98-154 | Each of these is `Invalid refresh token`: a configuration failure, a token that does not verify under `refreshSecret`, a missing subject. An unknown subject is `User not found`. Refresh succeeds iff the token verifies, has a subject, the user exists and the access secret is non-empty; it then issues the user's new pair. |
| AuthenticateUser.Refresh | src/usecases/user/authenticateUser/authenticateUser.ts:100-128 | As written, refresh accepts only tokens verified under `refreshSecret`, but signs its new refresh token with `secret`. |
| AuthenticateUser.RefreshFixed | src/usecases/user/authenticateUser/authenticateUser.ts:100-128 | Corrected, the new refresh token is again under `refreshSecret`. |
| AuthenticateUser.LoginRefreshTokenRejected | src/usecases/user/authenticateUser/authenticateUser.ts:57-64 | As written, whenever the two secrets differ, the refresh token a login returns is refused by refresh at any time. |
| AuthenticateUser.LoginFixedRefreshes | src/usecases/user/authenticateUser/authenticateUser.ts:98-143 | Corrected, a login's refresh token refreshes for the same user for as long as it lives, to within one second. |
| AuthenticateUser.MissingSubjectRefused | src/usecases/user/authenticateUser/authenticateUser.ts:103-108 | A refresh token without a `userId`, or with an empty one, is refused before any lookup. |
| AuthMiddleware.Configure | src/infrastructure/middleware/auth.middleware.ts:24 | Options default to required, with no role restriction. |
| AuthMiddleware.RequireAuth | src/infrastructure/middleware/auth.middleware.ts:72-74 | requireAuth is required with no role restriction. |
| AuthMiddleware.RequireRoles | src/infrastructure/middleware/auth.middleware.ts:81-83 | requireRoles is required and restricted to the given roles. |
| AuthMiddleware.OptionalAuth | src/infrastructure/middleware/auth.middleware.ts:89-91 | optionalAuth is not required and has no role restriction. |
| AuthMiddleware.ExtractToken | src/infrastructure/middleware/auth.middleware.ts:98-106 | A token is extracted iff the header starts with `Bearer `, and the header is then `Bearer ` followed by the token. |
| AuthMiddleware.ExtractRoundTrip | src/infrastructure/middleware/auth.middleware.ts:101-102 | Whatever follows `Bearer ` comes back out as the token. |
| AuthMiddleware.SchemeIsCaseSensitive | src/infrastructure/middleware/auth.middleware.ts:101 | `startsWith` is case-sensitive, so a `bearer ` header carries no token. |
| AuthMiddleware.RoleOf | src/infrastructure/middleware/auth.middleware.ts:50 | The payload's role is its `role` claim, when it has one. |
| AuthMiddleware.Authenticate | src/infrastructure/middleware/auth.middleware.ts:23-66 | No token, or an empty one, gives 401 `Access token is required` when required, and passes with no user otherwise. A presented token passes with the verified payload iff JWT_SECRET is set, the token verifies and its role is allowed. A verified token with a refused role gets 403. Every other response is 401 `Invalid or expired token`. |
| AuthMiddleware.EmptyBearerIsNoToken | src/infrastructure/middleware/auth.middleware.ts:27-38 | The header `Bearer ` alone carries an empty token, which counts as no token. |
| AuthMiddleware.UnsetSecretRejects | src/infrastructure/middleware/auth.middleware.ts:41-44 | With JWT_SECRET unset or empty, every presented token gets 401 `Invalid or expired token`. |
| AuthMiddleware.PresetGates | src/infrastructure/middleware/auth.middleware.ts:72-91 | requireAuth never answers 403 and refuses token-less requests with 401. optionalAuth lets every token-less request through. |
| AuthMiddleware.RoleGate | src/infrastructure/middleware/auth.middleware.ts:50-58 | For a verified token, requireRoles passes exactly when the payload has a role and it is in the list. |
| AuthMiddleware.LoginRefreshTokenPassesRequireAuth | src/infrastructure/middleware/auth.middleware.ts:41-58 | As written, a login's refresh token is signed with JWT_SECRET. So requireAuth accepts it as an access token for its whole 7 days, and requireRoles turns it away with 403 only because it has no role. |
| AuthMiddleware.LoginFixedRefreshTokenRefused | src/infrastructure/middleware/auth.middleware.ts:46-64 | Corrected, with distinct secrets, a login's refresh token is refused as an access token with 401 by every gate. |
| Seqs.IndexOf | src/domains/userRole.domain.ts:48-49 | indexOf gives no position iff the value is absent; otherwise the position holds the value and no earlier position does. |
| Seqs.RemoveFirst | src/domains/userRole.domain.ts:47-53 | The indexOf + splice(index, 1) idiom leaves an absent value's list alone, otherwise shortens it by one and removes exactly one copy of the value from its multiset. |
| Seqs.RemoveFirstIsDropFirst | src/domains/userRole.domain.ts:47-53 | The splice agrees with an independent walk that drops the first occurrence and keeps every other element in order. |
| Seqs.RemoveOnlyOccurrence | src/domains/userRole.domain.ts:47-53 | Removing a value that occurs once leaves it absent. |
| Seqs.RemoveKeepsOthers | src/domains/userRole.domain.ts:47-53 | Removing one value keeps the count and the membership of every other value. |
| Seqs.DistinctOnce | src/domains/userRole.domain.ts:39-44 | In a list without duplicates each member occurs exactly once. |
| Seqs.AppendDistinct | src/domains/userRole.domain.ts:39-44 | Pushing a value that is absent keeps a list duplicate-free. |
| Seqs.RemoveAppended | src/domains/userRole.domain.ts:39-53 | Removing a value that was just pushed onto a list lacking it gives back the list. |
| Seqs.RemoveKeepsDistinct | src/domains/userRole.domain.ts:47-53 | The splice keeps a list duplicate-free. |
| UserRole.NewRole | src/domains/userRole.domain.ts:22-31 | A new role is active, holds exactly the given permissions, name and description, and both timestamps are the creation time. |
| UserRole.AddPermission | src/domains/userRole.domain.ts:38-44 | After addPermission the role has the permission; it had it before iff the role is unchanged; the permissions held are exactly the old ones plus the new one. |
| UserRole.RemovePermission | src/domains/userRole.domain.ts:46-53 | A missing permission leaves the role unchanged; otherwise one copy leaves the permission multiset and updatedAt is stamped. |
| UserRole.Activate | src/domains/userRole.domain.ts:55-59 | The role is active and stamped, every other field unchanged. |
| UserRole.Deactivate | src/domains/userRole.domain.ts:61-65 | The role is inactive and stamped, every other field unchanged. |
| UserRole.AddPermissionIdempotent | src/domains/userRole.domain.ts:38-44 | Adding twice equals adding once, and adding never creates a duplicate. |
| UserRole.RemoveRevokes | src/domains/userRole.domain.ts:46-53 | On a duplicate-free list the removed permission is no longer held and the list stays duplicate-free. |
| UserRole.AddThenRemove | src/domains/userRole.domain.ts:38-53 | Removing a permission that was just added restores the original list. |
| UserRole.ToggleKeepsPermissions | src/domains/userRole.domain.ts:55-65 | Activation and deactivation keep the permissions and undo each other up to the stamp. |
| UserRole.HasPermission | src/domains/userRole.domain.ts:34-36 | A role has a permission iff the permission is in its list. |
| RoleManagement.CreateRole | src/adapters/service/roleManagement/roleManagement.service.ts:42-63 | A taken name is a 409 with the table unchanged; otherwise the new active role is returned and stored under its id. |
| RoleManagement.UpdateRole | src/adapters/service/roleManagement/roleManagement.service.ts:65-106 | Unknown id is a 404; the call fails iff a truthy, different name is already taken (409), leaving the table unchanged; otherwise name, description and permissions are replaced as given, every other field is kept, and the row is written back. |
| RoleManagement.DeleteRole | src/adapters/service/roleManagement/roleManagement.service.ts:108-125 | The call fails with 404 iff the id is unknown; otherwise exactly that row is removed and every other row is kept. |
| RoleManagement.GetRole | src/adapters/service/roleManagement/roleManagement.service.ts:127-129 | A role is returned iff the id is stored, and it is the stored row. |
| RoleManagement.GetAllRoles | src/adapters/repositories/userRole/userRole.repository.ts:76-88 | findAll lists every stored active role exactly once and no other role, ordered by name. |
| RoleManagement.InsertByName | src/adapters/repositories/userRole/userRole.repository.ts:78-81 | Inserting a role into a name-ordered list keeps it name-ordered, adds exactly that role and keeps every other role. |
| RoleManagement.AssignPermission | src/adapters/service/roleManagement/roleManagement.service.ts:135-156 | Unknown id is a 404 with the table unchanged; otherwise addPermission is applied to the row and written back. |
| RoleManagement.RevokePermission | src/adapters/service/roleManagement/roleManagement.service.ts:158-179 | Unknown id is a 404 with the table unchanged; otherwise removePermission is applied to the row and written back. |
| RoleManagement.CreateAddsOne | src/adapters/service/roleManagement/roleManagement.service.ts:42-63 | A create with a fresh id and a free name adds exactly one row and keeps ids keyed and names unique. |
| RoleManagement.InsertKeepsValid | src/adapters/service/roleManagement/roleManagement.service.ts:44-55 | A role under a fresh id with a name no other role has keeps ids keyed and names unique. |
| RoleManagement.UpdateKeepsValid | src/adapters/service/roleManagement/roleManagement.service.ts:76-98 | Because a rename is checked for clashes first, every update keeps ids keyed and names unique. |
| RoleManagement.EmptyNameIgnored | src/adapters/service/roleManagement/roleManagement.service.ts:76 | An empty new name is falsy: the update behaves as if no name was given. |
| RoleManagement.RewriteKeepsValid | src/adapters/repositories/userRole/userRole.repository.ts:90-98 | Writing back a row whose id and name are unchanged keeps the table valid. |
| RoleManagement.PermissionChangesKeepValid | src/adapters/service/roleManagement/roleManagement.service.ts:135-179 | Assigning and revoking permissions keep ids keyed and names unique. |
| RoleManagement.DeleteKeepsValid | src/adapters/service/roleManagement/roleManagement.service.ts:108-125 | A delete keeps ids keyed and names unique. |
| RoleManagement.AssignThenRevoke | src/adapters/service/roleManagement/roleManagement.service.ts:135-179 | Assigning then revoking a permission the role lacked restores its permission list. |
| Session.NewSession | src/domains/session.domain.ts:26-43 | A new session is active, expires at the given instant, and is created and last accessed now. |
| Session.Deactivate | src/domains/session.domain.ts:51-53 | The session is inactive and no other field changes. |
| Session.UpdateLastAccessed | src/domains/session.domain.ts:56-58 | Only the last-access time changes, to now. |
| Session.ExtendSession | src/domains/session.domain.ts:61-65 | The expiry becomes now plus the given hours, whatever it was, and nothing else changes. |
| Session.ExtendedLifetime | src/domains/session.domain.ts:46-65 | After an extension the session is unexpired at a time iff that time is no later than now plus the hours. |
| Session.ExtendCanShorten | src/domains/session.domain.ts:61-65 | Extending a session that had ten hours left by one hour makes it expire sooner. |
| Session.DeactivateKeepsExpiry | src/domains/session.domain.ts:46-53 | Deactivating does not change whether a session is expired. |
| Session.IsExpired | src/domains/session.domain.ts:46-48 | A session is expired strictly after its expiry time. |
| ApiKey.GenerateApiKey | src/domains/apiKey.domain.ts:50-55 | A key is 67 characters: `ak_` then lower-case hex that decodes back to the 32 random bytes. |
| ApiKey.GeneratedKeysDistinct | src/domains/apiKey.domain.ts:50-55 | Different random bytes give different keys. |
| ApiKey.NewApiKey | src/domains/apiKey.domain.ts:34-47 | A new key stores the SHA-256 of its own key, is active, unused, without expiry, and takes the rate limit given or 1000. |
| ApiKey.VerifyApiKey | src/domains/apiKey.domain.ts:64-68 | A key verifies iff its SHA-256 hex equals the stored hash. Only a 64-character lower-case hex value can ever match, and the key's own digest always does. |
| ApiKey.NewKeyVerifies | src/domains/apiKey.domain.ts:39-68 | A new key verifies against its own stored hash, and never against a hash that is not 64 characters long. |
| ApiKey.Deactivate | src/domains/apiKey.domain.ts:89-92 | The key is inactive and stamped, every other field unchanged. |
| ApiKey.Activate | src/domains/apiKey.domain.ts:95-98 | The key is active and stamped, every other field unchanged. |
| ApiKey.RecordUsage | src/domains/apiKey.domain.ts:101-105 | One more use is counted, last use and updatedAt are now, and nothing else changes. |
| ApiKey.SetExpiration | src/domains/apiKey.domain.ts:108-111 | The expiry is the given date, stamped, every other field unchanged. |
| ApiKey.UpdatePermissions | src/domains/apiKey.domain.ts:114-117 | The key holds exactly the given permissions afterwards, stamped, every other field unchanged. |
| ApiKey.UpdateRateLimit | src/domains/apiKey.domain.ts:120-123 | The rate limit is the given one, stamped, every other field unchanged. |
| ApiKey.RecordAll | src/domains/apiKey.domain.ts:101-105 | After a series of uses the last use is the time of the final one. |
| ApiKey.RecordAllCounts | src/domains/apiKey.domain.ts:101-105 | n recorded uses add exactly n to the count and change nothing but the usage fields. |
| ApiKey.ValidityWindow | src/domains/apiKey.domain.ts:71-111 | A key without expiry is valid while active; after setExpiration(d) it is valid at t iff t is no later than d; a deactivated key is never valid. |
| ApiKey.IsExpired | src/domains/apiKey.domain.ts:71-76 | A key without an expiry never expires; one with an expiry is expired strictly after it. |
| ApiKey.IsValid | src/domains/apiKey.domain.ts:79-81 | A key is valid iff it is active and not expired. |
| ApiKey.HasPermission | src/domains/apiKey.domain.ts:84-86 | A key has a permission iff the permission is in its list. |
| Notification.DefaultMaxRetries | src/domains/notification.domain.ts:75-88 | The retry budget is between 0 and 3, and it is 0 exactly for in-app notifications. |
| Notification.Lifetime | src/domains/notification.domain.ts:91-107 | Every priority gives a notification a positive lifetime. |
| Notification.LifetimeOrdered | src/domains/notification.domain.ts:94-105 | The more urgent the priority, the shorter the lifetime: 1 day for urgent, 7 for high, 30 for medium and 90 for low. |
| Notification.NewNotification | src/domains/notification.domain.ts:44-72 | A new notification is pending, never retried, defaults to medium priority, takes its channel's retry budget and expires one lifetime of its priority after creation. |
| Notification.IsReadyToSend | src/domains/notification.domain.ts:110-115 | Ready iff pending, not before its schedule and not past its expiry. |
| Notification.MarkAsSent | src/domains/notification.domain.ts:123-127 | Status becomes sent with sentAt and updatedAt now, nothing else changes. |
| Notification.MarkAsDelivered | src/domains/notification.domain.ts:130-134 | Status becomes delivered with deliveredAt and updatedAt now, nothing else changes. |
| Notification.MarkAsFailed | src/domains/notification.domain.ts:137-141 | Status becomes failed and one more attempt is counted, nothing else changes. |
| Notification.MarkAsRead | src/domains/notification.domain.ts:144-148 | Status becomes read with readAt and updatedAt now, nothing else changes. |
| Notification.GetDeliveryStatus | src/domains/notification.domain.ts:151-167 | Each of the five delivery states holds iff its condition does: expired first, then completed for read or delivered, in progress for sent, failed for a failure without retries left, pending otherwise. |
| Notification.FailTimes | src/domains/notification.domain.ts:137-141 | After at least one failure the status is failed. |
| Notification.RetryBudget | src/domains/notification.domain.ts:118-141 | After k failures a fresh notification has counted k attempts, and can retry iff k is below its budget. |
| Notification.FailCount | src/domains/notification.domain.ts:137-141 | k failures add exactly k to the retry count and keep the budget. |
| Notification.InAppFailsForGood | src/domains/notification.domain.ts:160-167 | An in-app notification that failed once is failed for good while unexpired. |
| Notification.EmailRetriesAfterFailure | src/domains/notification.domain.ts:160-167 | An e-mail that failed once can retry and is reported as pending delivery. |
| Notification.FreshReadyWindow | src/domains/notification.domain.ts:91-115 | A fresh unscheduled notification is ready to send exactly until one lifetime after its creation. |
| Notification.CanRetry | src/domains/notification.domain.ts:118-120 | A notification can be retried iff it has failed and its retry count is below its budget. |
| Notification.IsExpired | src/domains/notification.domain.ts:151-153 | A notification without an expiry never expires; one with an expiry is expired strictly after it. |
| Notification.IsUrgent | src/domains/notification.domain.ts:156-158 | A notification is urgent iff its priority is urgent. |
| DataExport.NewExport | src/domains/dataExport.domain.ts:38-56 | A new export is pending, has no file, and expires seven days after creation. |
| DataExport.StartProcessing | src/domains/dataExport.domain.ts:59-61 | Status becomes processing and nothing else changes. |
| DataExport.CompleteExport | src/domains/dataExport.domain.ts:64-69 | Status becomes completed with the file path, size and completion time recorded, nothing else changes. |
| DataExport.FailExport | src/domains/dataExport.domain.ts:72-75 | Status becomes failed with the completion time stamped, and any file fields are kept. |
| DataExport.GetDownloadUrl | src/domains/dataExport.domain.ts:78-93 | A URL is returned iff the export is completed, unexpired and has a non-empty path, and it is the base URL followed by `/exports/<id>/download`; otherwise the call fails with its message. |
| DataExport.ExtendExpiration | src/domains/dataExport.domain.ts:96-99 | The expiry becomes the given number of days from now, whatever it was, and nothing else changes. |
| DataExport.DownloadWindow | src/domains/dataExport.domain.ts:64-93 | A completed export with a non-empty path is downloadable at a time iff that time is no later than its expiry. |
| DataExport.OnlyCompletedDownloads | src/domains/dataExport.domain.ts:83-93 | Neither a new export nor a failed one yields a download URL. |
| DataExport.EmptyPathRefused | src/domains/dataExport.domain.ts:89 | An empty path is falsy: a completed export with one yields no URL. |
| DataExport.ExtendCanShorten | src/domains/dataExport.domain.ts:96-99 | Extending a fresh export by one day makes it expire before its original seven days. |
| DataExport.IsExpired | src/domains/dataExport.domain.ts:78-80 | An export is expired strictly after its expiry time. |
| DataExport.CanDownload | src/domains/dataExport.domain.ts:83-85 | An export can be downloaded iff it is completed and not expired. |
| BulkOperations.NewOperation | src/domains/bulkOperations.domain.ts:42-62 | A new operation is pending with nothing processed, zero progress, no errors and no timestamps but its creation. |
| BulkOperations.Truncate | src/domains/bulkOperations.domain.ts:122 | The millisecond value a Date keeps is the real truncated toward zero: within one below a non-negative real and within one above a negative one. |
| BulkOperations.EstimateCompletion | src/domains/bulkOperations.domain.ts:111-123 | Without a start time or with nothing processed the operation is unchanged; otherwise an estimate is set and nothing else changes. |
| BulkOperations.EstimateNotPast | src/domains/bulkOperations.domain.ts:111-123 | With time moving forward and no more processed than total, the estimate is never before now, and it is exactly now once every item is processed. |
| BulkOperations.StartProcessing | src/domains/bulkOperations.domain.ts:65-69 | Status becomes processing, started now, and only the estimate may change besides. |
| BulkOperations.Complete | src/domains/bulkOperations.domain.ts:72-76 | Status becomes completed at exactly 100 percent, completed now, nothing else changes. |
| BulkOperations.Fail | src/domains/bulkOperations.domain.ts:79-85 | Status becomes failed, completed now; a non-empty message becomes the single first error only when there were no errors, otherwise the errors are kept. |
| BulkOperations.Cancel | src/domains/bulkOperations.domain.ts:88-91 | Status becomes cancelled, completed now, nothing else changes. |
| BulkOperations.Percent | src/domains/bulkOperations.domain.ts:98 | The percentage is a finite number iff the total is non-zero, and then it times the total is the part times 100. |
| BulkOperations.UpdateProgress | src/domains/bulkOperations.domain.ts:94-100 | The three counters take the given values, progress is the processed share of the total, and only the estimate may change besides. |
| BulkOperations.AddError | src/domains/bulkOperations.domain.ts:103-108 | Exactly one entry is appended after the earlier errors, an absent list counting as empty, and nothing else changes. |
| BulkOperations.SuccessRate | src/domains/bulkOperations.domain.ts:136-139 | The rate is 0 with nothing processed, else the successful share of the processed items in percent. |
| BulkOperations.ErrorRate | src/domains/bulkOperations.domain.ts:142-145 | The rate is 0 with nothing processed, else the failed share of the processed items in percent. |
| BulkOperations.ActiveOrFinished | src/domains/bulkOperations.domain.ts:126-133 | Every operation is exactly one of active and finished. |
| BulkOperations.TransitionsClassify | src/domains/bulkOperations.domain.ts:65-133 | Complete, fail and cancel finish an operation; starting makes it active. |
| BulkOperations.RatesPartition | src/domains/bulkOperations.domain.ts:136-145 | When every processed item succeeded or failed, the two rates add up to 100 percent in exact arithmetic. The program's doubles can miss 100 by rounding. |
| BulkOperations.RateBounds | src/domains/bulkOperations.domain.ts:136-139 | With no more successes than processed items, the success rate lies between 0 and 100 percent. |
| BulkOperations.ProgressFull | src/domains/bulkOperations.domain.ts:94-100 | Progress reads exactly 100 percent once every item of a non-empty batch is processed. |
| BulkOperations.FailKeepsErrors | src/domains/bulkOperations.domain.ts:79-108 | Failing never drops an error that addError recorded. |
| BulkOperations.IsActive | src/domains/bulkOperations.domain.ts:126-128 | An operation is active iff it is pending or processing. |
| BulkOperations.IsFinished | src/domains/bulkOperations.domain.ts:131-133 | An operation is finished iff it is completed, failed or cancelled. |
| UserProfile.NewProfile | src/domains/userProfile.domain.ts:60-77 | A new profile has the given names, UTC, English, e-mail notifications only with the automatic theme, no optional fields, and is not complete. |
| UserProfile.FullName | src/domains/userProfile.domain.ts:80-82 | The full name is never longer than both names and the joining space. |
| UserProfile.CheckCompletion | src/domains/userProfile.domain.ts:92-101 | The flag is set iff both names are non-empty, a non-empty phone is present and a date of birth is present; nothing else changes. |
| UserProfile.Override | src/domains/userProfile.domain.ts:86 | A provided value replaces the current one; an absent one keeps it. |
| UserProfile.OverrideOptional | src/domains/userProfile.domain.ts:86 | A provided optional value replaces the current one; an absent one keeps it. |
| UserProfile.Assign | src/domains/userProfile.domain.ts:85-86 | Object.assign of an update never changes the id, owner, creation time, completion flag or stamp. |
| UserProfile.UpdateProfile | src/domains/userProfile.domain.ts:85-89 | Exactly the provided fields are overwritten, id, owner and creation time are kept, the profile is stamped now, and the flag afterwards agrees with the completion rule. |
| UserProfile.Merge | src/domains/userProfile.domain.ts:105 | Each preference takes the provided value when there is one, else keeps the current one. |
| UserProfile.UpdatePreferences | src/domains/userProfile.domain.ts:104-107 | The preferences become the merge and the profile is stamped; nothing else changes. |
| UserProfile.SetAvatar | src/domains/userProfile.domain.ts:110-113 | The avatar is the given URL and the profile is stamped; nothing else changes. |
| UserProfile.RemoveAvatar | src/domains/userProfile.domain.ts:116-119 | The avatar is gone and the profile is stamped; nothing else changes. |
| UserProfile.TrimPlain | src/domains/userProfile.domain.ts:81 | A string without white space at either end is its own trim. |
| UserProfile.FullNameOfPlainNames | src/domains/userProfile.domain.ts:80-82 | Two names without surrounding white space give the full name first, space, last. |
| UserProfile.FullNameWithoutLastName | src/domains/userProfile.domain.ts:80-82 | Without a last name the full name is the first name, the joining space trimmed away. |
| UserProfile.UpdateDecidesCompletion | src/domains/userProfile.domain.ts:85-101 | After an update the profile is complete iff the assigned fields meet the rule, whatever the flag was. |
| UserProfile.SupplyingFieldsCompletes | src/domains/userProfile.domain.ts:85-101 | Supplying both names, a non-empty phone and a date of birth completes a profile; an empty phone never does. |
| UserProfile.EmptyUpdate | src/domains/userProfile.domain.ts:85-89 | An update carrying nothing only stamps the profile and recomputes its flag. |
| UserProfile.UpdateIdempotent | src/domains/userProfile.domain.ts:85-89 | Applying the same update twice equals applying it once at the later time. |
| UserProfile.MergeLaws | src/domains/userProfile.domain.ts:105 | Merging nothing keeps every preference; merging twice keeps the later value for each key. |
| UserProfile.AvatarRoundTrip | src/domains/userProfile.domain.ts:110-119 | Setting then removing the avatar leaves no avatar and every other field as it was. |
| UserProfile.IsComplete | src/domains/userProfile.domain.ts:92-101 | The completion rule: first and last name non-empty, a non-empty phone and a date of birth. |
| ProfileUseCases.IfTruthy | src/usecases/userProfile/createUserProfile/createUserProfile.ts:67-70 | A string field is copied iff it is present and non-empty; otherwise the current value stays. |
| ProfileUseCases.Build | src/usecases/userProfile/createUserProfile/createUserProfile.ts:65-71 | The built profile has the request's names, the truthy phone, bio, timezone and language or the defaults, the date of birth as given, and is not complete. |
| ProfileUseCases.CreateUserProfile | src/usecases/userProfile/createUserProfile/createUserProfile.ts:37-88 | A missing user is a 404 and an existing profile a 409, both leaving the table unchanged; the call succeeds iff neither applies, storing the built profile under the user and reporting it as not complete. |
| ProfileUseCases.CreateUserProfileFixed | src/usecases/userProfile/createUserProfile/createUserProfile.ts:65-87 | The same create with the completion check applied: the reported flag agrees with the completion rule on the stored profile. |
| ProfileUseCases.CreateReportsIncomplete | src/usecases/userProfile/createUserProfile/createUserProfile.ts:65-87 | As written, a create that supplies every completion field stores and reports a profile that meets the rule as not complete. |
| ProfileUseCases.CreateFixedReportsCompletion | src/usecases/userProfile/createUserProfile/createUserProfile.ts:65-87 | With the check applied, the stored flag agrees with the rule, and a request supplying every completion field reports complete. |
| ProfileUseCases.UpdatesOf | src/usecases/userProfile/updateUserProfile/updateUserProfile.ts:39 | The destructured updates carry every request field except the user id, and no preferences. |
| ProfileUseCases.UpdateUserProfile | src/usecases/userProfile/updateUserProfile/updateUserProfile.ts:36-81 | A missing user or a missing profile is a 404 with the table unchanged; the call succeeds iff both exist, storing the domain update and reporting its id and flag. |
| ProfileUseCases.UseCasesKeepKeys | src/usecases/userProfile/createUserProfile/createUserProfile.ts:54-74 | Both use cases keep every profile filed under its own user, and the update never adds or removes a profile. |
| ProfileUseCases.FiledUnderOwnUser | src/usecases/userProfile/createUserProfile/createUserProfile.ts:74 | Filing a profile under its own user keeps the table keyed by user. |
| ProfileUseCases.UpdateReportsStoredCompletion | src/usecases/userProfile/updateUserProfile/updateUserProfile.ts:64-80 | The reported flag is the completion rule applied to the stored profile, and the update keeps its preferences. |
| ProfileUseCases.CreateThenUpdate | src/usecases/userProfile/updateUserProfile/updateUserProfile.ts:36-81 | A profile just created can be updated at once, and the update reports the created profile's id. |
| ApplicationMetrics.NewMetric | src/domains/applicationMetrics.domain.ts:22-37 | A new metric records its type, value and unit, taken now. |
| ApplicationMetrics.GetSeverity | src/domains/applicationMetrics.domain.ts:47-78 | A metric is CRITICAL iff it is over its type's critical limit. |
| ApplicationMetrics.LimitsOf | src/domains/applicationMetrics.domain.ts:47-78 | For each rated type the medium, high and critical limits are positive and strictly increasing. |
| ApplicationMetrics.Tier | src/domains/applicationMetrics.domain.ts:63-78 | The severity is the highest limit the value strictly exceeds, LOW when it exceeds none. |
| ApplicationMetrics.SeverityFollowsLimits | src/domains/applicationMetrics.domain.ts:47-78 | getSeverity is the tiering by the type's limits for error rate, CPU, memory and response time, and LOW for every other type. |
| ApplicationMetrics.Rank | src/domains/applicationMetrics.domain.ts:63 | Severities are ordered from LOW (0) to CRITICAL (3). |
| ApplicationMetrics.SeverityMonotone | src/domains/applicationMetrics.domain.ts:47-78 | For a fixed type, a larger value is never less severe. |
| ApplicationMetrics.RecentForAnHour | src/domains/applicationMetrics.domain.ts:40-44 | A metric is recent exactly until one hour after it was taken. |
| ApplicationMetrics.IsRecent | src/domains/applicationMetrics.domain.ts:40-44 | A metric is recent iff its timestamp is after the instant one hour before now. |
| ApplicationMetrics.IsCritical | src/domains/applicationMetrics.domain.ts:47-60 | A metric is critical above 5 for the error rate, 80 for CPU, 85 for memory and 1000 for response time; other types never are. |
| PerformanceMonitoring.NewSample | src/domains/performanceMonitoring.domain.ts:30-49 | A new sample records the request as given, taken now, with no resource usage. |
| PerformanceMonitoring.PerformanceGrade | src/domains/performanceMonitoring.domain.ts:52-73 | Each grade holds iff its band does: A fast and successful, B over half a second, C slow, D failed, F critical. |
| PerformanceMonitoring.Rank | src/domains/performanceMonitoring.domain.ts:67 | Grades are ordered from A (0) to F (4). |
| PerformanceMonitoring.GradeMonotone | src/domains/performanceMonitoring.domain.ts:52-73 | For a fixed status, a slower response never earns a better grade. |
| PerformanceMonitoring.ServerErrorFails | src/domains/performanceMonitoring.domain.ts:62-68 | A server error grades F however fast the response was. |
| PerformanceMonitoring.IsSlow | src/domains/performanceMonitoring.domain.ts:52-54 | A request is slow iff it took more than 1000 ms. |
| PerformanceMonitoring.IsFailed | src/domains/performanceMonitoring.domain.ts:57-59 | A request failed iff its status is 400 or more. |
| PerformanceMonitoring.IsCritical | src/domains/performanceMonitoring.domain.ts:62-64 | A request is critical iff it took more than 5000 ms or its status is 500 or more. |
| UserAnalytics.NewEvent | src/domains/userAnalytics.domain.ts:28-49 | A new event records its user, type, name and optional context as given, taken now. |
| UserAnalytics.Category | src/domains/userAnalytics.domain.ts:69-85 | Log-ins and log-outs are Authentication; page views are Navigation; feature use is Engagement; errors and conversions have their own categories. |
| UserAnalytics.CategoryClasses | src/domains/userAnalytics.domain.ts:69-85 | Two events share a category iff their types are equal or both are log-in or log-out. |
| UserAnalytics.RecentForAnHour | src/domains/userAnalytics.domain.ts:52-56 | An event is recent exactly until one hour after it was recorded. |
| UserAnalytics.IsRecent | src/domains/userAnalytics.domain.ts:52-56 | An event is recent iff its timestamp is after the instant one hour before now. |
| UserAnalytics.IsConversion | src/domains/userAnalytics.domain.ts:59-61 | An event is a conversion iff its type is CONVERSION. |
| UserAnalytics.IsError | src/domains/userAnalytics.domain.ts:64-66 | An event is an error iff its type is ERROR. |
| SecurityAudit.NewAuditEvent | src/domains/securityAudit.domain.ts:26-45 | A new entry records its fields as given, taken now, with severity LOW when none is given. |
| SecurityAudit.DefaultIsRoutine | src/domains/securityAudit.domain.ts:31-50 | An entry logged without a severity is never high priority. |
| SecurityAudit.RecentForADay | src/domains/securityAudit.domain.ts:53-57 | An entry is recent exactly until 24 hours after it was logged. |
| SecurityAudit.IsHighPriority | src/domains/securityAudit.domain.ts:48-50 | An audit event is high priority iff its severity is HIGH or CRITICAL. |
| SecurityAudit.IsRecent | src/domains/securityAudit.domain.ts:53-57 | An audit event is recent iff its timestamp is after the instant 24 hours before now. |

## Left out

- AuthMiddleware.Authenticate and RateLimit.Handle: the two middlewares take their statuses from `HTTP_STATUS_CODES` of the `http-status-codes` package. That package exports `StatusCodes`, as the rest of the code imports it, and no `HTTP_STATUS_CODES`. The model takes each `HTTP_STATUS_CODES.X` to be the status it names (401, 403 and 429). As written the import does not type-check, and untyped code would throw on the property read and reach Express's error handler instead.
- EnvValidation.StringKey: Joi's validator itself is not part of this model. Its rule order is taken to be: allow-list match, then "must be one of", then the string type check, then the length rules.
- logout (src/usecases/user/authenticateUser/authenticateUser.ts:161-181) only writes an audit log entry and returns true, or false when logging throws. It revokes no token and touches no stored state, so nothing about it is modelled.
- BulkOperations.RatesPartition: proved over exact reals. The source computes both rates in IEEE doubles, where the sum can miss 100 by rounding; 1 success and 2 failures give 33.33333333333333 + 66.66666666666666 = 99.99999999999999.
- RoleManagement.GetAllRoles: orders names by Unicode code point with a shorter prefix first. The database's collation for `ORDER BY name ASC` is not part of this model and may rank some names differently.
- RateLimit.PresetLimits: the exact counts hold for bursts with no response completing in between. Successful authentication requests hand their slot back when their response finishes, which RateLimit.SkippedRequestNotCounted states.
- Express controllers, TypeORM repositories and entities, logging and Swagger: HTTP and persistence plumbing around the modelled use cases. Each table is a Dafny collection, and the repository methods the use cases call are modelled where they shape a result. Examples are the 2FA update that writes only `isEnabled` and `backupCodes`, upsert on `user_id`, and findAll listing only active roles.
- The user repository is not part of this model. Its lookups and column updates are stated as the use cases rely on them, first match for a lookup and every matching row for an update.
- `resendEmailVerification.response.ts` is not part of this model. Its errors are modelled by their kind and status, not by their message text.
- Repository exceptions other than those the use cases catch, and the interleavings between `await`s: each use case is one sequential step. Concurrent check-then-mark redemption and concurrent rate-limit increments are therefore not covered.
- Cryptographic and random primitives are parameters with only the shape the code relies on:
  - HMAC-SHA1 gives 20 bytes;
  - SHA-256 gives 64 hex digits;
  - bcrypt hash and compare, the undefined `CryptoUtil.createHmac`, and jsonwebtoken are abstract;
  - `crypto.randomBytes`, `randomUUID` and `Math.random` draws are inputs.
- A JSON Web Token is symbolic: algorithm, payload and signing key. Base64url text, the header's other fields and signature forgery are not modelled.
- `jwt.sign` is taken to fail only on an empty secret, its one failure reachable from these use cases.
- Wall-clock reads are the parameter `now` in milliseconds. `setHours`/`setDate` offsets are fixed lengths, so daylight-saving changes are not followed. TimeClip's range limit of ±8.64e15 ms is not modelled.
- JavaScript numbers: counters, limits and timestamps are unbounded integers, and the reals of the bulk-operation percentages and rates are exact. NaN and Infinity appear only where a division by zero produces them, as `None`. Fractional hours, days and pages are not modelled.
- Pagination.GetPagination: takes integer pages or null only. A fractional page number is not modelled, and neither is an omitted (undefined) page, for which the source computes NaN.
- The base32 accumulator is kept modulo 2^bits. The source's 32-bit `<<` and `|` never reach the live bits, since at most twelve bits are pending.
- String case and white space: `toUpperCase` is modelled on ASCII letters, and `trim` on the six ASCII white-space characters `Text.IsSpace` lists; the non-ASCII white space and line terminators JavaScript also trims, such as U+00A0 and U+2028, are not. A string is a sequence of code points, and `.min(n)` counts UTF-16 units through `Text.Utf16Length`; lone surrogates are not modelled.
- Joi is abstracted to the rules the environment schema uses on string values. Its number conversion is a parameter, and its e-mail format check for the reset and verification request schemas is not modelled.
- `createdAt` and other timestamps are plain instants. Database-generated ids are strings, so numeric `user.id.toString()` is the identity.
- Free-form payloads are not modelled: notification `data`, export `filters`, bulk-operation `data`, `filters` and per-error `item`, metric `tags` and `metadata`, analytics `properties`, and audit `metadata`.
- UserAnalytics.Category: the `'Other'` default is unreachable for the six declared event types, so it has no branch.
- An update that carries a key explicitly set to `undefined` is modelled as one that omits it, and a stored `null` is not distinguished from an absent value. `ProfileUpdate` omits `isCompleted` and `updatedAt`, which updateProfile overwrites straight after the assignment.
- A `dateOfBirth` of the create request is a `Date` and so always truthy. A JSON `""` in its place is not modelled.
- The QR code text and the otpauth URI are modelled by their exact format. The QR image, the health check, the security-audit service and the integration-test stubs are not modelled.
- UserProfile.FullName: its contract bounds the length only. The lemmas FullNameOfPlainNames and FullNameWithoutLastName state the result for names without surrounding white space.
- Notification.Lifetime: its contract states positivity only. LifetimeOrdered states the four durations: 1, 7, 30 and 90 days.
- BulkOperations.EstimateCompletion: its contract says when an estimate is set, not its value. EstimateNotPast bounds it for a batch that is not over-counted.
- Session.ExtendSession: `hours` is an integer; a fractional extension is not modelled.
- DataExport.ExtendExpiration: `days` is an integer; a fractional extension is not modelled.

## Findings

| source | as written | input that shows it | evidently intended | confidence | as-written member | corrected member |
|---|---|---|---|---|---|---|
| src/usecases/user/authenticateUser/authenticateUser.ts:57-64 | `generateTokenPair` signs the refresh token with the access secret `jwtConfig.secret`, but `refreshToken` verifies it with `jwtConfig.refreshSecret` | any login while `JWT_SECRET` differs from `JWT_REFRESH_SECRET`, which the schema lets through: the refresh token it returns is refused by refresh, and it passes requireAuth as an access token for 7 days | the refresh token is signed with the refresh secret, so refresh accepts it and the access gate refuses it | high (not executed) | AuthenticateUser.LoginRefreshTokenRejected | AuthenticateUser.LoginFixedRefreshes |
| src/usecases/twoFactorAuth/setupTwoFactorAuth/setupTwoFactorAuth.ts:73-74 | re-running setup over a disabled factor goes through `updateTwoFactorAuth`, which writes only `isEnabled` and `backupCodes` | setup, then setup again before enabling: the second reply shows a new secret, while the stored secret is still the first | the stored factor carries the secret the reply shows, so its codes can enable 2FA | high (not executed) | TwoFactorUseCases.ReSetupKeepsOldSecret | TwoFactorUseCases.SetupFixedThenEnable |
| src/usecases/userProfile/createUserProfile/createUserProfile.ts:65-85 | the created profile is stored and reported without `checkCompletion`, so `isCompleted` stays false | a create request with both names, a non-empty phone and a date of birth | the completion flag agrees with the rule of `checkCompletion` from creation on, as it does after every update | medium (not executed) | ProfileUseCases.CreateReportsIncomplete | ProfileUseCases.CreateFixedReportsCompletion |
