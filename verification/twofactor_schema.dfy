/**
 * The four Joi request schemas of the two-factor routes
 * (src/adapters/controller/twoFactorAuth/twoFactorAuth.schema.ts). A request
 * body is a map from key to string value. The Joi rules used here are:
 *   - Joi.object({...}) refuses keys it does not declare;
 *   - Joi.string() refuses the empty string unless told otherwise;
 *   - .length(n) and .min(n) count UTF-16 code units;
 *   - .pattern(/^\d+$/) asks for at least one ASCII digit and nothing else.
 */
module TwoFactorSchema {
  import opened Bits
  import opened Text
  import TwoFactor

  type Body = map<string, string>

  /** Every key of the body is declared. */
  predicate OnlyKeys(body: Body, keys: set<string>) {
    forall k :: k in body ==> k in keys
  }

  /** Joi.string().required(): present and non-empty. */
  predicate RequiredString(body: Body, key: string) {
    key in body && body[key] != ""
  }

  /** Joi.string().length(6).pattern(/^\d+$/). */
  predicate IsTokenText(t: string) {
    Utf16Length(t) == 6 && IsDigits(t)
  }

  predicate SetupValid(body: Body) {
    OnlyKeys(body, {"userId"}) && RequiredString(body, "userId")
  }

  predicate VerifyValid(body: Body) {
    OnlyKeys(body, {"userId", "token"}) && RequiredString(body, "userId")
    && RequiredString(body, "token") && IsTokenText(body["token"])
  }

  /** The enable schema is written out identically to the verify schema. */
  predicate EnableValid(body: Body) {
    OnlyKeys(body, {"userId", "token"}) && RequiredString(body, "userId")
    && RequiredString(body, "token") && IsTokenText(body["token"])
  }

  predicate DisableValid(body: Body) {
    OnlyKeys(body, {"userId", "password"}) && RequiredString(body, "userId")
    && RequiredString(body, "password") && Utf16Length(body["password"]) >= 8
  }

  /** A digit string is all basic-plane, so its UTF-16 length is its length. */
  lemma {:induction false} DigitsUtf16Length(s: string)
    requires forall i :: 0 <= i < |s| ==> IsDigit(s[i])
    ensures Utf16Length(s) == |s|
  {
    if |s| > 0 {
      DigitsUtf16Length(s[1..]);
    }
  }

  /** The token a verify or enable body carries is exactly six ASCII digits. */
  lemma TokenAccepted(body: Body)
    requires VerifyValid(body) || EnableValid(body)
    ensures |body["token"]| == 6 && IsDigits(body["token"])
  {
    DigitsUtf16Length(body["token"]);
  }

  /** Conversely, six digits and a user id make a valid verify and enable body. */
  lemma SixDigitsPass(userId: string, token: string)
    requires userId != "" && |token| == 6 && IsDigits(token)
    ensures VerifyValid(map["userId" := userId, "token" := token])
    ensures EnableValid(map["userId" := userId, "token" := token])
  {
    DigitsUtf16Length(token);
  }

  /** A body without a userId fails all four schemas. */
  lemma UserIdRequired(body: Body)
    requires "userId" !in body || body["userId"] == ""
    ensures !SetupValid(body) && !VerifyValid(body) && !EnableValid(body) && !DisableValid(body)
  {
  }

  /**
   * No backup code passes the verify or enable schema: a code has eight
   * characters, a token six.
   */
  lemma BackupCodeRejected(body: Body, code: string)
    requires TwoFactor.IsBackupCodeShape(code)
    ensures !VerifyValid(body["token" := code])
    ensures !EnableValid(body["token" := code])
  {
    if IsDigits(code) {
      DigitsUtf16Length(code);
    }
  }

  /** In particular no generated backup code gets through. */
  lemma GeneratedBackupCodeRejected(body: Body, random: seq<seq<byte>>, i: nat)
    requires |random| == TwoFactor.BackupCodeCount
    requires forall j :: 0 <= j < |random| ==> |random[j]| == TwoFactor.BackupCodeBytes
    requires i < TwoFactor.BackupCodeCount
    ensures !VerifyValid(body["token" := TwoFactor.GenerateBackupCodes(random)[i]])
  {
    BackupCodeRejected(body, TwoFactor.GenerateBackupCodes(random)[i]);
  }

  /** A password of eight or more characters passes the length rule. */
  lemma LongPasswordPasses(userId: string, password: string)
    requires userId != "" && |password| >= 8
    ensures DisableValid(map["userId" := userId, "password" := password])
  {
  }

  /** Four characters above U+FFFF are eight UTF-16 units, enough for min(8). */
  lemma AstralPasswordPasses()
    ensures DisableValid(map["userId" := "u", "password" := "\U{1F600}\U{1F600}\U{1F600}\U{1F600}"])
  {
    var p := "\U{1F600}\U{1F600}\U{1F600}\U{1F600}";
    assert Utf16Length(p[3..]) == 2;
    assert Utf16Length(p[2..]) == 4;
    assert Utf16Length(p[1..]) == 6;
  }
}
