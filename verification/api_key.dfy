/**
 * ApiKeyDomain (src/domains/apiKey.domain.ts): a user's API key, stored as
 * its SHA-256. The 32 random bytes of crypto.randomBytes, the UUID of the
 * id and SHA-256 itself are parameters; `now` stands for new Date().
 */
module ApiKey {
  import opened Wrappers
  import opened Bits
  import opened Text
  import opened TokenUtil

  const KeyPrefix: string := "ak_"
  const KeyBytes: nat := 32
  const DefaultRateLimitPerHour: int := 1000

  datatype ApiKey = ApiKey(id: string, userId: string, name: string, key: string, keyHash: string,
                           permissions: seq<string>, isActive: bool, expiresAt: Option<int>,
                           lastUsedAt: Option<int>, usageCount: int, rateLimitPerHour: int,
                           createdAt: int, updatedAt: int)

  /** generateApiKey: "ak_" then the 32 random bytes in lower-case hex. */
  function GenerateApiKey(random: seq<byte>): (key: string)
    requires |random| == KeyBytes
    ensures |key| == 67 && key[..3] == KeyPrefix
    ensures forall i :: 3 <= i < |key| ==> IsLowerHex(key[i])
    ensures Unhex(key[3..]) == random
  {
    var hex := Hex(random);
    UnhexHex(random);
    assert (KeyPrefix + hex)[3..] == hex;
    KeyPrefix + hex
  }

  /** Distinct random bytes give distinct keys. */
  lemma GeneratedKeysDistinct(a: seq<byte>, b: seq<byte>)
    requires |a| == KeyBytes && |b| == KeyBytes && a != b
    ensures GenerateApiKey(a) != GenerateApiKey(b)
  {
  }

  /** The constructor: active, unused, holding the hash of its own key. */
  function NewApiKey(id: string, userId: string, name: string, permissions: seq<string>,
                     rateLimitPerHour: Option<int>, random: seq<byte>, sha256: Sha256Hex, now: int): (k: ApiKey)
    requires |random| == KeyBytes
    ensures k.key == GenerateApiKey(random) && k.keyHash == sha256(k.key)
    ensures k.isActive && k.usageCount == 0 && k.expiresAt.None? && k.lastUsedAt.None?
    ensures k.rateLimitPerHour == rateLimitPerHour.GetOr(DefaultRateLimitPerHour)
    ensures k.permissions == permissions && k.createdAt == now && k.updatedAt == now
  {
    var key := GenerateApiKey(random);
    ApiKey(id, userId, name, key, sha256(key), permissions, true, None, None, 0,
           rateLimitPerHour.GetOr(DefaultRateLimitPerHour), now, now)
  }

  /** verifyApiKey: the key's SHA-256 in hex equals the stored hash. */
  function VerifyApiKey(sha256: Sha256Hex, key: string, keyHash: string): (ok: bool)
    ensures ok <==> sha256(key) == keyHash
    ensures ok ==> |keyHash| == 64 && forall i :: 0 <= i < |keyHash| ==> IsLowerHex(keyHash[i])
    ensures keyHash == sha256(key) ==> ok
  {
    sha256(key) == keyHash
  }

  /** A new key verifies against its own stored hash, and no hash of another length is ever matched. */
  lemma NewKeyVerifies(id: string, userId: string, name: string, permissions: seq<string>,
                       rateLimitPerHour: Option<int>, random: seq<byte>, sha256: Sha256Hex, now: int, other: string)
    requires |random| == KeyBytes
    ensures var k := NewApiKey(id, userId, name, permissions, rateLimitPerHour, random, sha256, now);
      VerifyApiKey(sha256, k.key, k.keyHash)
    ensures |other| != 64 ==> !VerifyApiKey(sha256, GenerateApiKey(random), other)
  {
  }

  /** isExpired: never without an expiry, else strictly after it. */
  predicate IsExpired(k: ApiKey, now: int) {
    k.expiresAt.Some? && now > k.expiresAt.value
  }

  /** isValid: active and not expired. */
  predicate IsValid(k: ApiKey, now: int) {
    k.isActive && !IsExpired(k, now)
  }

  predicate HasPermission(k: ApiKey, permission: string) {
    permission in k.permissions
  }

  function Deactivate(k: ApiKey, now: int): (k': ApiKey)
    ensures !k'.isActive && k'.updatedAt == now
    ensures k'.(isActive := k.isActive, updatedAt := k.updatedAt) == k
  {
    k.(isActive := false, updatedAt := now)
  }

  function Activate(k: ApiKey, now: int): (k': ApiKey)
    ensures k'.isActive && k'.updatedAt == now
    ensures k'.(isActive := k.isActive, updatedAt := k.updatedAt) == k
  {
    k.(isActive := true, updatedAt := now)
  }

  /** recordUsage: one more use, stamped now. */
  function RecordUsage(k: ApiKey, now: int): (k': ApiKey)
    ensures k'.usageCount == k.usageCount + 1
    ensures k'.lastUsedAt == Some(now) && k'.updatedAt == now
    ensures k'.(usageCount := k.usageCount, lastUsedAt := k.lastUsedAt, updatedAt := k.updatedAt) == k
  {
    k.(usageCount := k.usageCount + 1, lastUsedAt := Some(now), updatedAt := now)
  }

  function SetExpiration(k: ApiKey, date: int, now: int): (k': ApiKey)
    ensures k'.expiresAt == Some(date) && k'.updatedAt == now
    ensures k'.(expiresAt := k.expiresAt, updatedAt := k.updatedAt) == k
  {
    k.(expiresAt := Some(date), updatedAt := now)
  }

  function UpdatePermissions(k: ApiKey, permissions: seq<string>, now: int): (k': ApiKey)
    ensures forall p :: HasPermission(k', p) <==> p in permissions
    ensures k'.updatedAt == now
    ensures k'.(permissions := k.permissions, updatedAt := k.updatedAt) == k
  {
    k.(permissions := permissions, updatedAt := now)
  }

  function UpdateRateLimit(k: ApiKey, limit: int, now: int): (k': ApiKey)
    ensures k'.rateLimitPerHour == limit && k'.updatedAt == now
    ensures k'.(rateLimitPerHour := k.rateLimitPerHour, updatedAt := k.updatedAt) == k
  {
    k.(rateLimitPerHour := limit, updatedAt := now)
  }

  /** Recording each of a sequence of uses. */
  function RecordAll(k: ApiKey, times: seq<int>): (k': ApiKey)
    ensures |times| > 0 ==> k'.lastUsedAt == Some(times[|times| - 1])
    decreases |times|
  {
    if |times| == 0 then k else RecordAll(RecordUsage(k, times[0]), times[1..])
  }

  /** n recorded uses add exactly n to the count and change nothing but the use fields. */
  lemma {:induction false} RecordAllCounts(k: ApiKey, times: seq<int>)
    ensures RecordAll(k, times).usageCount == k.usageCount + |times|
    ensures RecordAll(k, times).(usageCount := k.usageCount, lastUsedAt := k.lastUsedAt, updatedAt := k.updatedAt) == k
    decreases |times|
  {
    if |times| > 0 {
      RecordAllCounts(RecordUsage(k, times[0]), times[1..]);
    }
  }

  /** A new key is valid until it is given an expiry; after setExpiration(d) it is valid up to d while active. */
  lemma ValidityWindow(k: ApiKey, date: int, now: int, t: int)
    requires k.isActive && k.expiresAt.None?
    ensures IsValid(k, t)
    ensures IsValid(SetExpiration(k, date, now), t) <==> t <= date
    ensures !IsValid(Deactivate(SetExpiration(k, date, now), now), t)
  {
  }
}
