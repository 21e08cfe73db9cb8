/**
 * Random tokens and their hashes (src/adapters/util/token.util.ts). The
 * sixteen random bytes and SHA-256 are parameters: the bytes are an input,
 * and SHA-256 is an oracle that returns 64 lower-case hex digits.
 */
module TokenUtil {
  import opened Bits
  import opened Text

  const TokenBytes: nat := 16

  /** A hex-encoded SHA-256 digest. */
  type HexDigest = s: string | |s| == 64 && forall i :: 0 <= i < |s| ==> IsLowerHex(s[i])
    witness seq(64, i => '0')

  /** crypto.createHash('sha256').update(t).digest('hex'). */
  type Sha256Hex = string -> HexDigest

  /**
   * generateVerificationToken and generatePasswordResetToken: sixteen random
   * bytes in lower-case hex. The token names its bytes exactly.
   */
  function GenerateToken(random: seq<byte>): (token: string)
    requires |random| == TokenBytes
    ensures |token| == 32
    ensures forall i :: 0 <= i < |token| ==> IsLowerHex(token[i])
    ensures Unhex(token) == random
  {
    UnhexHex(random);
    Hex(random)
  }

  /** Two tokens are equal only if they came from the same random bytes. */
  lemma GeneratedTokensDistinct(a: seq<byte>, b: seq<byte>)
    requires |a| == TokenBytes && |b| == TokenBytes && a != b
    ensures GenerateToken(a) != GenerateToken(b)
  {
    if Hex(a) == Hex(b) {
      HexInjective(a, b);
    }
  }

  function HashToken(sha256: Sha256Hex, token: string): (h: HexDigest)
  {
    sha256(token)
  }

  /** verifyToken(t, h): the hash of t is h, compared as strings. */
  function VerifyToken(sha256: Sha256Hex, token: string, hashed: string): (ok: bool)
    ensures ok <==> HashToken(sha256, token) == hashed
    ensures ok ==> |hashed| == 64 && forall i :: 0 <= i < |hashed| ==> IsLowerHex(hashed[i])
    ensures hashed == sha256(token) ==> ok
  {
    HashToken(sha256, token) == hashed
  }

  /** A token verifies against its own hash, and hashing is deterministic. */
  lemma VerifyOwnHash(sha256: Sha256Hex, token: string, other: string)
    ensures VerifyToken(sha256, token, HashToken(sha256, token))
    ensures other == token ==> VerifyToken(sha256, other, HashToken(sha256, token))
  {
  }

  /** A stored value that is not 64 lower-case hex digits never verifies. */
  lemma MalformedHashRejected(sha256: Sha256Hex, token: string, hashed: string)
    requires |hashed| != 64
    ensures !VerifyToken(sha256, token, hashed)
  {
  }
}
