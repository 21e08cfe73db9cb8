/**
 * Time-based one-time passwords as computed by verifyTOTPToken
 * (src/adapters/util/totp.util.ts): a 30-second time step, an 8-byte
 * big-endian counter, HMAC-SHA1 (an oracle here), dynamic truncation with the
 * top byte masked by 0x07, six decimal digits, and a window of one step on
 * either side of the current one.
 */
module Totp {
  import opened Bits
  import opened Text
  import Base32

  /** An HMAC-SHA1 output: 20 bytes. */
  type Digest = s: seq<byte> | |s| == 20 witness seq(20, i => 0)

  /** HMAC-SHA1 keyed by the first argument, over the second. */
  type HmacSha1 = (seq<byte>, seq<byte>) -> Digest

  const CodeModulus: nat := 1000000
  const CodeDigits: nat := 6
  const TwoTo64: nat := 0x1_0000_0000_0000_0000
  const SecretBytes: nat := 20
  const CounterBytes: nat := 8

  /** generateTOTPSecret: 20 random bytes, base32-encoded. */
  function GenerateSecret(random: seq<byte>): (secret: string)
    requires |random| == SecretBytes
    ensures |secret| == 32
    ensures Base32.Decode(secret) == random
  {
    Base32.SecretLength(random);
    Base32.DecodeEncode(random);
    Base32.Encode(random)
  }

  /** Math.floor(Date.now() / 1000 / 30): the 30-second step containing nowMs. */
  function TimeStep(nowMs: nat): (t: nat)
    ensures t * 30000 <= nowMs < t * 30000 + 30000
  {
    nowMs / 30000
  }

  function Pow256(n: nat): (r: nat)
    ensures r >= 1
  {
    if n == 0 then 1 else 256 * Pow256(n - 1)
  }

  /** The n-byte big-endian encoding of v modulo 256^n. */
  function BigEndian(v: nat, n: nat): (s: seq<byte>)
    ensures |s| == n
  {
    if n == 0 then [] else BigEndian(v / 256, n - 1) + [v % 256]
  }

  /** The value of a big-endian byte string (getBigUint64 for 8 bytes). */
  function FromBigEndian(s: seq<byte>): (v: nat)
    ensures v < Pow256(|s|)
  {
    if |s| == 0 then 0 else FromBigEndian(s[..|s| - 1]) * 256 + s[|s| - 1]
  }

  lemma {:induction false} BigEndianRoundTrip(v: nat, n: nat)
    requires v < Pow256(n)
    ensures FromBigEndian(BigEndian(v, n)) == v
  {
    if n > 0 {
      var s := BigEndian(v, n);
      assert s[..n - 1] == BigEndian(v / 256, n - 1);
      DivBound(v, 256, Pow256(n - 1));
      BigEndianRoundTrip(v / 256, n - 1);
    }
  }

  /**
   * The counter block: setBigUint64(0, BigInt(t), false) into 8 bytes.
   * BigInt-to-uint64 conversion wraps modulo 2^64, so step -1 is eight 0xff.
   */
  function Counter(t: int): (c: seq<byte>)
    ensures |c| == CounterBytes
  {
    BigEndian(t % TwoTo64, CounterBytes)
  }

  /** Reading the counter back gives the step modulo 2^64. */
  lemma CounterValue(t: int)
    ensures FromBigEndian(Counter(t)) == t % TwoTo64
    ensures 0 <= t < TwoTo64 ==> FromBigEndian(Counter(t)) == t
  {
    assert Pow256(8) == TwoTo64;
    BigEndianRoundTrip(t % TwoTo64, 8);
  }

  /** Distinct steps below 2^64 give distinct counter blocks. */
  lemma CounterInjective(t1: int, t2: int)
    requires 0 <= t1 < TwoTo64 && 0 <= t2 < TwoTo64
    requires Counter(t1) == Counter(t2)
    ensures t1 == t2
  {
    CounterValue(t1);
    CounterValue(t2);
  }

  /** The largest n-byte value is n bytes of 0xff. */
  lemma {:induction false} BigEndianAllOnes(n: nat)
    ensures BigEndian(Pow256(n) - 1, n) == seq(n, i => 255)
  {
    if n > 0 {
      var v := Pow256(n) - 1;
      assert v == (Pow256(n - 1) - 1) * 256 + 255;
      assert v / 256 == Pow256(n - 1) - 1 && v % 256 == 255;
      BigEndianAllOnes(n - 1);
      assert seq(n - 1, i => 255) + [255] == seq(n, i => 255);
    }
  }

  /** Step -1 wraps to the largest 64-bit counter. */
  lemma CounterOfMinusOne()
    ensures Counter(-1) == [255, 255, 255, 255, 255, 255, 255, 255]
  {
    assert Pow256(8) == TwoTo64;
    assert -1 % TwoTo64 == TwoTo64 - 1;
    BigEndianAllOnes(8);
  }

  /** hmacResult[19] & 0x0f: the truncation offset; the four bytes read fit in the digest. */
  function Offset(d: Digest): (o: nat)
    ensures o <= 15 && o + 3 < |d|
  {
    d[19] % 16
  }

  /**
   * The 27-bit value read at the offset: the first byte masked with 0x07,
   * then three whole bytes. The four fields occupy disjoint bits, so the
   * source's bitwise OR of the shifted fields is their sum.
   */
  function Truncated(d: Digest): (v: nat)
  {
    var o := Offset(d);
    (d[o] as int % 8) * 0x100_0000 + d[o + 1] as int * 0x1_0000 + d[o + 2] as int * 0x100 + d[o + 3] as int
  }

  /** The truncated value is below 2^27, and each byte can be read back out of it. */
  lemma TruncatedFields(d: Digest)
    ensures Truncated(d) < 0x800_0000
    ensures Truncated(d) / 0x100_0000 == d[Offset(d)] % 8
    ensures Truncated(d) / 0x1_0000 % 0x100 == d[Offset(d) + 1]
    ensures Truncated(d) / 0x100 % 0x100 == d[Offset(d) + 2]
    ensures Truncated(d) % 0x100 == d[Offset(d) + 3]
  {
    var o := Offset(d);
    var a: int, b: int, c: int, e: int := d[o] % 8, d[o + 1], d[o + 2], d[o + 3];
    var v := Truncated(d);
    DivModOf(v, a, 0x100_0000, b * 0x1_0000 + c * 0x100 + e);
    DivModOf(v, a * 0x100 + b, 0x1_0000, c * 0x100 + e);
    DivModOf(a * 0x100 + b, a, 0x100, b);
    DivModOf(v, a * 0x1_0000 + b * 0x100 + c, 0x100, e);
    DivModOf(a * 0x1_0000 + b * 0x100 + c, a * 0x100 + b, 0x100, c);
  }

  /** The six-digit code of a digest. */
  function Code(d: Digest): (c: nat)
    ensures c < CodeModulus
  {
    Truncated(d) % CodeModulus
  }

  /** code.toString().padStart(6, '0'). */
  function FormatCode(code: nat): (s: string)
    requires code < CodeModulus
    ensures |s| == CodeDigits && IsDigits(s)
    ensures DecimalValue(s) == code
  {
    var digits := Decimal(code);
    DecimalLength(code, CodeDigits);
    DecimalRoundTrip(code);
    LeadingZeros(CodeDigits - |digits|, digits);
    PadStart(digits, CodeDigits, '0')
  }

  /** Different codes never format to the same text (leading zeros matter). */
  lemma FormatCodeInjective(c1: nat, c2: nat)
    requires c1 < CodeModulus && c2 < CodeModulus
    requires FormatCode(c1) == FormatCode(c2)
    ensures c1 == c2
  {
  }

  /** The token for step t under a decoded key. */
  function TokenAt(key: seq<byte>, hmac: HmacSha1, t: int): (token: string)
    ensures |token| == CodeDigits
  {
    FormatCode(Code(hmac(key, Counter(t))))
  }

  /** Every token is six decimal digits, and it names the step's code. */
  lemma TokenShape(key: seq<byte>, hmac: HmacSha1, t: int)
    ensures IsDigits(TokenAt(key, hmac, t))
    ensures DecimalValue(TokenAt(key, hmac, t)) == Code(hmac(key, Counter(t)))
  {
  }

  /**
   * The token of the i-th step of the drift window around t: six decimal
   * digits naming the code of step t + i.
   */
  function Candidate(key: seq<byte>, hmac: HmacSha1, t: int, i: int): (token: string)
    ensures token == TokenAt(key, hmac, t + i)
    ensures |token| == CodeDigits && IsDigits(token)
    ensures DecimalValue(token) == Code(hmac(key, Counter(t + i)))
  {
    TokenShape(key, hmac, t + i);
    TokenAt(key, hmac, t + i)
  }

  /** The drift window: step t-1, t or t+1 produced the token. */
  predicate InWindow(token: string, key: seq<byte>, hmac: HmacSha1, t: int) {
    token == TokenAt(key, hmac, t - 1) || token == TokenAt(key, hmac, t) || token == TokenAt(key, hmac, t + 1)
  }

  /** verifyTOTPToken, with the clock and HMAC-SHA1 as parameters. */
  method VerifyToken(token: string, secret: string, hmac: HmacSha1, nowMs: nat) returns (valid: bool)
    ensures valid <==> InWindow(token, Base32.Decode(secret), hmac, TimeStep(nowMs))
  {
    var key := Base32.DecodeLoop(secret);
    var t: int := TimeStep(nowMs);
    var i: int := -1;
    while i <= 1
      invariant -1 <= i <= 2
      invariant i > -1 ==> token != Candidate(key, hmac, t, -1)
      invariant i > 0 ==> token != Candidate(key, hmac, t, 0)
      invariant i > 1 ==> token != Candidate(key, hmac, t, 1)
    {
      var formatted := Candidate(key, hmac, t, i);
      if formatted == token {
        return true;
      }
      i := i + 1;
    }
    return false;
  }

  /** The same decision as a function, for use by the two-factor model. */
  function Verify(token: string, secret: string, hmac: HmacSha1, nowMs: nat): (valid: bool)
  {
    InWindow(token, Base32.Decode(secret), hmac, TimeStep(nowMs))
  }

  /** A token that is not exactly six digits never verifies. */
  lemma MalformedTokenRejected(token: string, secret: string, hmac: HmacSha1, nowMs: nat)
    requires |token| != CodeDigits || !IsDigits(token)
    ensures !Verify(token, secret, hmac, nowMs)
  {
    var key: seq<byte>, t: int := Base32.Decode(secret), TimeStep(nowMs);
    NotAToken(token, key, hmac, t - 1);
    NotAToken(token, key, hmac, t);
    NotAToken(token, key, hmac, t + 1);
  }

  lemma NotAToken(token: string, key: seq<byte>, hmac: HmacSha1, t: int)
    requires |token| != CodeDigits || !IsDigits(token)
    ensures token != TokenAt(key, hmac, t)
  {
    TokenShape(key, hmac, t);
  }

  /** The code for a step is accepted for the whole of that step and the steps either side. */
  lemma CurrentCodeAccepted(secret: string, hmac: HmacSha1, issuedMs: nat, nowMs: nat)
    requires TimeStep(issuedMs) - 1 <= TimeStep(nowMs) <= TimeStep(issuedMs) + 1
    ensures Verify(TokenAt(Base32.Decode(secret), hmac, TimeStep(issuedMs)), secret, hmac, nowMs)
  {
    StepInWindow(Base32.Decode(secret), hmac, TimeStep(issuedMs), TimeStep(nowMs));
  }

  /** A step's own token lies in the window of every neighbouring step. */
  lemma StepInWindow(key: seq<byte>, hmac: HmacSha1, s: int, t: int)
    requires t - 1 <= s <= t + 1
    ensures InWindow(TokenAt(key, hmac, s), key, hmac, t)
  {
    if s == t - 1 {
      assert TokenAt(key, hmac, s) == TokenAt(key, hmac, t - 1);
    } else if s == t + 1 {
      assert TokenAt(key, hmac, s) == TokenAt(key, hmac, t + 1);
    }
  }

  /** A secret made by GenerateSecret verifies codes under exactly the random key. */
  lemma GeneratedSecretKey(random: seq<byte>, token: string, hmac: HmacSha1, nowMs: nat)
    requires |random| == SecretBytes
    ensures Verify(token, GenerateSecret(random), hmac, nowMs) <==> InWindow(token, random, hmac, TimeStep(nowMs))
  {
  }

  /** Section 5.3 of RFC 4226 masks the first byte with 0x7f, not 0x07. */
  function RfcTruncated(d: Digest): (v: nat)
    ensures v < 0x8000_0000
  {
    var o := Offset(d);
    (d[o] as int % 128) * 0x100_0000 + d[o + 1] as int * 0x1_0000 + d[o + 2] as int * 0x100 + d[o + 3] as int
  }

  /** The two truncations agree exactly when bits 3..6 of the first byte are clear. */
  lemma TruncationDeviation(d: Digest)
    ensures Truncated(d) == RfcTruncated(d) <==> d[Offset(d)] % 128 < 8
  {
    var o := Offset(d);
    var x := d[o];
    assert x % 128 == x % 8 + (x % 128 / 8) * 8;
  }

  /** A digest where the two truncations give different six-digit codes. */
  lemma TruncationDeviationExample()
    ensures var d: Digest := [8] + seq(19, i => 0);
      Code(d) == 0 && RfcTruncated(d) % CodeModulus == 217728
  {
    var d: Digest := [8] + seq(19, i => 0);
    assert Offset(d) == 0;
  }
}
