/**
 * CryptoUtil.verifyHmac (src/adapters/util/crypto.util.ts): both strings are
 * UTF-8 encoded and compared with crypto.timingSafeEqual, which throws when
 * the byte lengths differ; the throw is caught and reported as false.
 *
 * Also here: the `process.env.JWT_SECRET || 'default'` key choice and the
 * HMAC oracle that the password checks of the use cases call.
 */
module Crypto {
  import opened Wrappers
  import opened Bits

  // ---------------------------------------------------------------------
  // UTF-8 (Buffer.from(s, 'utf-8'))
  // ---------------------------------------------------------------------

  /** The UTF-8 bytes of one Unicode scalar value. */
  function CharUtf8(c: char): (bs: seq<byte>)
    ensures 1 <= |bs| <= 4
  {
    var p := c as int;
    if p < 0x80 then [p]
    else if p < 0x800 then [0xC0 + p / 64, 0x80 + p % 64]
    else if p < 0x1_0000 then [0xE0 + p / 4096, 0x80 + p / 64 % 64, 0x80 + p % 64]
    else [0xF0 + p / 0x4_0000, 0x80 + p / 4096 % 64, 0x80 + p / 64 % 64, 0x80 + p % 64]
  }

  function Utf8(s: string): (bs: seq<byte>)
    ensures |s| <= |bs| <= 4 * |s|
  {
    if |s| == 0 then [] else CharUtf8(s[0]) + Utf8(s[1..])
  }

  /** The length of the sequence a lead byte announces. */
  function SequenceLength(lead: byte): (n: nat)
    ensures 1 <= n <= 4
  {
    if lead < 0x80 then 1 else if lead < 0xE0 then 2 else if lead < 0xF0 then 3 else 4
  }

  /** The code point of one complete sequence. */
  function CodePoint(bs: seq<byte>): (p: int)
    requires |bs| > 0 && |bs| == SequenceLength(bs[0])
  {
    var b0: int, last: int := bs[0], bs[|bs| - 1] as int - 0x80;
    if |bs| == 1 then b0
    else if |bs| == 2 then (b0 - 0xC0) * 64 + last
    else if |bs| == 3 then ((b0 - 0xE0) * 64 + (bs[1] as int - 0x80)) * 64 + last
    else (((b0 - 0xF0) * 64 + (bs[1] as int - 0x80)) * 64 + (bs[2] as int - 0x80)) * 64 + last
  }

  /** A decoder to code points; a truncated final sequence is dropped. */
  function CodePoints(bs: seq<byte>): (ps: seq<int>)
    decreases |bs|
  {
    if |bs| == 0 then []
    else
      var n := SequenceLength(bs[0]);
      if n > |bs| then [] else [CodePoint(bs[..n])] + CodePoints(bs[n..])
  }

  function Points(s: string): (ps: seq<int>)
    ensures |ps| == |s|
  {
    if |s| == 0 then [] else [s[0] as int] + Points(s[1..])
  }

  lemma CharRoundTrip(c: char)
    ensures SequenceLength(CharUtf8(c)[0]) == |CharUtf8(c)|
    ensures CodePoint(CharUtf8(c)) == c as int
  {
    var p := c as int;
    if p < 0x80 {
    } else if p < 0x800 {
      SplitSix(p);
    } else if p < 0x1_0000 {
      SplitSix(p);
      SplitSix(p / 64);
      assert p / 4096 == p / 64 / 64;
    } else {
      SplitSix(p);
      SplitSix(p / 64);
      SplitSix(p / 4096);
      assert p / 4096 == p / 64 / 64;
      assert p / 0x4_0000 == p / 4096 / 64;
    }
  }

  lemma SplitSix(x: nat)
    ensures x == x / 64 * 64 + x % 64 && 0 <= x % 64 < 64
  {
  }

  /** Decoding the UTF-8 of a string gives back its code points. */
  lemma {:induction false} Utf8RoundTrip(s: string)
    ensures CodePoints(Utf8(s)) == Points(s)
  {
    if |s| > 0 {
      var head := CharUtf8(s[0]);
      var bs := Utf8(s);
      CharRoundTrip(s[0]);
      assert bs[..|head|] == head;
      assert bs[|head|..] == Utf8(s[1..]);
      Utf8RoundTrip(s[1..]);
    }
  }

  lemma {:induction false} PointsInjective(a: string, b: string)
    requires Points(a) == Points(b)
    ensures a == b
  {
    if |a| > 0 {
      assert Points(a)[0] == a[0] as int && Points(b)[0] == b[0] as int;
      assert Points(a)[1..] == Points(a[1..]) && Points(b)[1..] == Points(b[1..]);
      PointsInjective(a[1..], b[1..]);
    }
  }

  /** Distinct strings have distinct UTF-8 encodings. */
  lemma Utf8Injective(a: string, b: string)
    requires Utf8(a) == Utf8(b)
    ensures a == b
  {
    Utf8RoundTrip(a);
    Utf8RoundTrip(b);
    PointsInjective(a, b);
  }

  // ---------------------------------------------------------------------
  // timingSafeEqual and verifyHmac
  // ---------------------------------------------------------------------

  /**
   * crypto.timingSafeEqual: throws (None) on a length mismatch, otherwise
   * visits every byte, whatever the first difference, and reports equality.
   */
  method TimingSafeEqual(a: seq<byte>, b: seq<byte>) returns (r: Option<bool>)
    ensures r.None? <==> |a| != |b|
    ensures r.Some? ==> (r.value <==> a == b)
  {
    if |a| != |b| {
      return None;
    }
    var differs := false;
    var i := 0;
    while i < |a|
      invariant 0 <= i <= |a|
      invariant differs <==> a[..i] != b[..i]
    {
      assert a[..i + 1] == a[..i] + [a[i]] && b[..i + 1] == b[..i] + [b[i]];
      differs := differs || a[i] != b[i];
      i := i + 1;
    }
    assert a[..i] == a && b[..i] == b;
    return Some(!differs);
  }

  /** verifyHmac: the UTF-8 encodings are equal; a length mismatch reads as false. */
  method VerifyHmacLoop(hmac: string, hash: string) returns (equal: bool)
    ensures equal <==> Utf8(hmac) == Utf8(hash)
  {
    var r := TimingSafeEqual(Utf8(hash), Utf8(hmac));
    equal := r.GetOr(false);
  }

  function VerifyHmac(hmac: string, hash: string): (equal: bool)
    ensures equal <==> hmac == hash
  {
    if Utf8(hmac) == Utf8(hash) then
      Utf8Injective(hmac, hash);
      true
    else false
  }

  /** The loop and the function agree, so verifyHmac is string equality. */
  method VerifyHmacAgrees(hmac: string, hash: string) returns (equal: bool)
    ensures equal == VerifyHmac(hmac, hash)
    ensures equal <==> hmac == hash
  {
    equal := VerifyHmacLoop(hmac, hash);
    if equal {
      Utf8Injective(hmac, hash);
    }
  }

  lemma VerifyHmacReflexive(a: string)
    ensures VerifyHmac(a, a)
  {
  }

  lemma VerifyHmacSymmetric(a: string, b: string)
    ensures VerifyHmac(a, b) == VerifyHmac(b, a)
  {
  }

  /** Strings whose encodings differ in length never compare equal. */
  lemma LengthMismatchRejected(a: string, b: string)
    requires |Utf8(a)| != |Utf8(b)|
    ensures !VerifyHmac(a, b)
  {
  }

  // ---------------------------------------------------------------------
  // The keyed hash of passwords
  // ---------------------------------------------------------------------

  /**
   * CryptoUtil.createHmac(data, key): called by the use cases but not defined
   * by CryptoUtil, so it is an oracle here.
   */
  type CreateHmac = (string, string) -> string

  /** `process.env.JWT_SECRET || 'default'`: an unset or empty value falls back. */
  function SecretOrDefault(env: Option<string>): (key: string)
    ensures env.Some? && env.value != "" ==> key == env.value
    ensures env.None? || env.value == "" ==> key == "default"
  {
    if env.Some? && env.value != "" then env.value else "default"
  }

  /** The password check of disableTwoFactorAuth and the stored-hash write of resetPassword. */
  function PasswordMatches(hmac: CreateHmac, env: Option<string>, password: string, stored: string): (ok: bool)
    ensures ok <==> hmac(password, SecretOrDefault(env)) == stored
  {
    VerifyHmac(hmac(password, SecretOrDefault(env)), stored)
  }
}
