/**
 * Bytes, bits and their big-endian numeric value. The base32 codec and the
 * TOTP counter are specified on these.
 */
module Bits {

  type byte = x: int | 0 <= x < 256
  type bit = x: int | 0 <= x < 2

  function Pow2(n: nat): (r: nat)
    ensures r >= 1
  {
    if n == 0 then 1 else 2 * Pow2(n - 1)
  }

  lemma Pow2Small()
    ensures Pow2(5) == 32 && Pow2(8) == 256
  {
    assert Pow2(1) == 2;
    assert Pow2(2) == 4;
    assert Pow2(3) == 8;
    assert Pow2(4) == 16;
    assert Pow2(5) == 32;
    assert Pow2(6) == 64;
    assert Pow2(7) == 128;
  }

  lemma ModSmall(x: int, m: int)
    requires 0 <= x < m
    ensures x % m == x
  {
  }

  lemma {:induction false} Pow2Add(a: nat, b: nat)
    ensures Pow2(a + b) == Pow2(a) * Pow2(b)
  {
    if b > 0 {
      Pow2Add(a, b - 1);
      assert Pow2(a + b) == 2 * Pow2(a + b - 1);
    }
  }

  /** Big-endian value of a bit string: the last bit is the least significant. */
  function BitsToNat(s: seq<bit>): (r: nat)
    ensures r < Pow2(|s|)
  {
    if |s| == 0 then 0 else 2 * BitsToNat(s[..|s| - 1]) + s[|s| - 1]
  }

  /** The n-bit big-endian representation of v. */
  function NatToBits(v: nat, n: nat): (s: seq<bit>)
    requires v < Pow2(n)
    ensures |s| == n
    ensures BitsToNat(s) == v
  {
    if n == 0 then [] else
      var s := NatToBits(v / 2, n - 1) + [v % 2];
      assert s[..|s| - 1] == NatToBits(v / 2, n - 1);
      s
  }

  function Zeros(n: nat): (s: seq<bit>)
    ensures |s| == n
    ensures forall i :: 0 <= i < n ==> s[i] == 0
  {
    seq(n, i => 0)
  }

  lemma {:induction false} ZerosValue(n: nat)
    ensures BitsToNat(Zeros(n)) == 0
  {
    if n > 0 {
      assert Zeros(n)[..n - 1] == Zeros(n - 1);
      ZerosValue(n - 1);
    }
  }

  /** Concatenation shifts the prefix left by the length of the suffix. */
  lemma {:induction false} BitsToNatAppend(a: seq<bit>, b: seq<bit>)
    ensures BitsToNat(a + b) == BitsToNat(a) * Pow2(|b|) + BitsToNat(b)
  {
    if |b| == 0 {
      assert a + b == a;
    } else {
      var b' := b[..|b| - 1];
      assert (a + b)[..|a + b| - 1] == a + b';
      BitsToNatAppend(a, b');
      var x, p := BitsToNat(a), Pow2(|b'|);
      assert BitsToNat(a + b) == 2 * (x * p + BitsToNat(b')) + b[|b| - 1];
      assert 2 * (x * p) == x * (2 * p) by { MulComm3(2, x, p); }
    }
  }

  lemma MulComm3(a: int, b: int, c: int)
    ensures a * (b * c) == b * (a * c)
  {
  }

  lemma MulMonotone(a: int, d: int)
    requires d > 0
    ensures a >= 1 ==> a * d >= d
    ensures a <= -1 ==> a * d <= -d
  {
    if a >= 1 {
      assert a * d == d + (a - 1) * d;
    } else if a <= -1 {
      assert a * d == -d + (a + 1) * d;
    }
  }

  /** Moving the first k pending bits over to the processed ones. */
  lemma MoveHead(done: seq<bit>, pending: seq<bit>, k: nat)
    requires k <= |pending|
    ensures done + pending == (done + pending[..k]) + pending[k..]
  {
    assert pending == pending[..k] + pending[k..];
  }

  lemma DivBound(v: nat, d: nat, p: nat)
    requires d > 0 && v < d * p
    ensures v / d < p
  {
    var q := v / d;
    if q >= p {
      MulMonotone(q - p + 1, d);
      assert q * d == (q - p) * d + p * d;
      MulMonotone(q - p, d);
      assert false;
    }
  }

  /** Euclidean division by a positive divisor is determined by quotient and remainder. */
  lemma DivModUnique(q: int, r: int, d: int)
    requires d > 0 && 0 <= r < d
    ensures (q * d + r) / d == q
    ensures (q * d + r) % d == r
  {
    var x := q * d + r;
    var q', r' := x / d, x % d;
    assert x == q' * d + r';
    assert (q - q') * d == r' - r;
    MulMonotone(q - q', d);
  }

  lemma ValueSplit(s: seq<bit>, k: nat)
    requires k <= |s|
    ensures BitsToNat(s) == BitsToNat(s[..k]) * Pow2(|s| - k) + BitsToNat(s[k..])
  {
    SliceJoin(s, k);
    BitsToNatAppend(s[..k], s[k..]);
  }

  /** A sequence is its prefix followed by the matching suffix. */
  lemma SliceJoin<T>(s: seq<T>, k: nat)
    requires k <= |s|
    ensures s[..k] + s[k..] == s
  {
  }

  /** Splitting a bit string into a head and a tail is division with remainder. */
  lemma SplitValue(s: seq<bit>, k: nat)
    requires k <= |s|
    ensures BitsToNat(s) / Pow2(|s| - k) == BitsToNat(s[..k])
    ensures BitsToNat(s) % Pow2(|s| - k) == BitsToNat(s[k..])
  {
    ValueSplit(s, k);
    DivModOf(BitsToNat(s), BitsToNat(s[..k]), Pow2(|s| - k), BitsToNat(s[k..]));
  }

  lemma DivModOf(x: int, q: int, d: int, r: int)
    requires d > 0 && 0 <= r < d && x == q * d + r
    ensures x / d == q && x % d == r
  {
    DivModUnique(q, r, d);
  }

  lemma {:induction false} NatToBitsOfValue(s: seq<bit>)
    ensures NatToBits(BitsToNat(s), |s|) == s
  {
    if |s| > 0 {
      var p := s[..|s| - 1];
      NatToBitsOfValue(p);
      assert BitsToNat(s) / 2 == BitsToNat(p);
      assert BitsToNat(s) % 2 == s[|s| - 1];
      assert s == p + [s[|s| - 1]];
    }
  }

  /** The eight bits of a byte, most significant first. */
  function ByteBits(b: byte): (s: seq<bit>)
    ensures |s| == 8
    ensures BitsToNat(s) == b
  {
    NatToBits(b, 8)
  }

  /** The bit string of a byte string: bytes in order, each most significant bit first. */
  function BitsOf(bs: seq<byte>): (s: seq<bit>)
    ensures |s| == 8 * |bs|
  {
    if |bs| == 0 then [] else BitsOf(bs[..|bs| - 1]) + ByteBits(bs[|bs| - 1])
  }

  lemma {:induction false} BitsOfAppend(a: seq<byte>, b: seq<byte>)
    ensures BitsOf(a + b) == BitsOf(a) + BitsOf(b)
  {
    if |b| == 0 {
      assert a + b == a;
    } else {
      var b' := b[..|b| - 1];
      BitsOfLast(a, b);
      BitsOfAppend(a, b');
      AppendAssoc(BitsOf(a), BitsOf(b'), ByteBits(b[|b| - 1]));
    }
  }

  /** Unfolding BitsOf once at the end of a concatenation. */
  lemma BitsOfLast(a: seq<byte>, b: seq<byte>)
    requires |b| > 0
    ensures BitsOf(a + b) == BitsOf(a + b[..|b| - 1]) + ByteBits(b[|b| - 1])
  {
    var ab := a + b;
    assert ab[..|ab| - 1] == a + b[..|b| - 1];
  }

  lemma BitsOfSnoc(bs: seq<byte>, i: nat)
    requires i < |bs|
    ensures BitsOf(bs[..i + 1]) == BitsOf(bs[..i]) + ByteBits(bs[i])
  {
    assert bs[..i + 1][..i] == bs[..i];
  }

  lemma AppendAssoc<T>(a: seq<T>, b: seq<T>, c: seq<T>)
    ensures a + b + c == a + (b + c)
  {
  }

  lemma MultipleMod(k: nat, m: nat)
    requires m > 0
    ensures (m * k) % m == 0
  {
    DivModOf(m * k, k, m, 0);
  }

  lemma BitsOfCons(b: byte, rest: seq<byte>)
    ensures BitsOf([b] + rest) == ByteBits(b) + BitsOf(rest)
  {
    BitsOfAppend([b], rest);
    assert [b][..0] == [];
  }

  /** Regroups a bit string into bytes, dropping a trailing partial byte. */
  function BytesOfBits(bits: seq<bit>): (bs: seq<byte>)
    ensures |bs| == |bits| / 8
  {
    if |bits| < 8 then [] else [BitsToNat(bits[..8])] + BytesOfBits(bits[8..])
  }

  lemma {:induction false} BytesOfBitsAppend(a: seq<bit>, b: seq<bit>)
    requires |a| % 8 == 0
    ensures BytesOfBits(a + b) == BytesOfBits(a) + BytesOfBits(b)
  {
    if |a| == 0 {
      assert a + b == b;
    } else {
      assert (a + b)[..8] == a[..8];
      assert (a + b)[8..] == a[8..] + b;
      BytesOfBitsAppend(a[8..], b);
    }
  }

  /** A whole byte in front of a bit string comes out as that byte. */
  lemma BytesOfBitsCons(b: byte, rest: seq<bit>)
    ensures BytesOfBits(ByteBits(b) + rest) == [b] + BytesOfBits(rest)
  {
    var all := ByteBits(b) + rest;
    assert all[..8] == ByteBits(b);
    assert all[8..] == rest;
  }

  /** Bytes survive the trip through bits, whatever partial byte is appended. */
  lemma {:induction false} BytesOfBitsOf(bs: seq<byte>, tail: seq<bit>)
    requires |tail| < 8
    ensures BytesOfBits(BitsOf(bs) + tail) == bs
  {
    if |bs| > 0 {
      var rest := bs[1..];
      assert bs == [bs[0]] + rest;
      BitsOfCons(bs[0], rest);
      AppendAssoc(ByteBits(bs[0]), BitsOf(rest), tail);
      BytesOfBitsCons(bs[0], BitsOf(rest) + tail);
      BytesOfBitsOf(rest, tail);
    }
  }
}
