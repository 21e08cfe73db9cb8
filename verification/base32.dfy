/**
 * The unpadded RFC 4648 base32 codec used for TOTP secrets
 * (src/adapters/util/totp.util.ts).
 *
 * Encode and Decode are stated on bit strings: the bytes' bits, most
 * significant first, cut into 5-bit groups (the last one zero-filled), each
 * group naming one alphabet letter. EncodeLoop and DecodeLoop follow the
 * source's accumulator loops and are proved to compute exactly these.
 */
module Base32 {
  import opened Wrappers
  import opened Bits

  const Alphabet: string := "ABCDEFGHIJKLMNOPQRSTUVWXYZ234567"

  /** Values 0..31, the index of one alphabet letter. */
  type quint = x: int | 0 <= x < 32

  /** The value of one 5-bit group. */
  function Group(g: seq<bit>): (v: quint)
    requires |g| == 5
    ensures v == BitsToNat(g)
  {
    Pow2Small();
    BitsToNat(g)
  }

  /** ASCII upper-casing, as toUpperCase does on the alphabet's letters. */
  function ToUpper(c: char): (u: char)
    ensures 'a' <= c <= 'z' ==> u as int == c as int - 32
    ensures !('a' <= c <= 'z') ==> u == c
  {
    if 'a' <= c <= 'z' then (c as int - 32) as char else c
  }

  /** The characters of the alphabet: A-Z and 2-7. */
  predicate IsAlphabetChar(c: char) {
    'A' <= c <= 'Z' || '2' <= c <= '7'
  }

  /** The g-th alphabet letter, computed. */
  function Letter(g: quint): (c: char)
    ensures IsAlphabetChar(c)
  {
    if g < 26 then ('A' as int + g) as char else ('2' as int + g - 26) as char
  }

  /** The alphabet string lists the letters in order. */
  lemma AlphabetLetter(g: quint)
    ensures Alphabet[g] == Letter(g)
  {
  }

  /** alphabet.indexOf(char) for a single upper-cased character; None stands for -1. */
  function IndexOf(c: char): (r: Option<quint>)
    ensures r.Some? ==> Letter(r.value) == c
    ensures r.None? <==> !IsAlphabetChar(c)
  {
    if 'A' <= c <= 'Z' then Some(c as int - 'A' as int)
    else if '2' <= c <= '7' then Some(c as int - '2' as int + 26)
    else None
  }

  lemma IndexOfLetter(g: quint)
    ensures IndexOf(Letter(g)) == Some(g)
    ensures ToUpper(Letter(g)) == Letter(g)
  {
  }

  /** The encoding of a bit string, 5 bits per letter, the last group zero-filled. */
  function EncodeBits(bits: seq<bit>): (s: string)
    ensures |s| == (|bits| + 4) / 5
    decreases |bits|
  {
    if |bits| == 0 then ""
    else if |bits| < 5 then [Letter(Group(bits + Zeros(5 - |bits|)))]
    else [Letter(Group(bits[..5]))] + EncodeBits(bits[5..])
  }

  /** base32Encode: ceil(8n/5) letters of the alphabet, no '=' padding. */
  function Encode(bytes: seq<byte>): (s: string)
    ensures |s| == (8 * |bytes| + 4) / 5
  {
    EncodeBits(BitsOf(bytes))
  }

  /** The 5-bit groups of the letters of s; anything outside the alphabet is skipped. */
  function DecodeBits(s: string): (bits: seq<bit>)
    ensures |bits| == 5 * LetterCount(s)
  {
    if |s| == 0 then []
    else match IndexOf(ToUpper(s[0]))
      case None => DecodeBits(s[1..])
      case Some(g) => NatToBits(g, 5) + DecodeBits(s[1..])
  }

  /** The number of characters of s that are letters once upper-cased. */
  function LetterCount(s: string): (n: nat)
    ensures n <= |s|
  {
    if |s| == 0 then 0 else (if IndexOf(ToUpper(s[0])).Some? then 1 else 0) + LetterCount(s[1..])
  }

  /** base32Decode: every 8 decoded bits make a byte; leftover bits are dropped. */
  function Decode(s: string): (bytes: seq<byte>)
    ensures |bytes| <= 5 * |s| / 8
  {
    BytesOfBits(DecodeBits(s))
  }

  lemma {:induction false} EncodeBitsAppend(a: seq<bit>, b: seq<bit>)
    requires |a| % 5 == 0
    ensures EncodeBits(a + b) == EncodeBits(a) + EncodeBits(b)
    decreases |a|
  {
    if |a| == 0 {
      assert a + b == b;
    } else {
      assert (a + b)[..5] == a[..5];
      assert (a + b)[5..] == a[5..] + b;
      EncodeBitsAppend(a[5..], b);
    }
  }

  lemma {:induction false} DecodeBitsAppend(a: string, b: string)
    ensures DecodeBits(a + b) == DecodeBits(a) + DecodeBits(b)
  {
    if |a| == 0 {
      assert a + b == b;
    } else {
      assert (a + b)[0] == a[0];
      assert (a + b)[1..] == a[1..] + b;
      DecodeBitsAppend(a[1..], b);
    }
  }

  lemma DecodeOneLetter(g: quint, rest: string)
    ensures DecodeBits([Letter(g)] + rest) == NatToBits(g, 5) + DecodeBits(rest)
  {
    IndexOfLetter(g);
    var s := [Letter(g)] + rest;
    assert s[0] == Letter(g) && s[1..] == rest;
  }

  /** Zero bits filling the last letter of an encoding of n bits. */
  function FillLength(n: nat): (k: nat)
    ensures k < 5 && (n + k) % 5 == 0
  {
    var r := n % 5;
    DivModOf(n + (5 - r) % 5, n / 5 + (if r == 0 then 0 else 1), 5, 0);
    (5 - r) % 5
  }

  lemma FillLengthShift(n: nat)
    ensures FillLength(n + 5) == FillLength(n)
  {
    DivModOf(n + 5, n / 5 + 1, 5, n % 5);
  }

  /** Decoding an encoding gives back the bits, plus the zero fill of the last letter. */
  lemma {:induction false} DecodeEncodeBits(bits: seq<bit>)
    ensures DecodeBits(EncodeBits(bits)) == bits + Zeros(FillLength(|bits|))
    decreases |bits|
  {
    if |bits| == 0 {
      assert FillLength(0) == 0;
    } else if |bits| < 5 {
      var full := bits + Zeros(5 - |bits|);
      var g := Group(full);
      assert FillLength(|bits|) == 5 - |bits| by {
        ModSmall(|bits|, 5);
        ModSmall(5 - |bits|, 5);
      }
      calc {
        DecodeBits(EncodeBits(bits));
        DecodeBits([Letter(g)] + "");
        { DecodeOneLetter(g, ""); }
        NatToBits(g, 5) + DecodeBits("");
        { NatToBitsOfValue(full); }
        full;
      }
    } else {
      var head, rest := bits[..5], bits[5..];
      assert bits == head + rest;
      var g := Group(head);
      calc {
        DecodeBits(EncodeBits(bits));
        DecodeBits([Letter(g)] + EncodeBits(rest));
        { DecodeOneLetter(g, EncodeBits(rest)); }
        NatToBits(g, 5) + DecodeBits(EncodeBits(rest));
        { NatToBitsOfValue(head); }
        head + DecodeBits(EncodeBits(rest));
        { DecodeEncodeBits(rest); }
        head + (rest + Zeros(FillLength(|rest|)));
        { FillLengthShift(|rest|); }
        bits + Zeros(FillLength(|bits|));
      }
    }
  }

  /** Round trip: decoding the encoding of any byte string gives it back. */
  lemma DecodeEncode(bytes: seq<byte>)
    ensures Decode(Encode(bytes)) == bytes
  {
    DecodeEncodeBits(BitsOf(bytes));
    BytesOfBitsOf(bytes, Zeros(FillLength(|BitsOf(bytes)|)));
  }

  /** Every character of an encoding is an alphabet letter; in particular there is no '='. */
  lemma {:induction false} EncodeBitsAlphabet(bits: seq<bit>)
    ensures forall i :: 0 <= i < |EncodeBits(bits)| ==> IsAlphabetChar(EncodeBits(bits)[i])
    decreases |bits|
  {
    if |bits| >= 5 {
      EncodeBitsAlphabet(bits[5..]);
    }
  }

  lemma EncodeAlphabet(bytes: seq<byte>)
    ensures forall i :: 0 <= i < |Encode(bytes)| ==> IsAlphabetChar(Encode(bytes)[i])
  {
    EncodeBitsAlphabet(BitsOf(bytes));
  }

  /** A 20-byte TOTP secret is 32 letters long. */
  lemma SecretLength(bytes: seq<byte>)
    requires |bytes| == 20
    ensures |Encode(bytes)| == 32
  {
  }

  /** Decoding ignores letter case. */
  lemma {:induction false} DecodeIgnoresCase(s: string, t: string)
    requires |s| == |t|
    requires forall i :: 0 <= i < |s| ==> ToUpper(s[i]) == ToUpper(t[i])
    ensures Decode(s) == Decode(t)
  {
    DecodeBitsIgnoresCase(s, t);
  }

  lemma {:induction false} DecodeBitsIgnoresCase(s: string, t: string)
    requires |s| == |t|
    requires forall i :: 0 <= i < |s| ==> ToUpper(s[i]) == ToUpper(t[i])
    ensures DecodeBits(s) == DecodeBits(t)
  {
    if |s| > 0 {
      assert ToUpper(s[0]) == ToUpper(t[0]);
      assert forall i :: 0 <= i < |s| - 1 ==> s[1..][i] == s[i + 1] && t[1..][i] == t[i + 1];
      DecodeBitsIgnoresCase(s[1..], t[1..]);
    }
  }

  /** Characters outside the alphabet (such as '=' padding) are skipped. */
  lemma SkipsNonAlphabet(a: string, c: char, b: string)
    requires !IsAlphabetChar(ToUpper(c))
    ensures Decode(a + [c] + b) == Decode(a + b)
  {
    assert IndexOf(ToUpper(c)).None?;
    assert DecodeBits([c]) == [] by {
      assert [c][0] == c && [c][1..] == "";
    }
    calc {
      DecodeBits(a + [c] + b);
      { DecodeBitsAppend(a + [c], b); }
      DecodeBits(a + [c]) + DecodeBits(b);
      { DecodeBitsAppend(a, [c]); }
      DecodeBits(a) + DecodeBits(b);
      { DecodeBitsAppend(a, b); }
      DecodeBits(a + b);
    }
  }

  /** The top five of at least five pending bits, and what remains below them. */
  lemma TopFive(pending: seq<bit>)
    requires |pending| >= 5
    ensures BitsToNat(pending) / Pow2(|pending| - 5) % 32 == BitsToNat(pending[..5])
    ensures BitsToNat(pending) % Pow2(|pending| - 5) == BitsToNat(pending[5..])
  {
    SplitValue(pending, 5);
    Pow2Small();
    ModSmall(BitsToNat(pending[..5]), 32);
  }

  lemma EncodeOneGroup(head: seq<bit>)
    requires |head| == 5
    ensures EncodeBits(head) == [Letter(Group(head))]
  {
    Pow2Small();
    assert head[5..] == [];
    assert head[..5] == head;
    assert EncodeBits(head[5..]) == [];
  }

  /** One letter leaves the encoder: the top five pending bits. */
  lemma EncodeEmitStep(consumed: seq<bit>, pending: seq<bit>)
    requires |consumed| % 5 == 0 && |pending| >= 5
    ensures BitsToNat(pending) / Pow2(|pending| - 5) % 32 == BitsToNat(pending[..5])
    ensures BitsToNat(pending) % Pow2(|pending| - 5) == BitsToNat(pending[5..])
    ensures EncodeBits(consumed + pending[..5]) == EncodeBits(consumed) + [Letter(Group(pending[..5]))]
    ensures consumed + pending == (consumed + pending[..5]) + pending[5..]
  {
    var head := pending[..5];
    assert BitsToNat(pending) / Pow2(|pending| - 5) % 32 == BitsToNat(head)
      && BitsToNat(pending) % Pow2(|pending| - 5) == BitsToNat(pending[5..]) by {
      TopFive(pending);
    }
    assert EncodeBits(consumed + head) == EncodeBits(consumed) + [Letter(Group(head))] by {
      EncodeOneGroup(head);
      EncodeBitsAppend(consumed, head);
    }
    MoveHead(consumed, pending, 5);
  }

  lemma ShiftFill(pending: seq<bit>)
    requires 0 < |pending| < 5
    ensures BitsToNat(pending) * Pow2(5 - |pending|) % 32 == BitsToNat(pending + Zeros(5 - |pending|))
  {
    var z := Zeros(5 - |pending|);
    assert BitsToNat(pending + z) == BitsToNat(pending) * Pow2(5 - |pending|) by {
      BitsToNatAppend(pending, z);
      ZerosValue(5 - |pending|);
    }
    assert BitsToNat(pending + z) < 32 by {
      Pow2Small();
    }
    ModSmall(BitsToNat(pending + z), 32);
  }

  lemma EncodePartialGroup(tail: seq<bit>)
    requires 0 < |tail| < 5
    ensures EncodeBits(tail) == [Letter(Group(tail + Zeros(5 - |tail|)))]
  {
    Pow2Small();
    assert |tail + Zeros(5 - |tail|)| == 5;
  }

  /** The last, partial letter: the pending bits shifted left to fill five. */
  lemma EncodeTailStep(consumed: seq<bit>, pending: seq<bit>)
    requires |consumed| % 5 == 0 && 0 < |pending| < 5
    ensures BitsToNat(pending) * Pow2(5 - |pending|) % 32 == BitsToNat(pending + Zeros(5 - |pending|))
    ensures EncodeBits(consumed + pending) == EncodeBits(consumed) + [Letter(Group(pending + Zeros(5 - |pending|)))]
  {
    ShiftFill(pending);
    EncodePartialGroup(pending);
    EncodeBitsAppend(consumed, pending);
  }

  /** The inner loop of base32Encode: emit letters while five bits are pending. */
  method EmitLetters(output0: string, bits0: nat, value0: nat, ghost consumed0: seq<bit>, ghost pending0: seq<bit>)
    returns (output: string, bits: nat, value: nat, ghost consumed: seq<bit>, ghost pending: seq<bit>)
    requires |consumed0| == 5 * |output0| && output0 == EncodeBits(consumed0)
    requires bits0 == |pending0| && value0 == BitsToNat(pending0)
    ensures consumed0 + pending0 == consumed + pending
    ensures |consumed| == 5 * |output| && output == EncodeBits(consumed)
    ensures bits == |pending| < 5 && value == BitsToNat(pending)
  {
    output, bits, value, consumed, pending := output0, bits0, value0, consumed0, pending0;
    while bits >= 5
      invariant consumed0 + pending0 == consumed + pending
      invariant |consumed| == 5 * |output| && output == EncodeBits(consumed)
      invariant bits == |pending| && value == BitsToNat(pending)
    {
      MultipleMod(|output|, 5);
      EncodeEmitStep(consumed, pending);
      var g: quint := value / Pow2(bits - 5) % 32;
      AlphabetLetter(g);
      output := output + [Alphabet[g]];
      bits := bits - 5;
      value := value % Pow2(bits);
      consumed := consumed + pending[..5];
      pending := pending[5..];
    }
  }

  /** base32Encode's loop; the accumulator keeps only its live bits (mod 2^bits). */
  method EncodeLoop(buffer: seq<byte>) returns (output: string)
    ensures output == Encode(buffer)
  {
    var bits: nat := 0;
    var value: nat := 0;
    output := "";
    ghost var consumed: seq<bit> := [];
    ghost var pending: seq<bit> := [];
    for i := 0 to |buffer|
      invariant BitsOf(buffer[..i]) == consumed + pending
      invariant |consumed| == 5 * |output| && output == EncodeBits(consumed)
      invariant bits == |pending| < 5 && value == BitsToNat(pending)
    {
      BitsOfSnoc(buffer, i);
      ShiftInByte(pending, buffer[i]);
      value := value * 256 + buffer[i];
      bits := bits + 8;
      AppendAssoc(consumed, pending, ByteBits(buffer[i]));
      pending := pending + ByteBits(buffer[i]);
      output, bits, value, consumed, pending := EmitLetters(output, bits, value, consumed, pending);
    }
    assert buffer[..|buffer|] == buffer;
    MultipleMod(|output|, 5);
    if bits > 0 {
      EncodeTailStep(consumed, pending);
      var g: quint := value * Pow2(5 - bits) % 32;
      AlphabetLetter(g);
      output := output + [Alphabet[g]];
    } else {
      assert consumed + pending == consumed;
    }
  }

  /** One letter enters the decoder: five more decoded bits. */
  lemma DecodeTakeStep(s: string, i: nat, g: quint)
    requires i < |s| && IndexOf(ToUpper(s[i])) == Some(g)
    ensures DecodeBits(s[..i + 1]) == DecodeBits(s[..i]) + NatToBits(g, 5)
  {
    var c := s[i];
    assert s[..i + 1] == s[..i] + [c];
    assert DecodeBits([c]) == NatToBits(g, 5) by {
      assert [c][0] == c && [c][1..] == "";
    }
    DecodeBitsAppend(s[..i], [c]);
  }

  /** A byte enters the encoder: eight more pending bits. */
  lemma ShiftInByte(pending: seq<bit>, b: byte)
    ensures BitsToNat(pending + ByteBits(b)) == BitsToNat(pending) * 256 + b
  {
    BitsToNatAppend(pending, ByteBits(b));
    Pow2Small();
  }

  /** ... and five more pending bits shift the accumulator left by five. */
  lemma ShiftInLetter(pending: seq<bit>, g: quint)
    ensures BitsToNat(pending + NatToBits(g, 5)) == BitsToNat(pending) * 32 + g
  {
    BitsToNatAppend(pending, NatToBits(g, 5));
    Pow2Small();
  }

  /** A character outside the alphabet adds no decoded bits. */
  lemma DecodeSkipStep(s: string, i: nat)
    requires i < |s| && IndexOf(ToUpper(s[i])).None?
    ensures DecodeBits(s[..i + 1]) == DecodeBits(s[..i])
  {
    var c := s[i];
    assert s[..i + 1] == s[..i] + [c];
    assert DecodeBits([c]) == [] by {
      assert [c][0] == c && [c][1..] == "";
    }
    DecodeBitsAppend(s[..i], [c]);
  }

  lemma TopEight(pending: seq<bit>)
    requires |pending| >= 8
    ensures BitsToNat(pending) / Pow2(|pending| - 8) % 256 == BitsToNat(pending[..8])
    ensures BitsToNat(pending) % Pow2(|pending| - 8) == BitsToNat(pending[8..])
  {
    SplitValue(pending, 8);
    Pow2Small();
    ModSmall(BitsToNat(pending[..8]), 256);
  }

  lemma BytesOfOneByte(head: seq<bit>)
    requires |head| == 8
    ensures BytesOfBits(head) == [BitsToNat(head)]
  {
    Pow2Small();
    assert head[..8] == head;
    assert BytesOfBits(head[8..]) == [];
  }

  /** One byte leaves the decoder: the top eight pending bits. */
  lemma DecodeEmitStep(emitted: seq<bit>, pending: seq<bit>)
    requires |emitted| % 8 == 0 && |pending| >= 8
    ensures BitsToNat(pending) / Pow2(|pending| - 8) % 256 == BitsToNat(pending[..8])
    ensures BitsToNat(pending) % Pow2(|pending| - 8) == BitsToNat(pending[8..])
    ensures BytesOfBits(emitted + pending[..8]) == BytesOfBits(emitted) + [BitsToNat(pending[..8])]
    ensures emitted + pending == (emitted + pending[..8]) + pending[8..]
  {
    var head := pending[..8];
    assert BitsToNat(pending) / Pow2(|pending| - 8) % 256 == BitsToNat(head)
      && BitsToNat(pending) % Pow2(|pending| - 8) == BitsToNat(pending[8..]) by {
      TopEight(pending);
    }
    assert BytesOfBits(emitted + head) == BytesOfBits(emitted) + [BitsToNat(head)] by {
      BytesOfOneByte(head);
      BytesOfBitsAppend(emitted, head);
    }
    MoveHead(emitted, pending, 8);
  }

  /** One letter enters the decoder: its five bits join the pending ones. */
  lemma DecodeTake(s: string, i: nat, g: quint, emitted: seq<bit>, pending: seq<bit>)
    requires i < |s| && IndexOf(ToUpper(s[i])) == Some(g)
    requires DecodeBits(s[..i]) == emitted + pending
    ensures DecodeBits(s[..i + 1]) == emitted + (pending + NatToBits(g, 5))
    ensures BitsToNat(pending + NatToBits(g, 5)) == BitsToNat(pending) * 32 + g
  {
    DecodeTakeStep(s, i, g);
    ShiftInLetter(pending, g);
    AppendAssoc(emitted, pending, NatToBits(g, 5));
  }

  /** One byte leaves the decoder after `index` earlier ones. */
  lemma DecodeEmit(emitted: seq<bit>, pending: seq<bit>, index: nat)
    requires |emitted| == 8 * index && |pending| >= 8
    ensures |emitted + pending[..8]| == 8 * (index + 1)
    ensures BytesOfBits(emitted + pending[..8]) == BytesOfBits(emitted) + [BitsToNat(pending[..8])]
    ensures emitted + pending == (emitted + pending[..8]) + pending[8..]
  {
    MultipleMod(index, 8);
    DecodeEmitStep(emitted, pending);
  }

  /** The accumulator's top eight of `bits` bits are the next byte, and the rest stay behind. */
  lemma EmitValues(value: nat, bits: nat, pending: seq<bit>)
    requires bits == |pending| >= 8 && value == BitsToNat(pending)
    ensures value / Pow2(bits - 8) % 256 == BitsToNat(pending[..8])
    ensures value % Pow2(bits - 8) == BitsToNat(pending[8..])
  {
    TopEight(pending);
  }

  /**
   * base32Decode's loop. The output buffer is allocated with floor(5n/8)
   * bytes; the bound on `index` shows no write falls outside it.
   */
  method DecodeLoop(encoded: string) returns (output: seq<byte>)
    ensures output == Decode(encoded)
  {
    var bits: nat := 0;
    var value: nat := 0;
    var index: nat := 0;
    output := [];
    ghost var emitted: seq<bit> := [];
    ghost var pending: seq<bit> := [];
    for i := 0 to |encoded|
      invariant DecodeBits(encoded[..i]) == emitted + pending
      invariant |emitted| == 8 * index && output == BytesOfBits(emitted)
      invariant bits == |pending| < 8 && value == BitsToNat(pending)
      invariant index == |output| && 8 * index + bits <= 5 * i
    {
      var charIndex := IndexOf(ToUpper(encoded[i]));
      if charIndex.None? {
        DecodeSkipStep(encoded, i);
        continue;
      }
      var g := charIndex.value;
      DecodeTake(encoded, i, g, emitted, pending);
      value := value * 32 + g;
      bits := bits + 5;
      pending := pending + NatToBits(g, 5);
      if bits >= 8 {
        DecodeEmit(emitted, pending, index);
        EmitValues(value, bits, pending);
        var b: byte := value / Pow2(bits - 8) % 256;
        output := output + [b];
        index := index + 1;
        bits := bits - 8;
        value := value % Pow2(bits);
        emitted := emitted + pending[..8];
        pending := pending[8..];
      }
    }
    assert encoded[..|encoded|] == encoded;
    MultipleMod(index, 8);
    BytesOfBitsAppend(emitted, pending);
    assert index <= 5 * |encoded| / 8;
  }
}
