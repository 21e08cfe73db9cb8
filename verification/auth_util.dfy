/**
 * AuthUtil (src/adapters/util/auth.util.ts): bcrypt hashing with cost 12 and
 * a random alphanumeric token. bcrypt is an oracle pair; Math.random() is a
 * sequence of draws in [0, 1) given as input.
 */
module AuthUtil {
  const SaltRounds: nat := 12
  const DefaultTokenLength: nat := 32
  const UpperChars: string := "ABCDEFGHIJKLMNOPQRSTUVWXYZ"
  const LowerChars: string := "abcdefghijklmnopqrstuvwxyz"
  const DigitChars: string := "0123456789"
  /** The `chars` string of generateToken: upper case, lower case, digits. */
  const TokenChars: string := UpperChars + LowerChars + DigitChars

  /** A value Math.random() can return. */
  type Draw = r: real | 0.0 <= r < 1.0

  predicate IsAlphanumeric(c: char) {
    'A' <= c <= 'Z' || 'a' <= c <= 'z' || '0' <= c <= '9'
  }

  /** Math.floor(r * chars.length): an index into the 62 characters. */
  function Pick(r: Draw): (k: nat)
    ensures k < |TokenChars| && k as real <= r * 62.0 < k as real + 1.0
  {
    (r * 62.0).Floor
  }

  /** The k-th token character, computed. */
  function TokenChar(k: nat): (c: char)
    requires k < 62
    ensures IsAlphanumeric(c)
  {
    if k < 26 then ('A' as int + k) as char
    else if k < 52 then ('a' as int + k - 26) as char
    else ('0' as int + k - 52) as char
  }

  lemma TokenCharsTable(k: nat)
    requires k < 62
    ensures TokenChars[k] == TokenChar(k)
  {
    if k < 26 {
      assert TokenChars[k] == UpperChars[k];
    } else if k < 52 {
      assert TokenChars[k] == LowerChars[k - 26];
    } else {
      assert TokenChars[k] == DigitChars[k - 52];
    }
  }

  /** The token a sequence of draws spells: one alphanumeric character per draw. */
  function RandomToken(draws: seq<Draw>): (token: string)
    ensures |token| == |draws|
    ensures forall i :: 0 <= i < |token| ==> IsAlphanumeric(token[i])
  {
    seq(|draws|, i requires 0 <= i < |draws| => TokenChar(Pick(draws[i])))
  }

  /**
   * generateToken(length): one character per draw, looked up in the
   * 62-character table and appended in order.
   */
  method GenerateToken(length: nat, draws: seq<Draw>) returns (result: string)
    requires |draws| == length
    ensures |result| == length
    ensures result == RandomToken(draws)
    ensures forall i :: 0 <= i < length ==> result[i] == TokenChars[Pick(draws[i])]
  {
    result := "";
    var i := 0;
    while i < length
      invariant 0 <= i <= length
      invariant |result| == i
      invariant forall j :: 0 <= j < i ==> result[j] == TokenChar(Pick(draws[j]))
      invariant forall j :: 0 <= j < i ==> result[j] == TokenChars[Pick(draws[j])]
    {
      var k := Pick(draws[i]);
      TokenCharsTable(k);
      result := result + [TokenChars[k]];
      i := i + 1;
    }
  }

  /** The character a token carries at each place pins down the draw's bucket. */
  lemma TokenCharInjective(j: nat, k: nat)
    requires j < 62 && k < 62 && TokenChar(j) == TokenChar(k)
    ensures j == k
  {
  }

  /**
   * bcrypt: hash(password, salt) with a random salt, and compare. The
   * library promises that compare accepts a password against any hash made
   * from it; the lemmas that need that promise take it as a requirement.
   */
  datatype Bcrypt = Bcrypt(hash: (string, nat) -> string, compare: (string, string) -> bool)

  ghost predicate Sound(b: Bcrypt) {
    forall p, salt :: b.compare(p, b.hash(p, salt))
  }

  function HashPassword(b: Bcrypt, password: string, salt: nat): (h: string)
  {
    b.hash(password, salt)
  }

  function ComparePassword(b: Bcrypt, password: string, hashed: string): (ok: bool)
  {
    b.compare(password, hashed)
  }

  /** With a sound bcrypt, a password always matches its own hash. */
  lemma CompareOwnHash(b: Bcrypt, password: string, salt: nat)
    requires Sound(b)
    ensures ComparePassword(b, password, HashPassword(b, password, salt))
  {
  }
}
