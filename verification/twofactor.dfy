/**
 * The two-factor factor of a user (src/domains/twoFactorAuth.domain.ts): a
 * TOTP secret, a list of single-use backup codes and an enabled flag. The
 * creation time is left out.
 */
module TwoFactor {
  import opened Bits
  import opened Text
  import Seqs

  datatype Factor = Factor(userId: string, secret: string, backupCodes: seq<string>, isEnabled: bool)

  const BackupCodeCount: nat := 10
  const BackupCodeBytes: nat := 4

  /** The constructor: a new factor starts disabled. */
  function New(userId: string, secret: string, backupCodes: seq<string>): (f: Factor)
    ensures !f.isEnabled
    ensures f.userId == userId && f.secret == secret && f.backupCodes == backupCodes
  {
    Factor(userId, secret, backupCodes, false)
  }

  function Enable(f: Factor): (g: Factor)
    ensures g.isEnabled
    ensures g.userId == f.userId && g.secret == f.secret && g.backupCodes == f.backupCodes
  {
    f.(isEnabled := true)
  }

  function Disable(f: Factor): (g: Factor)
    ensures !g.isEnabled
    ensures g.userId == f.userId && g.secret == f.secret && g.backupCodes == f.backupCodes
  {
    f.(isEnabled := false)
  }

  /** Enabling and disabling are idempotent, and each undoes the other. */
  lemma EnableDisableLaws(f: Factor)
    ensures Enable(Enable(f)) == Enable(f) && Disable(Disable(f)) == Disable(f)
    ensures Disable(Enable(f)) == Disable(f) && Enable(Disable(f)) == Enable(f)
    ensures f.isEnabled ==> Enable(f) == f
    ensures !f.isEnabled ==> Disable(f) == f
  {
  }

  /** isBackupCodeValid: backupCodes.includes(code). */
  function IsBackupCodeValid(f: Factor, code: string): (valid: bool)
    ensures valid <==> exists i :: 0 <= i < |f.backupCodes| && f.backupCodes[i] == code
  {
    code in f.backupCodes
  }

  /** removeBackupCode: the first occurrence of the code goes, if there is one. */
  function RemoveBackupCode(f: Factor, code: string): (g: Factor)
    ensures g.userId == f.userId && g.secret == f.secret && g.isEnabled == f.isEnabled
    ensures !IsBackupCodeValid(f, code) ==> g == f
    ensures IsBackupCodeValid(f, code) ==> |g.backupCodes| == |f.backupCodes| - 1
    ensures multiset(g.backupCodes) == multiset(f.backupCodes) - multiset{code}
  {
    f.(backupCodes := Seqs.RemoveFirst(f.backupCodes, code))
  }

  /** The remaining codes keep their order: exactly the first occurrence is dropped. */
  lemma RemoveBackupCodeOrder(f: Factor, code: string)
    ensures RemoveBackupCode(f, code).backupCodes == Seqs.DropFirst(f.backupCodes, code)
  {
    Seqs.RemoveFirstIsDropFirst(f.backupCodes, code);
  }

  /** A code held once is single use: after its removal it is no longer valid. */
  lemma BackupCodeSingleUse(f: Factor, code: string)
    requires multiset(f.backupCodes)[code] == 1
    ensures IsBackupCodeValid(f, code)
    ensures !IsBackupCodeValid(RemoveBackupCode(f, code), code)
  {
    Seqs.RemoveOnlyOccurrence(f.backupCodes, code);
  }

  /** The code string of four random bytes: hex, then toUpperCase. */
  function BackupCode(random: seq<byte>): (code: string)
    requires |random| == BackupCodeBytes
    ensures |code| == 8
    ensures forall i :: 0 <= i < |code| ==> IsUpperHex(code[i])
  {
    UpperHex(Hex(random))
  }

  predicate IsBackupCodeShape(code: string) {
    |code| == 8 && forall i :: 0 <= i < |code| ==> IsUpperHex(code[i])
  }

  /** generateBackupCodes: ten codes, one per four random bytes. */
  function GenerateBackupCodes(random: seq<seq<byte>>): (codes: seq<string>)
    requires |random| == BackupCodeCount
    requires forall i :: 0 <= i < |random| ==> |random[i]| == BackupCodeBytes
    ensures |codes| == BackupCodeCount
    ensures forall i :: 0 <= i < |codes| ==> IsBackupCodeShape(codes[i])
    ensures forall i :: 0 <= i < |codes| ==> codes[i] == BackupCode(random[i])
    ensures forall i, j :: 0 <= i < |codes| && 0 <= j < |codes| && random[i] != random[j] ==> codes[i] != codes[j]
  {
    var codes := seq(BackupCodeCount, i requires 0 <= i < BackupCodeCount => BackupCode(random[i]));
    forall i, j | 0 <= i < |codes| && 0 <= j < |codes| && codes[i] == codes[j]
      ensures random[i] == random[j]
    {
      BackupCodeInjective(random[i], random[j]);
    }
    codes
  }

  lemma {:induction false} UpperHexInjective(a: string, b: string)
    requires forall i :: 0 <= i < |a| ==> IsLowerHex(a[i])
    requires forall i :: 0 <= i < |b| ==> IsLowerHex(b[i])
    requires UpperHex(a) == UpperHex(b)
    ensures a == b
  {
    assert |a| == |b|;
    forall i | 0 <= i < |a|
      ensures a[i] == b[i]
    {
      assert ToUpperHex(a[i]) == UpperHex(a)[i] == UpperHex(b)[i] == ToUpperHex(b[i]);
    }
  }

  /** Different random bytes give different codes. */
  lemma BackupCodeInjective(a: seq<byte>, b: seq<byte>)
    requires |a| == BackupCodeBytes && |b| == BackupCodeBytes
    requires BackupCode(a) == BackupCode(b)
    ensures a == b
  {
    UpperHexInjective(Hex(a), Hex(b));
    HexInjective(a, b);
  }
}
