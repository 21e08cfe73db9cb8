/**
 * The two single-use token tables, password_reset and email_verification,
 * as the use cases see them through their repositories. Both have the same
 * shape: the primary key is user_id, so at most one row per user, and a
 * boolean column (is_used or is_verified) that redemption sets. The
 * repositories do this:
 *   - save: an upsert on the primary key;
 *   - findByToken: returns the first row with the token;
 *   - deleteByUserId: removes the user's row;
 *   - markAsUsed / markAsVerified: update every row with the token.
 * The table is a sequence of rows in the order findOne meets them.
 */
module TokenTable {
  import opened Wrappers

  /** A row; `redeemed` is is_used in password_reset and is_verified in email_verification. */
  datatype Row = Row(userId: string, email: string, token: string, expiresAt: int, redeemed: bool)

  type Table = seq<Row>

  /** The primary-key constraint: no two rows for one user. */
  predicate KeyedByUser(t: Table) {
    forall i, j :: 0 <= i < j < |t| ==> t[i].userId != t[j].userId
  }

  /** isTokenExpired(): strictly after the expiry instant. */
  predicate Expired(r: Row, now: int) {
    now > r.expiresAt
  }

  /** The token names a row that is neither expired nor redeemed: the use cases' success condition. */
  predicate Redeemable(t: Table, token: string, now: int) {
    FindByToken(t, token).Some? && !Expired(FindByToken(t, token).value, now)
    && !FindByToken(t, token).value.redeemed
  }

  /** The rows of one user, in table order. */
  function RowsOf(t: Table, userId: string): (rs: seq<Row>)
    ensures forall r :: r in rs <==> r in t && r.userId == userId
    ensures |rs| <= |t|
  {
    if |t| == 0 then []
    else (if t[0].userId == userId then [t[0]] else []) + RowsOf(t[1..], userId)
  }

  /** deleteByUserId: every row of the user goes, every other row stays in order. */
  function DeleteByUserId(t: Table, userId: string): (r: Table)
    ensures forall x :: x in r <==> x in t && x.userId != userId
    ensures RowsOf(r, userId) == []
    ensures KeyedByUser(t) ==> KeyedByUser(r)
  {
    var r := Others(t, userId);
    NoRowsOf(r, userId);
    r
  }

  /** The rows of users other than userId, in table order. */
  function Others(t: Table, userId: string): (r: Table)
    ensures forall x :: x in r <==> x in t && x.userId != userId
    ensures KeyedByUser(t) ==> KeyedByUser(r)
  {
    if |t| == 0 then []
    else if t[0].userId == userId then Others(t[1..], userId)
    else
      var rest := Others(t[1..], userId);
      assert forall x :: x in rest ==> x in t[1..];
      KeyedTail(t);
      KeyedCons(t[0], rest);
      [t[0]] + rest
  }

  /** save: replace the row with the same user id, or append a new one. */
  function Save(t: Table, row: Row): (r: Table)
    ensures row in r
    ensures forall x :: x in r ==> x == row || x in t
    ensures forall x :: x in t && x.userId != row.userId ==> x in r
    ensures KeyedByUser(t) ==> KeyedByUser(r) && forall x :: x in r && x.userId == row.userId ==> x == row
  {
    if |t| == 0 then [row]
    else if t[0].userId == row.userId then
      KeyedTail(t);
      KeyedCons(row, t[1..]);
      [row] + t[1..]
    else
      var rest := Save(t[1..], row);
      assert forall x :: x in rest ==> x == row || x in t[1..];
      KeyedTail(t);
      KeyedCons(t[0], rest);
      [t[0]] + rest
  }

  /** The rows after the first of a keyed table are keyed and belong to other users. */
  lemma KeyedTail(t: Table)
    requires |t| > 0
    ensures KeyedByUser(t) ==> KeyedByUser(t[1..]) && forall y :: y in t[1..] ==> y.userId != t[0].userId
  {
    if KeyedByUser(t) {
      forall y | y in t[1..]
        ensures y.userId != t[0].userId
      {
        var k :| 0 <= k < |t[1..]| && t[1..][k] == y;
        assert t[k + 1] == y;
      }
    }
  }

  /** A row put in front of a keyed table of other users' rows keeps it keyed. */
  lemma KeyedCons(x: Row, rest: Table)
    ensures KeyedByUser(rest) && (forall y :: y in rest ==> y.userId != x.userId) ==> KeyedByUser([x] + rest)
  {
    if KeyedByUser(rest) && (forall y :: y in rest ==> y.userId != x.userId) {
      var t := [x] + rest;
      forall i, j | 0 <= i < j < |t|
        ensures t[i].userId != t[j].userId
      {
        assert t[j] == rest[j - 1];
        if i > 0 {
          assert t[i] == rest[i - 1];
        }
      }
    }
  }

  /** findByToken: the first row carrying the token, or null. */
  function FindByToken(t: Table, token: string): (r: Option<Row>)
    ensures r.Some? ==> r.value in t && r.value.token == token
    ensures r.None? <==> forall x :: x in t ==> x.token != token
  {
    if |t| == 0 then None
    else if t[0].token == token then Some(t[0])
    else FindByToken(t[1..], token)
  }

  /** markAsUsed / markAsVerified: every row with the token is flagged, nothing else changes. */
  function MarkRedeemed(t: Table, token: string): (r: Table)
    ensures |r| == |t|
    ensures forall i :: 0 <= i < |t| ==>
      r[i] == if t[i].token == token then t[i].(redeemed := true) else t[i]
  {
    seq(|t|, i requires 0 <= i < |t| => if t[i].token == token then t[i].(redeemed := true) else t[i])
  }

  /** After marking, the row found by the token is the one found before, now flagged. */
  lemma {:induction false} FindAfterMark(t: Table, token: string)
    ensures FindByToken(MarkRedeemed(t, token), token) ==
      if FindByToken(t, token).Some? then Some(FindByToken(t, token).value.(redeemed := true)) else None
  {
    if |t| > 0 {
      assert MarkRedeemed(t, token)[1..] == MarkRedeemed(t[1..], token);
      FindAfterMark(t[1..], token);
    }
  }

  /** Delete-then-create leaves the user exactly one row: the new one. */
  lemma {:induction false} DeleteThenSave(t: Table, row: Row)
    ensures RowsOf(Save(DeleteByUserId(t, row.userId), row), row.userId) == [row]
  {
    SaveOwnRow(DeleteByUserId(t, row.userId), row);
  }

  /** Saving into a table without the user's rows leaves exactly the saved row. */
  lemma {:induction false} SaveOwnRow(t: Table, row: Row)
    requires RowsOf(t, row.userId) == []
    ensures RowsOf(Save(t, row), row.userId) == [row]
  {
    if |t| > 0 {
      SaveOwnRow(t[1..], row);
    }
  }

  /** On a keyed table a save alone also leaves exactly one row for the user. */
  lemma {:induction false} SaveReplaces(t: Table, row: Row)
    requires KeyedByUser(t)
    ensures RowsOf(Save(t, row), row.userId) == [row]
  {
    if |t| > 0 {
      if t[0].userId == row.userId {
        assert RowsOf(t[1..], row.userId) == [] by {
          forall x | x in t[1..] ensures x.userId != row.userId {
            var j :| 0 <= j < |t[1..]| && t[1..][j] == x;
            assert t[j + 1] == x;
          }
          NoRowsOf(t[1..], row.userId);
        }
        assert ([row] + t[1..])[1..] == t[1..];
      } else {
        SaveReplaces(t[1..], row);
      }
    }
  }

  /** A table without rows of the user has no rows of the user to list. */
  lemma {:induction false} NoRowsOf(t: Table, userId: string)
    requires forall x :: x in t ==> x.userId != userId
    ensures RowsOf(t, userId) == []
  {
    if |t| > 0 {
      NoRowsOf(t[1..], userId);
    }
  }

  /** Deleting one user's rows keeps every other user's rows in order. */
  lemma {:induction false} DeleteKeepsOthers(t: Table, userId: string, other: string)
    requires other != userId
    ensures RowsOf(DeleteByUserId(t, userId), other) == RowsOf(t, other)
  {
    if |t| > 0 {
      DeleteKeepsOthers(t[1..], userId, other);
    }
  }

  /** A save leaves the other users' rows exactly as they were. */
  lemma {:induction false} SaveKeepsOthers(t: Table, row: Row, other: string)
    requires other != row.userId
    ensures RowsOf(Save(t, row), other) == RowsOf(t, other)
  {
    if |t| > 0 && t[0].userId != row.userId {
      SaveKeepsOthers(t[1..], row, other);
    } else if |t| > 0 {
      assert ([row] + t[1..])[1..] == t[1..];
    }
  }
}
