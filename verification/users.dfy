/**
 * The users table as the use cases see it through IUserRepository: lookups
 * by id and by email, and the two column updates (password, email-verified
 * flag). The repository itself is not part of this model; a lookup returns
 * the first matching row, and an update writes every row with the given id,
 * as an SQL UPDATE ... WHERE id = ? does.
 */
module Users {
  import opened Wrappers

  /** A user row. The id is the decimal text that user.id.toString() yields. */
  datatype User = User(id: string, email: string, password: string, role: Option<string>, emailVerified: bool)

  type UserStore = seq<User>

  /** findById: the first row whose id matches, or null. */
  function FindById(users: UserStore, id: string): (r: Option<User>)
    ensures r.Some? ==> r.value in users && r.value.id == id
    ensures r.None? <==> forall u :: u in users ==> u.id != id
  {
    if |users| == 0 then None
    else if users[0].id == id then Some(users[0])
    else FindById(users[1..], id)
  }

  /** findByEmail: the first row whose email matches, or null. */
  function FindByEmail(users: UserStore, email: string): (r: Option<User>)
    ensures r.Some? ==> r.value in users && r.value.email == email
    ensures r.None? <==> forall u :: u in users ==> u.email != email
  {
    if |users| == 0 then None
    else if users[0].email == email then Some(users[0])
    else FindByEmail(users[1..], email)
  }

  /** updatePassword(id, hash): every row with that id gets the new password. */
  function UpdatePassword(users: UserStore, id: string, hash: string): (r: UserStore)
    ensures |r| == |users|
    ensures forall i :: 0 <= i < |r| ==>
      r[i] == if users[i].id == id then users[i].(password := hash) else users[i]
  {
    seq(|users|, i requires 0 <= i < |users| =>
      if users[i].id == id then users[i].(password := hash) else users[i])
  }

  /** updateEmailVerificationStatus(id, v): every row with that id gets the flag v. */
  function UpdateEmailVerified(users: UserStore, id: string, verified: bool): (r: UserStore)
    ensures |r| == |users|
    ensures forall i :: 0 <= i < |r| ==>
      r[i] == if users[i].id == id then users[i].(emailVerified := verified) else users[i]
  {
    seq(|users|, i requires 0 <= i < |users| =>
      if users[i].id == id then users[i].(emailVerified := verified) else users[i])
  }

  /** A password update acts row by row: on the first row, and on the rest. */
  lemma UpdatePasswordSplit(users: UserStore, id: string, hash: string)
    requires |users| > 0
    ensures UpdatePassword(users, id, hash)[0] == if users[0].id == id then users[0].(password := hash) else users[0]
    ensures UpdatePassword(users, id, hash)[1..] == UpdatePassword(users[1..], id, hash)
  {
  }

  /** The flag update acts row by row: on the first row, and on the rest. */
  lemma UpdateEmailVerifiedSplit(users: UserStore, id: string, verified: bool)
    requires |users| > 0
    ensures UpdateEmailVerified(users, id, verified)[0] ==
      if users[0].id == id then users[0].(emailVerified := verified) else users[0]
    ensures UpdateEmailVerified(users, id, verified)[1..] == UpdateEmailVerified(users[1..], id, verified)
  {
  }

  /** After a password update, the user found by that id carries the new password. */
  lemma {:induction false} UpdatePasswordFound(users: UserStore, id: string, hash: string)
    ensures FindById(UpdatePassword(users, id, hash), id) ==
      if FindById(users, id).Some? then Some(FindById(users, id).value.(password := hash)) else None
  {
    if |users| > 0 {
      UpdatePasswordSplit(users, id, hash);
      UpdatePasswordFound(users[1..], id, hash);
    }
  }

  /** A password update leaves every other user's row as it was. */
  lemma {:induction false} UpdatePasswordOthers(users: UserStore, id: string, hash: string, other: string)
    requires other != id
    ensures FindById(UpdatePassword(users, id, hash), other) == FindById(users, other)
  {
    if |users| > 0 {
      UpdatePasswordSplit(users, id, hash);
      UpdatePasswordOthers(users[1..], id, hash, other);
    }
  }

  /** After the flag update, the user found by that id carries the new flag. */
  lemma {:induction false} UpdateEmailVerifiedFound(users: UserStore, id: string, verified: bool)
    ensures FindById(UpdateEmailVerified(users, id, verified), id) ==
      if FindById(users, id).Some? then Some(FindById(users, id).value.(emailVerified := verified)) else None
  {
    if |users| > 0 {
      UpdateEmailVerifiedSplit(users, id, verified);
      UpdateEmailVerifiedFound(users[1..], id, verified);
    }
  }

  /** The flag update changes no email, so a lookup by email meets the same row, updated. */
  lemma {:induction false} UpdateEmailVerifiedByEmail(users: UserStore, id: string, verified: bool, email: string)
    ensures FindByEmail(UpdateEmailVerified(users, id, verified), email) ==
      if FindByEmail(users, email).None? then None
      else if FindByEmail(users, email).value.id == id then Some(FindByEmail(users, email).value.(emailVerified := verified))
      else FindByEmail(users, email)
  {
    if |users| > 0 {
      UpdateEmailVerifiedSplit(users, id, verified);
      UpdateEmailVerifiedByEmail(users[1..], id, verified, email);
    }
  }
}
