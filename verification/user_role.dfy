/**
 * UserRoleDomain (src/domains/userRole.domain.ts): a named set of
 * permissions that can be switched on and off. The mutating methods return
 * the updated role; `now` stands for new Date() and `id` for the
 * crypto.randomUUID() the constructor draws.
 */
module UserRole {
  import Seqs

  datatype Role = Role(id: string, name: string, description: string, permissions: seq<string>,
                       isActive: bool, createdAt: int, updatedAt: int)

  /** The constructor: active, holding exactly the permissions given. */
  function NewRole(id: string, name: string, description: string, permissions: seq<string>, now: int): (r: Role)
    ensures r.isActive && r.permissions == permissions
    ensures r.id == id && r.name == name && r.description == description
    ensures r.createdAt == now && r.updatedAt == now
  {
    Role(id, name, description, permissions, true, now, now)
  }

  /** hasPermission: permissions.includes(p). */
  predicate HasPermission(r: Role, p: string) {
    p in r.permissions
  }

  /** addPermission: append p when it is missing, touching updatedAt; otherwise nothing. */
  function AddPermission(r: Role, p: string, now: int): (r': Role)
    ensures HasPermission(r', p)
    ensures HasPermission(r, p) ==> r' == r
    ensures !HasPermission(r, p) ==> r' == r.(permissions := r.permissions + [p], updatedAt := now)
    ensures forall q :: HasPermission(r', q) <==> HasPermission(r, q) || q == p
  {
    if HasPermission(r, p) then r else r.(permissions := r.permissions + [p], updatedAt := now)
  }

  /** removePermission: splice out the first occurrence, touching updatedAt; absent means nothing. */
  function RemovePermission(r: Role, p: string, now: int): (r': Role)
    ensures !HasPermission(r, p) ==> r' == r
    ensures HasPermission(r, p) ==> r' == r.(permissions := Seqs.RemoveFirst(r.permissions, p), updatedAt := now)
    ensures multiset(r'.permissions) == multiset(r.permissions) - multiset{p}
  {
    if Seqs.IndexOf(r.permissions, p).Some? then r.(permissions := Seqs.RemoveFirst(r.permissions, p), updatedAt := now)
    else r
  }

  function Activate(r: Role, now: int): (r': Role)
    ensures r'.isActive && r'.updatedAt == now
    ensures r'.(isActive := r.isActive, updatedAt := r.updatedAt) == r
  {
    r.(isActive := true, updatedAt := now)
  }

  function Deactivate(r: Role, now: int): (r': Role)
    ensures !r'.isActive && r'.updatedAt == now
    ensures r'.(isActive := r.isActive, updatedAt := r.updatedAt) == r
  {
    r.(isActive := false, updatedAt := now)
  }

  /** Adding twice is adding once, and it never creates a duplicate. */
  lemma AddPermissionIdempotent(r: Role, p: string, t1: int, t2: int)
    ensures AddPermission(AddPermission(r, p, t1), p, t2) == AddPermission(r, p, t1)
    ensures Seqs.Distinct(r.permissions) ==> Seqs.Distinct(AddPermission(r, p, t1).permissions)
  {
    if !HasPermission(r, p) && Seqs.Distinct(r.permissions) {
      Seqs.AppendDistinct(r.permissions, p);
    }
  }

  /** On a duplicate-free list the permission is gone after its removal, and the list stays duplicate-free. */
  lemma RemoveRevokes(r: Role, p: string, now: int)
    requires Seqs.Distinct(r.permissions)
    ensures !HasPermission(RemovePermission(r, p, now), p)
    ensures Seqs.Distinct(RemovePermission(r, p, now).permissions)
  {
    if HasPermission(r, p) {
      Seqs.DistinctOnce(r.permissions, p);
      Seqs.RemoveOnlyOccurrence(r.permissions, p);
    }
    Seqs.RemoveKeepsDistinct(r.permissions, p);
  }

  /** Removing a permission that was just added restores the original list. */
  lemma AddThenRemove(r: Role, p: string, t1: int, t2: int)
    requires !HasPermission(r, p)
    ensures RemovePermission(AddPermission(r, p, t1), p, t2).permissions == r.permissions
  {
    Seqs.RemoveAppended(r.permissions, p);
  }

  /** Activation and deactivation leave the permissions alone, and undo each other. */
  lemma ToggleKeepsPermissions(r: Role, t1: int, t2: int)
    ensures Deactivate(Activate(r, t1), t2).permissions == r.permissions
    ensures Activate(Deactivate(r, t1), t2) == r.(isActive := true, updatedAt := t2)
  {
  }
}
