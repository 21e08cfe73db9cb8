/**
 * RoleManagementService
 * (src/adapters/service/roleManagement/roleManagement.service.ts): role
 * CRUD and permission assignment over the user_roles table. The table is a
 * map from the primary key id to the row; name is a unique column, which
 * the service checks before it writes. A failure is the ResponseErrorDomain
 * the service throws, and leaves the table as it was.
 */
module RoleManagement {
  import opened Wrappers
  import opened Responses
  import opened UserRole

  type RoleStore = map<string, Role>

  const RoleExists: Failure := Failure("Role already exists", Conflict)
  const RoleNameExists: Failure := Failure("Role name already exists", Conflict)
  const RoleNotFound: Failure := Failure("Role not found", NotFound)

  /** What every table the service works on satisfies: rows under their own id, names unique. */
  predicate Valid(store: RoleStore) {
    && (forall id :: id in store ==> store[id].id == id)
    && (forall a, b :: a in store && b in store && store[a].name == store[b].name ==> a == b)
  }

  /** findByName(name) returns a role. */
  predicate NameTaken(store: RoleStore, name: string) {
    exists id :: id in store && store[id].name == name
  }

  /** The role a call returns, or the error it throws, and the table after it. */
  datatype Outcome = Outcome(result: Result<Role, Failure>, store: RoleStore)

  /** createRole: refuse a taken name, else insert a new active role under the drawn id. */
  function CreateRole(store: RoleStore, id: string, name: string, description: string,
                      permissions: seq<string>, now: int): (out: Outcome)
    ensures NameTaken(store, name) ==> out == Outcome(Err(RoleExists), store)
    ensures !NameTaken(store, name) ==>
      && out.result == Ok(NewRole(id, name, description, permissions, now))
      && out.store == store[id := out.result.value]
  {
    if NameTaken(store, name) then Outcome(Err(RoleExists), store)
    else
      var role := NewRole(id, name, description, permissions, now);
      Outcome(Ok(role), store[id := role])
  }

  /**
   * updateRole: 404 for an unknown id; a truthy name that differs from the
   * current one is checked for a clash (409) and then taken; description and
   * permissions are replaced when given. updatedAt is not touched.
   */
  function UpdateRole(store: RoleStore, id: string, name: Option<string>, description: Option<string>,
                      permissions: Option<seq<string>>): (out: Outcome)
    ensures id !in store ==> out == Outcome(Err(RoleNotFound), store)
    ensures out.result.Err? ==> out.store == store
    ensures id in store ==>
      var role := store[id];
      var renames := name.Some? && name.value != "" && name.value != role.name;
      && (out.result.Err? <==> renames && NameTaken(store, name.value))
      && (out.result.Err? ==> out.result.error == RoleNameExists)
      && (out.result.Ok? ==>
            && out.result.value.name == (if renames then name.value else role.name)
            && out.result.value.description == description.GetOr(role.description)
            && out.result.value.permissions == permissions.GetOr(role.permissions)
            && out.result.value.(name := role.name, description := role.description, permissions := role.permissions) == role
            && out.store == store[id := out.result.value])
  {
    if id !in store then Outcome(Err(RoleNotFound), store)
    else
      var role := store[id];
      if name.Some? && name.value != "" && name.value != role.name && NameTaken(store, name.value) then
        Outcome(Err(RoleNameExists), store)
      else
        var named := if name.Some? && name.value != "" && name.value != role.name then role.(name := name.value) else role;
        var described := if description.Some? then named.(description := description.value) else named;
        var updated := if permissions.Some? then described.(permissions := permissions.value) else described;
        Outcome(Ok(updated), store[id := updated])
  }

  /** deleteRole: 404 for an unknown id, else that row goes and no other. The call returns nothing. */
  function DeleteRole(store: RoleStore, id: string): (r: Result<RoleStore, Failure>)
    ensures r.Err? <==> id !in store
    ensures r.Err? ==> r.error == RoleNotFound
    ensures r.Ok? ==> r.value.Keys == store.Keys - {id} && forall k :: k in r.value ==> r.value[k] == store[k]
  {
    if id !in store then Err(RoleNotFound) else Ok(store - {id})
  }

  /** getRole: the row, or null. */
  function GetRole(store: RoleStore, id: string): (r: Option<Role>)
    ensures r.Some? <==> id in store
    ensures r.Some? ==> r.value == store[id]
  {
    if id in store then Some(store[id]) else None
  }

  /**
   * Name order: string comparison by Unicode code point, a shorter prefix
   * first. This is how the repository's `order: { name: 'ASC' }` is read
   * here; a database collation may rank some names differently.
   */
  predicate NameLe(a: string, b: string)
    decreases |a|
  {
    |a| == 0 || (|b| > 0 && (a[0] < b[0] || (a[0] == b[0] && NameLe(a[1..], b[1..]))))
  }

  /** Any two names are comparable. */
  lemma {:induction false} NameLeTotal(a: string, b: string)
    ensures NameLe(a, b) || NameLe(b, a)
    decreases |a|
  {
    if |a| > 0 && |b| > 0 && a[0] == b[0] {
      NameLeTotal(a[1..], b[1..]);
    }
  }

  /** Each role's name is no later than the next one's. */
  predicate SortedByName(s: seq<Role>) {
    forall i :: 0 < i < |s| ==> NameLe(s[i - 1].name, s[i].name)
  }

  /** Put `r` before the first role whose name it does not follow. */
  function InsertByName(r: Role, s: seq<Role>): (t: seq<Role>)
    ensures multiset(t) == multiset(s) + multiset{r}
    ensures forall x :: x in t <==> x in s || x == r
    ensures |t| == |s| + 1 && (t[0] == r || (|s| > 0 && t[0] == s[0]))
    ensures SortedByName(s) ==> SortedByName(t)
  {
    if |s| == 0 || NameLe(r.name, s[0].name) then [r] + s
    else
      NameLeTotal(r.name, s[0].name);
      var rest := InsertByName(r, s[1..]);
      assert s == [s[0]] + s[1..];
      [s[0]] + rest
  }

  /**
   * getAllRoles: the repository's findAll lists every active role once, in
   * name order.
   */
  method GetAllRoles(store: RoleStore) returns (roles: seq<Role>)
    ensures forall r :: r in roles <==> r in store.Values && r.isActive
    ensures forall r :: r in roles ==> multiset(roles)[r] == 1
    ensures SortedByName(roles)
  {
    var active := set r | r in store.Values && r.isActive;
    var rest := active;
    roles := [];
    while rest != {}
      invariant rest <= active
      invariant forall r :: r in roles <==> r in active && r !in rest
      invariant forall r :: r in roles ==> multiset(roles)[r] == 1
      invariant SortedByName(roles)
      decreases |rest|
    {
      var r :| r in rest;
      roles := InsertByName(r, roles);
      rest := rest - {r};
    }
  }

  /** assignPermissionToRole: 404, or addPermission on the row and write it back. */
  function AssignPermission(store: RoleStore, roleId: string, permission: string, now: int): (out: Outcome)
    ensures roleId !in store ==> out == Outcome(Err(RoleNotFound), store)
    ensures roleId in store ==>
      && out.result == Ok(AddPermission(store[roleId], permission, now))
      && out.store == store[roleId := out.result.value]
  {
    if roleId !in store then Outcome(Err(RoleNotFound), store)
    else
      var role := AddPermission(store[roleId], permission, now);
      Outcome(Ok(role), store[roleId := role])
  }

  /** removePermissionFromRole: 404, or removePermission on the row and write it back. */
  function RevokePermission(store: RoleStore, roleId: string, permission: string, now: int): (out: Outcome)
    ensures roleId !in store ==> out == Outcome(Err(RoleNotFound), store)
    ensures roleId in store ==>
      && out.result == Ok(RemovePermission(store[roleId], permission, now))
      && out.store == store[roleId := out.result.value]
  {
    if roleId !in store then Outcome(Err(RoleNotFound), store)
    else
      var role := RemovePermission(store[roleId], permission, now);
      Outcome(Ok(role), store[roleId := role])
  }

  // ---------------------------------------------------------------------
  // Invariants
  // ---------------------------------------------------------------------

  /** A create with a fresh id adds exactly one role and keeps names unique. */
  lemma CreateAddsOne(store: RoleStore, id: string, name: string, description: string,
                      permissions: seq<string>, now: int)
    requires Valid(store) && id !in store && !NameTaken(store, name)
    ensures var out := CreateRole(store, id, name, description, permissions, now);
      && |out.store| == |store| + 1 && out.store - {id} == store
      && Valid(out.store)
  {
    var role := NewRole(id, name, description, permissions, now);
    assert forall k :: k in store ==> store[k].name != name;
    InsertKeepsValid(store, role);
    assert store[id := role] - {id} == store;
  }

  /** A role filed under its own fresh id, with a name no other role has, keeps the table valid. */
  lemma InsertKeepsValid(store: RoleStore, role: Role)
    requires Valid(store) && role.id !in store
    requires forall k :: k in store ==> store[k].name != role.name
    ensures Valid(store[role.id := role])
  {
    var s := store[role.id := role];
    forall a, b | a in s && b in s && s[a].name == s[b].name
      ensures a == b
    {
      if a != role.id && b != role.id {
        assert s[a] == store[a] && s[b] == store[b];
      }
    }
  }

  /** Renaming to a free name, or not renaming, keeps every name unique. */
  lemma UpdateKeepsValid(store: RoleStore, id: string, name: Option<string>, description: Option<string>,
                         permissions: Option<seq<string>>)
    requires Valid(store)
    ensures Valid(UpdateRole(store, id, name, description, permissions).store)
  {
  }

  /** An empty new name is ignored: no clash check, and the name stays. */
  lemma EmptyNameIgnored(store: RoleStore, id: string, description: Option<string>, permissions: Option<seq<string>>)
    requires id in store
    ensures UpdateRole(store, id, Some(""), description, permissions)
         == UpdateRole(store, id, None, description, permissions)
  {
  }

  /** Rewriting a row with its id and name unchanged keeps the table valid. */
  lemma RewriteKeepsValid(store: RoleStore, id: string, role: Role)
    requires Valid(store) && id in store && role.id == store[id].id && role.name == store[id].name
    ensures Valid(store[id := role])
  {
    var s := store[id := role];
    assert forall k :: k in s ==> s[k].id == store[k].id && s[k].name == store[k].name;
  }

  /** Permission changes never touch a name, so they keep the table valid. */
  lemma PermissionChangesKeepValid(store: RoleStore, roleId: string, permission: string, now: int)
    requires Valid(store)
    ensures Valid(AssignPermission(store, roleId, permission, now).store)
    ensures Valid(RevokePermission(store, roleId, permission, now).store)
  {
    if roleId in store {
      RewriteKeepsValid(store, roleId, AddPermission(store[roleId], permission, now));
      RewriteKeepsValid(store, roleId, RemovePermission(store[roleId], permission, now));
    }
  }

  /** Deleting a row keeps the table valid. */
  lemma DeleteKeepsValid(store: RoleStore, id: string)
    requires Valid(store)
    ensures DeleteRole(store, id).Ok? ==> Valid(DeleteRole(store, id).value)
  {
  }

  /** Assigning then revoking a permission the role lacked restores its permission list. */
  lemma AssignThenRevoke(store: RoleStore, roleId: string, permission: string, t1: int, t2: int)
    requires roleId in store && !HasPermission(store[roleId], permission)
    ensures
      var s1 := AssignPermission(store, roleId, permission, t1).store;
      RevokePermission(s1, roleId, permission, t2).store[roleId].permissions == store[roleId].permissions
  {
    AddThenRemove(store[roleId], permission, t1, t2);
  }
}
