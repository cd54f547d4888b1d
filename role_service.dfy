/** backend/src/services/roleService.ts: roles, permissions and the
    Role-to-Permission association table. The association service itself
    inserts any pair; only the controller refuses duplicates. */
module RoleService {
  import opened Wrappers
  import opened Schema
  import Sql

  /** The `WHERE id = ?` clauses of the two tables. */
  function RoleHasId(id: int): Role -> bool {
    (r: Role) => r.id == id
  }

  function PermissionHasId(id: int): Permission -> bool {
    (p: Permission) => p.id == id
  }

  /** The `WHERE roleId = ? AND permissionId = ?` clause. */
  function IsPair(roleId: int, permissionId: int): RolePermission -> bool {
    (m: RolePermission) => m.roleId == roleId && m.permissionId == permissionId
  }

  function WithName(name: string): Role -> Role {
    (r: Role) => r.(name := name)
  }

  function WithAction(action: string, description: string): Permission -> Permission {
    (p: Permission) => p.(action := action, description := description)
  }

  function PermissionId(p: Permission): int { p.id }

  /** How many association rows grant the permission to the role. */
  function PairCount(mappings: seq<RolePermission>, roleId: int, permissionId: int): nat {
    multiset(mappings)[RolePermission(roleId, permissionId)]
  }

  /** No pair is granted twice. */
  predicate UniqueMappings(mappings: seq<RolePermission>) {
    forall m :: m in mappings ==> multiset(mappings)[m] == 1
  }

  /** `description || ''`: a missing or empty description is stored as `''`. */
  function StoredDescription(description: Option<string>): (r: string)
    ensures description.None? ==> r == ""
    ensures description.Some? ==> r == description.value
  {
    if description.Some? && description.value != "" then description.value else ""
  }

  /** `roleService.getById`: the role with that id, or null. */
  function GetRole(roles: seq<Role>, id: int): (r: Option<Role>)
    ensures r.Some? ==> r.value in roles && r.value.id == id
    ensures r.None? <==> forall k :: 0 <= k < |roles| ==> roles[k].id != id
  {
    Sql.First(roles, RoleHasId(id))
  }

  /** `permissionService.getById`: the permission with that id, or null. */
  function GetPermission(permissions: seq<Permission>, id: int): (r: Option<Permission>)
    ensures r.Some? ==> r.value in permissions && r.value.id == id
    ensures r.None? <==> forall k :: 0 <= k < |permissions| ==> permissions[k].id != id
  {
    Sql.First(permissions, PermissionHasId(id))
  }

  /** `rolePermissionService.exists`: some row holds both ids. */
  function Exists(mappings: seq<RolePermission>, roleId: int, permissionId: int): (r: bool)
    ensures r <==> RolePermission(roleId, permissionId) in mappings
  {
    Sql.AnyRow(mappings, IsPair(roleId, permissionId))
  }

  /** `roleService.getPermissions`: the inner join of the role's association
      rows with the permission table. Every permission comes back once per
      row granting it, so duplicated rows give duplicated permissions; SQL
      fixes no order, so only the multiset is stated. */
  function GetPermissions(permissions: seq<Permission>, mappings: seq<RolePermission>, roleId: int): (r: seq<Permission>)
    ensures forall p :: multiset(r)[p] == multiset(permissions)[p] * PairCount(mappings, roleId, p.id)
    decreases |mappings|
  {
    if mappings == [] then []
    else
      var m := mappings[0];
      var rest := GetPermissions(permissions, mappings[1..], roleId);
      var here := if m.roleId == roleId then Sql.Select(permissions, PermissionHasId(m.permissionId)) else [];
      JoinStep(permissions, mappings, roleId, here, rest);
      here + rest
  }

  /** One association row's share of the join. */
  lemma JoinStep(permissions: seq<Permission>, mappings: seq<RolePermission>, roleId: int, here: seq<Permission>, rest: seq<Permission>)
    requires mappings != []
    requires here == if mappings[0].roleId == roleId then Sql.Select(permissions, PermissionHasId(mappings[0].permissionId)) else []
    requires forall p :: multiset(rest)[p] == multiset(permissions)[p] * PairCount(mappings[1..], roleId, p.id)
    ensures forall p :: multiset(here + rest)[p] == multiset(permissions)[p] * PairCount(mappings, roleId, p.id)
  {
    forall p: Permission ensures multiset(here + rest)[p] == multiset(permissions)[p] * PairCount(mappings, roleId, p.id) {
      JoinStepAt(permissions, mappings, roleId, here, rest, p);
    }
  }

  /** One link of the join, for one row: the row is counted once more when
      the link pairs it with the key, and as before otherwise. */
  lemma JoinStepAt(permissions: seq<Permission>, mappings: seq<RolePermission>, roleId: int, here: seq<Permission>, rest: seq<Permission>, p: Permission)
    requires mappings != []
    requires here == if mappings[0].roleId == roleId then Sql.Select(permissions, PermissionHasId(mappings[0].permissionId)) else []
    requires multiset(rest)[p] == multiset(permissions)[p] * PairCount(mappings[1..], roleId, p.id)
    ensures multiset(here + rest)[p] == multiset(permissions)[p] * PairCount(mappings, roleId, p.id)
  {
    var m := mappings[0];
    assert mappings == [m] + mappings[1..];
    var n := multiset(permissions)[p];
    var c := PairCount(mappings[1..], roleId, p.id);
    if m == RolePermission(roleId, p.id) {
      assert PairCount(mappings, roleId, p.id) == c + 1;
      assert multiset(here)[p] == n;
    } else {
      assert PairCount(mappings, roleId, p.id) == c;
      assert multiset(here)[p] == 0;
    }
    Sql.CountStep(multiset(here)[p], multiset(rest)[p], n, c, PairCount(mappings, roleId, p.id));
  }

  /** The association table after `rolePermissionService.delete`: every row
      of the pair is gone, the others stay in order. */
  function Revoked(mappings: seq<RolePermission>, roleId: int, permissionId: int): (r: seq<RolePermission>)
    ensures forall m :: m in r <==> m in mappings && m != RolePermission(roleId, permissionId)
    ensures forall m :: multiset(r)[m] == if m == RolePermission(roleId, permissionId) then 0 else multiset(mappings)[m]
  {
    Sql.DeleteWhere(mappings, IsPair(roleId, permissionId))
  }

  /** The permission row `permissionService.create` inserts. */
  function NewPermission(permissions: seq<Permission>, action: string, description: Option<string>): (r: Permission)
    ensures GetPermission(permissions, r.id).None?
    ensures r.action == action && r.description == StoredDescription(description)
  {
    Permission(Sql.NextId(permissions, PermissionId), action, StoredDescription(description))
  }

  /** `roleService.update`: renames the role and says whether it existed. */
  method UpdateRole(db: Store, id: int, name: string) returns (changed: bool)
    modifies db`roles
    ensures db.roles == Sql.UpdateWhere(old(db.roles), RoleHasId(id), WithName(name))
    ensures changed <==> GetRole(old(db.roles), id).Some?
  {
    changed := Sql.AnyRow(db.roles, RoleHasId(id));
    db.roles := Sql.UpdateWhere(db.roles, RoleHasId(id), WithName(name));
  }

  /** `roleService.delete`: removes the role and says whether it existed. */
  method DeleteRole(db: Store, id: int) returns (deleted: bool)
    modifies db`roles
    ensures db.roles == Sql.DeleteWhere(old(db.roles), RoleHasId(id))
    ensures deleted <==> GetRole(old(db.roles), id).Some?
  {
    deleted := Sql.AnyRow(db.roles, RoleHasId(id));
    db.roles := Sql.DeleteWhere(db.roles, RoleHasId(id));
  }

  /** `permissionService.create`: inserts the permission, storing `''` for a
      missing description, and resolves with its id. */
  method CreatePermission(db: Store, action: string, description: Option<string>) returns (newId: int)
    modifies db`permissions
    ensures db.permissions == old(db.permissions) + [NewPermission(old(db.permissions), action, description)]
    ensures newId == NewPermission(old(db.permissions), action, description).id
  {
    newId := Sql.NextId(db.permissions, PermissionId);
    var stored := if description.Some? && description.value != "" then description.value else "";
    db.permissions := db.permissions + [Permission(newId, action, stored)];
  }

  /** `permissionService.update`: overwrites both fields, storing `''` for a
      missing description, and says whether the permission existed. */
  method UpdatePermission(db: Store, id: int, action: string, description: Option<string>) returns (changed: bool)
    modifies db`permissions
    ensures db.permissions == Sql.UpdateWhere(old(db.permissions), PermissionHasId(id), WithAction(action, StoredDescription(description)))
    ensures changed <==> GetPermission(old(db.permissions), id).Some?
  {
    var stored := if description.Some? && description.value != "" then description.value else "";
    changed := Sql.AnyRow(db.permissions, PermissionHasId(id));
    db.permissions := Sql.UpdateWhere(db.permissions, PermissionHasId(id), WithAction(action, stored));
  }

  /** `rolePermissionService.create`: inserts the pair, present or not, and
      reports one changed row. */
  method Grant(db: Store, roleId: int, permissionId: int) returns (created: bool)
    modifies db`rolePermissions
    ensures created
    ensures db.rolePermissions == old(db.rolePermissions) + [RolePermission(roleId, permissionId)]
  {
    db.rolePermissions := db.rolePermissions + [RolePermission(roleId, permissionId)];
    created := true;
  }

  /** `rolePermissionService.delete`: removes every row of the pair and says
      whether there was one. */
  method Revoke(db: Store, roleId: int, permissionId: int) returns (deleted: bool)
    modifies db`rolePermissions
    ensures db.rolePermissions == Revoked(old(db.rolePermissions), roleId, permissionId)
    ensures deleted <==> Exists(old(db.rolePermissions), roleId, permissionId)
  {
    deleted := Sql.AnyRow(db.rolePermissions, IsPair(roleId, permissionId));
    db.rolePermissions := Sql.DeleteWhere(db.rolePermissions, IsPair(roleId, permissionId));
  }

  /** Granting a pair that was not there and then revoking it gives back the
      association table exactly. */
  lemma GrantThenRevoke(mappings: seq<RolePermission>, roleId: int, permissionId: int)
    requires !Exists(mappings, roleId, permissionId)
    ensures Revoked(mappings + [RolePermission(roleId, permissionId)], roleId, permissionId) == mappings
  {
    Sql.DeleteAppended(mappings, [RolePermission(roleId, permissionId)], IsPair(roleId, permissionId));
  }

  /** Granting a pair that was not there keeps every pair granted at most
      once, and the granted pair then exists. */
  lemma GrantKeepsUnique(mappings: seq<RolePermission>, roleId: int, permissionId: int)
    requires UniqueMappings(mappings)
    requires !Exists(mappings, roleId, permissionId)
    ensures UniqueMappings(mappings + [RolePermission(roleId, permissionId)])
    ensures Exists(mappings + [RolePermission(roleId, permissionId)], roleId, permissionId)
  {
    var x := RolePermission(roleId, permissionId);
    assert multiset(mappings + [x]) == multiset(mappings) + multiset{x};
  }

  /** Revoking keeps every pair granted at most once. */
  lemma RevokeKeepsUnique(mappings: seq<RolePermission>, roleId: int, permissionId: int)
    requires UniqueMappings(mappings)
    ensures UniqueMappings(Revoked(mappings, roleId, permissionId))
  {
  }
}
