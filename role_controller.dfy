/** backend/src/controllers/roleController.ts: reading a role with its
    permissions, and granting and revoking a permission. The body schema of
    a grant is not modelled: a body the schema rejects arrives as `None`. */
module RoleController {
  import opened Wrappers
  import opened Schema
  import opened Http
  import opened RoleService

  /** What `getById` sends: the role's fields and its permissions. */
  datatype RoleDetails = RoleDetails(role: Role, permissions: seq<Permission>)

  /** `roleController.getById`: 400 on a bad id, 404 for an unknown role,
      otherwise the role with one permission per association row granting
      it. */
  method GetById(db: Store, id: Option<int>) returns (resp: Response<RoleDetails>)
    ensures id.None? ==> resp == Err(400, Error("Invalid ID format"))
    ensures id.Some? && GetRole(db.roles, id.value).None? ==> resp == Err(404, Error("Role not found"))
    ensures id.Some? && GetRole(db.roles, id.value).Some? ==> resp.Ok?
    ensures resp.Ok? ==>
      && id.Some? && GetRole(db.roles, id.value).Some?
      && resp.status == 200
      && resp.body.role == GetRole(db.roles, id.value).value
      && forall p :: multiset(resp.body.permissions)[p]
                       == multiset(db.permissions)[p] * PairCount(db.rolePermissions, id.value, p.id)
  {
    if id.None? {
      return Err(400, Error("Invalid ID format"));
    }
    var role := GetRole(db.roles, id.value);
    if role.None? {
      return Err(404, Error("Role not found"));
    }
    var permissions := GetPermissions(db.permissions, db.rolePermissions, id.value);
    resp := Ok(200, RoleDetails(role.value, permissions));
  }

  /** `rolePermissionController.addPermissionToRole`: 400 on a rejected
      body, 404 when the role or the permission is unknown, 409 when the pair
      is already granted, otherwise 201 echoing the pair, which is appended
      once. */
  method AddPermissionToRole(db: Store, body: Option<RolePermission>) returns (resp: Response<RolePermission>)
    modifies db`rolePermissions
    ensures body.None? ==> resp == Err(400, Error("Validation failed"))
    ensures body.Some? && GetRole(db.roles, body.value.roleId).None? ==> resp == Err(404, Error("Role not found"))
    ensures body.Some? && GetRole(db.roles, body.value.roleId).Some?
            && GetPermission(db.permissions, body.value.permissionId).None? ==>
      resp == Err(404, Error("Permission not found"))
    ensures body.Some? && GetRole(db.roles, body.value.roleId).Some?
            && GetPermission(db.permissions, body.value.permissionId).Some?
            && Exists(old(db.rolePermissions), body.value.roleId, body.value.permissionId) ==>
      resp == Err(409, Error("Permission already assigned to role"))
    ensures body.Some? && GetRole(db.roles, body.value.roleId).Some?
            && GetPermission(db.permissions, body.value.permissionId).Some?
            && !Exists(old(db.rolePermissions), body.value.roleId, body.value.permissionId) ==>
      resp.Ok?
    ensures resp.Err? ==> db.rolePermissions == old(db.rolePermissions)
    ensures resp.Ok? ==>
      && body.Some? && !Exists(old(db.rolePermissions), body.value.roleId, body.value.permissionId)
      && resp == Ok(201, body.value)
      && db.rolePermissions == old(db.rolePermissions) + [body.value]
      && (set m | m in db.rolePermissions) == (set m | m in old(db.rolePermissions)) + {body.value}
    ensures UniqueMappings(old(db.rolePermissions)) ==> UniqueMappings(db.rolePermissions)
  {
    if body.None? {
      return Err(400, Error("Validation failed"));
    }
    var pair := body.value;
    var role := GetRole(db.roles, pair.roleId);
    if role.None? {
      return Err(404, Error("Role not found"));
    }
    var permission := GetPermission(db.permissions, pair.permissionId);
    if permission.None? {
      return Err(404, Error("Permission not found"));
    }
    var granted := Exists(db.rolePermissions, pair.roleId, pair.permissionId);
    if granted {
      return Err(409, Error("Permission already assigned to role"));
    }
    if UniqueMappings(db.rolePermissions) {
      GrantKeepsUnique(db.rolePermissions, pair.roleId, pair.permissionId);
    }
    var _ := Grant(db, pair.roleId, pair.permissionId);
    resp := Ok(201, RolePermission(pair.roleId, pair.permissionId));
  }

  /** `rolePermissionController.removePermissionFromRole`: 400 on a bad id,
      404 when the pair is not granted, otherwise 204 with the pair gone. */
  method RemovePermissionFromRole(db: Store, roleId: Option<int>, permissionId: Option<int>) returns (resp: Response<()>)
    modifies db`rolePermissions
    ensures roleId.None? || permissionId.None? ==> resp == Err(400, Error("Invalid ID format"))
    ensures roleId.Some? && permissionId.Some? && !Exists(old(db.rolePermissions), roleId.value, permissionId.value) ==>
      resp == Err(404, Error("Permission not assigned to role"))
    ensures roleId.Some? && permissionId.Some? && Exists(old(db.rolePermissions), roleId.value, permissionId.value) ==>
      resp.Ok?
    ensures resp.Err? ==> db.rolePermissions == old(db.rolePermissions)
    ensures resp.Ok? ==>
      && roleId.Some? && permissionId.Some? && Exists(old(db.rolePermissions), roleId.value, permissionId.value)
      && resp == Ok(204, ())
      && db.rolePermissions == Revoked(old(db.rolePermissions), roleId.value, permissionId.value)
      && !Exists(db.rolePermissions, roleId.value, permissionId.value)
  {
    if roleId.None? || permissionId.None? {
      return Err(400, Error("Invalid ID format"));
    }
    var granted := Exists(db.rolePermissions, roleId.value, permissionId.value);
    if !granted {
      return Err(404, Error("Permission not assigned to role"));
    }
    var _ := Revoke(db, roleId.value, permissionId.value);
    resp := Ok(204, ());
  }
}
