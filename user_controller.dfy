/** backend/src/controllers/userController.ts: the user handlers and the
    email-uniqueness and role-existence guards. The body schemas are not
    modelled: a body the schema rejects arrives as `None`. */
module UserController {
  import opened Wrappers
  import opened Schema
  import opened Http
  import opened UserService
  import RoleService

  /** What `getById` sends: the user's fields and the role, or null. */
  datatype UserDetails = UserDetails(user: User, role: Option<Role>)

  /** `getById`: 400 on a bad id, 404 for an unknown user, otherwise the user
      with its role, looked up only when the role id is truthy (not 0). */
  method GetById(db: Store, id: Option<int>) returns (resp: Response<UserDetails>)
    ensures id.None? ==> resp == Err(400, Error("Invalid ID format"))
    ensures id.Some? && UserService.GetById(db.users, id.value).None? ==> resp == Err(404, Error("User not found"))
    ensures id.Some? && UserService.GetById(db.users, id.value).Some? ==>
      var u := UserService.GetById(db.users, id.value).value;
      resp == Ok(200, UserDetails(u, if u.roleId != 0 then RoleService.GetRole(db.roles, u.roleId) else None))
  {
    if id.None? {
      return Err(400, Error("Invalid ID format"));
    }
    var user := UserService.GetById(db.users, id.value);
    if user.None? {
      return Err(404, Error("User not found"));
    }
    var role: Option<Role> := None;
    if user.value.roleId != 0 {
      role := RoleService.GetRole(db.roles, user.value.roleId);
    }
    resp := Ok(200, UserDetails(user.value, role));
  }

  /** `create`: 400 on a rejected body, 409 when any user has the email, 400
      when the role is unknown, otherwise 201 with the inserted user. Emails
      stay distinct. */
  method Create(db: Store, body: Option<UserInput>) returns (resp: Response<User>)
    modifies db`users
    ensures body.None? ==> resp == Err(400, Error("Validation failed"))
    ensures body.Some? && GetByEmail(old(db.users), body.value.email).Some? ==>
      resp == Err(409, Error("User with this email already exists"))
    ensures body.Some? && GetByEmail(old(db.users), body.value.email).None?
            && RoleService.GetRole(db.roles, body.value.roleId).None? ==>
      resp == Err(400, Error("Role not found"))
    ensures body.Some? && GetByEmail(old(db.users), body.value.email).None?
            && RoleService.GetRole(db.roles, body.value.roleId).Some? ==>
      resp.Ok?
    ensures resp.Err? ==> db.users == old(db.users)
    ensures resp.Ok? ==>
      && body.Some? && GetByEmail(old(db.users), body.value.email).None?
      && RoleService.GetRole(db.roles, body.value.roleId).Some?
      && db.users == old(db.users) + [NewRow(old(db.users), body.value)]
      && resp == Ok(201, NewRow(old(db.users), body.value))
    ensures Valid(old(db.users)) ==> Valid(db.users)
  {
    if body.None? {
      return Err(400, Error("Validation failed"));
    }
    var input := body.value;
    var existingUser := GetByEmail(db.users, input.email);
    if existingUser.Some? {
      return Err(409, Error("User with this email already exists"));
    }
    var role := RoleService.GetRole(db.roles, input.roleId);
    if role.None? {
      return Err(400, Error("Role not found"));
    }
    ghost var before := db.users;
    if Valid(before) {
      CreateKeepsValid(before, input);
    }
    var newUserId := UserService.Create(db, input);
    ReadBackCreated(before, input);
    var newUser := UserService.GetById(db.users, newUserId);
    resp := Ok(201, newUser.value);
  }

  /** The email guard of `update`: only a truthy email that differs from
      the user's current one is looked up. */
  predicate EmailConflict(users: seq<User>, current: User, patch: UserPatch) {
    patch.email.Some? && patch.email.value != "" && patch.email.value != current.email
    && GetByEmail(users, patch.email.value).Some?
  }

  /** `update`: 400 on a bad id or a rejected body, 404 for an unknown user,
      409 when a new email is in use, 400 when a truthy role id names no
      role, 400 "No changes made" for an empty patch, otherwise 200 with the
      patched user. Emails stay distinct unless the patch sets the email to
      the empty string, which skips the guard. */
  method Update(db: Store, id: Option<int>, body: Option<UserPatch>) returns (resp: Response<User>)
    modifies db`users
    ensures id.None? ==> resp == Err(400, Error("Invalid ID format"))
    ensures id.Some? && body.None? ==> resp == Err(400, Error("Validation failed"))
    ensures id.Some? && body.Some? && UserService.GetById(old(db.users), id.value).None? ==>
      resp == Err(404, Error("User not found"))
    ensures id.Some? && body.Some? && UserService.GetById(old(db.users), id.value).Some?
            && EmailConflict(old(db.users), UserService.GetById(old(db.users), id.value).value, body.value) ==>
      resp == Err(409, Error("Email already in use"))
    ensures id.Some? && body.Some? && UserService.GetById(old(db.users), id.value).Some?
            && !EmailConflict(old(db.users), UserService.GetById(old(db.users), id.value).value, body.value)
            && body.value.roleId.Some? && body.value.roleId.value != 0
            && RoleService.GetRole(db.roles, body.value.roleId.value).None? ==>
      resp == Err(400, Error("Role not found"))
    ensures id.Some? && body.Some? && UserService.GetById(old(db.users), id.value).Some?
            && !EmailConflict(old(db.users), UserService.GetById(old(db.users), id.value).value, body.value)
            && !(body.value.roleId.Some? && body.value.roleId.value != 0
                 && RoleService.GetRole(db.roles, body.value.roleId.value).None?) ==>
      && (resp.Ok? <==> !body.value.IsEmpty())
      && (body.value.IsEmpty() ==> resp == Err(400, Error("No changes made")))
    ensures resp.Err? ==> db.users == old(db.users)
    ensures resp.Ok? ==>
      && id.Some? && body.Some? && !body.value.IsEmpty()
      && UserService.GetById(old(db.users), id.value).Some?
      && db.users == ApplyPatch(old(db.users), id.value, body.value)
      && resp == Ok(200, Patched(body.value)(UserService.GetById(old(db.users), id.value).value))
    ensures Valid(old(db.users)) && (body.Some? ==> body.value.email != Some("")) ==> Valid(db.users)
  {
    if id.None? {
      return Err(400, Error("Invalid ID format"));
    }
    if body.None? {
      return Err(400, Error("Validation failed"));
    }
    var patch := body.value;
    var user := UserService.GetById(db.users, id.value);
    if user.None? {
      return Err(404, Error("User not found"));
    }
    if patch.email.Some? && patch.email.value != "" && patch.email.value != user.value.email {
      var existingUser := GetByEmail(db.users, patch.email.value);
      if existingUser.Some? {
        return Err(409, Error("Email already in use"));
      }
    }
    if patch.roleId.Some? && patch.roleId.value != 0 {
      var role := RoleService.GetRole(db.roles, patch.roleId.value);
      if role.None? {
        return Err(400, Error("Role not found"));
      }
    }
    ghost var before := db.users;
    resp := Save(db, id.value, patch);
    if Valid(before) && patch.email != Some("") {
      UpdateKeepsValid(before, id.value, patch);
    }
  }

  /** The write `update` makes once every check passed on an existing user:
      an empty patch is "No changes made" and writes nothing; otherwise the
      patch is applied and the row read back. */
  method Save(db: Store, id: int, patch: UserPatch) returns (resp: Response<User>)
    requires UserService.GetById(db.users, id).Some?
    modifies db`users
    ensures patch.IsEmpty() ==> resp == Err(400, Error("No changes made")) && db.users == old(db.users)
    ensures !patch.IsEmpty() ==>
      && db.users == ApplyPatch(old(db.users), id, patch)
      && resp == Ok(200, Patched(patch)(UserService.GetById(old(db.users), id).value))
  {
    ghost var before := db.users;
    var updated := UserService.Update(db, id, patch);
    if !updated {
      return Err(400, Error("No changes made"));
    }
    ReadBackPatched(before, id, patch);
    var updatedUser := UserService.GetById(db.users, id);
    resp := Ok(200, updatedUser.value);
  }

  /** `delete`: 400 on a bad id, 404 for an unknown user, otherwise 204 with
      the user removed. */
  method Delete(db: Store, id: Option<int>) returns (resp: Response<()>)
    modifies db`users
    ensures id.None? ==> resp == Err(400, Error("Invalid ID format"))
    ensures id.Some? && UserService.GetById(old(db.users), id.value).None? ==> resp == Err(404, Error("User not found"))
    ensures id.Some? && UserService.GetById(old(db.users), id.value).Some? ==> resp.Ok?
    ensures resp.Err? ==> db.users == old(db.users)
    ensures resp.Ok? ==>
      && id.Some? && UserService.GetById(old(db.users), id.value).Some?
      && resp == Ok(204, ()) && db.users == DeleteById(old(db.users), id.value)
    ensures Valid(old(db.users)) ==> Valid(db.users)
  {
    if id.None? {
      return Err(400, Error("Invalid ID format"));
    }
    var user := UserService.GetById(db.users, id.value);
    if user.None? {
      return Err(404, Error("User not found"));
    }
    if Valid(db.users) {
      DeleteKeepsValid(db.users, id.value);
    }
    var _ := UserService.Delete(db, id.value);
    resp := Ok(204, ());
  }
}
