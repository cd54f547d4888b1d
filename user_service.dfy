/** backend/src/services/userService.ts: the user table. The table keeps
    two invariants the handlers rely on: ids are distinct (the rowid) and
    emails are distinct (what `userController` guards). */
module UserService {
  import opened Wrappers
  import opened Schema
  import Sql

  datatype UserInput = UserInput(name: string, email: string, roleId: int)

  /** `Partial<UserInput>`, the body of an update. */
  datatype UserPatch = UserPatch(name: Option<string>, email: Option<string>, roleId: Option<int>)
  {
    /** No field supplied: `update` has nothing to set. */
    predicate IsEmpty() { name.None? && email.None? && roleId.None? }
  }

  /** The `WHERE id = ?` clause. */
  function HasId(id: int): User -> bool {
    (u: User) => u.id == id
  }

  /** The `WHERE email = ?` clause. */
  function HasEmail(email: string): User -> bool {
    (u: User) => u.email == email
  }

  function RowId(u: User): int { u.id }

  /** The `SET` list `update` assembles: one assignment per supplied field. */
  function Patched(patch: UserPatch): User -> User {
    (u: User) =>
      u.(name := patch.name.GetOr(u.name),
         email := patch.email.GetOr(u.email),
         roleId := patch.roleId.GetOr(u.roleId))
  }

  function DistinctIds(): (User, User) -> bool {
    (a: User, b: User) => a.id != b.id
  }

  function DistinctEmails(): (User, User) -> bool {
    (a: User, b: User) => a.email != b.email
  }

  /** No two users share an id, and no two share an email. */
  ghost predicate Valid(users: seq<User>) {
    Sql.Pairwise(users, DistinctIds()) && Sql.Pairwise(users, DistinctEmails())
  }

  /** `getById`: the user with that id, or null. */
  function GetById(users: seq<User>, id: int): (r: Option<User>)
    ensures r.Some? ==> r.value in users && r.value.id == id
    ensures r.None? <==> forall k :: 0 <= k < |users| ==> users[k].id != id
  {
    Sql.First(users, HasId(id))
  }

  /** `getByEmail`: a user whose email is exactly that string, or null. */
  function GetByEmail(users: seq<User>, email: string): (r: Option<User>)
    ensures r.Some? ==> r.value in users && r.value.email == email
    ensures r.None? <==> forall k :: 0 <= k < |users| ==> users[k].email != email
  {
    Sql.First(users, HasEmail(email))
  }

  /** The row `create` inserts: the next rowid and the fields unchanged. */
  function NewRow(users: seq<User>, input: UserInput): (r: User)
    ensures GetById(users, r.id).None?
    ensures r.name == input.name && r.email == input.email && r.roleId == input.roleId
  {
    User(Sql.NextId(users, RowId), input.name, input.email, input.roleId)
  }

  /** The table after a non-empty `update` of user `id`: that row takes the
      supplied fields and keeps the others, every other user is untouched. */
  function ApplyPatch(users: seq<User>, id: int, patch: UserPatch): (r: seq<User>)
    ensures |r| == |users|
    ensures forall k :: 0 <= k < |users| && users[k].id != id ==> r[k] == users[k]
    ensures forall k :: 0 <= k < |users| && users[k].id == id ==>
      && r[k].id == id
      && r[k].name == (if patch.name.Some? then patch.name.value else users[k].name)
      && r[k].email == (if patch.email.Some? then patch.email.value else users[k].email)
      && r[k].roleId == (if patch.roleId.Some? then patch.roleId.value else users[k].roleId)
  {
    Sql.UpdateWhere(users, HasId(id), Patched(patch))
  }

  /** The table after `delete`: the user is gone, the others stay in order. */
  function DeleteById(users: seq<User>, id: int): (r: seq<User>)
    ensures forall u :: u in r <==> u in users && u.id != id
    ensures GetById(r, id).None?
  {
    Sql.DeleteWhere(users, HasId(id))
  }

  /** `create`: inserts the user and resolves with the new id. */
  method Create(db: Store, input: UserInput) returns (newId: int)
    modifies db`users
    ensures newId == NewRow(old(db.users), input).id
    ensures db.users == old(db.users) + [NewRow(old(db.users), input)]
  {
    newId := Sql.NextId(db.users, RowId);
    db.users := db.users + [User(newId, input.name, input.email, input.roleId)];
  }

  /** `update`: an empty patch resolves false and writes nothing; otherwise
      the patch is applied and the result says whether the user existed. */
  method Update(db: Store, id: int, patch: UserPatch) returns (changed: bool)
    modifies db`users
    ensures patch.IsEmpty() ==> !changed && db.users == old(db.users)
    ensures !patch.IsEmpty() ==> db.users == ApplyPatch(old(db.users), id, patch)
    ensures !patch.IsEmpty() ==> (changed <==> GetById(old(db.users), id).Some?)
  {
    if patch.IsEmpty() {
      return false;
    }
    changed := Sql.AnyRow(db.users, HasId(id));
    db.users := Sql.UpdateWhere(db.users, HasId(id), Patched(patch));
  }

  /** `delete`: removes the user and says whether it existed. */
  method Delete(db: Store, id: int) returns (deleted: bool)
    modifies db`users
    ensures db.users == DeleteById(old(db.users), id)
    ensures deleted <==> GetById(old(db.users), id).Some?
  {
    deleted := Sql.AnyRow(db.users, HasId(id));
    db.users := Sql.DeleteWhere(db.users, HasId(id));
  }

  /** Reading a user back after a non-empty `update` finds the old user with
      the patch applied. */
  lemma ReadBackPatched(users: seq<User>, id: int, patch: UserPatch)
    ensures var before := GetById(users, id);
            GetById(ApplyPatch(users, id, patch), id)
              == if before.Some? then Some(Patched(patch)(before.value)) else None
  {
    Sql.FirstAfterUpdate(users, HasId(id), Patched(patch));
  }

  /** Reading the new id back after `create` finds the inserted user. */
  lemma ReadBackCreated(users: seq<User>, input: UserInput)
    ensures GetById(users + [NewRow(users, input)], NewRow(users, input).id) == Some(NewRow(users, input))
  {
    var x := NewRow(users, input);
    Sql.FirstAppended(users, x, HasId(x.id));
  }

  /** Inserting a user whose email no user has keeps ids and emails
      distinct. */
  lemma CreateKeepsValid(users: seq<User>, input: UserInput)
    requires Valid(users)
    requires GetByEmail(users, input.email).None?
    ensures Valid(users + [NewRow(users, input)])
  {
    var r := users + [NewRow(users, input)];
    forall j, k | 0 <= j < k < |r| ensures r[j].id != r[k].id && r[j].email != r[k].email {
      assert r[j] == users[j];
      if k < |users| { assert r[k] == users[k]; }
    }
  }

  /** With distinct ids, the row holding an id is the one `getById` finds. */
  lemma RowOfId(users: seq<User>, id: int, j: int)
    requires Sql.Pairwise(users, DistinctIds())
    requires 0 <= j < |users| && users[j].id == id
    ensures GetById(users, id) == Some(users[j])
  {
    var u := GetById(users, id).value;
    var i :| 0 <= i < |users| && users[i] == u;
    var lo, hi := if i < j then i else j, if i < j then j else i;
    assert lo == hi || DistinctIds()(users[lo], users[hi]);
  }

  /** A patch of one user keeps ids and emails distinct when its email, if
      any, is the user's own or one no user has. */
  lemma UpdateKeepsValid(users: seq<User>, id: int, patch: UserPatch)
    requires Valid(users)
    requires GetById(users, id).Some?
    requires patch.email.Some? ==>
      patch.email.value == GetById(users, id).value.email || GetByEmail(users, patch.email.value).None?
    ensures Valid(ApplyPatch(users, id, patch))
  {
    var r := ApplyPatch(users, id, patch);
    forall j, k | 0 <= j < k < |r| ensures r[j].id != r[k].id && r[j].email != r[k].email {
      assert DistinctIds()(users[j], users[k]) && DistinctEmails()(users[j], users[k]);
      if users[j].id == id {
        RowOfId(users, id, j);
      }
      if users[k].id == id {
        RowOfId(users, id, k);
      }
    }
  }

  /** Deleting keeps ids and emails distinct. */
  lemma DeleteKeepsValid(users: seq<User>, id: int)
    requires Valid(users)
    ensures Valid(DeleteById(users, id))
  {
    Sql.DeleteKeepsPairwise(users, HasId(id), DistinctIds());
    Sql.DeleteKeepsPairwise(users, HasId(id), DistinctEmails());
  }
}
