/** frontend/src/components/admin/forms/UsersForm.tsx: the admin user
    form's checks and the request its submit sends. The user list the
    email checks search is the one `GET /users` returns. */
module UsersForm {
  import opened Wrappers
  import opened Schema
  import Text
  import EmailFormat
  import UserService
  import UserController

  /** Creating a user, or editing the one the form was opened on (absent
      when the dialog was opened without one). */
  datatype FormMode = CreateMode | EditMode(initialData: Option<User>)

  /** The call the submit makes. */
  datatype Request = CreateUser(input: UserService.UserInput) | UpdateUser(id: int, patch: UserService.UserPatch)

  /** What the submit ends in: an error on the form, a request to the API,
      or success with no request at all. */
  datatype Submission = Rejected(error: string) | Send(request: Request) | NoRequest

  /** `validateForm`: name, then email, then role; the first failure is the
      message. The role select holds `None` until a role is picked. */
  function ValidateForm(name: string, email: string, roleId: Option<int>): (error: Option<string>)
    ensures error == Some("Name is required") <==> Text.AllSpace(name)
    ensures error == Some("A valid email is required") <==> !Text.AllSpace(name) && !EmailFormat.IsValidEmail(email)
    ensures error == Some("Role is required") <==>
      !Text.AllSpace(name) && EmailFormat.IsValidEmail(email) && roleId.None?
    ensures error.None? <==> !Text.AllSpace(name) && EmailFormat.IsValidEmail(email) && roleId.Some?
  {
    Text.BlankIffAllSpace(name);
    Text.BlankIffAllSpace(email);
    if Text.Trim(name) == [] then Some("Name is required")
    else if Text.Trim(email) == [] || !EmailFormat.IsValidEmail(email) then Some("A valid email is required")
    else if roleId.None? then Some("Role is required")
    else None
  }

  /** The email is taken by some user. */
  predicate EmailInUse(users: seq<User>, email: string) {
    UserService.GetByEmail(users, email).Some?
  }

  /** `handleSubmit`'s decision: an invalid form stops with its message;
      creating checks every user's email; editing checks only an email that
      differs from the original; an edit without the original user sends
      nothing. */
  function HandleSubmit(mode: FormMode, name: string, email: string, roleId: Option<int>, users: seq<User>)
    : (s: Submission)
    ensures ValidateForm(name, email, roleId).Some? ==> s == Rejected(ValidateForm(name, email, roleId).value)
    ensures s.Rejected? && ValidateForm(name, email, roleId).None? ==>
      s.error == "Email is already in use" && EmailInUse(users, email)
    ensures s.Send? && s.request.CreateUser? ==>
      && mode.CreateMode? && ValidateForm(name, email, roleId).None? && !EmailInUse(users, email)
      && s.request.input == UserService.UserInput(name, email, roleId.value)
    ensures s.Send? && s.request.UpdateUser? ==>
      && mode.EditMode? && mode.initialData.Some? && ValidateForm(name, email, roleId).None?
      && (email != mode.initialData.value.email ==> !EmailInUse(users, email))
      && s.request.id == mode.initialData.value.id
      && s.request.patch == UserService.UserPatch(Some(name), Some(email), Some(roleId.value))
    ensures s.NoRequest? <==> ValidateForm(name, email, roleId).None? && mode == EditMode(None)
  {
    var error := ValidateForm(name, email, roleId);
    if error.Some? then Rejected(error.value)
    else
      var userData := UserService.UserInput(name, email, roleId.value);
      match mode
      case CreateMode =>
        if EmailInUse(users, email) then Rejected("Email is already in use")
        else Send(CreateUser(userData))
      case EditMode(initialData) =>
        if initialData.None? then NoRequest
        else if email != initialData.value.email && EmailInUse(users, email) then Rejected("Email is already in use")
        else Send(UpdateUser(initialData.value.id, UserService.UserPatch(Some(name), Some(email), Some(roleId.value))))
  }

  /** Every request the form sends carries a non-blank name and an email the
      pattern accepts. */
  lemma RequestsAreWellFormed(mode: FormMode, name: string, email: string, roleId: Option<int>, users: seq<User>)
    ensures var s := HandleSubmit(mode, name, email, roleId, users);
            s.Send? ==> !Text.AllSpace(name) && EmailFormat.MatchesPattern(email)
  {
    EmailFormat.IsValidEmailMatchesPattern(email);
  }

  /** A create the form sends, against the same user list, never meets the
      controller's duplicate-email answer. */
  lemma CreatePassesEmailGuard(mode: FormMode, name: string, email: string, roleId: Option<int>, users: seq<User>)
    requires HandleSubmit(mode, name, email, roleId, users).Send?
    requires HandleSubmit(mode, name, email, roleId, users).request.CreateUser?
    ensures UserService.GetByEmail(users, HandleSubmit(mode, name, email, roleId, users).request.input.email).None?
  {
  }

  /** An update the form sends for the user it was opened on, against the
      same user list, never meets the controller's email-conflict answer,
      and its patch is never empty. */
  lemma UpdatePassesEmailGuard(mode: FormMode, name: string, email: string, roleId: Option<int>, users: seq<User>)
    requires HandleSubmit(mode, name, email, roleId, users).Send?
    requires HandleSubmit(mode, name, email, roleId, users).request.UpdateUser?
    requires UserService.GetById(users, mode.initialData.value.id) == mode.initialData
    ensures var r := HandleSubmit(mode, name, email, roleId, users).request;
            && !UserController.EmailConflict(users, mode.initialData.value, r.patch)
            && !r.patch.IsEmpty()
  {
  }
}
