/** The user manager: which create requests are refused, and which account
    flags a created user or superuser ends up with. */
module Managers {
  import opened Wrappers

  datatype CreateError = MissingEmail | MissingPassword | StaffRequired | SuperuserRequired | ActiveRequired

  /** The account a create request produces (before hashing the password and
      saving). */
  datatype NewUser = NewUser(email: string, isStaff: bool, isSuperuser: bool, isActive: bool)

  /** A mandatory text argument that is `None` or `""`. */
  predicate Missing(v: Option<string>) {
    v == None || v == Some("")
  }

  /** `create_user`: flags default to not staff, not superuser, active; the
      email is checked before the password. */
  function CreateUser(email: Option<string>, password: Option<string>,
                      isStaff: Option<bool>, isSuperuser: Option<bool>, isActive: Option<bool>): (r: Result<NewUser, CreateError>)
    ensures r == Failure(MissingEmail) <==> Missing(email)
    ensures r == Failure(MissingPassword) <==> !Missing(email) && Missing(password)
    ensures r.Success? <==> !Missing(email) && !Missing(password)
    ensures r.Success? ==> r.value.email == email.value
  {
    if Missing(email) then Failure(MissingEmail)
    else if Missing(password) then Failure(MissingPassword)
    else Success(NewUser(email.value, isStaff.GetOr(false), isSuperuser.GetOr(false), isActive.GetOr(true)))
  }

  /** `create_superuser`: flags default to true, an explicit `False` for any
      of them is refused (in the order staff, superuser, active), and the
      request is then handed to `create_user`. */
  function CreateSuperuser(email: Option<string>, password: Option<string>,
                           isStaff: Option<bool>, isSuperuser: Option<bool>, isActive: Option<bool>): (r: Result<NewUser, CreateError>)
    ensures isStaff == Some(false) ==> r == Failure(StaffRequired)
    ensures isStaff != Some(false) && isSuperuser == Some(false) ==> r == Failure(SuperuserRequired)
    ensures isStaff != Some(false) && isSuperuser != Some(false) && isActive == Some(false) ==> r == Failure(ActiveRequired)
    ensures r.Success? ==> r.value.isStaff && r.value.isSuperuser && r.value.isActive
  {
    var staff := isStaff.GetOr(true);
    var superuser := isSuperuser.GetOr(true);
    var active := isActive.GetOr(true);
    if !staff then Failure(StaffRequired)
    else if !superuser then Failure(SuperuserRequired)
    else if !active then Failure(ActiveRequired)
    else CreateUser(email, password, Some(staff), Some(superuser), Some(active))
  }

  /** Left unset, the flags of a plain user are not staff, not superuser,
      active; a value the caller supplies always wins over the default. */
  lemma CreateUserFlags(email: Option<string>, password: Option<string>,
                        isStaff: Option<bool>, isSuperuser: Option<bool>, isActive: Option<bool>)
    requires !Missing(email) && !Missing(password)
    ensures var r := CreateUser(email, password, isStaff, isSuperuser, isActive);
            && r.Success?
            && (isStaff.None? ==> !r.value.isStaff) && (isStaff.Some? ==> r.value.isStaff == isStaff.value)
            && (isSuperuser.None? ==> !r.value.isSuperuser) && (isSuperuser.Some? ==> r.value.isSuperuser == isSuperuser.value)
            && (isActive.None? ==> r.value.isActive) && (isActive.Some? ==> r.value.isActive == isActive.value)
  {
  }

  /** A superuser request passes exactly when no flag is explicitly false and
      the plain-user rules on email and password pass, and it then yields the
      same account `create_user` would with all three flags set. */
  lemma SuperuserDelegates(email: Option<string>, password: Option<string>,
                           isStaff: Option<bool>, isSuperuser: Option<bool>, isActive: Option<bool>)
    requires isStaff != Some(false) && isSuperuser != Some(false) && isActive != Some(false)
    ensures CreateSuperuser(email, password, isStaff, isSuperuser, isActive)
            == CreateUser(email, password, Some(true), Some(true), Some(true))
  {
  }
}
