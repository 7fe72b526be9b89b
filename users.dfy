/** Accounts: self sign-up (the very first account becomes the administrator), log-in by
    e-mail or phone, creation of child-admin accounts by an administrator, and the update,
    soft-delete and single read of one account. */
module Users {
  import opened Wrappers
  import opened Tables
  import opened Validators
  import opened Models

  datatype SignUpRequest = SignUpRequest(
    email: string, userName: string, password: string, phone: string, userType: Option<string>)

  /** An account as the handlers that query it return it: the password field is not selected. */
  datatype UserView = UserView(
    id: Id, userName: string, email: string, phone: string, isActive: bool, isDeleted: bool,
    role: Option<string>, userProfilePic: Option<string>)

  /** What the access token carries (`{ userId, role, userName }`); signing it is not modelled. */
  datatype Claims = Claims(userId: Id, role: Option<string>, userName: string)

  datatype Session = Session(user: UserView, token: Claims)

  /** The fields `updateUser` may change; an absent key leaves the stored value alone. */
  datatype UserPatch = UserPatch(
    userName: Option<string>, email: Option<string>, phone: Option<string>,
    userProfilePic: Option<string>, password: Option<string>)

  const CHILD_ADMIN_PIC: string := "https://www.shareicon.net/data/128x128/2016/09/15/829466_man_512x512.png"

  function Public(u: Row<User>): (v: UserView)
    ensures v.id == u.id && v.email == u.doc.email && v.phone == u.doc.phone
    ensures v.userName == u.doc.userName && v.role == u.doc.role
    ensures v.isActive == u.doc.isActive && v.isDeleted == u.doc.isDeleted
  {
    UserView(u.id, u.doc.userName, u.doc.email, u.doc.phone, u.doc.isActive, u.doc.isDeleted,
             u.doc.role, u.doc.userProfilePic)
  }

  // ---------------------------------------------------------------------------
  // Shared registration checks

  /** The first failed check of a registration, in the order the handlers make them. */
  function RegistrationError(email: string, phone: string, password: string, userName: string)
    : (r: Option<string>)
    ensures r.None? <==>
      Given(email) && Given(phone) && Given(password) && Given(userName) &&
      IsEmail(email) && IsPhone(phone) && LongEnough(password)
    ensures !(Given(email) && Given(phone) && Given(password) && Given(userName)) ==>
      r == Some("Missing required fields")
  {
    if !(Given(email) && Given(phone) && Given(password) && Given(userName)) then
      Some("Missing required fields")
    else if !IsEmail(email) then Some("Invalid email format")
    else if !IsPhone(phone) then Some("Invalid phone number")
    else if !LongEnough(password) then Some("Password must be at least 6 characters")
    else None
  }

  /** `findOne({ $or: [{ email }, { phone }] })`, with no deleted filter. */
  function SharesContact(email: string, phone: string): Row<User> -> bool {
    (x: Row<User>) => x.doc.email == email || x.doc.phone == phone
  }

  function Clash(users: Table<User>, email: string, phone: string): (r: Option<Row<User>>)
    ensures r.None? <==> forall u :: u in users ==> u.doc.email != email && u.doc.phone != phone
    ensures r.Some? ==> r.value in users && (r.value.doc.email == email || r.value.doc.phone == phone)
  {
    var r := First(users, SharesContact(email, phone));
    assert r.None? ==> forall u :: u in users ==> u.doc.email != email && u.doc.phone != phone by {
      if r.None? {
        forall u | u in users ensures u.doc.email != email && u.doc.phone != phone {
          var k :| 0 <= k < |users| && users[k] == u;
          assert !SharesContact(email, phone)(users[k]);
        }
      }
    }
    r
  }

  /** The duplicate message names the e-mail when the account found has it, else the phone. */
  function DuplicateMessage(found: Row<User>, email: string, suffix: string): string {
    (if found.doc.email == email then "Email already exists" else "Phone already exists") + suffix
  }

  // ---------------------------------------------------------------------------
  // signUp

  /** The role a new account gets: administrator for the very first account (counted with
      deleted ones), otherwise the requested type lower-cased. */
  function RoleFor(users: Table<User>, userType: Option<string>): (r: Option<string>)
    ensures users == [] ==> r == Some("admin")
    ensures users != [] && userType.None? ==> r.None?
    ensures users != [] && userType.Some? ==> r == Some(ToLower(userType.value))
  {
    if |users| == 0 then Some("admin")
    else match userType
      case None => None
      case Some(t) => Some(ToLower(t))
  }

  /** An unset role passes the schema; a set one must be in the enum. */
  predicate RoleAdmitted(role: Option<string>) { role.None? || role.value in USER_ROLES }

  /** The message of the validation error `save` raises for a role outside the enum. */
  function RoleRejected(role: string): string {
    "userCollection validation failed: role: `" + role + "` is not a valid enum value for path `role`."
  }

  function SignUpSpec(db: Db, req: SignUpRequest): (o: Outcome<Row<User>>)
    ensures RegistrationError(req.email, req.phone, req.password, req.userName).Some? ==>
      o == Outcome(db, Err(400, RegistrationError(req.email, req.phone, req.password, req.userName).value))
    ensures RegistrationError(req.email, req.phone, req.password, req.userName).None? &&
            Clash(db.users, req.email, req.phone).Some? ==>
      o == Outcome(db, Err(400, DuplicateMessage(Clash(db.users, req.email, req.phone).value, req.email, "")))
    ensures RegistrationError(req.email, req.phone, req.password, req.userName).None? &&
            Clash(db.users, req.email, req.phone).None? && !RoleAdmitted(RoleFor(db.users, req.userType)) ==>
      o == Outcome(db, Err(SERVER_ERROR, RoleRejected(RoleFor(db.users, req.userType).value)))
    ensures o.res.Ok? <==>
      && RegistrationError(req.email, req.phone, req.password, req.userName).None?
      && (forall u :: u in db.users ==> u.doc.email != req.email && u.doc.phone != req.phone)
      && RoleAdmitted(RoleFor(db.users, req.userType))
    ensures o.res.Ok? ==>
      && o.res.status == 200
      && o.res.data == Row(db.nextId, User(req.userName, req.email, req.phone, Hashed(req.password),
                                            true, false, RoleFor(db.users, req.userType), None))
      && o.db == db.(users := db.users + [o.res.data], nextId := db.nextId + 1)
  {
    match RegistrationError(req.email, req.phone, req.password, req.userName)
    case Some(msg) => Outcome(db, Err(400, msg))
    case None =>
      match Clash(db.users, req.email, req.phone)
      case Some(u) => Outcome(db, Err(400, DuplicateMessage(u, req.email, "")))
      case None =>
        var role := RoleFor(db.users, req.userType);
        if !RoleAdmitted(role) then Outcome(db, Err(SERVER_ERROR, RoleRejected(role.value)))
        else
        var user := Row(db.nextId, User(req.userName, req.email, req.phone, Hashed(req.password),
                                        true, false, role, None));
        Outcome(db.(users := db.users + [user], nextId := db.nextId + 1),
                Ok(200, "Register successfully complete", user))
  }

  method SignUp(st: Store, req: SignUpRequest) returns (r: ApiResult<Row<User>>)
    modifies st
    requires st.Valid()
    ensures st.Valid()
    ensures Outcome(st.db, r) == SignUpSpec(old(st.db), req)
  {
    SignUpKeepsKeyed(st.db, req);
    var invalid := RegistrationError(req.email, req.phone, req.password, req.userName);
    if invalid.Some? {
      return Err(400, invalid.value);
    }
    var existing := Clash(st.db.users, req.email, req.phone);
    if existing.Some? {
      return Err(400, DuplicateMessage(existing.value, req.email, ""));
    }
    var role := RoleFor(st.db.users, req.userType);
    if !RoleAdmitted(role) {
      return Err(SERVER_ERROR, RoleRejected(role.value));
    }
    var user := Row(st.db.nextId, User(req.userName, req.email, req.phone, Hashed(req.password),
                                    true, false, role, None));
    st.db := st.db.(users := st.db.users + [user], nextId := st.db.nextId + 1);
    r := Ok(200, "Register successfully complete", user);
  }

  lemma SignUpKeepsKeyed(db: Db, req: SignUpRequest)
    requires WellKeyed(db)
    ensures WellKeyed(SignUpSpec(db, req).db)
  {
    var o := SignUpSpec(db, req);
    if o.res.Ok? {
      var db1 := db.(nextId := db.nextId + 1);
      Advance(db, db1.nextId);
      KeyedInsert(db.users, o.res.data.doc, db.nextId, db1.nextId);
      ReplaceUsers(db1, db.users + [o.res.data]);
    }
  }

  /** Signing up again with the same e-mail and phone is refused as a duplicate e-mail. */
  lemma SignUpTwiceRefused(db: Db, req: SignUpRequest)
    requires SignUpSpec(db, req).res.Ok?
    ensures var db1 := SignUpSpec(db, req).db;
      SignUpSpec(db1, req) == Outcome(db1, Err(400, "Email already exists"))
  {
    var db1 := SignUpSpec(db, req).db;
    var u := SignUpSpec(db, req).res.data;
    assert u in db1.users;
    var c := Clash(db1.users, req.email, req.phone).value;
    assert c in db.users + [u];
    assert c.doc.email == req.email;
  }

  // ---------------------------------------------------------------------------
  // login

  /** `findOne({ $or: [{ email: contact }, { phone: contact }] })`, deleted accounts included. */
  function HasContact(contact: string): Row<User> -> bool {
    (x: Row<User>) => x.doc.email == contact || x.doc.phone == contact
  }

  /** The checks `login` makes before it looks the account up. */
  predicate LoginInputOk(contact: string, password: string) {
    Given(contact) && Given(password) && (IsEmail(contact) || IsPhone(contact)) && LongEnough(password)
  }

  /** `login`: the account is the first one, in stored order, whose e-mail or phone is the
      contact; the password must match its hash. */
  function Login(db: Db, contact: string, password: string): (r: ApiResult<Session>)
    ensures !Given(contact) || !Given(password) ==>
      r == Err(400, "Email/Phone and Password are required")
    ensures Given(contact) && Given(password) && !IsEmail(contact) && !IsPhone(contact) ==>
      r == Err(400, "Invalid email or phone format")
    ensures r.Ok? ==>
      && Given(contact) && LongEnough(password) && (IsEmail(contact) || IsPhone(contact))
      && r.status == 200
      && exists u :: u in db.users && HasContact(contact)(u) && Matches(password, u.doc.password) &&
                     r.data == Session(Public(u), Claims(u.id, u.doc.role, u.doc.userName))
    ensures (Given(contact) && Given(password) && (IsEmail(contact) || IsPhone(contact)) &&
      !LongEnough(password)) ==> r == Err(400, "Password must be at least 6 characters")
    ensures r == Err(404, "User not found") <==>
      LoginInputOk(contact, password) && forall u :: u in db.users ==> !HasContact(contact)(u)
    ensures var f := First(db.users, HasContact(contact));
      LoginInputOk(contact, password) && f.Some? && !Matches(password, f.value.doc.password) ==>
        r == Err(401, "Password is invalid")
    ensures var f := First(db.users, HasContact(contact));
      r.Ok? <==> LoginInputOk(contact, password) && f.Some? && Matches(password, f.value.doc.password)
    ensures var f := First(db.users, HasContact(contact));
      r.Ok? ==> r.data == Session(Public(f.value), Claims(f.value.id, f.value.doc.role, f.value.doc.userName))
  {
    if !Given(contact) || !Given(password) then Err(400, "Email/Phone and Password are required")
    else if !IsEmail(contact) && !IsPhone(contact) then Err(400, "Invalid email or phone format")
    else if !LongEnough(password) then Err(400, "Password must be at least 6 characters")
    else match First(db.users, HasContact(contact))
      case None => Err(404, "User not found")
      case Some(u) =>
        if !Matches(password, u.doc.password) then Err(401, "Password is invalid")
        else Ok(200, "Login successful", Session(Public(u), Claims(u.id, u.doc.role, u.doc.userName)))
  }

  /** An account just signed up can log in with its e-mail and password, and the session names
      it, unless an older account already uses that e-mail as its phone. */
  lemma SignUpThenLogin(db: Db, req: SignUpRequest)
    requires SignUpSpec(db, req).res.Ok?
    requires forall u :: u in db.users ==> u.doc.phone != req.email
    ensures var o := SignUpSpec(db, req);
      var r := Login(o.db, req.email, req.password);
      r.Ok? && r.data.token.userId == o.res.data.id && r.data.user == Public(o.res.data)
  {
    var o := SignUpSpec(db, req);
    var u := o.res.data;
    assert o.db.users == db.users + [u];
    assert u == o.db.users[|db.users|];
    assert forall k :: 0 <= k < |db.users| ==> !HasContact(req.email)(o.db.users[k]) by {
      forall k | 0 <= k < |db.users| ensures !HasContact(req.email)(o.db.users[k]) {
        assert o.db.users[k] == db.users[k] && db.users[k] in db.users;
      }
    }
    var f := First(o.db.users, HasContact(req.email));
    assert f.Some?;
    var k :| 0 <= k < |o.db.users| && o.db.users[k] == f.value &&
             forall j :: 0 <= j < k ==> !HasContact(req.email)(o.db.users[j]);
    assert k == |db.users|;
  }

  // ---------------------------------------------------------------------------
  // addChildAdmin

  function AddChildAdminSpec(db: Db, email: string, userName: string, phone: string, password: string)
    : (o: Outcome<Row<User>>)
    ensures RegistrationError(email, phone, password, userName).Some? ==>
      o == Outcome(db, Err(400, RegistrationError(email, phone, password, userName).value))
    ensures RegistrationError(email, phone, password, userName).None? && Clash(db.users, email, phone).Some? ==>
      o == Outcome(db, Err(409, DuplicateMessage(Clash(db.users, email, phone).value, email, ".")))
    ensures o.res.Ok? <==>
      && RegistrationError(email, phone, password, userName).None?
      && forall u :: u in db.users ==> u.doc.email != email && u.doc.phone != phone
    ensures o.res.Ok? ==>
      && o.res.status == 200
      && o.res.data == Row(db.nextId, User(userName, email, phone, Hashed(password), true, false,
                                            Some("childAdmin"), Some(CHILD_ADMIN_PIC)))
      && o.db == db.(users := db.users + [o.res.data], nextId := db.nextId + 1)
  {
    match RegistrationError(email, phone, password, userName)
    case Some(msg) => Outcome(db, Err(400, msg))
    case None =>
      match Clash(db.users, email, phone)
      case Some(u) => Outcome(db, Err(409, DuplicateMessage(u, email, ".")))
      case None =>
        var user := Row(db.nextId, User(userName, email, phone, Hashed(password), true, false,
                                        Some("childAdmin"), Some(CHILD_ADMIN_PIC)));
        Outcome(db.(users := db.users + [user], nextId := db.nextId + 1),
                Ok(200, "Child Admin created successfully", user))
  }

  method AddChildAdmin(st: Store, email: string, userName: string, phone: string, password: string)
    returns (r: ApiResult<Row<User>>)
    modifies st
    requires st.Valid()
    ensures st.Valid()
    ensures Outcome(st.db, r) == AddChildAdminSpec(old(st.db), email, userName, phone, password)
  {
    AddChildAdminKeepsKeyed(st.db, email, userName, phone, password);
    var invalid := RegistrationError(email, phone, password, userName);
    if invalid.Some? {
      return Err(400, invalid.value);
    }
    var existing := Clash(st.db.users, email, phone);
    if existing.Some? {
      return Err(409, DuplicateMessage(existing.value, email, "."));
    }
    var user := Row(st.db.nextId, User(userName, email, phone, Hashed(password), true, false,
                                    Some("childAdmin"), Some(CHILD_ADMIN_PIC)));
    st.db := st.db.(users := st.db.users + [user], nextId := st.db.nextId + 1);
    r := Ok(200, "Child Admin created successfully", user);
  }

  lemma AddChildAdminKeepsKeyed(db: Db, email: string, userName: string, phone: string, password: string)
    requires WellKeyed(db)
    ensures WellKeyed(AddChildAdminSpec(db, email, userName, phone, password).db)
  {
    var o := AddChildAdminSpec(db, email, userName, phone, password);
    if o.res.Ok? {
      var db1 := db.(nextId := db.nextId + 1);
      Advance(db, db1.nextId);
      KeyedInsert(db.users, o.res.data.doc, db.nextId, db1.nextId);
      ReplaceUsers(db1, db.users + [o.res.data]);
    }
  }

  /** Child-admin creation accepts exactly the requests a sign-up without a user type accepts;
      the two differ only in the status of a duplicate and in the role they store. */
  lemma ChildAdminLikeSignUp(db: Db, req: SignUpRequest)
    ensures var a := AddChildAdminSpec(db, req.email, req.userName, req.phone, req.password);
      var s := SignUpSpec(db, req.(userType := None));
      && (a.res.Ok? <==> s.res.Ok?)
      && (a.res.Err? && s.res.Err? ==> a.res.status == 409 || a.res.status == s.res.status)
      && (a.res.Ok? ==> a.res.data.doc.role == Some("childAdmin"))
  {
  }

  // ---------------------------------------------------------------------------
  // updateUser, deleteUser, getSingleUserById

  /** `findOne({ _id: id, isDeleted: false })`: the position of that account. */
  function LiveUserAt(t: Table<User>, id: Id): Option<nat> {
    match Find(t, id)
    case Some(i) => if t[i].doc.isDeleted then None else Some(i)
    case None => None
  }

  /** A supplied, non-empty field must pass its check; absent or empty fields are not checked. */
  function PatchError(p: UserPatch): (r: Option<string>)
    ensures r.None? <==>
      && (p.email.Some? && Given(p.email.value) ==> IsEmail(p.email.value))
      && (p.phone.Some? && Given(p.phone.value) ==> IsPhone(p.phone.value))
      && (p.password.Some? && Given(p.password.value) ==> LongEnough(p.password.value))
  {
    if p.email.Some? && Given(p.email.value) && !IsEmail(p.email.value) then Some("Invalid email format")
    else if p.phone.Some? && Given(p.phone.value) && !IsPhone(p.phone.value) then Some("Invalid phone number")
    else if p.password.Some? && Given(p.password.value) && !LongEnough(p.password.value) then
      Some("Password must be at least 6 characters")
    else None
  }

  /** The stored account after the update: supplied fields replace stored ones, and the
      password is replaced (hashed) only when a non-empty one is supplied. */
  function Patched(u: User, p: UserPatch): (r: User)
    ensures r.isActive == u.isActive && r.isDeleted == u.isDeleted && r.role == u.role
    ensures r.password == if p.password.Some? && Given(p.password.value) then Hashed(p.password.value) else u.password
    ensures p == UserPatch(None, None, None, None, None) ==> r == u
  {
    u.(userName := Patch(u.userName, p.userName), email := Patch(u.email, p.email),
       phone := Patch(u.phone, p.phone),
       userProfilePic := if p.userProfilePic.Some? then p.userProfilePic else u.userProfilePic,
       password := if p.password.Some? && Given(p.password.value) then Hashed(p.password.value) else u.password)
  }

  function UpdateUserSpec(db: Db, id: Id, p: UserPatch): (o: Outcome<UserView>)
    ensures PatchError(p).Some? ==> o == Outcome(db, Err(400, PatchError(p).value))
    ensures PatchError(p).None? && LiveUserAt(db.users, id).None? ==>
      o == Outcome(db, Err(404, "User not found or already deleted"))
    ensures o.res.Ok? <==> PatchError(p).None? && LiveUserAt(db.users, id).Some?
    ensures o.res.Ok? ==>
      var i := Find(db.users, id).value;
      && o.res.status == 200
      && o.res.data == Public(Row(id, Patched(db.users[i].doc, p)))
      && o.db == db.(users := SetDoc(db.users, i, Patched(db.users[i].doc, p)))
  {
    match PatchError(p)
    case Some(msg) => Outcome(db, Err(400, msg))
    case None =>
      match LiveUserAt(db.users, id)
      case None => Outcome(db, Err(404, "User not found or already deleted"))
      case Some(i) =>
        var updated := Patched(db.users[i].doc, p);
        Outcome(db.(users := SetDoc(db.users, i, updated)),
                Ok(200, "User updated successfully", Public(Row(id, updated))))
  }

  method UpdateUser(st: Store, id: Id, p: UserPatch) returns (r: ApiResult<UserView>)
    modifies st
    requires st.Valid()
    ensures st.Valid()
    ensures Outcome(st.db, r) == UpdateUserSpec(old(st.db), id, p)
  {
    UpdateUserKeepsKeyed(st.db, id, p);
    var invalid := PatchError(p);
    if invalid.Some? {
      return Err(400, invalid.value);
    }
    var at := LiveUserAt(st.db.users, id);
    if at.None? {
      return Err(404, "User not found or already deleted");
    }
    var updated := Patched(st.db.users[at.value].doc, p);
    st.db := st.db.(users := SetDoc(st.db.users, at.value, updated));
    r := Ok(200, "User updated successfully", Public(Row(id, updated)));
  }

  function DeleteUserSpec(db: Db, id: Id): (o: Outcome<UserView>)
    ensures o.res.Err? <==> LiveUserAt(db.users, id).None?
    ensures o.res.Err? ==> o == Outcome(db, Err(404, "User not found or already deleted"))
    ensures o.res.Ok? ==>
      var i := Find(db.users, id).value;
      && o.res.status == 200
      && o.db == db.(users := SetDoc(db.users, i, db.users[i].doc.(isDeleted := true, isActive := false)))
      && o.res.data == Public(o.db.users[i])
  {
    match LiveUserAt(db.users, id)
    case None => Outcome(db, Err(404, "User not found or already deleted"))
    case Some(i) =>
      var deleted := db.users[i].doc.(isDeleted := true, isActive := false);
      Outcome(db.(users := SetDoc(db.users, i, deleted)),
              Ok(200, "User deleted successfully", Public(Row(id, deleted))))
  }

  method DeleteUser(st: Store, id: Id) returns (r: ApiResult<UserView>)
    modifies st
    requires st.Valid()
    ensures st.Valid()
    ensures Outcome(st.db, r) == DeleteUserSpec(old(st.db), id)
  {
    DeleteUserKeepsKeyed(st.db, id);
    var at := LiveUserAt(st.db.users, id);
    if at.None? {
      return Err(404, "User not found or already deleted");
    }
    var deleted := st.db.users[at.value].doc.(isDeleted := true, isActive := false);
    st.db := st.db.(users := SetDoc(st.db.users, at.value, deleted));
    r := Ok(200, "User deleted successfully", Public(Row(id, deleted)));
  }

  lemma UpdateUserKeepsKeyed(db: Db, id: Id, p: UserPatch)
    requires WellKeyed(db)
    ensures WellKeyed(UpdateUserSpec(db, id, p).db)
  {
    var o := UpdateUserSpec(db, id, p);
    if o.res.Ok? {
      KeyedRewrite(db.users, o.db.users, db.nextId);
      ReplaceUsers(db, o.db.users);
    }
  }

  lemma DeleteUserKeepsKeyed(db: Db, id: Id)
    requires WellKeyed(db)
    ensures WellKeyed(DeleteUserSpec(db, id).db)
  {
    var o := DeleteUserSpec(db, id);
    if o.res.Ok? {
      KeyedRewrite(db.users, o.db.users, db.nextId);
      ReplaceUsers(db, o.db.users);
    }
  }

  function GetSingleUserById(db: Db, id: Id): (r: ApiResult<UserView>)
    ensures r.Err? <==> LiveUserAt(db.users, id).None?
    ensures r.Err? ==> r == Err(404, "User not found")
    ensures r.Ok? ==> r.data.id == id && !r.data.isDeleted &&
                      exists u :: Get(db.users, id) == Some(u) && r.data == Public(Row(id, u))
  {
    match LiveUserAt(db.users, id)
    case None => Err(404, "User not found")
    case Some(i) => Ok(200, "User fetched successfully", Public(db.users[i]))
  }

  /** A deleted account is gone for every handler that filters on it: a second delete, an
      update and a read all answer 404. */
  lemma DeletedUserNotFound(db: Db, id: Id, p: UserPatch)
    requires DeleteUserSpec(db, id).res.Ok?
    ensures var db1 := DeleteUserSpec(db, id).db;
      && DeleteUserSpec(db1, id) == Outcome(db1, Err(404, "User not found or already deleted"))
      && (PatchError(p).None? ==> UpdateUserSpec(db1, id, p).res == Err(404, "User not found or already deleted"))
      && GetSingleUserById(db1, id) == Err(404, "User not found")
  {
    var db1 := DeleteUserSpec(db, id).db;
    FindSameIds(db.users, db1.users, id);
  }

  /** An update shows in the next read of the account. */
  lemma UpdateThenRead(db: Db, id: Id, p: UserPatch)
    requires UpdateUserSpec(db, id, p).res.Ok?
    ensures var db1 := UpdateUserSpec(db, id, p).db;
      GetSingleUserById(db1, id) == Ok(200, "User fetched successfully", UpdateUserSpec(db, id, p).res.data)
  {
    var db1 := UpdateUserSpec(db, id, p).db;
    FindSameIds(db.users, db1.users, id);
  }
}
