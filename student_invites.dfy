/** Student invitations: an institute sends one signed invitation per e-mail address, all
    or none, and a student registers once through an unused invitation. */
module StudentInvites {
  import opened Wrappers
  import opened Tables
  import opened Validators
  import opened Models
  import Users

  // ---------------------------------------------------------------------------
  // sendStudentInvites

  /** The invitations a batch of addresses adds, numbered from `from`; `sign` is the token
      the signer issues for an address. */
  function InvitesFor(emails: seq<string>, sign: string -> string, from: Id): (r: Table<Invite>)
    ensures |r| == |emails|
    ensures forall k :: 0 <= k < |emails| ==> r[k] == Row(from + k, Invite(emails[k], sign(emails[k]), false))
  {
    seq(|emails|, k requires 0 <= k < |emails| => Row(from + k, Invite(emails[k], sign(emails[k]), false)))
  }

  lemma InvitesForStep(emails: seq<string>, sign: string -> string, from: Id, i: nat)
    requires i < |emails|
    ensures InvitesFor(emails[..i + 1], sign, from) ==
            InvitesFor(emails[..i], sign, from) + [Row(from + i, Invite(emails[i], sign(emails[i]), false))]
  {
  }

  /** `emails` is None when the body has no array there (absent or of another type). Any
      invalid address rejects the whole batch, naming every invalid address in order. */
  function SendInvitesSpec(db: Db, emails: Option<seq<string>>, sign: string -> string): (o: Outcome<()>)
    ensures emails.None? || emails == Some([]) ==>
      o == Outcome(db, Err(400, "Please provide at least one email"))
    ensures emails.Some? && emails.value != [] && Invalid(emails.value) != [] ==>
      o == Outcome(db, Err(400, "Invalid email(s): " + Join(Invalid(emails.value), ", ")))
    ensures o.res.Ok? <==>
      emails.Some? && emails.value != [] && forall i :: 0 <= i < |emails.value| ==> IsEmail(emails.value[i])
    ensures o.res.Ok? ==>
      && o.res == Ok(200, "Invitations sent successfully", ())
      && o.db == db.(invites := db.invites + InvitesFor(emails.value, sign, db.nextId),
                     nextId := db.nextId + |emails.value|)
  {
    if emails.None? || emails.value == [] then Outcome(db, Err(400, "Please provide at least one email"))
    else if Invalid(emails.value) != [] then
      Outcome(db, Err(400, "Invalid email(s): " + Join(Invalid(emails.value), ", ")))
    else
      Outcome(db.(invites := db.invites + InvitesFor(emails.value, sign, db.nextId),
                  nextId := db.nextId + |emails.value|),
              Ok(200, "Invitations sent successfully", ()))
  }

  /** The send loop: one invitation stored per address, in order. Delivery by mail is not
      modelled. */
  method StoreInvites(st: Store, es: seq<string>, sign: string -> string)
    modifies st
    ensures st.db == old(st.db).(invites := old(st.db).invites + InvitesFor(es, sign, old(st.db).nextId),
                                 nextId := old(st.db).nextId + |es|)
  {
    var db := st.db;
    var i := 0;
    while i < |es|
      invariant 0 <= i <= |es|
      invariant st.db == db.(invites := db.invites + InvitesFor(es[..i], sign, db.nextId), nextId := db.nextId + i)
    {
      InvitesForStep(es, sign, db.nextId, i);
      var invite := Row(st.db.nextId, Invite(es[i], sign(es[i]), false));
      st.db := st.db.(invites := st.db.invites + [invite], nextId := st.db.nextId + 1);
      i := i + 1;
    }
    assert es[..i] == es;
  }

  method SendStudentInvites(st: Store, emails: Option<seq<string>>, sign: string -> string)
    returns (r: ApiResult<()>)
    modifies st
    requires st.Valid()
    ensures st.Valid()
    ensures Outcome(st.db, r) == SendInvitesSpec(old(st.db), emails, sign)
  {
    if emails.None? || emails.value == [] {
      return Err(400, "Please provide at least one email");
    }
    var bad := Invalid(emails.value);
    if bad != [] {
      return Err(400, "Invalid email(s): " + Join(bad, ", "));
    }
    StoreInvites(st, emails.value, sign);
    r := Ok(200, "Invitations sent successfully", ());
    assert st.db == SendInvitesSpec(old(st.db), emails, sign).db;
    SendKeepsKeyed(old(st.db), emails, sign);
  }

  /** Every address of an accepted batch gets exactly one new, unused invitation. */
  lemma SendOnePerEmail(db: Db, emails: seq<string>, sign: string -> string, k: nat)
    requires SendInvitesSpec(db, Some(emails), sign).res.Ok? && k < |emails|
    ensures var db1 := SendInvitesSpec(db, Some(emails), sign).db;
      && |db1.invites| == |db.invites| + |emails|
      && db1.invites[..|db.invites|] == db.invites
      && db1.invites[|db.invites| + k].doc == Invite(emails[k], sign(emails[k]), false)
  {
    var db1 := SendInvitesSpec(db, Some(emails), sign).db;
    var added := InvitesFor(emails, sign, db.nextId);
    assert db1.invites == db.invites + added;
    assert db1.invites[|db.invites| + k] == added[k];
  }

  lemma SendKeepsKeyed(db: Db, emails: Option<seq<string>>, sign: string -> string)
    requires WellKeyed(db)
    ensures WellKeyed(SendInvitesSpec(db, emails, sign).db)
  {
    var o := SendInvitesSpec(db, emails, sign);
    if o.res.Ok? {
      var es := emails.value;
      var db1 := db.(nextId := db.nextId + |es|);
      Advance(db, db1.nextId);
      KeyedRun(db.invites, InvitesFor(es, sign, db.nextId), db.nextId);
      ReplaceInvites(db1, db.invites + InvitesFor(es, sign, db.nextId));
    }
  }

  // ---------------------------------------------------------------------------
  // registerStudentViaInvite

  datatype RegisterRequest = RegisterRequest(userName: string, phone: string, password: string)

  /** What verifying the invitation token gives: its claims, an expiry, or another failure
      with its message. */
  datatype InviteVerdict =
    | InviteClaims(email: string, instituteId: Id)
    | InviteExpired
    | InviteRejected(message: string)

  /** The role the handler gives a registered student. */
  const STUDENT_ROLE: string := "instituteStudent"

  /** `StudentInvite.findOne({ token, email, isUsed: false })`: the first matching position. */
  function UnusedAt(t: Table<Invite>, token: string, email: string): (r: Option<nat>)
    ensures r.Some? ==> r.value < |t| && t[r.value].doc == Invite(email, token, false)
    ensures r.Some? ==> forall k :: 0 <= k < r.value ==> t[k].doc != Invite(email, token, false)
    ensures r.None? <==> forall k :: 0 <= k < |t| ==> t[k].doc != Invite(email, token, false)
  {
    if t == [] then None
    else if t[0].doc == Invite(email, token, false) then Some(0)
    else match UnusedAt(t[1..], token, email)
      case None => None
      case Some(k) => Some(k + 1)
  }

  /** `userModel.findOne({ email })`, with no deleted filter. */
  predicate EmailTaken(users: Table<User>, email: string) {
    exists u :: u in users && u.doc.email == email
  }

  /** The checks before anything is written, in the order the handler makes them. */
  datatype Admission =
    | Refused(status: nat, message: string)
    | Admitted(inviteAt: nat, email: string, instituteId: Id)

  function Admit(db: Db, token: string, req: RegisterRequest, verdict: InviteVerdict): (a: Admission)
    ensures !(Given(req.userName) && Given(req.phone) && Given(req.password)) ==>
      a == Refused(400, "All fields are required")
    ensures Given(req.userName) && Given(req.phone) && Given(req.password) && !IsPhone(req.phone) ==>
      a == Refused(400, "Invalid phone number format")
    ensures Given(req.userName) && Given(req.phone) && Given(req.password) && IsPhone(req.phone) &&
            !LongEnough(req.password) ==>
      a == Refused(400, "Password must be at least 6 characters")
    ensures a.Admitted? <==>
      && Given(req.userName) && Given(req.phone) && Given(req.password)
      && IsPhone(req.phone) && LongEnough(req.password)
      && verdict.InviteClaims?
      && UnusedAt(db.invites, token, verdict.email).Some?
      && !EmailTaken(db.users, verdict.email)
    ensures a.Admitted? ==>
      && a.email == verdict.email && a.instituteId == verdict.instituteId
      && a.inviteAt == UnusedAt(db.invites, token, verdict.email).value
    ensures Given(req.userName) && Given(req.phone) && Given(req.password) && IsPhone(req.phone) &&
            LongEnough(req.password) && verdict.InviteClaims? && UnusedAt(db.invites, token, verdict.email).Some? &&
            EmailTaken(db.users, verdict.email) ==>
      a == Refused(400, "User already exists with this email")
    ensures Given(req.userName) && Given(req.phone) && Given(req.password) && IsPhone(req.phone) &&
            LongEnough(req.password) ==>
      && (verdict.InviteExpired? ==> a == Refused(400, "Invitation link has expired"))
      && (verdict.InviteRejected? ==> a == Refused(SERVER_ERROR, verdict.message))
      && (verdict.InviteClaims? && UnusedAt(db.invites, token, verdict.email).None? ==>
            a == Refused(400, "Invalid or expired invite"))
  {
    if !(Given(req.userName) && Given(req.phone) && Given(req.password)) then
      Refused(400, "All fields are required")
    else if !IsPhone(req.phone) then Refused(400, "Invalid phone number format")
    else if !LongEnough(req.password) then Refused(400, "Password must be at least 6 characters")
    else match verdict
      case InviteExpired => Refused(400, "Invitation link has expired")
      case InviteRejected(msg) => Refused(SERVER_ERROR, msg)
      case InviteClaims(email, instituteId) =>
        match UnusedAt(db.invites, token, email)
        case None => Refused(400, "Invalid or expired invite")
        case Some(i) =>
          if EmailTaken(db.users, email) then Refused(400, "User already exists with this email")
          else Admitted(i, email, instituteId)
  }

  /** The handler as it stands: an admitted registration reaches `userModel.create`, whose
      role enumeration refuses the student role, so nothing is written and the invitation
      stays unused. */
  function RegisterAsWritten(db: Db, token: string, req: RegisterRequest, verdict: InviteVerdict)
    : (o: Outcome<Row<User>>)
    ensures o.db == db && o.res.Err?
    ensures Admit(db, token, req, verdict).Admitted? ==> o.res == Err(SERVER_ERROR, Users.RoleRejected(STUDENT_ROLE))
  {
    match Admit(db, token, req, verdict)
    case Refused(status, msg) => Outcome(db, Err(status, msg))
    case Admitted(_, _, _) =>
      assert !Users.RoleAdmitted(Some(STUDENT_ROLE));
      Outcome(db, Err(SERVER_ERROR, Users.RoleRejected(STUDENT_ROLE)))
  }

  /** The registration as intended: the student account, its link to the institute named
      in the invitation, and the invitation spent. */
  function RegisterStudentSpec(db: Db, token: string, req: RegisterRequest, verdict: InviteVerdict)
    : (o: Outcome<Row<User>>)
    ensures Admit(db, token, req, verdict).Refused? ==>
      o == Outcome(db, Err(Admit(db, token, req, verdict).status, Admit(db, token, req, verdict).message))
    ensures o.res.Ok? <==> Admit(db, token, req, verdict).Admitted?
    ensures o.res.Ok? ==>
      var a := Admit(db, token, req, verdict);
      && o.res.status == 201
      && o.res.data == Row(db.nextId, User(req.userName, a.email, req.phone, Hashed(req.password),
                                            true, false, Some(STUDENT_ROLE), None))
      && o.db == db.(users := db.users + [o.res.data],
                     studentMappings := db.studentMappings + [Row(db.nextId + 1, StudentMapping(db.nextId, a.instituteId))],
                     invites := SetDoc(db.invites, a.inviteAt, db.invites[a.inviteAt].doc.(isUsed := true)),
                     nextId := db.nextId + 2)
  {
    match Admit(db, token, req, verdict)
    case Refused(status, msg) => Outcome(db, Err(status, msg))
    case Admitted(i, email, instituteId) =>
      var student := Row(db.nextId, User(req.userName, email, req.phone, Hashed(req.password),
                                         true, false, Some(STUDENT_ROLE), None));
      var link := Row(db.nextId + 1, StudentMapping(student.id, instituteId));
      Outcome(db.(users := db.users + [student], studentMappings := db.studentMappings + [link],
                  invites := SetDoc(db.invites, i, db.invites[i].doc.(isUsed := true)),
                  nextId := db.nextId + 2),
              Ok(201, "Student registered successfully", student))
  }

  method RegisterStudentViaInvite(st: Store, token: string, req: RegisterRequest, verdict: InviteVerdict)
    returns (r: ApiResult<Row<User>>)
    modifies st
    requires st.Valid()
    ensures st.Valid()
    ensures Outcome(st.db, r) == RegisterStudentSpec(old(st.db), token, req, verdict)
  {
    RegisterKeepsKeyed(st.db, token, req, verdict);
    var a := Admit(st.db, token, req, verdict);
    if a.Refused? {
      return Err(a.status, a.message);
    }
    var studentId := st.db.nextId;
    var student := Row(studentId, User(req.userName, a.email, req.phone, Hashed(req.password),
                                       true, false, Some(STUDENT_ROLE), None));
    var link := Row(studentId + 1, StudentMapping(studentId, a.instituteId));
    st.db := st.db.(users := st.db.users + [student], studentMappings := st.db.studentMappings + [link],
                    nextId := st.db.nextId + 2);
    var spent := st.db.invites[a.inviteAt].doc.(isUsed := true);
    st.db := st.db.(invites := SetDoc(st.db.invites, a.inviteAt, spent));
    r := Ok(201, "Student registered successfully", student);
  }

  /** Where the intended handler registers a student, the one as written answers 500 and
      writes nothing. */
  lemma RegisterAsWrittenFails(db: Db, token: string, req: RegisterRequest, verdict: InviteVerdict)
    requires RegisterStudentSpec(db, token, req, verdict).res.Ok?
    ensures RegisterAsWritten(db, token, req, verdict) == Outcome(db, Err(SERVER_ERROR, Users.RoleRejected(STUDENT_ROLE)))
  {
  }

  /** An invitation registers one student: repeating the registration is refused with 400
      and changes nothing. */
  lemma RegisterOnce(db: Db, token: string, req: RegisterRequest, verdict: InviteVerdict)
    requires RegisterStudentSpec(db, token, req, verdict).res.Ok?
    ensures var db1 := RegisterStudentSpec(db, token, req, verdict).db;
      var again := RegisterStudentSpec(db1, token, req, verdict);
      again.db == db1 && again.res.Err? && again.res.status == 400
  {
    var o := RegisterStudentSpec(db, token, req, verdict);
    assert o.res.data in o.db.users;
    assert EmailTaken(o.db.users, verdict.email);
  }

  /** The invitation used is spent, and it was the first unused one for the token and address. */
  lemma RegisterSpendsInvite(db: Db, token: string, req: RegisterRequest, verdict: InviteVerdict)
    requires RegisterStudentSpec(db, token, req, verdict).res.Ok?
    ensures var db1 := RegisterStudentSpec(db, token, req, verdict).db;
      var i := UnusedAt(db.invites, token, verdict.email).value;
      && db1.invites[i].doc == Invite(verdict.email, token, true)
      && (forall k :: 0 <= k < |db.invites| && k != i ==> db1.invites[k] == db.invites[k])
  {
  }

  lemma RegisterKeepsKeyed(db: Db, token: string, req: RegisterRequest, verdict: InviteVerdict)
    requires WellKeyed(db)
    ensures WellKeyed(RegisterStudentSpec(db, token, req, verdict).db)
  {
    var o := RegisterStudentSpec(db, token, req, verdict);
    if o.res.Ok? {
      var a := Admit(db, token, req, verdict);
      var link := Row(db.nextId + 1, StudentMapping(db.nextId, a.instituteId));
      var db1 := db.(nextId := db.nextId + 2);
      Advance(db, db1.nextId);
      KeyedInsert(db.users, o.res.data.doc, db.nextId, db1.nextId);
      ReplaceUsers(db1, db.users + [o.res.data]);
      var db2 := db1.(users := db.users + [o.res.data]);
      KeyedInsert(db.studentMappings, link.doc, db.nextId + 1, db1.nextId);
      ReplaceStudentMappings(db2, db.studentMappings + [link]);
      var db3 := db2.(studentMappings := db.studentMappings + [link]);
      KeyedRewrite(db.invites, o.db.invites, db.nextId);
      ReplaceInvites(db3, o.db.invites);
    }
  }
}
