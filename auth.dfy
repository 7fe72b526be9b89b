/** The access gate in front of the protected routes: the bearer-token check that names the
    caller, and the role check that follows it. Verifying a token's signature and expiry is
    not modelled: the caller supplies what verification makes of each token. */
module Auth {
  import opened Wrappers
  import opened Tables
  import opened Models
  import opened Users

  /** What `jwt.verify` makes of a token: the claims of a valid login token, a valid token
      whose claims name no account (an invitation token is signed with the same key), an
      expired token, or any other failure. */
  datatype Verdict = Verified(claims: Claims) | Unclaimed | Expired | Invalid

  /** A middleware either passes the request on, with the caller it found, or stops it. */
  datatype Gate = Next(user: Claims) | Stop(status: nat, message: string)

  const BEARER: string := "Bearer "

  /** The characters of `s` up to its first space: `s.split(" ")[0]`. */
  function FirstField(s: string): (r: string)
    ensures r <= s
    ensures ' ' !in r
    ensures |r| < |s| ==> s[|r|] == ' '
  {
    if s == [] || s[0] == ' ' then [] else [s[0]] + FirstField(s[1..])
  }

  /** A space-free prefix followed by a space or the end is the first field; no other
      string is. */
  lemma {:induction false} FirstFieldUnique(s: string, r: string)
    requires r <= s && ' ' !in r && (|r| < |s| ==> s[|r|] == ' ')
    ensures r == FirstField(s)
  {
    if s != [] && s[0] != ' ' {
      assert r[0] == s[0] && r[1..] <= s[1..];
      assert forall k :: 0 <= k < |r[1..]| ==> r[1..][k] == r[k + 1];
      FirstFieldUnique(s[1..], r[1..]);
      assert r == [r[0]] + r[1..];
    }
  }

  /** `authHeader.split(" ")[1]` for a header that starts with "Bearer ". */
  function TokenOf(header: string): (token: string)
    requires BEARER <= header
    ensures token <= header[|BEARER|..] && ' ' !in token
  {
    FirstField(header[|BEARER|..])
  }

  /** `tokenChecker`, with `decode` standing for `jwt.verify`. The header must start with
      "Bearer "; the token's account must exist and not be deleted. */
  function TokenChecker(header: Option<string>, decode: string -> Verdict, db: Db): (g: Gate)
    ensures header.None? || !(BEARER <= header.value) ==> g == Stop(401, "token missing")
    ensures g.Stop? ==> g.status == 401
    ensures g.Next? <==>
      && header.Some? && BEARER <= header.value
      && decode(TokenOf(header.value)).Verified?
      && Get(db.users, decode(TokenOf(header.value)).claims.userId).Some?
      && !Get(db.users, decode(TokenOf(header.value)).claims.userId).value.isDeleted
    ensures g.Next? ==> g.user == decode(TokenOf(header.value)).claims
    ensures header.Some? && BEARER <= header.value && decode(TokenOf(header.value)) == Expired ==>
      g == Stop(401, "Access token expired")
    ensures header.Some? && BEARER <= header.value && decode(TokenOf(header.value)) == Invalid ==>
      g == Stop(401, "Unauthorized - Invalid token")
  {
    if header.None? || !(BEARER <= header.value) then Stop(401, "token missing")
    else match decode(TokenOf(header.value))
      case Expired => Stop(401, "Access token expired")
      case Invalid => Stop(401, "Unauthorized - Invalid token")
      case Unclaimed => Stop(401, "User not valid or deleted")
      case Verified(c) =>
        match Get(db.users, c.userId)
        case None => Stop(401, "User not valid or deleted")
        case Some(u) => if u.isDeleted then Stop(401, "User not valid or deleted") else Next(c)
  }

  /** `allowRoles(roles)`: the caller's role must be one of the roles; a caller without a
      role, or no caller at all, is refused. */
  function AllowRoles(roles: seq<string>, user: Option<Claims>): (g: Gate)
    ensures g.Next? <==> user.Some? && user.value.role.Some? && user.value.role.value in roles
    ensures g.Next? ==> g.user == user.value
    ensures g.Stop? ==> g == Stop(403, "Access denied")
  {
    if user.Some? && user.value.role.Some? && user.value.role.value in roles then Next(user.value)
    else Stop(403, "Access denied")
  }

  /** A token for a live account passes, whatever else follows the token in the header. */
  lemma BearerOfLiveAccountPasses(header: string, decode: string -> Verdict, db: Db, u: Row<User>)
    requires Increasing(db.users) && u in db.users && !u.doc.isDeleted
    requires BEARER <= header && decode(TokenOf(header)).Verified?
    requires decode(TokenOf(header)).claims.userId == u.id
    ensures TokenChecker(Some(header), decode, db) == Next(decode(TokenOf(header)).claims)
  {
    GetMember(db.users, u.id, u.doc);
  }

  /** The claims a successful log-in issues pass the gate while the account stays live. */
  lemma LoginThenPass(db: Db, contact: string, password: string, header: string, decode: string -> Verdict)
    requires WellKeyed(db) && Login(db, contact, password).Ok?
    requires !Login(db, contact, password).data.user.isDeleted
    requires BEARER <= header && decode(TokenOf(header)) == Verified(Login(db, contact, password).data.token)
    ensures TokenChecker(Some(header), decode, db) == Next(Login(db, contact, password).data.token)
  {
    KeyedIncreasing(db.users, db.nextId);
    var u :| u in db.users && HasContact(contact)(u) && Matches(password, u.doc.password) &&
             Login(db, contact, password).data == Session(Public(u), Claims(u.id, u.doc.role, u.doc.userName));
    BearerOfLiveAccountPasses(header, decode, db, u);
  }

  /** Deleting an account locks its tokens out, although they still verify. */
  lemma DeletedAccountLockedOut(db: Db, id: Id, header: string, decode: string -> Verdict)
    requires DeleteUserSpec(db, id).res.Ok?
    requires BEARER <= header && decode(TokenOf(header)).Verified? && decode(TokenOf(header)).claims.userId == id
    ensures TokenChecker(Some(header), decode, DeleteUserSpec(db, id).db) == Stop(401, "User not valid or deleted")
  {
    var db1 := DeleteUserSpec(db, id).db;
    FindSameIds(db.users, db1.users, id);
  }

  /** The role gate passes the caller the token gate found exactly when its role is listed. */
  lemma GatesCompose(header: Option<string>, decode: string -> Verdict, db: Db, roles: seq<string>)
    requires TokenChecker(header, decode, db).Next?
    ensures var c := TokenChecker(header, decode, db).user;
      AllowRoles(roles, Some(c)).Next? <==> c.role.Some? && c.role.value in roles
  {
  }
}
