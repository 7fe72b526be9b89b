/** Institutes: created together with a link to the account that owns them, listed per
    owner, read, edited and soft-deleted with their owner links. */
module Institutes {
  import opened Wrappers
  import opened Tables
  import opened Models

  datatype InstituteRequest = InstituteRequest(
    instituteName: string, contactPerson: string, email: string, phone: string, address: Option<string>)

  /** The body of `updateInstituteById` is passed through whole, so every schema path can be
      set, the flags included; keys outside the schema are dropped. */
  datatype InstitutePatch = InstitutePatch(
    instituteName: Option<string>, contactPerson: Option<string>, email: Option<string>,
    phone: Option<string>, address: Option<string>,
    isVerified: Option<bool>, isActive: Option<bool>, isDeleted: Option<bool>)

  predicate Complete(req: InstituteRequest) {
    Given(req.instituteName) && Given(req.contactPerson) && Given(req.email) && Given(req.phone)
  }

  /** A new institute: unverified and, by the schema's default, inactive. */
  function NewInstitute(req: InstituteRequest): (x: Institute)
    ensures !x.isVerified && !x.isActive && !x.isDeleted
    ensures x.instituteName == req.instituteName && x.contactPerson == req.contactPerson
    ensures x.email == req.email && x.phone == req.phone && x.address == req.address
  {
    Institute(req.instituteName, req.contactPerson, req.email, req.phone, req.address, false, false, false)
  }

  predicate IsLiveInstitute(x: Row<Institute>) { !x.doc.isDeleted }

  /** `findOne({ _id: id, isDeleted: false })`: the position of a live institute. */
  function LiveInstituteAt(t: Table<Institute>, id: Id): (r: Option<nat>)
    ensures r.Some? <==> Find(t, id).Some? && !t[Find(t, id).value].doc.isDeleted
    ensures r.Some? ==> r == Find(t, id)
  {
    match Find(t, id)
    case None => None
    case Some(i) => if t[i].doc.isDeleted then None else Some(i)
  }

  // ---------------------------------------------------------------------------
  // createInstitute

  /** The handler as it stands: the owner's id is read as `req.user._id`, which the access
      token does not carry (it carries `userId`), so building the link throws after the
      institute is stored, and the catch answers 500 with the institute left unlinked. */
  function CreateInstituteAsWritten(db: Db, req: InstituteRequest): (o: Outcome<()>)
    ensures o.res.Err?
    ensures !Complete(req) ==> o == Outcome(db, Err(400, "All required fields must be provided."))
    ensures Complete(req) ==>
      && o.res == Err(SERVER_ERROR, "Server error")
      && o.db == db.(institutes := db.institutes + [Row(db.nextId, NewInstitute(req))], nextId := db.nextId + 1)
  {
    if !Complete(req) then Outcome(db, Err(400, "All required fields must be provided."))
    else
      Outcome(db.(institutes := db.institutes + [Row(db.nextId, NewInstitute(req))], nextId := db.nextId + 1),
              Err(SERVER_ERROR, "Server error"))
  }

  /** The intended handler: the owner is the caller the access token names. */
  function CreateInstituteSpec(db: Db, req: InstituteRequest, userId: Id)
    : (o: Outcome<(Row<Institute>, Row<InstituteMapping>)>)
    ensures !Complete(req) ==> o == Outcome(db, Err(400, "All required fields must be provided."))
    ensures o.res.Ok? <==> Complete(req)
    ensures o.res.Ok? ==>
      var (x, m) := o.res.data;
      && o.res.status == 201
      && x == Row(db.nextId, NewInstitute(req))
      && m == Row(db.nextId + 1, InstituteMapping(userId, x.id, None, true, false))
      && o.db == db.(institutes := db.institutes + [x], instituteMappings := db.instituteMappings + [m],
                     nextId := db.nextId + 2)
  {
    if !Complete(req) then Outcome(db, Err(400, "All required fields must be provided."))
    else
      var x := Row(db.nextId, NewInstitute(req));
      var m := Row(db.nextId + 1, InstituteMapping(userId, x.id, None, true, false));
      Outcome(db.(institutes := db.institutes + [x], instituteMappings := db.instituteMappings + [m],
                  nextId := db.nextId + 2),
              Ok(201, "Institute and mapping created successfully", (x, m)))
  }

  method CreateInstitute(st: Store, req: InstituteRequest, userId: Id)
    returns (r: ApiResult<(Row<Institute>, Row<InstituteMapping>)>)
    modifies st
    requires st.Valid()
    ensures st.Valid()
    ensures Outcome(st.db, r) == CreateInstituteSpec(old(st.db), req, userId)
  {
    if !Complete(req) {
      return Err(400, "All required fields must be provided.");
    }
    var instituteId := st.db.nextId;
    var institute := Row(instituteId, NewInstitute(req));
    st.db := st.db.(institutes := st.db.institutes + [institute], nextId := st.db.nextId + 1);
    var mapping := Row(st.db.nextId, InstituteMapping(userId, instituteId, None, true, false));
    st.db := st.db.(instituteMappings := st.db.instituteMappings + [mapping], nextId := st.db.nextId + 1);
    r := Ok(201, "Institute and mapping created successfully", (institute, mapping));
    assert st.db == CreateInstituteSpec(old(st.db), req, userId).db;
    CreateKeepsKeyed(old(st.db), req, userId);
  }

  /** As written a complete request stores the same institute the intended handler stores,
      but no owner link, and answers 500 instead of 201. */
  lemma CreateAsWrittenOrphans(db: Db, req: InstituteRequest, userId: Id)
    requires Complete(req)
    ensures var written := CreateInstituteAsWritten(db, req);
      var intended := CreateInstituteSpec(db, req, userId);
      && written.db.institutes == intended.db.institutes
      && written.db.instituteMappings == db.instituteMappings
      && |intended.db.instituteMappings| == |db.instituteMappings| + 1
      && written.res.status == SERVER_ERROR && intended.res.status == 201
  {
  }

  lemma CreateKeepsKeyed(db: Db, req: InstituteRequest, userId: Id)
    requires WellKeyed(db)
    ensures WellKeyed(CreateInstituteSpec(db, req, userId).db)
  {
    var o := CreateInstituteSpec(db, req, userId);
    if o.res.Ok? {
      var (x, m) := o.res.data;
      var db1 := db.(nextId := db.nextId + 2);
      Advance(db, db1.nextId);
      KeyedInsert(db.institutes, x.doc, db.nextId, db1.nextId);
      ReplaceInstitutes(db1, db.institutes + [x]);
      KeyedInsert(db.instituteMappings, m.doc, db.nextId + 1, db1.nextId);
      ReplaceInstituteMappings(db1.(institutes := db.institutes + [x]), db.instituteMappings + [m]);
    }
  }

  // ---------------------------------------------------------------------------
  // getAllInstitutesForUser

  /** `InstituteUserMapping.find({ userId, isDeleted: false, isActive: true })`. */
  function OwnedBy(userId: Id): Row<InstituteMapping> -> bool {
    (m: Row<InstituteMapping>) => m.doc.userId == userId && !m.doc.isDeleted && m.doc.isActive
  }

  function InstituteIdsOf(ms: Table<InstituteMapping>): set<Id> {
    set m | m in ms :: m.doc.instituteId
  }

  /** A live institute a live, active link of the user names. */
  ghost predicate ListedFor(db: Db, x: Row<Institute>, userId: Id) {
    && !x.doc.isDeleted
    && exists m :: m in db.instituteMappings && OwnedBy(userId)(m) && m.doc.instituteId == x.id
  }

  /** The response carries the list alone, without a message. */
  function GetAllInstitutesForUser(db: Db, userId: Id): (r: ApiResult<Table<Institute>>)
    ensures r.Ok? && r.status == 200
    ensures forall x :: x in r.data <==> x in db.institutes && ListedFor(db, x, userId)
    ensures Increasing(db.institutes) ==> Increasing(r.data)
  {
    var ms := Filter(db.instituteMappings, OwnedBy(userId));
    var found := Within(Filter(db.institutes, IsLiveInstitute), InstituteIdsOf(ms));
    Ok(200, "", found)
  }

  /** The owner sees a new institute in their list. */
  lemma CreateThenListed(db: Db, req: InstituteRequest, userId: Id)
    requires CreateInstituteSpec(db, req, userId).res.Ok?
    ensures var o := CreateInstituteSpec(db, req, userId);
      o.res.data.0 in GetAllInstitutesForUser(o.db, userId).data
  {
    var o := CreateInstituteSpec(db, req, userId);
    var (x, m) := o.res.data;
    assert m in o.db.instituteMappings && OwnedBy(userId)(m);
    assert x in o.db.institutes;
  }

  // ---------------------------------------------------------------------------
  // getSingleInstituteById

  function GetSingleInstituteById(db: Db, id: Id): (r: ApiResult<Institute>)
    ensures r.Err? <==> LiveInstituteAt(db.institutes, id).None?
    ensures r.Err? ==> r == Err(404, "Institute not found")
    ensures r.Ok? ==> r.status == 200 && Get(db.institutes, id) == Some(r.data) && !r.data.isDeleted
  {
    match LiveInstituteAt(db.institutes, id)
    case None => Err(404, "Institute not found")
    case Some(i) => Ok(200, "", db.institutes[i].doc)
  }

  // ---------------------------------------------------------------------------
  // updateInstituteById

  function Patched(x: Institute, p: InstitutePatch): (r: Institute)
    ensures r.instituteName == Patch(x.instituteName, p.instituteName)
    ensures r.contactPerson == Patch(x.contactPerson, p.contactPerson)
    ensures r.email == Patch(x.email, p.email) && r.phone == Patch(x.phone, p.phone)
    ensures r.address == PatchNullable(x.address, p.address)
    ensures r.isVerified == Patch(x.isVerified, p.isVerified)
    ensures r.isActive == Patch(x.isActive, p.isActive) && r.isDeleted == Patch(x.isDeleted, p.isDeleted)
  {
    Institute(Patch(x.instituteName, p.instituteName), Patch(x.contactPerson, p.contactPerson),
              Patch(x.email, p.email), Patch(x.phone, p.phone), PatchNullable(x.address, p.address),
              Patch(x.isVerified, p.isVerified), Patch(x.isActive, p.isActive), Patch(x.isDeleted, p.isDeleted))
  }

  function UpdateInstituteSpec(db: Db, id: Id, p: InstitutePatch): (o: Outcome<Institute>)
    ensures o.res.Err? <==> LiveInstituteAt(db.institutes, id).None?
    ensures o.res.Err? ==> o == Outcome(db, Err(404, "Institute not found or deleted"))
    ensures o.res.Ok? ==>
      var i := Find(db.institutes, id).value;
      && o.res == Ok(200, "Institute updated successfully", Patched(db.institutes[i].doc, p))
      && o.db == db.(institutes := SetDoc(db.institutes, i, o.res.data))
  {
    match LiveInstituteAt(db.institutes, id)
    case None => Outcome(db, Err(404, "Institute not found or deleted"))
    case Some(i) =>
      var x := Patched(db.institutes[i].doc, p);
      Outcome(db.(institutes := SetDoc(db.institutes, i, x)), Ok(200, "Institute updated successfully", x))
  }

  method UpdateInstituteById(st: Store, id: Id, p: InstitutePatch) returns (r: ApiResult<Institute>)
    modifies st
    requires st.Valid()
    ensures st.Valid()
    ensures Outcome(st.db, r) == UpdateInstituteSpec(old(st.db), id, p)
  {
    UpdateKeepsKeyed(st.db, id, p);
    var at := LiveInstituteAt(st.db.institutes, id);
    if at.None? {
      return Err(404, "Institute not found or deleted");
    }
    var x := Patched(st.db.institutes[at.value].doc, p);
    st.db := st.db.(institutes := SetDoc(st.db.institutes, at.value, x));
    r := Ok(200, "Institute updated successfully", x);
  }

  /** An edit that does not itself set the deleted flag shows in the next read. */
  lemma UpdateThenRead(db: Db, id: Id, p: InstitutePatch)
    requires UpdateInstituteSpec(db, id, p).res.Ok? && p.isDeleted != Some(true)
    ensures var o := UpdateInstituteSpec(db, id, p);
      GetSingleInstituteById(o.db, id) == Ok(200, "", o.res.data)
  {
    var o := UpdateInstituteSpec(db, id, p);
    FindSameIds(db.institutes, o.db.institutes, id);
  }

  /** Because the body is passed through, an edit can set the deleted flag itself; the owner
      links then stay live, unlike after a delete. */
  lemma UpdateCanDeleteWithoutCascade(db: Db, id: Id, p: InstitutePatch)
    requires UpdateInstituteSpec(db, id, p).res.Ok? && p.isDeleted == Some(true)
    ensures var o := UpdateInstituteSpec(db, id, p);
      && GetSingleInstituteById(o.db, id) == Err(404, "Institute not found")
      && o.db.instituteMappings == db.instituteMappings
  {
    var o := UpdateInstituteSpec(db, id, p);
    FindSameIds(db.institutes, o.db.institutes, id);
  }

  lemma UpdateKeepsKeyed(db: Db, id: Id, p: InstitutePatch)
    requires WellKeyed(db)
    ensures WellKeyed(UpdateInstituteSpec(db, id, p).db)
  {
    var o := UpdateInstituteSpec(db, id, p);
    if o.res.Ok? {
      KeyedRewrite(db.institutes, o.db.institutes, db.nextId);
      ReplaceInstitutes(db, o.db.institutes);
    }
  }

  // ---------------------------------------------------------------------------
  // deleteInstituteById

  /** `updateMany({ instituteId, isDeleted: false }, { isDeleted: true, isActive: false })`;
      `validTo` is not set. */
  function RetireLinks(t: Table<InstituteMapping>, instituteId: Id): (r: Table<InstituteMapping>)
    ensures SameIds(t, r)
    ensures forall k :: 0 <= k < |t| && t[k].doc.instituteId == instituteId && !t[k].doc.isDeleted ==>
      r[k].doc == t[k].doc.(isDeleted := true, isActive := false)
    ensures forall k :: 0 <= k < |t| && (t[k].doc.instituteId != instituteId || t[k].doc.isDeleted) ==>
      r[k] == t[k]
  {
    MapDocs(t, (x: Row<InstituteMapping>) =>
      if x.doc.instituteId == instituteId && !x.doc.isDeleted
      then x.doc.(isDeleted := true, isActive := false)
      else x.doc)
  }

  /** The institute is marked first, the links are retired whatever that found, and only
      then is a miss reported. */
  function DeleteInstituteSpec(db: Db, id: Id): (o: Outcome<()>)
    ensures o.db.instituteMappings == RetireLinks(db.instituteMappings, id)
    ensures o.res.Err? <==> LiveInstituteAt(db.institutes, id).None?
    ensures o.res.Err? ==>
      o == Outcome(db.(instituteMappings := RetireLinks(db.instituteMappings, id)),
                   Err(404, "Institute not found or already deleted"))
    ensures o.res.Ok? ==>
      var i := Find(db.institutes, id).value;
      && o.res == Ok(200, "Institute deleted successfully", ())
      && o.db == db.(institutes := SetDoc(db.institutes, i, db.institutes[i].doc.(isDeleted := true, isActive := false)),
                     instituteMappings := RetireLinks(db.instituteMappings, id))
  {
    var links := RetireLinks(db.instituteMappings, id);
    match LiveInstituteAt(db.institutes, id)
    case None =>
      Outcome(db.(instituteMappings := links), Err(404, "Institute not found or already deleted"))
    case Some(i) =>
      var x := db.institutes[i].doc.(isDeleted := true, isActive := false);
      Outcome(db.(institutes := SetDoc(db.institutes, i, x), instituteMappings := links),
              Ok(200, "Institute deleted successfully", ()))
  }

  method DeleteInstituteById(st: Store, id: Id) returns (r: ApiResult<()>)
    modifies st
    requires st.Valid()
    ensures st.Valid()
    ensures Outcome(st.db, r) == DeleteInstituteSpec(old(st.db), id)
  {
    DeleteKeepsKeyed(st.db, id);
    var at := LiveInstituteAt(st.db.institutes, id);
    if at.Some? {
      var x := st.db.institutes[at.value].doc.(isDeleted := true, isActive := false);
      st.db := st.db.(institutes := SetDoc(st.db.institutes, at.value, x));
    }
    st.db := st.db.(instituteMappings := RetireLinks(st.db.instituteMappings, id));
    if at.None? {
      return Err(404, "Institute not found or already deleted");
    }
    r := Ok(200, "Institute deleted successfully", ());
  }

  /** A delete of an institute that is absent or already deleted still retires every live
      link that names the id, while answering 404. */
  lemma DeleteMissRetiresLinks(db: Db, id: Id, k: nat)
    requires LiveInstituteAt(db.institutes, id).None?
    requires k < |db.instituteMappings| && db.instituteMappings[k].doc.instituteId == id
    requires !db.instituteMappings[k].doc.isDeleted
    ensures var o := DeleteInstituteSpec(db, id);
      && o.res == Err(404, "Institute not found or already deleted")
      && o.db.institutes == db.institutes
      && o.db.instituteMappings[k].doc.isDeleted && !o.db.instituteMappings[k].doc.isActive
  {
  }

  /** A second delete answers 404 and changes nothing. */
  lemma DeleteAgain(db: Db, id: Id)
    ensures var db1 := DeleteInstituteSpec(db, id).db;
      DeleteInstituteSpec(db1, id) == Outcome(db1, Err(404, "Institute not found or already deleted"))
  {
    var db1 := DeleteInstituteSpec(db, id).db;
    FindSameIds(db.institutes, db1.institutes, id);
    assert RetireLinks(db1.instituteMappings, id) == db1.instituteMappings;
  }

  /** No live, active link is left to name a deleted institute. */
  lemma RetiredLinksUnowned(t: Table<InstituteMapping>, id: Id, userId: Id)
    ensures forall m :: m in RetireLinks(t, id) && OwnedBy(userId)(m) ==> m.doc.instituteId != id
  {
    var r := RetireLinks(t, id);
    forall m | m in r && OwnedBy(userId)(m) ensures m.doc.instituteId != id {
      var k :| 0 <= k < |r| && r[k] == m;
    }
  }

  /** After a delete no owner lists the institute. */
  lemma DeleteUnlists(db: Db, id: Id, userId: Id)
    ensures var db1 := DeleteInstituteSpec(db, id).db;
      forall x :: x in GetAllInstitutesForUser(db1, userId).data ==> x.id != id
  {
    RetiredLinksUnowned(db.instituteMappings, id, userId);
  }

  lemma DeleteKeepsKeyed(db: Db, id: Id)
    requires WellKeyed(db)
    ensures WellKeyed(DeleteInstituteSpec(db, id).db)
  {
    var o := DeleteInstituteSpec(db, id);
    var links := RetireLinks(db.instituteMappings, id);
    KeyedRewrite(db.instituteMappings, links, db.nextId);
    ReplaceInstituteMappings(db, links);
    if o.res.Ok? {
      KeyedRewrite(db.institutes, o.db.institutes, db.nextId);
      ReplaceInstitutes(db.(instituteMappings := links), o.db.institutes);
    }
  }
}
