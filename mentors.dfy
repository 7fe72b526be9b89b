/** Mentors: profiles stamped with the name of whoever created, edited or deleted them, each
    linked to the account that created it, listed newest first and soft-deleted. */
module Mentors {
  import opened Wrappers
  import opened Tables
  import opened Models
  import opened Users

  datatype MentorRequest = MentorRequest(
    mentorName: string, title: string, description: Option<string>, mentorPic: Option<string>)

  /** The body of `updateMentor`; an absent key leaves the stored value alone. */
  datatype MentorPatch = MentorPatch(
    mentorName: Option<string>, title: Option<string>, description: Option<string>,
    mentorPic: Option<string>)

  /** The name a mentor records for the caller: administrators sign as "admin", everybody
      else with their user name. */
  function ActorName(caller: Claims): (r: string)
    ensures caller.role == Some("admin") ==> r == "admin"
    ensures caller.role != Some("admin") ==> r == caller.userName
  {
    if caller.role == Some("admin") then "admin" else caller.userName
  }

  predicate IsLiveMentor(x: Row<Mentor>) { !x.doc.isDeleted }

  /** `findOne({ _id: id, isDeleted: false })`: the position of a live mentor. */
  function LiveMentorAt(t: Table<Mentor>, id: Id): (r: Option<nat>)
    ensures r.Some? <==> Find(t, id).Some? && !t[Find(t, id).value].doc.isDeleted
    ensures r.Some? ==> r == Find(t, id)
  {
    match Find(t, id)
    case None => None
    case Some(i) => if t[i].doc.isDeleted then None else Some(i)
  }

  // ---------------------------------------------------------------------------
  // createMentor

  /** `req.user` may be absent (`req.user?.userId`); a missing or empty name is as bad as a
      missing user. */
  function CreateMentorSpec(db: Db, req: MentorRequest, caller: Option<Claims>)
    : (o: Outcome<(Row<Mentor>, Row<MentorMapping>)>)
    ensures !Given(req.mentorName) || !Given(req.title) ==>
      o == Outcome(db, Err(400, "mentorName and title are required"))
    ensures Given(req.mentorName) && Given(req.title) && (caller.None? || !Given(ActorName(caller.value))) ==>
      o == Outcome(db, Err(401, "Unauthorized or missing user information"))
    ensures o.res.Ok? <==>
      Given(req.mentorName) && Given(req.title) && caller.Some? && Given(ActorName(caller.value))
    ensures o.res.Ok? ==>
      var (x, m) := o.res.data;
      && o.res.status == 201
      && x == Row(db.nextId, Mentor(req.mentorName, req.title, req.description, req.mentorPic,
                                    true, false, Some(ActorName(caller.value)), None, None))
      && m == Row(db.nextId + 1, MentorMapping(caller.value.userId, x.id, None, true, false))
      && o.db == db.(mentors := db.mentors + [x], mentorMappings := db.mentorMappings + [m],
                     nextId := db.nextId + 2)
  {
    if !Given(req.mentorName) || !Given(req.title) then
      Outcome(db, Err(400, "mentorName and title are required"))
    else if caller.None? || !Given(ActorName(caller.value)) then
      Outcome(db, Err(401, "Unauthorized or missing user information"))
    else
      var x := Row(db.nextId, Mentor(req.mentorName, req.title, req.description, req.mentorPic,
                                     true, false, Some(ActorName(caller.value)), None, None));
      var m := Row(db.nextId + 1, MentorMapping(caller.value.userId, x.id, None, true, false));
      Outcome(db.(mentors := db.mentors + [x], mentorMappings := db.mentorMappings + [m],
                  nextId := db.nextId + 2),
              Ok(201, "Mentor created and mapped successfully", (x, m)))
  }

  method CreateMentor(st: Store, req: MentorRequest, caller: Option<Claims>)
    returns (r: ApiResult<(Row<Mentor>, Row<MentorMapping>)>)
    modifies st
    requires st.Valid()
    ensures st.Valid()
    ensures Outcome(st.db, r) == CreateMentorSpec(old(st.db), req, caller)
  {
    if !Given(req.mentorName) || !Given(req.title) {
      return Err(400, "mentorName and title are required");
    }
    if caller.None? || !Given(ActorName(caller.value)) {
      return Err(401, "Unauthorized or missing user information");
    }
    var mentorId := st.db.nextId;
    var mentor := Row(mentorId, Mentor(req.mentorName, req.title, req.description, req.mentorPic,
                                       true, false, Some(ActorName(caller.value)), None, None));
    var mapping := Row(mentorId + 1, MentorMapping(caller.value.userId, mentorId, None, true, false));
    st.db := st.db.(mentors := st.db.mentors + [mentor], mentorMappings := st.db.mentorMappings + [mapping],
                    nextId := st.db.nextId + 2);
    r := Ok(201, "Mentor created and mapped successfully", (mentor, mapping));
    assert st.db == CreateMentorSpec(old(st.db), req, caller).db;
    CreateKeepsKeyed(old(st.db), req, caller);
  }

  lemma CreateKeepsKeyed(db: Db, req: MentorRequest, caller: Option<Claims>)
    requires WellKeyed(db)
    ensures WellKeyed(CreateMentorSpec(db, req, caller).db)
  {
    var o := CreateMentorSpec(db, req, caller);
    if o.res.Ok? {
      var (x, m) := o.res.data;
      var db1 := db.(nextId := db.nextId + 2);
      Advance(db, db1.nextId);
      KeyedInsert(db.mentors, x.doc, db.nextId, db1.nextId);
      ReplaceMentors(db1, db.mentors + [x]);
      KeyedInsert(db.mentorMappings, m.doc, db.nextId + 1, db1.nextId);
      ReplaceMentorMappings(db1.(mentors := db.mentors + [x]), db.mentorMappings + [m]);
    }
  }

  // ---------------------------------------------------------------------------
  // getAllMentors, getMentorById

  /** `find({ isDeleted: false }).sort({ createdAt: -1 })`. */
  function GetAllMentors(db: Db): (r: ApiResult<Table<Mentor>>)
    ensures r.Ok? && r.status == 200
    ensures forall x :: x in r.data <==> x in db.mentors && !x.doc.isDeleted
    ensures Increasing(db.mentors) ==> NewestFirst(r.data)
  {
    Ok(200, "Mentors fetched successfully", NewestToOldest(Filter(db.mentors, IsLiveMentor)))
  }

  /** The listing is the one newest-first arrangement of the live mentors. */
  lemma ListingIsTheSortedMentors(db: Db, s: Table<Mentor>)
    requires WellKeyed(db) && NewestFirst(s)
    requires forall x :: x in s <==> x in db.mentors && !x.doc.isDeleted
    ensures GetAllMentors(db).data == s
  {
    KeyedIncreasing(db.mentors, db.nextId);
    NewestFirstUnique(GetAllMentors(db).data, s);
  }

  function GetMentorById(db: Db, id: Id): (r: ApiResult<Mentor>)
    ensures r.Err? <==> LiveMentorAt(db.mentors, id).None?
    ensures r.Err? ==> r == Err(404, "Mentor not found")
    ensures r.Ok? ==> r.status == 200 && Get(db.mentors, id) == Some(r.data) && !r.data.isDeleted
  {
    match LiveMentorAt(db.mentors, id)
    case None => Err(404, "Mentor not found")
    case Some(i) => Ok(200, "Mentor fetched successfully", db.mentors[i].doc)
  }

  /** In a keyed table the read finds a mentor exactly when a live row carries the id. */
  lemma ReadFindsLive(db: Db, id: Id)
    requires Increasing(db.mentors)
    ensures GetMentorById(db, id).Ok? <==> exists x :: x in db.mentors && x.id == id && !x.doc.isDeleted
  {
    if x :| x in db.mentors && x.id == id && !x.doc.isDeleted {
      var k :| 0 <= k < |db.mentors| && db.mentors[k] == x;
      FindUnique(db.mentors, id, k);
    }
    if GetMentorById(db, id).Ok? {
      assert db.mentors[Find(db.mentors, id).value] in db.mentors;
    }
  }

  /** A new mentor heads the listing and can be read back. */
  lemma CreateThenListedFirst(db: Db, req: MentorRequest, caller: Option<Claims>)
    requires WellKeyed(db) && CreateMentorSpec(db, req, caller).res.Ok?
    ensures var o := CreateMentorSpec(db, req, caller);
      && GetAllMentors(o.db).data != [] && GetAllMentors(o.db).data[0] == o.res.data.0
      && GetMentorById(o.db, o.res.data.0.id) == Ok(200, "Mentor fetched successfully", o.res.data.0.doc)
  {
    var o := CreateMentorSpec(db, req, caller);
    var x := o.res.data.0;
    FilterLast(o.db.mentors, IsLiveMentor);
    KeyedInsert(db.mentors, x.doc, db.nextId, o.db.nextId);
    KeyedIncreasing(o.db.mentors, o.db.nextId);
    FindUnique(o.db.mentors, x.id, |db.mentors|);
  }

  // ---------------------------------------------------------------------------
  // updateMentor

  function Patched(m: Mentor, p: MentorPatch, caller: Claims): (r: Mentor)
    ensures r.mentorName == Patch(m.mentorName, p.mentorName) && r.title == Patch(m.title, p.title)
    ensures r.description == PatchNullable(m.description, p.description)
    ensures r.mentorPic == PatchNullable(m.mentorPic, p.mentorPic)
    ensures r.updatedByName == Some(ActorName(caller))
    ensures r.isDeleted == m.isDeleted && r.isActive == m.isActive
    ensures r.createdByName == m.createdByName && r.deletedByName == m.deletedByName
  {
    m.(mentorName := Patch(m.mentorName, p.mentorName), title := Patch(m.title, p.title),
       description := PatchNullable(m.description, p.description),
       mentorPic := PatchNullable(m.mentorPic, p.mentorPic),
       updatedByName := Some(ActorName(caller)))
  }

  /** `findOneAndUpdate({ _id, isDeleted: false }, ...)`: no validators run, so an empty
      name or title is stored as given. */
  function UpdateMentorSpec(db: Db, id: Id, p: MentorPatch, caller: Claims): (o: Outcome<Mentor>)
    ensures o.res.Err? <==> LiveMentorAt(db.mentors, id).None?
    ensures o.res.Err? ==> o == Outcome(db, Err(404, "Mentor not found"))
    ensures o.res.Ok? ==>
      var i := Find(db.mentors, id).value;
      && o.res == Ok(200, "Mentor updated", Patched(db.mentors[i].doc, p, caller))
      && o.db == db.(mentors := SetDoc(db.mentors, i, o.res.data))
  {
    match LiveMentorAt(db.mentors, id)
    case None => Outcome(db, Err(404, "Mentor not found"))
    case Some(i) =>
      var x := Patched(db.mentors[i].doc, p, caller);
      Outcome(db.(mentors := SetDoc(db.mentors, i, x)), Ok(200, "Mentor updated", x))
  }

  method UpdateMentor(st: Store, id: Id, p: MentorPatch, caller: Claims) returns (r: ApiResult<Mentor>)
    modifies st
    requires st.Valid()
    ensures st.Valid()
    ensures Outcome(st.db, r) == UpdateMentorSpec(old(st.db), id, p, caller)
  {
    UpdateKeepsKeyed(st.db, id, p, caller);
    var at := LiveMentorAt(st.db.mentors, id);
    if at.None? {
      return Err(404, "Mentor not found");
    }
    var x := Patched(st.db.mentors[at.value].doc, p, caller);
    st.db := st.db.(mentors := SetDoc(st.db.mentors, at.value, x));
    r := Ok(200, "Mentor updated", x);
  }

  /** An edit shows in the next read, signed by the editor. */
  lemma UpdateThenRead(db: Db, id: Id, p: MentorPatch, caller: Claims)
    requires UpdateMentorSpec(db, id, p, caller).res.Ok?
    ensures var o := UpdateMentorSpec(db, id, p, caller);
      && GetMentorById(o.db, id) == Ok(200, "Mentor fetched successfully", o.res.data)
      && o.res.data.updatedByName == Some(ActorName(caller))
  {
    var o := UpdateMentorSpec(db, id, p, caller);
    FindSameIds(db.mentors, o.db.mentors, id);
  }

  lemma UpdateKeepsKeyed(db: Db, id: Id, p: MentorPatch, caller: Claims)
    requires WellKeyed(db)
    ensures WellKeyed(UpdateMentorSpec(db, id, p, caller).db)
  {
    var o := UpdateMentorSpec(db, id, p, caller);
    if o.res.Ok? {
      KeyedRewrite(db.mentors, o.db.mentors, db.nextId);
      ReplaceMentors(db, o.db.mentors);
    }
  }

  // ---------------------------------------------------------------------------
  // deleteMentor

  function Retired(m: Mentor, caller: Claims): (r: Mentor)
    ensures r.isDeleted && !r.isActive && r.deletedByName == Some(ActorName(caller))
    ensures r.(isDeleted := m.isDeleted, isActive := m.isActive, deletedByName := m.deletedByName) == m
  {
    m.(isDeleted := true, isActive := false, deletedByName := Some(ActorName(caller)))
  }

  /** `updateMany({ mentorId, isDeleted: false }, { isDeleted: true, isActive: false, validTo: now })`. */
  function RetireLinks(t: Table<MentorMapping>, mentorId: Id, now: Time): (r: Table<MentorMapping>)
    ensures SameIds(t, r)
    ensures forall k :: 0 <= k < |t| && t[k].doc.mentorId == mentorId && !t[k].doc.isDeleted ==>
      r[k].doc == t[k].doc.(isDeleted := true, isActive := false, validTo := Some(now))
    ensures forall k :: 0 <= k < |t| && (t[k].doc.mentorId != mentorId || t[k].doc.isDeleted) ==> r[k] == t[k]
  {
    MapDocs(t, (x: Row<MentorMapping>) =>
      if x.doc.mentorId == mentorId && !x.doc.isDeleted
      then x.doc.(isDeleted := true, isActive := false, validTo := Some(now))
      else x.doc)
  }

  /** The handler as it stands: the mentor is marked, then the cascade names a model that
      was never imported (the module imports it as `mentorUserMMapping`), the reference
      throws, and the error reaches the error handler with the mentor already deleted. */
  function DeleteMentorAsWritten(db: Db, id: Id, caller: Claims): (o: Outcome<Mentor>)
    ensures o.res.Err?
    ensures LiveMentorAt(db.mentors, id).None? ==> o == Outcome(db, Err(404, "Mentor not found"))
    ensures LiveMentorAt(db.mentors, id).Some? ==>
      var i := Find(db.mentors, id).value;
      && o.res == Err(SERVER_ERROR, "UserMentorMapping is not defined")
      && o.db == db.(mentors := SetDoc(db.mentors, i, Retired(db.mentors[i].doc, caller)))
  {
    match LiveMentorAt(db.mentors, id)
    case None => Outcome(db, Err(404, "Mentor not found"))
    case Some(i) =>
      Outcome(db.(mentors := SetDoc(db.mentors, i, Retired(db.mentors[i].doc, caller))),
              Err(SERVER_ERROR, "UserMentorMapping is not defined"))
  }

  /** As written, a live link to the mentor outlives it for good: the failed delete leaves
      the link live, and every later delete answers 404 before reaching the cascade. */
  lemma DeleteMentorAsWrittenStrandsLinks(db: Db, id: Id, caller: Claims, k: nat)
    requires LiveMentorAt(db.mentors, id).Some?
    requires k < |db.mentorMappings| && db.mentorMappings[k].doc.mentorId == id
    requires !db.mentorMappings[k].doc.isDeleted
    ensures var db1 := DeleteMentorAsWritten(db, id, caller).db;
      && db1.mentorMappings[k] == db.mentorMappings[k]
      && GetMentorById(db1, id) == Err(404, "Mentor not found")
      && DeleteMentorAsWritten(db1, id, caller) == Outcome(db1, Err(404, "Mentor not found"))
  {
    var db1 := DeleteMentorAsWritten(db, id, caller).db;
    FindSameIds(db.mentors, db1.mentors, id);
  }

  /** The intended handler: the mentor and its live links are retired together. */
  function DeleteMentorSpec(db: Db, id: Id, caller: Claims, now: Time): (o: Outcome<Mentor>)
    ensures o.res.Err? <==> LiveMentorAt(db.mentors, id).None?
    ensures o.res.Err? ==> o == Outcome(db, Err(404, "Mentor not found"))
    ensures o.res.Ok? ==>
      var i := Find(db.mentors, id).value;
      && o.res == Ok(200, "Mentor and mappings deleted", Retired(db.mentors[i].doc, caller))
      && o.db == db.(mentors := SetDoc(db.mentors, i, o.res.data),
                     mentorMappings := RetireLinks(db.mentorMappings, id, now))
  {
    match LiveMentorAt(db.mentors, id)
    case None => Outcome(db, Err(404, "Mentor not found"))
    case Some(i) =>
      var x := Retired(db.mentors[i].doc, caller);
      Outcome(db.(mentors := SetDoc(db.mentors, i, x), mentorMappings := RetireLinks(db.mentorMappings, id, now)),
              Ok(200, "Mentor and mappings deleted", x))
  }

  method DeleteMentor(st: Store, id: Id, caller: Claims, now: Time) returns (r: ApiResult<Mentor>)
    modifies st
    requires st.Valid()
    ensures st.Valid()
    ensures Outcome(st.db, r) == DeleteMentorSpec(old(st.db), id, caller, now)
  {
    DeleteKeepsKeyed(st.db, id, caller, now);
    var at := LiveMentorAt(st.db.mentors, id);
    if at.None? {
      return Err(404, "Mentor not found");
    }
    var x := Retired(st.db.mentors[at.value].doc, caller);
    st.db := st.db.(mentors := SetDoc(st.db.mentors, at.value, x),
                    mentorMappings := RetireLinks(st.db.mentorMappings, id, now));
    r := Ok(200, "Mentor and mappings deleted", x);
  }

  /** The intended handler leaves the mentor table exactly as the one as written does, and
      differs from it only in the links it retires and the answer. */
  lemma DeleteMentorCorrects(db: Db, id: Id, caller: Claims, now: Time)
    ensures var written := DeleteMentorAsWritten(db, id, caller);
      var intended := DeleteMentorSpec(db, id, caller, now);
      && intended.db.mentors == written.db.mentors
      && (intended.res.Ok? <==> written.res.status == SERVER_ERROR)
      && (intended.res.Ok? ==> forall k :: 0 <= k < |db.mentorMappings| && db.mentorMappings[k].doc.mentorId == id ==>
            intended.db.mentorMappings[k].doc.isDeleted)
  {
  }

  /** After a delete the mentor is gone for every handler: no read, no edit, and a second
      delete answers 404 without touching anything. */
  lemma DeleteHides(db: Db, id: Id, caller: Claims, now: Time, p: MentorPatch)
    requires DeleteMentorSpec(db, id, caller, now).res.Ok?
    ensures var db1 := DeleteMentorSpec(db, id, caller, now).db;
      && GetMentorById(db1, id) == Err(404, "Mentor not found")
      && UpdateMentorSpec(db1, id, p, caller) == Outcome(db1, Err(404, "Mentor not found"))
      && DeleteMentorSpec(db1, id, caller, now) == Outcome(db1, Err(404, "Mentor not found"))
  {
    var db1 := DeleteMentorSpec(db, id, caller, now).db;
    FindSameIds(db.mentors, db1.mentors, id);
  }

  /** Nor does the listing show it any more. */
  lemma DeleteUnlists(db: Db, id: Id, caller: Claims, now: Time)
    requires Increasing(db.mentors) && DeleteMentorSpec(db, id, caller, now).res.Ok?
    ensures forall x :: x in GetAllMentors(DeleteMentorSpec(db, id, caller, now).db).data ==> x.id != id
  {
    var db1 := DeleteMentorSpec(db, id, caller, now).db;
    var i := Find(db.mentors, id).value;
    forall x | x in GetAllMentors(db1).data ensures x.id != id {
      var k :| 0 <= k < |db1.mentors| && db1.mentors[k] == x;
      if k != i {
        assert db.mentors[k].id == x.id;
        assert db.mentors[k].id != db.mentors[i].id;
      }
    }
  }

  lemma DeleteKeepsKeyed(db: Db, id: Id, caller: Claims, now: Time)
    requires WellKeyed(db)
    ensures WellKeyed(DeleteMentorSpec(db, id, caller, now).db)
  {
    var o := DeleteMentorSpec(db, id, caller, now);
    if o.res.Ok? {
      KeyedRewrite(db.mentors, o.db.mentors, db.nextId);
      ReplaceMentors(db, o.db.mentors);
      KeyedRewrite(db.mentorMappings, o.db.mentorMappings, db.nextId);
      ReplaceMentorMappings(db.(mentors := o.db.mentors), o.db.mentorMappings);
    }
  }
}
