/** Follow-up logging on a course enquiry: a child-admin records a contact (its mode, a
    message and when to follow up next), and the follow-ups of one enquiry are listed newest
    first. */
module FollowUps {
  import opened Wrappers
  import opened Tables
  import opened Validators
  import opened Models
  import opened CourseEnquiries

  datatype FollowUpRequest = FollowUpRequest(
    enquiryId: Option<Id>, mode: string, message: string, nextFollowUpDate: Option<Time>,
    nextFollowUpTime: string)

  /** The mapping schema requires `childAdminId`; creating a mapping without one fails
      validation with this message. */
  const MISSING_CHILD_ADMIN: string :=
    "followUpMapping validation failed: childAdminId: Path `childAdminId` is required."

  // ---------------------------------------------------------------------------
  // createCourseEnquiryFollowUp

  predicate FollowUpComplete(req: FollowUpRequest) {
    && req.enquiryId.Some? && Given(req.mode) && Given(req.message)
    && req.nextFollowUpDate.Some? && Given(req.nextFollowUpTime)
  }

  /** Everything the handler checks before it writes. */
  predicate Accepted(db: Db, req: FollowUpRequest) {
    && FollowUpComplete(req)
    && req.mode in FOLLOW_UP_MODES
    && LiveEnquiryAt(db.enquiries, req.enquiryId.value).Some?
  }

  function NewFollowUp(req: FollowUpRequest): FollowUp
    requires FollowUpComplete(req)
  {
    FollowUp(req.mode, req.message, req.nextFollowUpDate.value, req.nextFollowUpTime, false)
  }

  /** The handler as a function of the database before it and the caller's id. The follow-up
      is written before the mapping; when the caller's id is absent the mapping fails schema
      validation and the follow-up stays behind without one. */
  function CreateFollowUpSpec(db: Db, req: FollowUpRequest, callerId: Option<Id>)
    : (o: Outcome<(Row<FollowUp>, Row<FollowUpMapping>)>)
    ensures !FollowUpComplete(req) ==> o == Outcome(db, Err(400, "All fields are required"))
    ensures FollowUpComplete(req) && req.mode !in FOLLOW_UP_MODES ==>
      o == Outcome(db, Err(400, "Invalid mode value"))
    ensures FollowUpComplete(req) && req.mode in FOLLOW_UP_MODES && !Accepted(db, req) ==>
      o == Outcome(db, Err(404, "Enquiry not found"))
    ensures o.res.Ok? <==> Accepted(db, req) && callerId.Some?
    ensures Accepted(db, req) && callerId.None? ==>
      o == Outcome(db.(followUps := db.followUps + [Row(db.nextId, NewFollowUp(req))],
                       nextId := db.nextId + 1),
                   Err(SERVER_ERROR, MISSING_CHILD_ADMIN))
    ensures o.res.Ok? ==>
      var (f, m) := o.res.data;
      && o.res.status == 201
      && f == Row(db.nextId, NewFollowUp(req))
      && m == Row(db.nextId + 1, FollowUpMapping(f.id, req.enquiryId.value, callerId.value, false))
      && o.db == db.(followUps := db.followUps + [f], followUpMappings := db.followUpMappings + [m],
                     nextId := db.nextId + 2)
  {
    if !FollowUpComplete(req) then Outcome(db, Err(400, "All fields are required"))
    else if req.mode !in FOLLOW_UP_MODES then Outcome(db, Err(400, "Invalid mode value"))
    else if LiveEnquiryAt(db.enquiries, req.enquiryId.value).None? then
      Outcome(db, Err(404, "Enquiry not found"))
    else
      var f := Row(db.nextId, NewFollowUp(req));
      var db1 := db.(followUps := db.followUps + [f], nextId := db.nextId + 1);
      match callerId
      case None => Outcome(db1, Err(SERVER_ERROR, MISSING_CHILD_ADMIN))
      case Some(c) =>
        var m := Row(db1.nextId, FollowUpMapping(f.id, req.enquiryId.value, c, false));
        Outcome(db1.(followUpMappings := db.followUpMappings + [m], nextId := db1.nextId + 1),
                Ok(201, "Follow-up created successfully", (f, m)))
  }

  method CreateCourseEnquiryFollowUp(st: Store, req: FollowUpRequest, callerId: Option<Id>)
    returns (r: ApiResult<(Row<FollowUp>, Row<FollowUpMapping>)>)
    modifies st
    requires st.Valid()
    ensures st.Valid()
    ensures Outcome(st.db, r) == CreateFollowUpSpec(old(st.db), req, callerId)
  {
    if !FollowUpComplete(req) {
      return Err(400, "All fields are required");
    }
    if req.mode !in FOLLOW_UP_MODES {
      return Err(400, "Invalid mode value");
    }
    if LiveEnquiryAt(st.db.enquiries, req.enquiryId.value).None? {
      return Err(404, "Enquiry not found");
    }
    var followUp := Row(st.db.nextId, NewFollowUp(req));
    if callerId.None? {
      st.db := st.db.(followUps := st.db.followUps + [followUp], nextId := st.db.nextId + 1);
      assert st.db == CreateFollowUpSpec(old(st.db), req, callerId).db;
      CreateFollowUpKeepsKeyed(old(st.db), req, callerId);
      return Err(SERVER_ERROR, MISSING_CHILD_ADMIN);
    }
    var mapping := Row(st.db.nextId + 1, FollowUpMapping(followUp.id, req.enquiryId.value, callerId.value, false));
    st.db := st.db.(followUps := st.db.followUps + [followUp],
                    followUpMappings := st.db.followUpMappings + [mapping],
                    nextId := st.db.nextId + 2);
    r := Ok(201, "Follow-up created successfully", (followUp, mapping));
    assert st.db == CreateFollowUpSpec(old(st.db), req, callerId).db;
    CreateFollowUpKeepsKeyed(old(st.db), req, callerId);
  }

  lemma CreateFollowUpKeepsKeyed(db: Db, req: FollowUpRequest, callerId: Option<Id>)
    requires WellKeyed(db)
    ensures WellKeyed(CreateFollowUpSpec(db, req, callerId).db)
  {
    if Accepted(db, req) {
      var f := NewFollowUp(req);
      var db1 := db.(nextId := db.nextId + 1);
      Advance(db, db1.nextId);
      KeyedInsert(db.followUps, f, db.nextId, db1.nextId);
      ReplaceFollowUps(db1, db.followUps + [Row(db.nextId, f)]);
      if callerId.Some? {
        var db2 := db1.(followUps := db.followUps + [Row(db.nextId, f)]);
        var m := FollowUpMapping(db.nextId, req.enquiryId.value, callerId.value, false);
        var db3 := db2.(nextId := db.nextId + 2);
        Advance(db2, db3.nextId);
        KeyedInsert(db.followUpMappings, m, db1.nextId, db3.nextId);
        ReplaceFollowUpMappings(db3, db.followUpMappings + [Row(db1.nextId, m)]);
      }
    }
  }

  // ---------------------------------------------------------------------------
  // getFollowUpsByEnquiryId

  /** The live mappings of one enquiry (`find({ enquiryId, isDeleted: false })`). */
  function LogsOf(enquiryId: Id): Row<FollowUpMapping> -> bool {
    (x: Row<FollowUpMapping>) => x.doc.enquiryId == enquiryId && !x.doc.isDeleted
  }

  function FollowUpIdsOf(ms: Table<FollowUpMapping>): set<Id> {
    set m | m in ms :: m.doc.followUpId
  }

  predicate IsLiveFollowUp(x: Row<FollowUp>) { !x.doc.isDeleted }

  /** A live follow-up that a live mapping files under the enquiry. */
  ghost predicate LoggedFor(db: Db, x: Row<FollowUp>, enquiryId: Id) {
    && !x.doc.isDeleted
    && exists m :: m in db.followUpMappings && LogsOf(enquiryId)(m) && m.doc.followUpId == x.id
  }

  function GetFollowUpsByEnquiryId(db: Db, enquiryId: Option<Id>): (r: ApiResult<Table<FollowUp>>)
    ensures enquiryId.None? ==> r == Err(400, "Enquiry ID is required")
    ensures enquiryId.Some? ==>
      (r.Err? <==> forall m :: m in db.followUpMappings ==> !LogsOf(enquiryId.value)(m))
    ensures enquiryId.Some? && r.Err? ==> r == Err(404, "No follow-up records found")
    ensures r.Ok? ==>
      && r.status == 200 && enquiryId.Some?
      && (forall x :: x in r.data <==> x in db.followUps && LoggedFor(db, x, enquiryId.value))
      && (Increasing(db.followUps) ==> NewestFirst(r.data))
  {
    match enquiryId
    case None => Err(400, "Enquiry ID is required")
    case Some(e) =>
      var ms := Filter(db.followUpMappings, LogsOf(e));
      assert ms != [] ==> ms[0] in ms;
      if ms == [] then Err(404, "No follow-up records found")
      else
        var found := Within(Filter(db.followUps, IsLiveFollowUp), FollowUpIdsOf(ms));
        Ok(200, "Follow-up logs fetched successfully", NewestToOldest(found))
  }

  /** The listing is the one newest-first arrangement of the enquiry's live follow-ups. */
  lemma ListingIsTheSortedLogs(db: Db, enquiryId: Id, s: Table<FollowUp>)
    requires WellKeyed(db)
    requires GetFollowUpsByEnquiryId(db, Some(enquiryId)).Ok?
    requires NewestFirst(s)
    requires forall x :: x in s <==> x in db.followUps && LoggedFor(db, x, enquiryId)
    ensures GetFollowUpsByEnquiryId(db, Some(enquiryId)).data == s
  {
    KeyedIncreasing(db.followUps, db.nextId);
    NewestFirstUnique(GetFollowUpsByEnquiryId(db, Some(enquiryId)).data, s);
  }

  /** A row of a newest-first table that no other row outranks is its head. */
  lemma NewestIsHead<T>(a: Table<T>, x: Row<T>)
    requires NewestFirst(a) && x in a
    requires forall y :: y in a ==> y.id <= x.id
    ensures a[0] == x
  {
    if a[0] != x {
      HeadIsNewest(a);
    }
  }

  /** A logged follow-up that no other follow-up outranks heads the enquiry's listing. */
  lemma NewestLogHeads(db: Db, e: Id, f: Row<FollowUp>, m: Row<FollowUpMapping>)
    requires Increasing(db.followUps)
    requires f in db.followUps && forall y :: y in db.followUps ==> y.id <= f.id
    requires m in db.followUpMappings && LogsOf(e)(m) && LoggedFor(db, f, e)
    ensures var r := GetFollowUpsByEnquiryId(db, Some(e));
      r.Ok? && r.data != [] && r.data[0] == f
  {
    var r := GetFollowUpsByEnquiryId(db, Some(e));
    NewestIsHead(r.data, f);
  }

  /** A follow-up just logged heads the enquiry's listing. */
  lemma CreateThenListFirst(db: Db, req: FollowUpRequest, callerId: Option<Id>)
    requires WellKeyed(db)
    requires CreateFollowUpSpec(db, req, callerId).res.Ok?
    ensures var o := CreateFollowUpSpec(db, req, callerId);
      var r := GetFollowUpsByEnquiryId(o.db, req.enquiryId);
      r.Ok? && r.data != [] && r.data[0] == o.res.data.0
  {
    var o := CreateFollowUpSpec(db, req, callerId);
    var (f, m) := o.res.data;
    var e := req.enquiryId.value;
    KeyedBelow(db.followUps, db.nextId);
    KeyedInsert(db.followUps, NewFollowUp(req), db.nextId, db.nextId + 1);
    KeyedIncreasing(o.db.followUps, db.nextId + 1);
    BelowAppend(db.followUps, f);
    assert m in o.db.followUpMappings && LogsOf(e)(m);
    NewestLogHeads(o.db, e, f, m);
  }
}
