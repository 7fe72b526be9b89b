/** General enquiries: a visitor leaves an email for a course; staff list them with a summary
    of the course, move them through their own set of statuses and soft-delete them. */
module GeneralEnquiries {
  import opened Wrappers
  import opened Tables
  import opened Validators
  import opened Models

  /** The three course fields the listing selects. */
  datatype CourseSummary = CourseSummary(id: Id, courseName: string, description: string, duration: string)

  /** A listed enquiry with `courseDetails`, null when its course is gone. */
  datatype GeneralEnquiryView = GeneralEnquiryView(
    enquiry: Row<GeneralEnquiry>, courseDetails: Option<CourseSummary>)

  /** `GeneralEnquiry.findOne({ _id: id, isDeleted: false })`: the position of that enquiry. */
  function LiveGeneralAt(t: Table<GeneralEnquiry>, id: Id): Option<nat> {
    match Find(t, id)
    case Some(i) => if t[i].doc.isDeleted then None else Some(i)
    case None => None
  }

  predicate IsLiveGeneral(x: Row<GeneralEnquiry>) { !x.doc.isDeleted }

  // ---------------------------------------------------------------------------
  // createGeneralEnquiry

  function CreateGeneralEnquirySpec(db: Db, email: string, courseId: Option<Id>)
    : (o: Outcome<Row<GeneralEnquiry>>)
    ensures !Given(email) || courseId.None? ==> o == Outcome(db, Err(400, "Email and courseId are required"))
    ensures Given(email) && courseId.Some? && !IsEmail(email) ==>
      o == Outcome(db, Err(400, "Invalid email format"))
    ensures o.res.Ok? <==> Given(email) && courseId.Some? && IsEmail(email)
    ensures o.res.Ok? ==>
      && o.res.status == 201
      && o.res.data == Row(db.nextId, GeneralEnquiry(email, courseId.value, "pending", false))
      && o.db == db.(generalEnquiries := db.generalEnquiries + [o.res.data], nextId := db.nextId + 1)
  {
    if !Given(email) || courseId.None? then Outcome(db, Err(400, "Email and courseId are required"))
    else if !IsEmail(email) then Outcome(db, Err(400, "Invalid email format"))
    else
      var e := Row(db.nextId, GeneralEnquiry(email, courseId.value, "pending", false));
      Outcome(db.(generalEnquiries := db.generalEnquiries + [e], nextId := db.nextId + 1),
              Ok(201, "General enquiry submitted", e))
  }

  method CreateGeneralEnquiry(st: Store, email: string, courseId: Option<Id>)
    returns (r: ApiResult<Row<GeneralEnquiry>>)
    modifies st
    requires st.Valid()
    ensures st.Valid()
    ensures Outcome(st.db, r) == CreateGeneralEnquirySpec(old(st.db), email, courseId)
  {
    CreateKeepsKeyed(st.db, email, courseId);
    if !Given(email) || courseId.None? {
      return Err(400, "Email and courseId are required");
    }
    if !IsEmail(email) {
      return Err(400, "Invalid email format");
    }
    var enquiry := Row(st.db.nextId, GeneralEnquiry(email, courseId.value, "pending", false));
    st.db := st.db.(generalEnquiries := st.db.generalEnquiries + [enquiry], nextId := st.db.nextId + 1);
    r := Ok(201, "General enquiry submitted", enquiry);
  }

  // ---------------------------------------------------------------------------
  // getAllGeneralEnquiries

  /** `courseModel.findById(courseId).select("courseName description duration")`, with no
      deleted filter. */
  function Summary(courses: Table<Course>, courseId: Id): (r: Option<CourseSummary>)
    ensures r.None? <==> forall c :: c in courses ==> c.id != courseId
    ensures r.Some? ==> r.value.id == courseId && r.value.courseName == Get(courses, courseId).value.courseName
  {
    GetAbsent(courses, courseId);
    match Get(courses, courseId)
    case None => None
    case Some(c) => Some(CourseSummary(courseId, c.courseName, c.description, c.duration))
  }

  /** The `Promise.all` map: each enquiry with the summary of its course. */
  function Enrich(courses: Table<Course>, t: Table<GeneralEnquiry>): (r: seq<GeneralEnquiryView>)
    ensures |r| == |t|
    ensures forall k :: 0 <= k < |t| ==> r[k] == GeneralEnquiryView(t[k], Summary(courses, t[k].doc.courseId))
    ensures forall v :: v in r ==> v.enquiry in t
  {
    seq(|t|, k requires 0 <= k < |t| => GeneralEnquiryView(t[k], Summary(courses, t[k].doc.courseId)))
  }

  function GetAllGeneralEnquiries(db: Db): (r: ApiResult<seq<GeneralEnquiryView>>)
    ensures r.Ok? && r.status == 200
    ensures forall x :: x in db.generalEnquiries && !x.doc.isDeleted <==>
      exists v :: v in r.data && v.enquiry == x
    ensures forall v :: v in r.data ==> v.courseDetails == Summary(db.courses, v.enquiry.doc.courseId)
    ensures forall v :: v in r.data ==>
      (v.courseDetails.None? <==> forall c :: c in db.courses ==> c.id != v.enquiry.doc.courseId)
  {
    var live := Filter(db.generalEnquiries, IsLiveGeneral);
    var views := Enrich(db.courses, live);
    assert forall x :: x in live ==> exists v :: v in views && v.enquiry == x by {
      forall x | x in live ensures exists v :: v in views && v.enquiry == x {
        var k :| 0 <= k < |live| && live[k] == x;
        assert views[k].enquiry == x;
      }
    }
    Ok(200, "General enquiries fetched", views)
  }

  /** A live last row is listed last. */
  lemma ListedLast(db: Db)
    requires db.generalEnquiries != [] && !db.generalEnquiries[|db.generalEnquiries| - 1].doc.isDeleted
    ensures var x := db.generalEnquiries[|db.generalEnquiries| - 1];
      var l := GetAllGeneralEnquiries(db).data;
      l != [] && l[|l| - 1] == GeneralEnquiryView(x, Summary(db.courses, x.doc.courseId))
  {
    var live := Filter(db.generalEnquiries, IsLiveGeneral);
    FilterLast(db.generalEnquiries, IsLiveGeneral);
    EnrichLast(db.courses, live, GetAllGeneralEnquiries(db).data);
  }

  lemma EnrichLast(courses: Table<Course>, t: Table<GeneralEnquiry>, l: seq<GeneralEnquiryView>)
    requires t != [] && l == Enrich(courses, t)
    ensures l != [] && l[|l| - 1] == GeneralEnquiryView(t[|t| - 1], Summary(courses, t[|t| - 1].doc.courseId))
  {
  }

  /** A submitted enquiry is listed last, with its course's summary. */
  lemma CreateThenListed(db: Db, email: string, courseId: Option<Id>)
    requires CreateGeneralEnquirySpec(db, email, courseId).res.Ok?
    ensures var o := CreateGeneralEnquirySpec(db, email, courseId);
      var l := GetAllGeneralEnquiries(o.db).data;
      l != [] && l[|l| - 1] == GeneralEnquiryView(o.res.data, Summary(db.courses, courseId.value))
  {
    var o := CreateGeneralEnquirySpec(db, email, courseId);
    ListedLast(o.db);
  }

  // ---------------------------------------------------------------------------
  // updateGeneralEnquiryStatus, deleteGeneralEnquiry

  /** The status check uses the general-enquiry list, not the course-enquiry one. */
  function UpdateGeneralEnquiryStatusSpec(db: Db, id: Id, status: string): (o: Outcome<GeneralEnquiry>)
    ensures status !in GENERAL_ENQUIRY_STATUSES ==> o == Outcome(db, Err(400, "Invalid status value"))
    ensures status in GENERAL_ENQUIRY_STATUSES && LiveGeneralAt(db.generalEnquiries, id).None? ==>
      o == Outcome(db, Err(404, "General enquiry not found"))
    ensures o.res.Ok? <==> status in GENERAL_ENQUIRY_STATUSES && LiveGeneralAt(db.generalEnquiries, id).Some?
    ensures o.res.Ok? ==>
      var i := Find(db.generalEnquiries, id).value;
      && o.res == Ok(200, "Status updated successfully", db.generalEnquiries[i].doc.(status := status))
      && o.db == db.(generalEnquiries := SetDoc(db.generalEnquiries, i, o.res.data))
  {
    if status !in GENERAL_ENQUIRY_STATUSES then Outcome(db, Err(400, "Invalid status value"))
    else match LiveGeneralAt(db.generalEnquiries, id)
      case None => Outcome(db, Err(404, "General enquiry not found"))
      case Some(i) =>
        var updated := db.generalEnquiries[i].doc.(status := status);
        Outcome(db.(generalEnquiries := SetDoc(db.generalEnquiries, i, updated)),
                Ok(200, "Status updated successfully", updated))
  }

  method UpdateGeneralEnquiryStatus(st: Store, id: Id, status: string) returns (r: ApiResult<GeneralEnquiry>)
    modifies st
    requires st.Valid()
    ensures st.Valid()
    ensures Outcome(st.db, r) == UpdateGeneralEnquiryStatusSpec(old(st.db), id, status)
  {
    UpdateKeepsKeyed(st.db, id, status);
    if status !in GENERAL_ENQUIRY_STATUSES {
      return Err(400, "Invalid status value");
    }
    var at := LiveGeneralAt(st.db.generalEnquiries, id);
    if at.None? {
      return Err(404, "General enquiry not found");
    }
    var updated := st.db.generalEnquiries[at.value].doc.(status := status);
    st.db := st.db.(generalEnquiries := SetDoc(st.db.generalEnquiries, at.value, updated));
    r := Ok(200, "Status updated successfully", updated);
  }

  function DeleteGeneralEnquirySpec(db: Db, id: Id): (o: Outcome<GeneralEnquiry>)
    ensures o.res.Ok? <==> LiveGeneralAt(db.generalEnquiries, id).Some?
    ensures o.res.Err? ==> o == Outcome(db, Err(404, "General enquiry not found"))
    ensures o.res.Ok? ==>
      var i := Find(db.generalEnquiries, id).value;
      && o.res == Ok(200, "General enquiry deleted", db.generalEnquiries[i].doc.(isDeleted := true))
      && o.db == db.(generalEnquiries := SetDoc(db.generalEnquiries, i, o.res.data))
  {
    match LiveGeneralAt(db.generalEnquiries, id)
    case None => Outcome(db, Err(404, "General enquiry not found"))
    case Some(i) =>
      var deleted := db.generalEnquiries[i].doc.(isDeleted := true);
      Outcome(db.(generalEnquiries := SetDoc(db.generalEnquiries, i, deleted)),
              Ok(200, "General enquiry deleted", deleted))
  }

  method DeleteGeneralEnquiry(st: Store, id: Id) returns (r: ApiResult<GeneralEnquiry>)
    modifies st
    requires st.Valid()
    ensures st.Valid()
    ensures Outcome(st.db, r) == DeleteGeneralEnquirySpec(old(st.db), id)
  {
    DeleteKeepsKeyed(st.db, id);
    var at := LiveGeneralAt(st.db.generalEnquiries, id);
    if at.None? {
      return Err(404, "General enquiry not found");
    }
    var deleted := st.db.generalEnquiries[at.value].doc.(isDeleted := true);
    st.db := st.db.(generalEnquiries := SetDoc(st.db.generalEnquiries, at.value, deleted));
    r := Ok(200, "General enquiry deleted", deleted);
  }

  /** A deleted enquiry can be neither updated nor deleted again. */
  lemma DeleteThenNotFound(db: Db, id: Id, status: string)
    requires DeleteGeneralEnquirySpec(db, id).res.Ok?
    ensures var db1 := DeleteGeneralEnquirySpec(db, id).db;
      && DeleteGeneralEnquirySpec(db1, id) == Outcome(db1, Err(404, "General enquiry not found"))
      && (status in GENERAL_ENQUIRY_STATUSES ==>
            UpdateGeneralEnquiryStatusSpec(db1, id, status) == Outcome(db1, Err(404, "General enquiry not found")))
  {
    var db1 := DeleteGeneralEnquirySpec(db, id).db;
    FindSameIds(db.generalEnquiries, db1.generalEnquiries, id);
  }

  /** In a keyed table a deleted enquiry drops out of the listing. */
  lemma DeleteThenUnlisted(db: Db, id: Id)
    requires Increasing(db.generalEnquiries)
    requires DeleteGeneralEnquirySpec(db, id).res.Ok?
    ensures forall v :: v in GetAllGeneralEnquiries(DeleteGeneralEnquirySpec(db, id).db).data ==>
      v.enquiry.id != id
  {
    var t := db.generalEnquiries;
    var i := Find(t, id).value;
    var u := DeleteGeneralEnquirySpec(db, id).db.generalEnquiries;
    forall x | x in u && x.id == id ensures x.doc.isDeleted {
      var k :| 0 <= k < |u| && u[k] == x;
      if k != i {
        assert false;
      }
    }
  }

  lemma CreateKeepsKeyed(db: Db, email: string, courseId: Option<Id>)
    requires WellKeyed(db)
    ensures WellKeyed(CreateGeneralEnquirySpec(db, email, courseId).db)
  {
    var o := CreateGeneralEnquirySpec(db, email, courseId);
    if o.res.Ok? {
      var db1 := db.(nextId := db.nextId + 1);
      Advance(db, db1.nextId);
      KeyedInsert(db.generalEnquiries, o.res.data.doc, db.nextId, db1.nextId);
      ReplaceGeneralEnquiries(db1, db.generalEnquiries + [o.res.data]);
    }
  }

  lemma UpdateKeepsKeyed(db: Db, id: Id, status: string)
    requires WellKeyed(db)
    ensures WellKeyed(UpdateGeneralEnquiryStatusSpec(db, id, status).db)
  {
    var o := UpdateGeneralEnquiryStatusSpec(db, id, status);
    if o.res.Ok? {
      KeyedRewrite(db.generalEnquiries, o.db.generalEnquiries, db.nextId);
      ReplaceGeneralEnquiries(db, o.db.generalEnquiries);
    }
  }

  lemma DeleteKeepsKeyed(db: Db, id: Id)
    requires WellKeyed(db)
    ensures WellKeyed(DeleteGeneralEnquirySpec(db, id).db)
  {
    var o := DeleteGeneralEnquirySpec(db, id);
    if o.res.Ok? {
      KeyedRewrite(db.generalEnquiries, o.db.generalEnquiries, db.nextId);
      ReplaceGeneralEnquiries(db, o.db.generalEnquiries);
    }
  }
}
