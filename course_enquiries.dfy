/** The course-enquiry lifecycle: submit an enquiry for a course, list every enquiry with its
    course name, change its status, soft-delete it together with its course links, and the
    single, per-user and per-course reads. */
module CourseEnquiries {
  import opened Wrappers
  import opened Tables
  import opened Validators
  import opened Models

  datatype EnquiryRequest = EnquiryRequest(
    name: string, email: string, message: string, courseId: Option<Id>)

  /** A row of the enquiry listings. */
  datatype EnquiryView = EnquiryView(
    id: Id, name: string, email: string, message: string, status: string, createdAt: Time,
    courseName: string)

  /** The single-enquiry read: the enquiry and, when it resolves, its course's name. */
  datatype EnquiryDetail = EnquiryDetail(enquiry: Row<CourseEnquiry>, courseName: Option<string>)

  // ---------------------------------------------------------------------------
  // Queries

  predicate IsLiveEnquiry(x: Row<CourseEnquiry>) { !x.doc.isDeleted }

  predicate IsLiveLink(x: Row<EnquiryMapping>) { !x.doc.isDeleted }

  /** `CourseEnquiry.find({ isDeleted: false })`. */
  function LiveEnquiries(t: Table<CourseEnquiry>): Table<CourseEnquiry> {
    Filter(t, IsLiveEnquiry)
  }

  /** `CourseEnquiryMapping.find({ isDeleted: false })`. */
  function LiveLinks(t: Table<EnquiryMapping>): Table<EnquiryMapping> {
    Filter(t, IsLiveLink)
  }

  function EnquiryIdsOf(ms: Table<EnquiryMapping>): set<Id> {
    set m | m in ms :: m.doc.enquiryId
  }

  function CourseIdsOf(ms: Table<EnquiryMapping>): set<Id> {
    set m | m in ms :: m.doc.courseId
  }

  /** `CourseEnquiry.findOne({ _id: id, isDeleted: false })`: the position of that enquiry. */
  function LiveEnquiryAt(t: Table<CourseEnquiry>, id: Id): Option<nat> {
    match Find(t, id)
    case Some(i) => if t[i].doc.isDeleted then None else Some(i)
    case None => None
  }

  /** Every live link of one enquiry after `updateMany({ enquiryId, isDeleted: false },
      { isDeleted: true, validTo: now })`. */
  function RetireLinks(t: Table<EnquiryMapping>, enquiryId: Id, now: Time): (r: Table<EnquiryMapping>)
    ensures SameIds(t, r)
    ensures forall k :: 0 <= k < |t| && t[k].doc.enquiryId == enquiryId && !t[k].doc.isDeleted ==>
      r[k].doc == t[k].doc.(isDeleted := true, validTo := Some(now))
    ensures forall k :: 0 <= k < |t| && (t[k].doc.enquiryId != enquiryId || t[k].doc.isDeleted) ==>
      r[k] == t[k]
  {
    MapDocs(t, (x: Row<EnquiryMapping>) =>
      if x.doc.enquiryId == enquiryId && !x.doc.isDeleted
      then x.doc.(isDeleted := true, validTo := Some(now)) else x.doc)
  }

  // ---------------------------------------------------------------------------
  // createCourseEnquiry

  predicate Complete(req: EnquiryRequest, userId: Option<Id>) {
    Given(req.name) && Given(req.email) && Given(req.message) && req.courseId.Some? && userId.Some?
  }

  /** The handler as a function of the database before it. */
  function CreateCourseEnquirySpec(db: Db, req: EnquiryRequest, userId: Option<Id>)
    : (o: Outcome<(Row<CourseEnquiry>, Row<EnquiryMapping>)>)
    ensures !Complete(req, userId) ==> o == Outcome(db, Err(400, "All fields are required"))
    ensures Complete(req, userId) && !IsEmail(req.email) ==>
      o == Outcome(db, Err(400, "Invalid email format"))
    ensures o.res.Ok? <==> Complete(req, userId) && IsEmail(req.email)
    ensures o.res.Ok? ==>
      var (e, m) := o.res.data;
      && o.res.status == 201
      && e.id == db.nextId && m.id == db.nextId + 1
      && e.doc == CourseEnquiry(req.name, req.email, req.message, "pending", None, false)
      && m.doc == EnquiryMapping(req.courseId.value, userId.value, e.id, None, false)
      && o.db == db.(enquiries := db.enquiries + [e], enquiryMappings := db.enquiryMappings + [m],
                     nextId := db.nextId + 2)
  {
    if !Complete(req, userId) then Outcome(db, Err(400, "All fields are required"))
    else if !IsEmail(req.email) then Outcome(db, Err(400, "Invalid email format"))
    else
      var e := Row(db.nextId, CourseEnquiry(req.name, req.email, req.message, "pending", None, false));
      var m := Row(db.nextId + 1, EnquiryMapping(req.courseId.value, userId.value, e.id, None, false));
      var db3 := db.(enquiries := db.enquiries + [e], enquiryMappings := db.enquiryMappings + [m],
                     nextId := db.nextId + 2);
      Outcome(db3, Ok(201, "Course enquiry submitted successfully", (e, m)))
  }

  method CreateCourseEnquiry(st: Store, req: EnquiryRequest, userId: Option<Id>)
    returns (r: ApiResult<(Row<CourseEnquiry>, Row<EnquiryMapping>)>)
    modifies st
    requires st.Valid()
    ensures st.Valid()
    ensures Outcome(st.db, r) == CreateCourseEnquirySpec(old(st.db), req, userId)
  {
    if !Complete(req, userId) {
      return Err(400, "All fields are required");
    }
    if !IsEmail(req.email) {
      return Err(400, "Invalid email format");
    }
    var enquiryId, mappingId := st.db.nextId, st.db.nextId + 1;
    var enquiry := Row(enquiryId, CourseEnquiry(req.name, req.email, req.message, "pending", None, false));
    var mapping := Row(mappingId, EnquiryMapping(req.courseId.value, userId.value, enquiryId, None, false));
    st.db := st.db.(enquiries := st.db.enquiries + [enquiry],
                    enquiryMappings := st.db.enquiryMappings + [mapping],
                    nextId := st.db.nextId + 2);
    r := Ok(201, "Course enquiry submitted successfully", (enquiry, mapping));
    assert st.db == CreateCourseEnquirySpec(old(st.db), req, userId).db;
    CreateKeepsKeyed(old(st.db), req, userId);
  }

  // ---------------------------------------------------------------------------
  // updateCourseEnquiryStatus

  function UpdateCourseEnquiryStatusSpec(db: Db, id: Id, status: string): (o: Outcome<CourseEnquiry>)
    ensures status !in COURSE_ENQUIRY_STATUSES ==> o == Outcome(db, Err(400, "Invalid status value"))
    ensures status in COURSE_ENQUIRY_STATUSES && LiveEnquiryAt(db.enquiries, id).None? ==>
      o == Outcome(db, Err(404, "Course enquiry not found"))
    ensures o.res.Ok? <==> status in COURSE_ENQUIRY_STATUSES && LiveEnquiryAt(db.enquiries, id).Some?
    ensures o.res.Ok? ==>
      var i := Find(db.enquiries, id).value;
      && o.res.data == db.enquiries[i].doc.(status := status)
      && o.db == db.(enquiries := SetDoc(db.enquiries, i, o.res.data))
  {
    if status !in COURSE_ENQUIRY_STATUSES then Outcome(db, Err(400, "Invalid status value"))
    else match LiveEnquiryAt(db.enquiries, id)
      case None => Outcome(db, Err(404, "Course enquiry not found"))
      case Some(i) =>
        var updated := db.enquiries[i].doc.(status := status);
        var t := SetDoc(db.enquiries, i, updated);
        Outcome(db.(enquiries := t), Ok(200, "Enquiry status updated successfully", updated))
  }

  method UpdateCourseEnquiryStatus(st: Store, id: Id, status: string) returns (r: ApiResult<CourseEnquiry>)
    modifies st
    requires st.Valid()
    ensures st.Valid()
    ensures Outcome(st.db, r) == UpdateCourseEnquiryStatusSpec(old(st.db), id, status)
  {
    UpdateStatusKeepsKeyed(st.db, id, status);
    if status !in COURSE_ENQUIRY_STATUSES {
      return Err(400, "Invalid status value");
    }
    var at := LiveEnquiryAt(st.db.enquiries, id);
    if at.None? {
      return Err(404, "Course enquiry not found");
    }
    var updated := st.db.enquiries[at.value].doc.(status := status);
    st.db := st.db.(enquiries := SetDoc(st.db.enquiries, at.value, updated));
    r := Ok(200, "Enquiry status updated successfully", updated);
  }

  // ---------------------------------------------------------------------------
  // deleteCourseEnquiry

  function DeleteCourseEnquirySpec(db: Db, id: Id, now: Time): (o: Outcome<CourseEnquiry>)
    ensures LiveEnquiryAt(db.enquiries, id).None? <==> o.res.Err?
    ensures o.res.Err? ==> o == Outcome(db, Err(404, "Course enquiry not found or already deleted"))
    ensures o.res.Ok? ==>
      var i := Find(db.enquiries, id).value;
      && o.res.data == db.enquiries[i].doc.(isDeleted := true)
      && o.db == db.(enquiries := SetDoc(db.enquiries, i, o.res.data),
                     enquiryMappings := RetireLinks(db.enquiryMappings, id, now))
  {
    match LiveEnquiryAt(db.enquiries, id)
    case None => Outcome(db, Err(404, "Course enquiry not found or already deleted"))
    case Some(i) =>
      var deleted := db.enquiries[i].doc.(isDeleted := true);
      var t := SetDoc(db.enquiries, i, deleted);
      var links := RetireLinks(db.enquiryMappings, id, now);
      Outcome(db.(enquiries := t, enquiryMappings := links),
              Ok(200, "Course enquiry and mapping soft-deleted successfully", deleted))
  }

  method DeleteCourseEnquiry(st: Store, id: Id, now: Time) returns (r: ApiResult<CourseEnquiry>)
    modifies st
    requires st.Valid()
    ensures st.Valid()
    ensures Outcome(st.db, r) == DeleteCourseEnquirySpec(old(st.db), id, now)
  {
    DeleteKeepsKeyed(st.db, id, now);
    var at := LiveEnquiryAt(st.db.enquiries, id);
    if at.None? {
      return Err(404, "Course enquiry not found or already deleted");
    }
    var deleted := st.db.enquiries[at.value].doc.(isDeleted := true);
    st.db := st.db.(enquiries := SetDoc(st.db.enquiries, at.value, deleted),
                    enquiryMappings := RetireLinks(st.db.enquiryMappings, id, now));
    r := Ok(200, "Course enquiry and mapping soft-deleted successfully", deleted);
  }

  /** A deleted enquiry stays deleted: deleting it again, at any later time, answers 404 and
      writes nothing. */
  lemma DeleteTwiceNotFound(db: Db, id: Id, now: Time, later: Time)
    requires DeleteCourseEnquirySpec(db, id, now).res.Ok?
    ensures var db1 := DeleteCourseEnquirySpec(db, id, now).db;
      DeleteCourseEnquirySpec(db1, id, later) ==
        Outcome(db1, Err(404, "Course enquiry not found or already deleted"))
  {
    var db1 := DeleteCourseEnquirySpec(db, id, now).db;
    FindSameIds(db.enquiries, db1.enquiries, id);
  }

  /** The cascade reaches exactly the live links of the deleted enquiry: a link changes if and
      only if it named that enquiry and was live. */
  lemma DeleteCascadeExact(db: Db, id: Id, now: Time, k: nat)
    requires DeleteCourseEnquirySpec(db, id, now).res.Ok?
    requires k < |db.enquiryMappings|
    ensures var after := DeleteCourseEnquirySpec(db, id, now).db.enquiryMappings;
      && after[k].id == db.enquiryMappings[k].id
      && (after[k] != db.enquiryMappings[k] <==>
            db.enquiryMappings[k].doc.enquiryId == id && !db.enquiryMappings[k].doc.isDeleted)
      && (after[k] != db.enquiryMappings[k] ==> after[k].doc.isDeleted && after[k].doc.validTo == Some(now))
  {
  }

  /** The writes above keep every table keyed under the counter. */
  lemma CreateKeepsKeyed(db: Db, req: EnquiryRequest, userId: Option<Id>)
    requires WellKeyed(db)
    ensures WellKeyed(CreateCourseEnquirySpec(db, req, userId).db)
  {
    var o := CreateCourseEnquirySpec(db, req, userId);
    if o.res.Ok? {
      var (e, m) := o.res.data;
      var db1 := db.(nextId := db.nextId + 2);
      var db2 := db1.(enquiries := db.enquiries + [e]);
      Advance(db, db1.nextId);
      KeyedInsert(db.enquiries, e.doc, db.nextId, db1.nextId);
      ReplaceEnquiries(db1, db2.enquiries);
      KeyedInsert(db.enquiryMappings, m.doc, db.nextId + 1, db1.nextId);
      ReplaceEnquiryMappings(db2, db.enquiryMappings + [m]);
    }
  }

  lemma UpdateStatusKeepsKeyed(db: Db, id: Id, status: string)
    requires WellKeyed(db)
    ensures WellKeyed(UpdateCourseEnquiryStatusSpec(db, id, status).db)
  {
    var o := UpdateCourseEnquiryStatusSpec(db, id, status);
    if o.res.Ok? {
      KeyedRewrite(db.enquiries, o.db.enquiries, db.nextId);
      ReplaceEnquiries(db, o.db.enquiries);
    }
  }

  lemma DeleteKeepsKeyed(db: Db, id: Id, now: Time)
    requires WellKeyed(db)
    ensures WellKeyed(DeleteCourseEnquirySpec(db, id, now).db)
  {
    var o := DeleteCourseEnquirySpec(db, id, now);
    if o.res.Ok? {
      KeyedRewrite(db.enquiries, o.db.enquiries, db.nextId);
      ReplaceEnquiries(db, o.db.enquiries);
      KeyedRewrite(db.enquiryMappings, o.db.enquiryMappings, db.nextId);
      ReplaceEnquiryMappings(db.(enquiries := o.db.enquiries), o.db.enquiryMappings);
    }
  }

  // ---------------------------------------------------------------------------
  // getSingleCourseEnquiry

  /** `{ enquiryId, isDeleted: false }` on the enquiry links. */
  function LiveLinkOf(enquiryId: Id): Row<EnquiryMapping> -> bool {
    (x: Row<EnquiryMapping>) => x.doc.enquiryId == enquiryId && !x.doc.isDeleted
  }

  /** The first live link of an enquiry (`findOne({ enquiryId, isDeleted: false })`). */
  function FirstLinkOf(t: Table<EnquiryMapping>, enquiryId: Id): Option<Row<EnquiryMapping>> {
    First(t, LiveLinkOf(enquiryId))
  }

  /** `course?.courseName || null` for a course looked up by id with no deleted filter. */
  function CourseNameAt(courses: Table<Course>, courseId: Id): Option<string> {
    match Get(courses, courseId)
    case Some(c) => if c.courseName != "" then Some(c.courseName) else None
    case None => None
  }

  function GetSingleCourseEnquiry(db: Db, id: Id): (r: ApiResult<EnquiryDetail>)
    ensures r.Err? <==> LiveEnquiryAt(db.enquiries, id).None?
    ensures r.Err? ==> r == Err(404, "Course enquiry not found")
    ensures r.Ok? ==>
      && r.status == 200 && r.data.enquiry.id == id
      && Get(db.enquiries, id) == Some(r.data.enquiry.doc) && !r.data.enquiry.doc.isDeleted
    ensures r.Ok? && r.data.courseName.Some? ==>
      exists m :: m in db.enquiryMappings && m.doc.enquiryId == id && !m.doc.isDeleted &&
        Get(db.courses, m.doc.courseId).Some? &&
        Get(db.courses, m.doc.courseId).value.courseName == r.data.courseName.value
    ensures r.Ok? && (forall m :: m in db.enquiryMappings ==> m.doc.enquiryId != id || m.doc.isDeleted)
      ==> r.data.courseName.None?
    ensures forall k | r.Ok? && IsFirst(db.enquiryMappings, LiveLinkOf(id), k) ::
      var course := Get(db.courses, db.enquiryMappings[k].doc.courseId);
      && (course.Some? && course.value.courseName != "" ==> r.data.courseName == Some(course.value.courseName))
      && (course.None? || course.value.courseName == "" ==> r.data.courseName.None?)
  {
    FirstLink(db.enquiryMappings, LiveLinkOf(id));
    match LiveEnquiryAt(db.enquiries, id)
    case None => Err(404, "Course enquiry not found")
    case Some(i) =>
      var courseName := match FirstLinkOf(db.enquiryMappings, id)
        case Some(m) => CourseNameAt(db.courses, m.doc.courseId)
        case None => None;
      Ok(200, "Course enquiry fetched successfully", EnquiryDetail(db.enquiries[i], courseName))
  }

  /** A status change shows in the next read of that enquiry. */
  lemma UpdateThenRead(db: Db, id: Id, status: string)
    requires UpdateCourseEnquiryStatusSpec(db, id, status).res.Ok?
    ensures var db1 := UpdateCourseEnquiryStatusSpec(db, id, status).db;
      GetSingleCourseEnquiry(db1, id).Ok? &&
      GetSingleCourseEnquiry(db1, id).data.enquiry.doc.status == status
  {
    var db1 := UpdateCourseEnquiryStatusSpec(db, id, status).db;
    FindSameIds(db.enquiries, db1.enquiries, id);
  }

  // ---------------------------------------------------------------------------
  // getCourseEnquiryByUserId, getEnquiriesByCourseId

  /** Live enquiries named by some live link that satisfies `linked`, in enquiry-table order. */
  function LinkedEnquiries(db: Db, ms: Table<EnquiryMapping>): (r: Table<CourseEnquiry>)
    ensures forall x :: x in r <==>
      x in db.enquiries && !x.doc.isDeleted && exists m :: m in ms && m.doc.enquiryId == x.id
    ensures Increasing(db.enquiries) ==> Increasing(r)
  {
    Within(LiveEnquiries(db.enquiries), EnquiryIdsOf(ms))
  }

  function GetCourseEnquiryByUserId(db: Db, userId: Option<Id>): (r: ApiResult<Table<CourseEnquiry>>)
    ensures r.Err? <==> userId.None?
    ensures r.Err? ==> r == Err(401, "Unauthorized: userId missing")
    ensures r.Ok? ==> r.status == 200 && forall x :: x in r.data <==>
      x in db.enquiries && !x.doc.isDeleted &&
      exists m :: m in db.enquiryMappings && !m.doc.isDeleted && m.doc.userId == userId.value &&
                  m.doc.enquiryId == x.id
  {
    match userId
    case None => Err(401, "Unauthorized: userId missing")
    case Some(u) =>
      var ms := Filter(db.enquiryMappings, (x: Row<EnquiryMapping>) => x.doc.userId == u && !x.doc.isDeleted);
      Ok(200, "Course enquiries fetched", LinkedEnquiries(db, ms))
  }

  /** A live enquiry that some live link ties to the course. */
  ghost predicate LinkedToCourse(db: Db, x: Row<CourseEnquiry>, courseId: Id) {
    && !x.doc.isDeleted
    && exists m :: m in db.enquiryMappings && !m.doc.isDeleted && m.doc.courseId == courseId &&
                   m.doc.enquiryId == x.id
  }

  function GetEnquiriesByCourseId(db: Db, courseId: Option<Id>): (r: ApiResult<Table<CourseEnquiry>>)
    ensures courseId.None? ==> r == Err(400, "courseId is required")
    ensures r.Ok? ==>
      && r.status == 200 && courseId.Some?
      && forall x :: x in r.data <==> x in db.enquiries && LinkedToCourse(db, x, courseId.value)
    ensures courseId.Some? ==>
      (r.Err? <==> forall x :: x in db.enquiries ==> !LinkedToCourse(db, x, courseId.value))
    ensures courseId.Some? && r.Err? ==> r == Err(404, "No enquiries found for this course")
  {
    match courseId
    case None => Err(400, "courseId is required")
    case Some(c) =>
      var ms := Filter(db.enquiryMappings, (x: Row<EnquiryMapping>) => x.doc.courseId == c && !x.doc.isDeleted);
      var found := LinkedEnquiries(db, ms);
      assert found != [] ==> found[0] in found;
      if found == [] then Err(404, "No enquiries found for this course")
      else Ok(200, "Course enquiries fetched successfully", found)
  }

  // ---------------------------------------------------------------------------
  // getAllCourseEnquiries

  function CourseNameOf(c: Course): string { c.courseName }

  function EnquiryOf(e: CourseEnquiry): CourseEnquiry { e }

  function ViewOf(id: Id, e: CourseEnquiry, courseName: string): EnquiryView {
    EnquiryView(id, e.name, e.email, e.message, e.status, id, courseName)
  }

  /** `courseMap[id] || "Unknown"`. */
  function NameOr(names: map<Id, string>, id: Id): string {
    if id in names && names[id] != "" then names[id] else "Unknown"
  }

  /** The handler's `filter` then `map` over the links, reading the two dictionaries. */
  function EnquiryRows(ms: Table<EnquiryMapping>, enquiries: map<Id, CourseEnquiry>, names: map<Id, string>)
    : seq<EnquiryView>
  {
    if ms == [] then []
    else
      var m := ms[0].doc;
      (if m.enquiryId in enquiries then [ViewOf(m.enquiryId, enquiries[m.enquiryId], NameOr(names, m.courseId))] else [])
      + EnquiryRows(ms[1..], enquiries, names)
  }

  function AllCourseEnquiriesSpec(db: Db): (r: ApiResult<seq<EnquiryView>>)
    ensures r.Err? <==> LiveLinks(db.enquiryMappings) == []
    ensures r.Err? ==> r == Err(404, "No course enquiries found")
    ensures r.Ok? ==> r.status == 200
  {
    var ms := LiveLinks(db.enquiryMappings);
    if ms == [] then Err(404, "No course enquiries found")
    else
      var enquiries := Within(LiveEnquiries(db.enquiries), EnquiryIdsOf(ms));
      var courses := Within(db.courses, CourseIdsOf(ms));
      Ok(200, "All course enquiries with course name",
         EnquiryRows(ms, Index(enquiries, EnquiryOf), Index(courses, CourseNameOf)))
  }

  /** The handler: two `forEach` loops fill the dictionaries, then the links are mapped. */
  method GetAllCourseEnquiries(st: Store) returns (r: ApiResult<seq<EnquiryView>>)
    ensures r == AllCourseEnquiriesSpec(st.db)
  {
    var ms := LiveLinks(st.db.enquiryMappings);
    if ms == [] {
      return Err(404, "No course enquiries found");
    }
    var enquiries := Within(LiveEnquiries(st.db.enquiries), EnquiryIdsOf(ms));
    var courses := Within(st.db.courses, CourseIdsOf(ms));
    var courseMap := FillIndex(courses, CourseNameOf);
    var enquiryMap := FillIndex(enquiries, EnquiryOf);
    r := Ok(200, "All course enquiries with course name", EnquiryRows(ms, enquiryMap, courseMap));
  }

  /** The listing stated without dictionaries: for each link in order, the enquiry it names if
      that enquiry exists and is live, with its course's name, or "Unknown" when the course is
      absent or unnamed. */
  function JoinedEnquiries(db: Db, ms: Table<EnquiryMapping>): seq<EnquiryView>
  {
    if ms == [] then []
    else
      var m := ms[0].doc;
      var courseName := CourseNameAt(db.courses, m.courseId).GetOr("Unknown");
      (match Get(db.enquiries, m.enquiryId)
       case Some(e) => if e.isDeleted then [] else [ViewOf(m.enquiryId, e, courseName)]
       case None => [])
      + JoinedEnquiries(db, ms[1..])
  }

  lemma {:induction false} RowsAgree(
    db: Db, ms: Table<EnquiryMapping>, enquiries: map<Id, CourseEnquiry>, names: map<Id, string>)
    requires forall k :: 0 <= k < |ms| ==>
      var id := ms[k].doc.enquiryId;
      && (id in enquiries <==> Get(db.enquiries, id).Some? && !Get(db.enquiries, id).value.isDeleted)
      && (id in enquiries ==> enquiries[id] == Get(db.enquiries, id).value)
    requires forall k :: 0 <= k < |ms| ==>
      var id := ms[k].doc.courseId;
      && (id in names <==> Get(db.courses, id).Some?)
      && (id in names ==> names[id] == Get(db.courses, id).value.courseName)
    ensures EnquiryRows(ms, enquiries, names) == JoinedEnquiries(db, ms)
  {
    if ms != [] {
      RowsAgree(db, ms[1..], enquiries, names);
    }
  }

  /** The dictionaries built from the fetched rows answer, for every live link, exactly what a
      direct lookup answers; so the listing is the join stated directly. */
  lemma AllCourseEnquiriesIsJoin(db: Db)
    requires WellKeyed(db)
    ensures var r := AllCourseEnquiriesSpec(db);
      r.Ok? ==> r.data == JoinedEnquiries(db, LiveLinks(db.enquiryMappings))
  {
    var ms := LiveLinks(db.enquiryMappings);
    if ms != [] {
      KeyedIncreasing(db.enquiries, db.nextId);
      KeyedIncreasing(db.courses, db.nextId);
      var eids, cids := EnquiryIdsOf(ms), CourseIdsOf(ms);
      var live := LiveEnquiries(db.enquiries);
      var enquiries := Within(live, eids);
      var courses := Within(db.courses, cids);
      forall k | 0 <= k < |ms|
        ensures var id := ms[k].doc.enquiryId;
          && (id in Index(enquiries, EnquiryOf) <==>
                Get(db.enquiries, id).Some? && !Get(db.enquiries, id).value.isDeleted)
          && (id in Index(enquiries, EnquiryOf) ==> Index(enquiries, EnquiryOf)[id] == Get(db.enquiries, id).value)
      {
        var id := ms[k].doc.enquiryId;
        assert id in eids by { assert ms[k] in ms; }
        IndexIsGet(enquiries, EnquiryOf, id);
        GetSubset(db.enquiries, enquiries, (x: Row<CourseEnquiry>) => !x.doc.isDeleted && x.id in eids, id);
      }
      forall k | 0 <= k < |ms|
        ensures var id := ms[k].doc.courseId;
          && (id in Index(courses, CourseNameOf) <==> Get(db.courses, id).Some?)
          && (id in Index(courses, CourseNameOf) ==> Index(courses, CourseNameOf)[id] == Get(db.courses, id).value.courseName)
      {
        var id := ms[k].doc.courseId;
        assert id in cids by { assert ms[k] in ms; }
        IndexIsGet(courses, CourseNameOf, id);
        GetSubset(db.courses, courses, (x: Row<Course>) => x.id in cids, id);
      }
      RowsAgree(db, ms, Index(enquiries, EnquiryOf), Index(courses, CourseNameOf));
    }
  }
}
