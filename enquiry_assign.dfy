/** Assigning a course enquiry to a child admin, and the child admin's list of assigned
    enquiries joined with the enquiry, the assignment record and the course name. */
module EnquiryAssign {
  import opened Wrappers
  import opened Tables
  import opened Validators
  import opened Models
  import opened CourseEnquiries

  datatype AssignRequest = AssignRequest(
    enquiryId: Option<Id>, childAdminId: Option<Id>, priority: string, adminNotes: Option<string>)

  /** The ids the handler answers with. */
  datatype AssignIds = AssignIds(assignId: Id, mappingId: Id)

  /** One row of the child admin's list. The enquiry is absent when it is missing or deleted
      (its fields are then left out of the row), the assignment record when it is missing, and
      the course name when no live course link or no course is found. */
  datatype AssignedView = AssignedView(
    enquiry: Option<Row<CourseEnquiry>>, courseName: Option<string>, assign: Option<Row<Assign>>)

  // ---------------------------------------------------------------------------
  // assignCourseEnquiry

  predicate AssignComplete(req: AssignRequest) {
    req.enquiryId.Some? && req.childAdminId.Some? && Given(req.priority)
  }

  /** The handler as a function of the database before it; `callerRole` is the role the token
      carried, and the schema's default "Admin" applies when there is none. */
  function AssignCourseEnquirySpec(db: Db, req: AssignRequest, callerRole: Option<string>)
    : (o: Outcome<AssignIds>)
    ensures !AssignComplete(req) ==>
      o == Outcome(db, Err(400, "enquiryId, childAdminId, and priority are required"))
    ensures AssignComplete(req) && req.priority !in PRIORITIES ==>
      o == Outcome(db, Err(400, "Invalid priority"))
    ensures AssignComplete(req) && req.priority in PRIORITIES &&
            LiveEnquiryAt(db.enquiries, req.enquiryId.value).None? ==>
      o == Outcome(db, Err(404, "Enquiry not found"))
    ensures o.res.Ok? <==>
      AssignComplete(req) && req.priority in PRIORITIES &&
      LiveEnquiryAt(db.enquiries, req.enquiryId.value).Some?
    ensures o.res.Ok? ==>
      var a := Row(db.nextId, Assign(req.adminNotes, callerRole.GetOr("Admin"), req.priority, false));
      var m := Row(db.nextId + 1, AssignMapping(req.enquiryId.value, req.childAdminId.value, a.id, false));
      && o.res == Ok(201, "Enquiry assigned successfully", AssignIds(a.id, m.id))
      && o.db == db.(assigns := db.assigns + [a], assignMappings := db.assignMappings + [m],
                     nextId := db.nextId + 2)
  {
    if !AssignComplete(req) then
      Outcome(db, Err(400, "enquiryId, childAdminId, and priority are required"))
    else if req.priority !in PRIORITIES then Outcome(db, Err(400, "Invalid priority"))
    else if LiveEnquiryAt(db.enquiries, req.enquiryId.value).None? then
      Outcome(db, Err(404, "Enquiry not found"))
    else
      var a := Row(db.nextId, Assign(req.adminNotes, callerRole.GetOr("Admin"), req.priority, false));
      var m := Row(db.nextId + 1, AssignMapping(req.enquiryId.value, req.childAdminId.value, a.id, false));
      var db3 := db.(assigns := db.assigns + [a], assignMappings := db.assignMappings + [m],
                     nextId := db.nextId + 2);
      Outcome(db3, Ok(201, "Enquiry assigned successfully", AssignIds(a.id, m.id)))
  }

  method AssignCourseEnquiry(st: Store, req: AssignRequest, callerRole: Option<string>)
    returns (r: ApiResult<AssignIds>)
    modifies st
    requires st.Valid()
    ensures st.Valid()
    ensures Outcome(st.db, r) == AssignCourseEnquirySpec(old(st.db), req, callerRole)
  {
    AssignKeepsKeyed(st.db, req, callerRole);
    if !AssignComplete(req) {
      return Err(400, "enquiryId, childAdminId, and priority are required");
    }
    if req.priority !in PRIORITIES {
      return Err(400, "Invalid priority");
    }
    if LiveEnquiryAt(st.db.enquiries, req.enquiryId.value).None? {
      return Err(404, "Enquiry not found");
    }
    var assignId, mappingId := st.db.nextId, st.db.nextId + 1;
    var assign := Row(assignId, Assign(req.adminNotes, callerRole.GetOr("Admin"), req.priority, false));
    var mapping := Row(mappingId, AssignMapping(req.enquiryId.value, req.childAdminId.value, assignId, false));
    st.db := st.db.(assigns := st.db.assigns + [assign],
                    assignMappings := st.db.assignMappings + [mapping],
                    nextId := st.db.nextId + 2);
    r := Ok(201, "Enquiry assigned successfully", AssignIds(assignId, mappingId));
  }

  /** The writes above keep every table keyed under the counter. */
  lemma AssignKeepsKeyed(db: Db, req: AssignRequest, callerRole: Option<string>)
    requires WellKeyed(db)
    ensures WellKeyed(AssignCourseEnquirySpec(db, req, callerRole).db)
  {
    var o := AssignCourseEnquirySpec(db, req, callerRole);
    if o.res.Ok? {
      var a := Row(db.nextId, Assign(req.adminNotes, callerRole.GetOr("Admin"), req.priority, false));
      var m := Row(db.nextId + 1, AssignMapping(req.enquiryId.value, req.childAdminId.value, a.id, false));
      var db1 := db.(nextId := db.nextId + 2);
      var db2 := db1.(assigns := db.assigns + [a]);
      Advance(db, db1.nextId);
      KeyedInsert(db.assigns, a.doc, db.nextId, db1.nextId);
      ReplaceAssigns(db1, db2.assigns);
      KeyedInsert(db.assignMappings, m.doc, db.nextId + 1, db1.nextId);
      ReplaceAssignMappings(db2, db.assignMappings + [m]);
    }
  }

  /** Assigning does not look at earlier assignments: the same enquiry can be assigned again,
      and every earlier assignment row is kept as it was. */
  lemma AssignKeepsEarlier(db: Db, req: AssignRequest, callerRole: Option<string>, k: nat)
    requires AssignCourseEnquirySpec(db, req, callerRole).res.Ok?
    requires k < |db.assignMappings|
    ensures var db1 := AssignCourseEnquirySpec(db, req, callerRole).db;
      && db1.assignMappings[k] == db.assignMappings[k]
      && AssignCourseEnquirySpec(db1, req, callerRole).res.Ok?
  {
    var db1 := AssignCourseEnquirySpec(db, req, callerRole).db;
    var e := req.enquiryId.value;
    var i := LiveEnquiryAt(db.enquiries, e).value;
    FindAppend(db.enquiries, db.enquiries[i], e);
    assert LiveEnquiryAt(db1.enquiries, e).Some?;
  }

  // ---------------------------------------------------------------------------
  // getAssignedEnquiriesForChildAdmin

  /** The filter `{ childAdminId, isDeleted: false }`. */
  function OwnedBy(childAdminId: Id): Row<AssignMapping> -> bool {
    (x: Row<AssignMapping>) => x.doc.childAdminId == childAdminId && !x.doc.isDeleted
  }

  /** `CourseEnquiryAssignMapping.find({ childAdminId, isDeleted: false })`. */
  function AssignedTo(t: Table<AssignMapping>, childAdminId: Id): (r: Table<AssignMapping>)
    ensures forall x :: x in r <==> x in t && x.doc.childAdminId == childAdminId && !x.doc.isDeleted
  {
    Filter(t, OwnedBy(childAdminId))
  }

  function AssignedEnquiryIds(ms: Table<AssignMapping>): set<Id> {
    set m | m in ms :: m.doc.enquiryId
  }

  function AssignIdsOf(ms: Table<AssignMapping>): set<Id> {
    set m | m in ms :: m.doc.assignId
  }

  /** `CourseEnquiryMapping.find({ enquiryId: { $in: ids }, isDeleted: false })`. */
  function LiveLinksFor(t: Table<EnquiryMapping>, ids: set<Id>): (r: Table<EnquiryMapping>)
    ensures forall x :: x in r <==> x in t && !x.doc.isDeleted && x.doc.enquiryId in ids
  {
    Filter(t, (x: Row<EnquiryMapping>) => !x.doc.isDeleted && x.doc.enquiryId in ids)
  }

  /** `mappings.find(m => m.enquiryId === enquiryId)`. */
  function LinkFor(links: Table<EnquiryMapping>, enquiryId: Id): Option<Row<EnquiryMapping>> {
    First(links, (x: Row<EnquiryMapping>) => x.doc.enquiryId == enquiryId)
  }

  function AssignOf(a: Assign): Assign { a }

  /** `dict[id]` read as present or absent. */
  function Lookup<U>(dict: map<Id, U>, id: Id): Option<U> {
    if id in dict then Some(dict[id]) else None
  }

  /** The handler's `map` over the caller's assignment rows, reading the three dictionaries and
      searching the fetched course links. */
  function AssignedRows(
    ms: Table<AssignMapping>, links: Table<EnquiryMapping>, enquiries: map<Id, CourseEnquiry>,
    assigns: map<Id, Assign>, names: map<Id, string>)
    : (r: seq<AssignedView>)
    ensures |r| == |ms|
  {
    if ms == [] then []
    else
      var m := ms[0].doc;
      var enquiry := match Lookup(enquiries, m.enquiryId)
        case Some(e) => Some(Row(m.enquiryId, e))
        case None => None;
      var assign := match Lookup(assigns, m.assignId)
        case Some(a) => Some(Row(m.assignId, a))
        case None => None;
      var courseName := match LinkFor(links, m.enquiryId)
        case Some(l) => Lookup(names, l.doc.courseId)
        case None => None;
      [AssignedView(enquiry, courseName, assign)]
        + AssignedRows(ms[1..], links, enquiries, assigns, names)
  }

  /** The fetches of steps 1 to 5 of the handler, before any dictionary is filled. */
  datatype Fetched = Fetched(
    assignMappings: Table<AssignMapping>, enquiries: Table<CourseEnquiry>, assigns: Table<Assign>,
    links: Table<EnquiryMapping>, courses: Table<Course>)

  function Fetch(db: Db, childAdminId: Id): Fetched {
    var ms := AssignedTo(db.assignMappings, childAdminId);
    var eids := AssignedEnquiryIds(ms);
    var links := LiveLinksFor(db.enquiryMappings, eids);
    Fetched(ms, Within(LiveEnquiries(db.enquiries), eids), Within(db.assigns, AssignIdsOf(ms)),
            links, Within(db.courses, CourseIdsOf(links)))
  }

  function AssignedSpec(db: Db, childAdminId: Option<Id>): (r: ApiResult<seq<AssignedView>>)
    ensures childAdminId.None? <==> r == Err(401, "Unauthorized: userId missing")
    ensures childAdminId.Some? ==>
      (r.Err? <==> AssignedTo(db.assignMappings, childAdminId.value) == [])
    ensures childAdminId.Some? && r.Err? ==> r == Err(404, "No assigned enquiries found")
    ensures r.Ok? ==> r.status == 200 && |r.data| == |AssignedTo(db.assignMappings, childAdminId.value)|
  {
    match childAdminId
    case None => Err(401, "Unauthorized: userId missing")
    case Some(c) =>
      var f := Fetch(db, c);
      if f.assignMappings == [] then Err(404, "No assigned enquiries found")
      else
        Ok(200, "Assigned enquiries fetched successfully",
           AssignedRows(f.assignMappings, f.links, Index(f.enquiries, EnquiryOf),
                        Index(f.assigns, AssignOf), Index(f.courses, CourseNameOf)))
  }

  /** The handler with its identifier error repaired: three `forEach` loops fill the
      dictionaries, then the rows are mapped. */
  method GetAssignedEnquiriesForChildAdmin(st: Store, childAdminId: Option<Id>)
    returns (r: ApiResult<seq<AssignedView>>)
    ensures r == AssignedSpec(st.db, childAdminId)
  {
    if childAdminId.None? {
      return Err(401, "Unauthorized: userId missing");
    }
    var f := Fetch(st.db, childAdminId.value);
    if f.assignMappings == [] {
      return Err(404, "No assigned enquiries found");
    }
    var courseMap := FillIndex(f.courses, CourseNameOf);
    var enquiryMap := FillIndex(f.enquiries, EnquiryOf);
    var assignMap := FillIndex(f.assigns, AssignOf);
    r := Ok(200, "Assigned enquiries fetched successfully",
            AssignedRows(f.assignMappings, f.links, enquiryMap, assignMap, courseMap));
  }

  /** The listing stated without dictionaries: for each of the caller's live assignment rows,
      in order, the enquiry if it exists and is live, the assignment record if it exists, and
      the name of the course of the enquiry's first live course link, if that course exists. */
  function JoinedAssignments(db: Db, ms: Table<AssignMapping>): (r: seq<AssignedView>)
    ensures |r| == |ms|
  {
    if ms == [] then []
    else
      var m := ms[0].doc;
      var enquiry := match Get(db.enquiries, m.enquiryId)
        case Some(e) => if e.isDeleted then None else Some(Row(m.enquiryId, e))
        case None => None;
      var assign := match Get(db.assigns, m.assignId)
        case Some(a) => Some(Row(m.assignId, a))
        case None => None;
      var courseName := match FirstLinkOf(db.enquiryMappings, m.enquiryId)
        case Some(l) => (match Get(db.courses, l.doc.courseId)
                         case Some(c) => Some(c.courseName)
                         case None => None)
        case None => None;
      [AssignedView(enquiry, courseName, assign)] + JoinedAssignments(db, ms[1..])
  }

  /** Row by row, `JoinedAssignments` reports what the tables hold. */
  lemma {:induction false} JoinedAssignmentsAt(db: Db, ms: Table<AssignMapping>, k: nat)
    requires k < |ms|
    ensures var v := JoinedAssignments(db, ms)[k];
      var m := ms[k].doc;
      && (v.enquiry.Some? <==> Get(db.enquiries, m.enquiryId).Some? &&
                               !Get(db.enquiries, m.enquiryId).value.isDeleted)
      && (v.enquiry.Some? ==> v.enquiry.value == Row(m.enquiryId, Get(db.enquiries, m.enquiryId).value))
      && (v.assign.Some? <==> Get(db.assigns, m.assignId).Some?)
      && (v.assign.Some? ==> v.assign.value == Row(m.assignId, Get(db.assigns, m.assignId).value))
      && (v.courseName.Some? ==> FirstLinkOf(db.enquiryMappings, m.enquiryId).Some?)
  {
    if k > 0 {
      JoinedAssignmentsAt(db, ms[1..], k - 1);
    }
  }

  /** The dictionaries and links answer, for every assignment row, what direct lookups answer. */
  ghost predicate DictionariesAgree(
    db: Db, ms: Table<AssignMapping>, links: Table<EnquiryMapping>,
    enquiries: map<Id, CourseEnquiry>, assigns: map<Id, Assign>, names: map<Id, string>)
  {
    && (forall k :: 0 <= k < |ms| ==>
          var id := ms[k].doc.enquiryId;
          && (id in enquiries <==> Get(db.enquiries, id).Some? && !Get(db.enquiries, id).value.isDeleted)
          && (id in enquiries ==> enquiries[id] == Get(db.enquiries, id).value))
    && (forall k :: 0 <= k < |ms| ==>
          var id := ms[k].doc.assignId;
          && (id in assigns <==> Get(db.assigns, id).Some?)
          && (id in assigns ==> assigns[id] == Get(db.assigns, id).value))
    && (forall k :: 0 <= k < |ms| ==>
          LinkFor(links, ms[k].doc.enquiryId) == FirstLinkOf(db.enquiryMappings, ms[k].doc.enquiryId))
    && (forall l :: l in links ==>
          && (l.doc.courseId in names <==> Get(db.courses, l.doc.courseId).Some?)
          && (l.doc.courseId in names ==> names[l.doc.courseId] == Get(db.courses, l.doc.courseId).value.courseName))
  }

  lemma {:induction false} AssignedRowsAgree(
    db: Db, ms: Table<AssignMapping>, links: Table<EnquiryMapping>,
    enquiries: map<Id, CourseEnquiry>, assigns: map<Id, Assign>, names: map<Id, string>)
    requires DictionariesAgree(db, ms, links, enquiries, assigns, names)
    ensures AssignedRows(ms, links, enquiries, assigns, names) == JoinedAssignments(db, ms)
  {
    if ms != [] {
      AssignedRowsAgree(db, ms[1..], links, enquiries, assigns, names);
    }
  }

  /** The course link the handler finds among the fetched links is the enquiry's first live
      course link in the whole table. */
  lemma LinkForIsFirstLink(db: Db, eids: set<Id>, e: Id)
    requires e in eids
    ensures LinkFor(LiveLinksFor(db.enquiryMappings, eids), e) == FirstLinkOf(db.enquiryMappings, e)
  {
    FirstOfFilter(db.enquiryMappings,
      (x: Row<EnquiryMapping>) => !x.doc.isDeleted && x.doc.enquiryId in eids,
      (x: Row<EnquiryMapping>) => x.doc.enquiryId == e,
      (x: Row<EnquiryMapping>) => x.doc.enquiryId == e && !x.doc.isDeleted);
  }

  /** The enquiry dictionary answers, for every assignment row, what a live lookup answers. */
  lemma EnquiryMapAgrees(db: Db, c: Id)
    requires Increasing(db.enquiries)
    ensures var f := Fetch(db, c);
      var ms := f.assignMappings;
      forall k :: 0 <= k < |ms| ==>
        var id := ms[k].doc.enquiryId;
        && (id in Index(f.enquiries, EnquiryOf) <==>
              Get(db.enquiries, id).Some? && !Get(db.enquiries, id).value.isDeleted)
        && (id in Index(f.enquiries, EnquiryOf) ==>
              Index(f.enquiries, EnquiryOf)[id] == Get(db.enquiries, id).value)
  {
    var f := Fetch(db, c);
    var ms := f.assignMappings;
    var eids := AssignedEnquiryIds(ms);
    forall k | 0 <= k < |ms|
      ensures var id := ms[k].doc.enquiryId;
        && (id in Index(f.enquiries, EnquiryOf) <==>
              Get(db.enquiries, id).Some? && !Get(db.enquiries, id).value.isDeleted)
        && (id in Index(f.enquiries, EnquiryOf) ==>
              Index(f.enquiries, EnquiryOf)[id] == Get(db.enquiries, id).value)
    {
      var id := ms[k].doc.enquiryId;
      assert id in eids by { assert ms[k] in ms; }
      IndexIsGet(f.enquiries, EnquiryOf, id);
      GetSubset(db.enquiries, f.enquiries, (x: Row<CourseEnquiry>) => !x.doc.isDeleted && x.id in eids, id);
    }
  }

  /** The assignment dictionary answers, for every assignment row, what a lookup answers. */
  lemma AssignMapAgrees(db: Db, c: Id)
    requires Increasing(db.assigns)
    ensures var f := Fetch(db, c);
      var ms := f.assignMappings;
      forall k :: 0 <= k < |ms| ==>
        var id := ms[k].doc.assignId;
        && (id in Index(f.assigns, AssignOf) <==> Get(db.assigns, id).Some?)
        && (id in Index(f.assigns, AssignOf) ==> Index(f.assigns, AssignOf)[id] == Get(db.assigns, id).value)
  {
    var f := Fetch(db, c);
    var ms := f.assignMappings;
    var aids := AssignIdsOf(ms);
    forall k | 0 <= k < |ms|
      ensures var id := ms[k].doc.assignId;
        && (id in Index(f.assigns, AssignOf) <==> Get(db.assigns, id).Some?)
        && (id in Index(f.assigns, AssignOf) ==> Index(f.assigns, AssignOf)[id] == Get(db.assigns, id).value)
    {
      var id := ms[k].doc.assignId;
      assert id in aids by { assert ms[k] in ms; }
      IndexIsGet(f.assigns, AssignOf, id);
      GetSubset(db.assigns, f.assigns, (x: Row<Assign>) => x.id in aids, id);
    }
  }

  /** For every assignment row, the course link found among the fetched links is the
      enquiry's first live link. */
  lemma LinksAgree(db: Db, c: Id)
    ensures var f := Fetch(db, c);
      var ms := f.assignMappings;
      forall k :: 0 <= k < |ms| ==>
        LinkFor(f.links, ms[k].doc.enquiryId) == FirstLinkOf(db.enquiryMappings, ms[k].doc.enquiryId)
  {
    var f := Fetch(db, c);
    var ms := f.assignMappings;
    var eids := AssignedEnquiryIds(ms);
    forall k | 0 <= k < |ms|
      ensures LinkFor(f.links, ms[k].doc.enquiryId) == FirstLinkOf(db.enquiryMappings, ms[k].doc.enquiryId)
    {
      assert ms[k].doc.enquiryId in eids by { assert ms[k] in ms; }
      LinkForIsFirstLink(db, eids, ms[k].doc.enquiryId);
    }
  }

  /** The course-name dictionary answers, for every fetched link, what a lookup answers. */
  lemma CourseMapAgrees(db: Db, c: Id)
    requires Increasing(db.courses)
    ensures var f := Fetch(db, c);
      forall l :: l in f.links ==>
        && (l.doc.courseId in Index(f.courses, CourseNameOf) <==> Get(db.courses, l.doc.courseId).Some?)
        && (l.doc.courseId in Index(f.courses, CourseNameOf) ==>
              Index(f.courses, CourseNameOf)[l.doc.courseId] == Get(db.courses, l.doc.courseId).value.courseName)
  {
    var f := Fetch(db, c);
    var cids := CourseIdsOf(f.links);
    forall l | l in f.links
      ensures && (l.doc.courseId in Index(f.courses, CourseNameOf) <==> Get(db.courses, l.doc.courseId).Some?)
              && (l.doc.courseId in Index(f.courses, CourseNameOf) ==>
                    Index(f.courses, CourseNameOf)[l.doc.courseId] == Get(db.courses, l.doc.courseId).value.courseName)
    {
      var id := l.doc.courseId;
      assert id in cids;
      IndexIsGet(f.courses, CourseNameOf, id);
      GetSubset(db.courses, f.courses, (x: Row<Course>) => x.id in cids, id);
    }
  }

  lemma FetchAgrees(db: Db, c: Id)
    requires Increasing(db.enquiries) && Increasing(db.assigns) && Increasing(db.courses)
    ensures var f := Fetch(db, c);
      DictionariesAgree(db, f.assignMappings, f.links, Index(f.enquiries, EnquiryOf),
                        Index(f.assigns, AssignOf), Index(f.courses, CourseNameOf))
  {
    EnquiryMapAgrees(db, c);
    AssignMapAgrees(db, c);
    LinksAgree(db, c);
    CourseMapAgrees(db, c);
  }

  /** The dictionaries answer, for every assignment row, exactly what direct lookups answer,
      so the listing is the join stated directly. */
  lemma AssignedIsJoin(db: Db, childAdminId: Id)
    requires Increasing(db.enquiries) && Increasing(db.assigns) && Increasing(db.courses)
    ensures var r := AssignedSpec(db, Some(childAdminId));
      r.Ok? ==> r.data == JoinedAssignments(db, AssignedTo(db.assignMappings, childAdminId))
  {
    var f := Fetch(db, childAdminId);
    if f.assignMappings != [] {
      FetchAgrees(db, childAdminId);
      AssignedRowsAgree(db, f.assignMappings, f.links, Index(f.enquiries, EnquiryOf),
                        Index(f.assigns, AssignOf), Index(f.courses, CourseNameOf));
    }
  }

  /** The handler as written: step 4 names `CourseEnquiryMapping`, which the controller never
      imports, so every request that gets past the 404 fails with a reference error. */
  function AssignedAsWritten(db: Db, childAdminId: Option<Id>): (r: ApiResult<seq<AssignedView>>)
    ensures r.Ok? ==> false
  {
    match childAdminId
    case None => Err(401, "Unauthorized: userId missing")
    case Some(c) =>
      if AssignedTo(db.assignMappings, c) == [] then Err(404, "No assigned enquiries found")
      else Err(SERVER_ERROR, "CourseEnquiryMapping is not defined")
  }

  /** The as-written handler fails with a server error exactly when the repaired one would
      have listed something, and agrees with it otherwise. */
  lemma AssignedAsWrittenFails(db: Db, childAdminId: Option<Id>)
    ensures AssignedSpec(db, childAdminId).Ok? <==>
      AssignedAsWritten(db, childAdminId) == Err(SERVER_ERROR, "CourseEnquiryMapping is not defined")
    ensures AssignedSpec(db, childAdminId).Err? ==>
      AssignedAsWritten(db, childAdminId) == AssignedSpec(db, childAdminId)
  {
  }

  /** After a successful assignment the child admin's list is not empty, and its last row
      carries the new assignment record. */
  lemma AssignThenListed(db: Db, req: AssignRequest, callerRole: Option<string>)
    requires WellKeyed(db)
    requires AssignCourseEnquirySpec(db, req, callerRole).res.Ok?
    ensures var db1 := AssignCourseEnquirySpec(db, req, callerRole).db;
      var r := AssignedSpec(db1, req.childAdminId);
      && r.Ok?
      && r.data[|r.data| - 1].assign == Some(db1.assigns[|db1.assigns| - 1])
  {
    AssignKeepsKeyed(db, req, callerRole);
    var db1 := AssignCourseEnquirySpec(db, req, callerRole).db;
    var c := req.childAdminId.value;
    var a := db1.assigns[|db1.assigns| - 1];
    var ms := AssignedTo(db1.assignMappings, c);
    FilterLast(db1.assignMappings, OwnedBy(c));
    var k := |ms| - 1;
    assert ms[k].doc.assignId == a.id;
    KeyedIncreasing(db1.assigns, db1.nextId);
    FindUnique(db1.assigns, a.id, |db1.assigns| - 1);
    assert Get(db1.assigns, a.id) == Some(a.doc);
    JoinedAssignmentsAt(db1, ms, k);
    assert JoinedAssignments(db1, ms)[k].assign == Some(a);
    KeyedIncreasing(db1.enquiries, db1.nextId);
    KeyedIncreasing(db1.courses, db1.nextId);
    AssignedIsJoin(db1, c);
    var r := AssignedSpec(db1, Some(c));
    assert r.Ok? && r.data == JoinedAssignments(db1, ms);
  }
}
