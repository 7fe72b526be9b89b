/** Batches: scheduled runs of a course. A batch is created together with a batch-course link,
    listed, read, edited while it is active and live, and soft-deleted with every link naming it. */
module Batches {
  import opened Wrappers
  import opened Tables
  import opened Models

  /** The request body of `createBatch`. `batchName` and `batchNo` are checked but not stored:
      the batch schema has no such paths. A capacity of 0 is falsy, like a missing one. */
  datatype BatchRequest = BatchRequest(
    batchName: string, batchNo: string, courseId: Option<Id>, startDate: Option<Time>,
    endDate: Option<Time>, startTime: string, endTime: string, mode: string, location: string,
    capacity: int)

  /** An `updateBatch` body restricted to the schema's paths; an absent key changes nothing. */
  datatype BatchPatch = BatchPatch(
    courseId: Option<Id>, startDate: Option<Time>, endDate: Option<Time>,
    startTime: Option<string>, endTime: Option<string>, mode: Option<string>,
    location: Option<string>, capacity: Option<int>, isActive: Option<bool>, isDeleted: Option<bool>)

  /** The `enum` of the schema's `mode` path. */
  const BATCH_MODES: seq<string> := ["Online", "Offline", "Hybrid"]

  /** The schema validator's message for a `mode` outside the enum. */
  function BadMode(mode: string): string {
    "batchCollection validation failed: mode: `" + mode + "` is not a valid enum value for path `mode`."
  }

  // ---------------------------------------------------------------------------
  // Queries

  /** `isDeleted: false, isActive: true`. */
  predicate IsOpen(x: Row<Batch>) { x.doc.isActive && !x.doc.isDeleted }

  /** `Batch.findOne({ _id: id, isDeleted: false, isActive: true })`: the position of that batch. */
  function OpenBatchAt(t: Table<Batch>, id: Id): (r: Option<nat>)
    ensures r.Some? ==> r.value < |t| && t[r.value].id == id && IsOpen(t[r.value])
    ensures r.None? <==> Find(t, id).None? || !IsOpen(t[Find(t, id).value])
  {
    match Find(t, id)
    case Some(i) => if IsOpen(t[i]) then Some(i) else None
    case None => None
  }

  /** The links of one course, deleted or not (`BatchCourseMapping.find({ courseId })`). */
  function LinksOfCourse(t: Table<BatchMapping>, courseId: Id): (r: Table<BatchMapping>)
    ensures forall x :: x in r <==> x in t && x.doc.courseId == courseId
  {
    Filter(t, (x: Row<BatchMapping>) => x.doc.courseId == courseId)
  }

  function BatchIdsOf(ms: Table<BatchMapping>): set<Id> {
    set m | m in ms :: m.doc.batchId
  }

  // ---------------------------------------------------------------------------
  // createBatch

  predicate Complete(req: BatchRequest) {
    && req.courseId.Some? && req.startDate.Some? && req.endDate.Some?
    && Given(req.startTime) && Given(req.endTime) && Given(req.mode) && Given(req.location)
    && req.capacity != 0 && Given(req.batchName) && Given(req.batchNo)
  }

  /** `Course.findOne({ _id: courseId, isDeleted: false })` finds something. */
  predicate LiveCourse(courses: Table<Course>, id: Id) {
    Find(courses, id).Some? && !courses[Find(courses, id).value].doc.isDeleted
  }

  function NewBatch(req: BatchRequest): Batch
    requires Complete(req)
  {
    Batch(req.courseId.value, req.startDate.value, req.endDate.value, req.startTime, req.endTime,
          req.mode, req.location, req.capacity, true, false)
  }

  function CreateBatchSpec(db: Db, req: BatchRequest): (o: Outcome<(Row<Batch>, Row<BatchMapping>)>)
    ensures !Complete(req) ==> o == Outcome(db, Err(400, "All fields are required"))
    ensures Complete(req) && !LiveCourse(db.courses, req.courseId.value) ==>
      o == Outcome(db, Err(404, "Course not found"))
    ensures Complete(req) && LiveCourse(db.courses, req.courseId.value) && req.mode !in BATCH_MODES ==>
      o == Outcome(db, Err(SERVER_ERROR, BadMode(req.mode)))
    ensures o.res.Ok? <==>
      Complete(req) && LiveCourse(db.courses, req.courseId.value) && req.mode in BATCH_MODES
    ensures o.res.Ok? ==>
      var (b, m) := o.res.data;
      && o.res.status == 201
      && b == Row(db.nextId, NewBatch(req))
      && m == Row(db.nextId + 1, BatchMapping(req.courseId.value, b.id, None, true, false))
      && o.db == db.(batches := db.batches + [b], batchMappings := db.batchMappings + [m],
                     nextId := db.nextId + 2)
  {
    if !Complete(req) then Outcome(db, Err(400, "All fields are required"))
    else if !LiveCourse(db.courses, req.courseId.value) then Outcome(db, Err(404, "Course not found"))
    else if req.mode !in BATCH_MODES then Outcome(db, Err(SERVER_ERROR, BadMode(req.mode)))
    else
      var b := Row(db.nextId, NewBatch(req));
      var m := Row(db.nextId + 1, BatchMapping(req.courseId.value, b.id, None, true, false));
      Outcome(db.(batches := db.batches + [b], batchMappings := db.batchMappings + [m],
                  nextId := db.nextId + 2),
              Ok(201, "Batch created and mapped successfully", (b, m)))
  }

  method CreateBatch(st: Store, req: BatchRequest) returns (r: ApiResult<(Row<Batch>, Row<BatchMapping>)>)
    modifies st
    requires st.Valid()
    ensures st.Valid()
    ensures Outcome(st.db, r) == CreateBatchSpec(old(st.db), req)
  {
    if !Complete(req) {
      return Err(400, "All fields are required");
    }
    if !LiveCourse(st.db.courses, req.courseId.value) {
      return Err(404, "Course not found");
    }
    if req.mode !in BATCH_MODES {
      return Err(SERVER_ERROR, BadMode(req.mode));
    }
    var batchId := st.db.nextId;
    var batch := Row(batchId, NewBatch(req));
    var mapping := Row(batchId + 1, BatchMapping(req.courseId.value, batchId, None, true, false));
    st.db := st.db.(batches := st.db.batches + [batch], batchMappings := st.db.batchMappings + [mapping],
                    nextId := st.db.nextId + 2);
    r := Ok(201, "Batch created and mapped successfully", (batch, mapping));
    assert st.db == CreateBatchSpec(old(st.db), req).db;
    CreateKeepsKeyed(old(st.db), req);
  }

  lemma CreateKeepsKeyed(db: Db, req: BatchRequest)
    requires WellKeyed(db)
    ensures WellKeyed(CreateBatchSpec(db, req).db)
  {
    var o := CreateBatchSpec(db, req);
    if o.res.Ok? {
      var (b, m) := o.res.data;
      var db1 := db.(nextId := db.nextId + 2);
      Advance(db, db1.nextId);
      KeyedInsert(db.batches, b.doc, db.nextId, db1.nextId);
      ReplaceBatches(db1, db.batches + [b]);
      KeyedInsert(db.batchMappings, m.doc, db.nextId + 1, db1.nextId);
      ReplaceBatchMappings(db1.(batches := db.batches + [b]), db.batchMappings + [m]);
    }
  }

  // ---------------------------------------------------------------------------
  // getAllBatches, getBatchById, getAllBatchesByCourseId

  function GetAllBatches(db: Db): (r: ApiResult<Table<Batch>>)
    ensures r.Err? <==> forall x :: x in db.batches ==> !IsOpen(x)
    ensures r.Err? ==> r == Err(404, "No active batches found")
    ensures r.Ok? ==> r.status == 200 && forall x :: x in r.data <==> x in db.batches && IsOpen(x)
  {
    var open := Filter(db.batches, IsOpen);
    assert open != [] ==> open[0] in open;
    if open == [] then Err(404, "No active batches found") else Ok(200, "Batch list", open)
  }

  function GetBatchById(db: Db, id: Id): (r: ApiResult<Batch>)
    ensures r.Err? <==> OpenBatchAt(db.batches, id).None?
    ensures r.Err? ==> r == Err(404, "Batch not found")
    ensures r.Ok? ==> r.status == 200 && Row(id, r.data) in db.batches && r.data.isActive && !r.data.isDeleted
  {
    match OpenBatchAt(db.batches, id)
    case None => Err(404, "Batch not found")
    case Some(i) => Ok(200, "Batch details", db.batches[i].doc)
  }

  /** The 404 depends on the links alone, deleted ones included; the batches listed are the open
      ones among those the links name, so an existing course can answer with an empty list. */
  function GetAllBatchesByCourseId(db: Db, courseId: Id): (r: ApiResult<Table<Batch>>)
    ensures r.Err? <==> forall m :: m in db.batchMappings ==> m.doc.courseId != courseId
    ensures r.Err? ==> r == Err(404, "No batches found for this course")
    ensures r.Ok? ==> r.status == 200 && forall x :: x in r.data <==>
      x in db.batches && IsOpen(x) &&
      exists m :: m in db.batchMappings && m.doc.courseId == courseId && m.doc.batchId == x.id
  {
    var ms := LinksOfCourse(db.batchMappings, courseId);
    assert ms != [] ==> ms[0] in ms;
    if ms == [] then Err(404, "No batches found for this course")
    else Ok(200, "All batches for course", Within(Filter(db.batches, IsOpen), BatchIdsOf(ms)))
  }

  /** A created batch is open, readable by id, and listed under its course. */
  lemma CreateThenRead(db: Db, req: BatchRequest)
    requires WellKeyed(db) && CreateBatchSpec(db, req).res.Ok?
    ensures var o := CreateBatchSpec(db, req);
      var b := o.res.data.0;
      && GetBatchById(o.db, b.id) == Ok(200, "Batch details", b.doc)
      && GetAllBatches(o.db).Ok? && b in GetAllBatches(o.db).data
      && GetAllBatchesByCourseId(o.db, req.courseId.value).Ok?
      && b in GetAllBatchesByCourseId(o.db, req.courseId.value).data
  {
    var o := CreateBatchSpec(db, req);
    var (b, m) := o.res.data;
    KeyedInsert(db.batches, b.doc, db.nextId, o.db.nextId);
    KeyedIncreasing(o.db.batches, o.db.nextId);
    FindUnique(o.db.batches, b.id, |db.batches|);
    assert m in o.db.batchMappings;
  }

  // ---------------------------------------------------------------------------
  // updateBatch

  /** `findOneAndUpdate` with no validators: each given path replaces the stored one. */
  function Patched(b: Batch, p: BatchPatch): Batch {
    Batch(Patch(b.courseId, p.courseId), Patch(b.startDate, p.startDate), Patch(b.endDate, p.endDate),
          Patch(b.startTime, p.startTime), Patch(b.endTime, p.endTime), Patch(b.mode, p.mode),
          Patch(b.location, p.location), Patch(b.capacity, p.capacity),
          Patch(b.isActive, p.isActive), Patch(b.isDeleted, p.isDeleted))
  }

  function UpdateBatchSpec(db: Db, id: Id, p: BatchPatch): (o: Outcome<Batch>)
    ensures o.res.Err? <==> OpenBatchAt(db.batches, id).None?
    ensures o.res.Err? ==> o == Outcome(db, Err(404, "Batch not found"))
    ensures o.res.Ok? ==>
      var i := Find(db.batches, id).value;
      && o.res == Ok(200, "Batch updated", Patched(db.batches[i].doc, p))
      && o.db == db.(batches := SetDoc(db.batches, i, o.res.data))
  {
    match OpenBatchAt(db.batches, id)
    case None => Outcome(db, Err(404, "Batch not found"))
    case Some(i) =>
      var b := Patched(db.batches[i].doc, p);
      Outcome(db.(batches := SetDoc(db.batches, i, b)), Ok(200, "Batch updated", b))
  }

  method UpdateBatch(st: Store, id: Id, p: BatchPatch) returns (r: ApiResult<Batch>)
    modifies st
    requires st.Valid()
    ensures st.Valid()
    ensures Outcome(st.db, r) == UpdateBatchSpec(old(st.db), id, p)
  {
    UpdateKeepsKeyed(st.db, id, p);
    var at := OpenBatchAt(st.db.batches, id);
    if at.None? {
      return Err(404, "Batch not found");
    }
    var b := Patched(st.db.batches[at.value].doc, p);
    st.db := st.db.(batches := SetDoc(st.db.batches, at.value, b));
    r := Ok(200, "Batch updated", b);
  }

  /** An edit that leaves the batch open shows in the next read of it, with every path the body
      gave and every other path as before. */
  lemma UpdateThenRead(db: Db, id: Id, p: BatchPatch)
    requires UpdateBatchSpec(db, id, p).res.Ok?
    requires p.isActive != Some(false) && p.isDeleted != Some(true)
    ensures var before := GetBatchById(db, id).data;
      var after := GetBatchById(UpdateBatchSpec(db, id, p).db, id);
      && after.Ok?
      && after.data.location == (if p.location.Some? then p.location.value else before.location)
      && after.data.capacity == (if p.capacity.Some? then p.capacity.value else before.capacity)
      && after.data.mode == (if p.mode.Some? then p.mode.value else before.mode)
      && after.data.courseId == (if p.courseId.Some? then p.courseId.value else before.courseId)
  {
    var db1 := UpdateBatchSpec(db, id, p).db;
    FindSameIds(db.batches, db1.batches, id);
  }

  lemma UpdateKeepsKeyed(db: Db, id: Id, p: BatchPatch)
    requires WellKeyed(db)
    ensures WellKeyed(UpdateBatchSpec(db, id, p).db)
  {
    var o := UpdateBatchSpec(db, id, p);
    if o.res.Ok? {
      KeyedRewrite(db.batches, o.db.batches, db.nextId);
      ReplaceBatches(db, o.db.batches);
    }
  }

  // ---------------------------------------------------------------------------
  // deleteBatch

  /** `updateMany({ batchId }, { isDeleted: true, isActive: false, validTo: now })`: every link of
      the batch, live or not. */
  function RetireLinks(t: Table<BatchMapping>, batchId: Id, now: Time): (r: Table<BatchMapping>)
    ensures SameIds(t, r)
    ensures forall k :: 0 <= k < |t| && t[k].doc.batchId == batchId ==>
      r[k].doc == t[k].doc.(isDeleted := true, isActive := false, validTo := Some(now))
    ensures forall k :: 0 <= k < |t| && t[k].doc.batchId != batchId ==> r[k] == t[k]
  {
    MapDocs(t, (x: Row<BatchMapping>) =>
      if x.doc.batchId == batchId then x.doc.(isDeleted := true, isActive := false, validTo := Some(now))
      else x.doc)
  }

  /** `findByIdAndUpdate` with no deleted filter: only an absent id answers 404. */
  function DeleteBatchSpec(db: Db, id: Id, now: Time): (o: Outcome<Batch>)
    ensures o.res.Err? <==> Find(db.batches, id).None?
    ensures o.res.Err? ==> o == Outcome(db, Err(404, "Batch not found"))
    ensures o.res.Ok? ==>
      var i := Find(db.batches, id).value;
      && o.res == Ok(200, "Batch and mapping deleted", db.batches[i].doc.(isDeleted := true, isActive := false))
      && o.db == db.(batches := SetDoc(db.batches, i, o.res.data),
                     batchMappings := RetireLinks(db.batchMappings, id, now))
  {
    match Find(db.batches, id)
    case None => Outcome(db, Err(404, "Batch not found"))
    case Some(i) =>
      var b := db.batches[i].doc.(isDeleted := true, isActive := false);
      Outcome(db.(batches := SetDoc(db.batches, i, b), batchMappings := RetireLinks(db.batchMappings, id, now)),
              Ok(200, "Batch and mapping deleted", b))
  }

  method DeleteBatch(st: Store, id: Id, now: Time) returns (r: ApiResult<Batch>)
    modifies st
    requires st.Valid()
    ensures st.Valid()
    ensures Outcome(st.db, r) == DeleteBatchSpec(old(st.db), id, now)
  {
    DeleteKeepsKeyed(st.db, id, now);
    var at := Find(st.db.batches, id);
    if at.None? {
      return Err(404, "Batch not found");
    }
    var b := st.db.batches[at.value].doc.(isDeleted := true, isActive := false);
    st.db := st.db.(batches := SetDoc(st.db.batches, at.value, b),
                    batchMappings := RetireLinks(st.db.batchMappings, id, now));
    r := Ok(200, "Batch and mapping deleted", b);
  }

  /** After a delete the batch is no longer readable, listed, or listed under any course. */
  lemma DeleteBatchHides(db: Db, id: Id, now: Time, courseId: Id)
    requires WellKeyed(db) && DeleteBatchSpec(db, id, now).res.Ok?
    ensures var db1 := DeleteBatchSpec(db, id, now).db;
      && GetBatchById(db1, id) == Err(404, "Batch not found")
      && (GetAllBatches(db1).Ok? ==> forall x :: x in GetAllBatches(db1).data ==> x.id != id)
      && (GetAllBatchesByCourseId(db1, courseId).Ok? ==>
            forall x :: x in GetAllBatchesByCourseId(db1, courseId).data ==> x.id != id)
  {
    var db1 := DeleteBatchSpec(db, id, now).db;
    var i := Find(db.batches, id).value;
    FindSameIds(db.batches, db1.batches, id);
    KeyedIncreasing(db.batches, db.nextId);
    KeyedRewrite(db.batches, db1.batches, db.nextId);
    KeyedIncreasing(db1.batches, db.nextId);
    forall x | x in db1.batches && x.id == id ensures !IsOpen(x) {
      var k :| 0 <= k < |db1.batches| && db1.batches[k] == x;
      FindUnique(db1.batches, id, k);
    }
  }

  /** With no deleted filter, deleting again succeeds: the batch reads the same and every link of
      it now carries the later time. */
  lemma DeleteBatchAgain(db: Db, id: Id, now: Time, later: Time)
    requires DeleteBatchSpec(db, id, now).res.Ok?
    ensures var o1 := DeleteBatchSpec(db, id, now);
      var o2 := DeleteBatchSpec(o1.db, id, later);
      && o2.res == o1.res
      && o2.db.batches == o1.db.batches
      && o2.db.batchMappings == RetireLinks(db.batchMappings, id, later)
  {
    var o1 := DeleteBatchSpec(db, id, now);
    FindSameIds(db.batches, o1.db.batches, id);
  }

  /** The cascade reaches exactly the links of the batch, whatever their state. */
  lemma DeleteCascadeExact(db: Db, id: Id, now: Time, k: nat)
    requires DeleteBatchSpec(db, id, now).res.Ok? && k < |db.batchMappings|
    ensures var after := DeleteBatchSpec(db, id, now).db.batchMappings;
      && after[k].id == db.batchMappings[k].id
      && (db.batchMappings[k].doc.batchId == id ==>
            after[k].doc == db.batchMappings[k].doc.(isDeleted := true, isActive := false, validTo := Some(now)))
      && (db.batchMappings[k].doc.batchId != id ==> after[k] == db.batchMappings[k])
  {
  }

  /** Deleting every batch of a course still does not make the by-course read answer 404: its
      links remain, so the answer is an empty list. */
  lemma DeletedLinksStillFound(db: Db, id: Id, now: Time, courseId: Id)
    requires DeleteBatchSpec(db, id, now).res.Ok?
    requires exists m :: m in db.batchMappings && m.doc.courseId == courseId
    ensures GetAllBatchesByCourseId(DeleteBatchSpec(db, id, now).db, courseId).Ok?
  {
    var db1 := DeleteBatchSpec(db, id, now).db;
    var m :| m in db.batchMappings && m.doc.courseId == courseId;
    var k :| 0 <= k < |db.batchMappings| && db.batchMappings[k] == m;
    assert db1.batchMappings[k] in db1.batchMappings;
  }

  lemma DeleteKeepsKeyed(db: Db, id: Id, now: Time)
    requires WellKeyed(db)
    ensures WellKeyed(DeleteBatchSpec(db, id, now).db)
  {
    var o := DeleteBatchSpec(db, id, now);
    if o.res.Ok? {
      KeyedRewrite(db.batches, o.db.batches, db.nextId);
      ReplaceBatches(db, o.db.batches);
      KeyedRewrite(db.batchMappings, o.db.batchMappings, db.nextId);
      ReplaceBatchMappings(db.(batches := o.db.batches), o.db.batchMappings);
    }
  }
}
