/** Course modules on their own: create a module linked to a course, list a course's modules in
    their `order`, read and edit one, and soft-delete it with every link naming it. */
module CourseModules {
  import opened Wrappers
  import opened Tables
  import opened Models
  import Courses

  datatype ModuleRequest = ModuleRequest(
    title: string, subtitle: Option<string>, content: Option<string>, order: Option<int>,
    courseId: Option<Id>)

  /** An `updateCourseModule` body restricted to the schema's paths. */
  datatype ModulePatch = ModulePatch(
    title: Option<string>, subtitle: Option<string>, content: Option<string>, order: Option<int>,
    isActive: Option<bool>, isDeleted: Option<bool>)

  // ---------------------------------------------------------------------------
  // Ordering by `order`

  ghost predicate SortedByOrder(s: Table<CourseModule>) {
    forall i, j :: 0 <= i < j < |s| ==> s[i].doc.order <= s[j].doc.order
  }

  /** A row no later in order than the head of a sorted table can go in front of it. */
  lemma SortedCons(x: Row<CourseModule>, s: Table<CourseModule>)
    requires SortedByOrder(s) && (s == [] || x.doc.order <= s[0].doc.order)
    ensures SortedByOrder([x] + s)
  {
    forall i, j | 0 <= i < j < |[x] + s| ensures ([x] + s)[i].doc.order <= ([x] + s)[j].doc.order {
      if i == 0 && j > 1 {
        assert s[0].doc.order <= s[j - 1].doc.order;
      }
    }
  }

  /** Puts `x` before the first row whose order is not below its own. */
  function InsertByOrder(x: Row<CourseModule>, s: Table<CourseModule>): (r: Table<CourseModule>)
    ensures |r| == |s| + 1
    ensures r[0] == x || (s != [] && r[0] == s[0])
    ensures multiset(r) == multiset(s) + multiset{x}
  {
    if s == [] || x.doc.order <= s[0].doc.order then [x] + s
    else
      assert s == [s[0]] + s[1..];
      [s[0]] + InsertByOrder(x, s[1..])
  }

  lemma {:induction false} InsertKeepsSorted(x: Row<CourseModule>, s: Table<CourseModule>)
    requires SortedByOrder(s)
    ensures SortedByOrder(InsertByOrder(x, s))
  {
    if s == [] || x.doc.order <= s[0].doc.order {
      SortedCons(x, s);
    } else {
      var rest := InsertByOrder(x, s[1..]);
      InsertKeepsSorted(x, s[1..]);
      assert s[1..] != [] ==> s[0].doc.order <= s[1].doc.order;
      SortedCons(s[0], rest);
    }
  }

  /** `.sort({ order: 1 })`: the rows sorted by `order`; rows with equal order keep their
      table order. */
  function SortByOrder(t: Table<CourseModule>): (r: Table<CourseModule>)
    ensures SortedByOrder(r)
    ensures multiset(r) == multiset(t)
  {
    if t == [] then []
    else
      var rest := SortByOrder(t[1..]);
      assert t == [t[0]] + t[1..];
      InsertKeepsSorted(t[0], rest);
      InsertByOrder(t[0], rest)
  }

  // ---------------------------------------------------------------------------
  // Queries

  predicate IsOpenModule(x: Row<CourseModule>) { x.doc.isActive && !x.doc.isDeleted }

  /** `CourseModuleMapping.find({ courseId, isDeleted: false, isActive: true })`. */
  function OpenLinksOf(courseId: Id): Row<ModuleMapping> -> bool {
    (x: Row<ModuleMapping>) => x.doc.courseId == courseId && !x.doc.isDeleted && x.doc.isActive
  }

  function ModuleIdsOf(ms: Table<ModuleMapping>): set<Id> {
    set m | m in ms :: m.doc.moduleId
  }

  /** `CourseModule.findOne({ _id: id, isDeleted: false })`: the position of that module. */
  function LiveModuleAt(t: Table<CourseModule>, id: Id): (r: Option<nat>)
    ensures r.Some? ==> r.value < |t| && t[r.value].id == id && !t[r.value].doc.isDeleted
    ensures r.None? <==> Find(t, id).None? || t[Find(t, id).value].doc.isDeleted
  {
    match Find(t, id)
    case Some(i) => if t[i].doc.isDeleted then None else Some(i)
    case None => None
  }

  // ---------------------------------------------------------------------------
  // createCourseModule

  /** The schema defaults fill what the body leaves out. */
  function NewModuleOf(req: ModuleRequest): CourseModule
    requires Given(req.title)
  {
    Courses.NewModule(Courses.ModuleInput(None, Some(req.title), req.subtitle, req.content, req.order))
  }

  /** No course-existence check: a module can be linked to any id. */
  function CreateCourseModuleSpec(db: Db, req: ModuleRequest)
    : (o: Outcome<(Row<CourseModule>, Row<ModuleMapping>)>)
    ensures o.res.Err? <==> !Given(req.title) || req.courseId.None?
    ensures o.res.Err? ==> o == Outcome(db, Err(400, "title and courseId are required"))
    ensures o.res.Ok? ==>
      var (x, m) := o.res.data;
      && o.res.status == 201
      && x == Row(db.nextId, CourseModule(req.title, req.subtitle.GetOr(""), req.content.GetOr(""),
                                          req.order.GetOr(0), true, false))
      && m == Row(db.nextId + 1, ModuleMapping(req.courseId.value, x.id, None, true, false))
      && o.db == db.(modules := db.modules + [x], moduleMappings := db.moduleMappings + [m],
                     nextId := db.nextId + 2)
  {
    if !Given(req.title) || req.courseId.None? then
      Outcome(db, Err(400, "title and courseId are required"))
    else
      var x := Row(db.nextId, NewModuleOf(req));
      var m := Row(db.nextId + 1, ModuleMapping(req.courseId.value, x.id, None, true, false));
      Outcome(db.(modules := db.modules + [x], moduleMappings := db.moduleMappings + [m],
                  nextId := db.nextId + 2),
              Ok(201, "Module created and mapped successfully", (x, m)))
  }

  method CreateCourseModule(st: Store, req: ModuleRequest)
    returns (r: ApiResult<(Row<CourseModule>, Row<ModuleMapping>)>)
    modifies st
    requires st.Valid()
    ensures st.Valid()
    ensures Outcome(st.db, r) == CreateCourseModuleSpec(old(st.db), req)
  {
    if !Given(req.title) || req.courseId.None? {
      return Err(400, "title and courseId are required");
    }
    var moduleId := st.db.nextId;
    var created := Row(moduleId, NewModuleOf(req));
    var mapping := Row(moduleId + 1, ModuleMapping(req.courseId.value, moduleId, None, true, false));
    st.db := st.db.(modules := st.db.modules + [created], moduleMappings := st.db.moduleMappings + [mapping],
                    nextId := st.db.nextId + 2);
    r := Ok(201, "Module created and mapped successfully", (created, mapping));
    assert st.db == CreateCourseModuleSpec(old(st.db), req).db;
    CreateKeepsKeyed(old(st.db), req);
  }

  lemma CreateKeepsKeyed(db: Db, req: ModuleRequest)
    requires WellKeyed(db)
    ensures WellKeyed(CreateCourseModuleSpec(db, req).db)
  {
    var o := CreateCourseModuleSpec(db, req);
    if o.res.Ok? {
      var (x, m) := o.res.data;
      var db1 := db.(nextId := db.nextId + 2);
      Advance(db, db1.nextId);
      KeyedInsert(db.modules, x.doc, db.nextId, db1.nextId);
      ReplaceModules(db1, db.modules + [x]);
      KeyedInsert(db.moduleMappings, m.doc, db.nextId + 1, db1.nextId);
      ReplaceModuleMappings(db1.(modules := db.modules + [x]), db.moduleMappings + [m]);
    }
  }

  // ---------------------------------------------------------------------------
  // getModulesByCourseId, getSingleModule

  /** A module the course's open links name, itself active and not deleted. */
  ghost predicate ListedFor(db: Db, x: Row<CourseModule>, courseId: Id) {
    && IsOpenModule(x)
    && exists m :: m in db.moduleMappings && OpenLinksOf(courseId)(m) && m.doc.moduleId == x.id
  }

  function GetModulesByCourseId(db: Db, courseId: Id): (r: ApiResult<Table<CourseModule>>)
    ensures r.Err? <==> forall m :: m in db.moduleMappings ==> !OpenLinksOf(courseId)(m)
    ensures r.Err? ==> r == Err(404, "No modules found for this course")
    ensures r.Ok? ==>
      && r.status == 200
      && SortedByOrder(r.data)
      && forall x :: x in r.data <==> x in db.modules && ListedFor(db, x, courseId)
  {
    var ms := Filter(db.moduleMappings, OpenLinksOf(courseId));
    assert ms != [] ==> ms[0] in ms;
    if ms == [] then Err(404, "No modules found for this course")
    else
      var found := Within(Filter(db.modules, IsOpenModule), ModuleIdsOf(ms));
      var sorted := SortByOrder(found);
      assert forall x :: x in sorted <==> x in found by {
        forall x ensures x in sorted <==> x in found {
          assert x in sorted <==> x in multiset(sorted);
        }
      }
      Ok(200, "Modules for course", sorted)
  }

  /** With no duplicates among the modules, the listing lists each once. */
  lemma ListingHasNoRepeats(db: Db, courseId: Id)
    requires Increasing(db.modules) && GetModulesByCourseId(db, courseId).Ok?
    ensures var l := GetModulesByCourseId(db, courseId).data;
      forall x :: multiset(l)[x] <= 1
  {
    var ms := Filter(db.moduleMappings, OpenLinksOf(courseId));
    var found := Within(Filter(db.modules, IsOpenModule), ModuleIdsOf(ms));
    assert Increasing(found);
    IncreasingOnce(found);
  }

  lemma {:induction false} IncreasingOnce(t: Table<CourseModule>)
    requires Increasing(t)
    ensures forall x :: multiset(t)[x] <= 1
  {
    if t != [] {
      IncreasingTail(t);
      IncreasingOnce(t[1..]);
      assert t == [t[0]] + t[1..];
      assert t[0] !in t[1..];
    }
  }

  function GetSingleModule(db: Db, id: Id): (r: ApiResult<CourseModule>)
    ensures r.Err? <==> LiveModuleAt(db.modules, id).None?
    ensures r.Err? ==> r == Err(404, "Module not found")
    ensures r.Ok? ==> r.status == 200 && Row(id, r.data) in db.modules && !r.data.isDeleted
  {
    match LiveModuleAt(db.modules, id)
    case None => Err(404, "Module not found")
    case Some(i) => Ok(200, "Module found", db.modules[i].doc)
  }

  /** A created module is readable, and listed under its course when its link is the course's. */
  lemma CreateThenListed(db: Db, req: ModuleRequest)
    requires WellKeyed(db) && CreateCourseModuleSpec(db, req).res.Ok?
    ensures var o := CreateCourseModuleSpec(db, req);
      var x := o.res.data.0;
      && GetSingleModule(o.db, x.id) == Ok(200, "Module found", x.doc)
      && GetModulesByCourseId(o.db, req.courseId.value).Ok?
      && x in GetModulesByCourseId(o.db, req.courseId.value).data
  {
    var o := CreateCourseModuleSpec(db, req);
    var (x, m) := o.res.data;
    KeyedInsert(db.modules, x.doc, db.nextId, o.db.nextId);
    KeyedIncreasing(o.db.modules, o.db.nextId);
    FindUnique(o.db.modules, x.id, |db.modules|);
    assert m in o.db.moduleMappings && OpenLinksOf(req.courseId.value)(m);
    assert ListedFor(o.db, x, req.courseId.value);
  }

  // ---------------------------------------------------------------------------
  // updateCourseModule

  function Patched(x: CourseModule, p: ModulePatch): CourseModule {
    CourseModule(Patch(x.title, p.title), Patch(x.subtitle, p.subtitle), Patch(x.content, p.content),
                 Patch(x.order, p.order), Patch(x.isActive, p.isActive), Patch(x.isDeleted, p.isDeleted))
  }

  function UpdateCourseModuleSpec(db: Db, id: Id, p: ModulePatch): (o: Outcome<CourseModule>)
    ensures o.res.Err? <==> LiveModuleAt(db.modules, id).None?
    ensures o.res.Err? ==> o == Outcome(db, Err(404, "Module not found"))
    ensures o.res.Ok? ==>
      var i := Find(db.modules, id).value;
      && o.res == Ok(200, "Module updated", Patched(db.modules[i].doc, p))
      && o.db == db.(modules := SetDoc(db.modules, i, o.res.data))
  {
    match LiveModuleAt(db.modules, id)
    case None => Outcome(db, Err(404, "Module not found"))
    case Some(i) =>
      var x := Patched(db.modules[i].doc, p);
      Outcome(db.(modules := SetDoc(db.modules, i, x)), Ok(200, "Module updated", x))
  }

  method UpdateCourseModule(st: Store, id: Id, p: ModulePatch) returns (r: ApiResult<CourseModule>)
    modifies st
    requires st.Valid()
    ensures st.Valid()
    ensures Outcome(st.db, r) == UpdateCourseModuleSpec(old(st.db), id, p)
  {
    UpdateKeepsKeyed(st.db, id, p);
    var at := LiveModuleAt(st.db.modules, id);
    if at.None? {
      return Err(404, "Module not found");
    }
    var x := Patched(st.db.modules[at.value].doc, p);
    st.db := st.db.(modules := SetDoc(st.db.modules, at.value, x));
    r := Ok(200, "Module updated", x);
  }

  /** An edit that does not delete the module shows in the next read of it. */
  lemma UpdateThenRead(db: Db, id: Id, p: ModulePatch)
    requires UpdateCourseModuleSpec(db, id, p).res.Ok? && p.isDeleted != Some(true)
    ensures var before := GetSingleModule(db, id).data;
      var after := GetSingleModule(UpdateCourseModuleSpec(db, id, p).db, id);
      && after.Ok?
      && after.data.title == (if p.title.Some? then p.title.value else before.title)
      && after.data.order == (if p.order.Some? then p.order.value else before.order)
      && after.data.content == (if p.content.Some? then p.content.value else before.content)
  {
    var db1 := UpdateCourseModuleSpec(db, id, p).db;
    FindSameIds(db.modules, db1.modules, id);
  }

  lemma UpdateKeepsKeyed(db: Db, id: Id, p: ModulePatch)
    requires WellKeyed(db)
    ensures WellKeyed(UpdateCourseModuleSpec(db, id, p).db)
  {
    var o := UpdateCourseModuleSpec(db, id, p);
    if o.res.Ok? {
      KeyedRewrite(db.modules, o.db.modules, db.nextId);
      ReplaceModules(db, o.db.modules);
    }
  }

  // ---------------------------------------------------------------------------
  // deleteCourseModule

  /** `updateMany({ moduleId }, { isDeleted: true, isActive: false, validTo: now })`: every link
      of the module, live or not. */
  function RetireLinks(t: Table<ModuleMapping>, moduleId: Id, now: Time): (r: Table<ModuleMapping>)
    ensures SameIds(t, r)
    ensures forall k :: 0 <= k < |t| && t[k].doc.moduleId == moduleId ==>
      r[k].doc == t[k].doc.(isDeleted := true, isActive := false, validTo := Some(now))
    ensures forall k :: 0 <= k < |t| && t[k].doc.moduleId != moduleId ==> r[k] == t[k]
  {
    MapDocs(t, (x: Row<ModuleMapping>) =>
      if x.doc.moduleId == moduleId then x.doc.(isDeleted := true, isActive := false, validTo := Some(now))
      else x.doc)
  }

  /** `findByIdAndUpdate` with no deleted filter: only an absent id answers 404. */
  function DeleteCourseModuleSpec(db: Db, id: Id, now: Time): (o: Outcome<CourseModule>)
    ensures o.res.Err? <==> Find(db.modules, id).None?
    ensures o.res.Err? ==> o == Outcome(db, Err(404, "Module not found"))
    ensures o.res.Ok? ==>
      var i := Find(db.modules, id).value;
      && o.res == Ok(200, "Module and mapping soft deleted", db.modules[i].doc.(isDeleted := true, isActive := false))
      && o.db == db.(modules := SetDoc(db.modules, i, o.res.data),
                     moduleMappings := RetireLinks(db.moduleMappings, id, now))
  {
    match Find(db.modules, id)
    case None => Outcome(db, Err(404, "Module not found"))
    case Some(i) =>
      var x := db.modules[i].doc.(isDeleted := true, isActive := false);
      Outcome(db.(modules := SetDoc(db.modules, i, x), moduleMappings := RetireLinks(db.moduleMappings, id, now)),
              Ok(200, "Module and mapping soft deleted", x))
  }

  method DeleteCourseModule(st: Store, id: Id, now: Time) returns (r: ApiResult<CourseModule>)
    modifies st
    requires st.Valid()
    ensures st.Valid()
    ensures Outcome(st.db, r) == DeleteCourseModuleSpec(old(st.db), id, now)
  {
    DeleteKeepsKeyed(st.db, id, now);
    var at := Find(st.db.modules, id);
    if at.None? {
      return Err(404, "Module not found");
    }
    var x := st.db.modules[at.value].doc.(isDeleted := true, isActive := false);
    st.db := st.db.(modules := SetDoc(st.db.modules, at.value, x),
                    moduleMappings := RetireLinks(st.db.moduleMappings, id, now));
    r := Ok(200, "Module and mapping soft deleted", x);
  }

  /** After a delete the module is not readable and no course lists it. */
  lemma DeleteHides(db: Db, id: Id, now: Time, courseId: Id)
    requires WellKeyed(db) && DeleteCourseModuleSpec(db, id, now).res.Ok?
    ensures var db1 := DeleteCourseModuleSpec(db, id, now).db;
      && GetSingleModule(db1, id) == Err(404, "Module not found")
      && (GetModulesByCourseId(db1, courseId).Ok? ==>
            forall x :: x in GetModulesByCourseId(db1, courseId).data ==> x.id != id)
  {
    var db1 := DeleteCourseModuleSpec(db, id, now).db;
    FindSameIds(db.modules, db1.modules, id);
    KeyedRewrite(db.modules, db1.modules, db.nextId);
    KeyedIncreasing(db1.modules, db.nextId);
    forall x | x in db1.modules && x.id == id ensures !IsOpenModule(x) {
      var k :| 0 <= k < |db1.modules| && db1.modules[k] == x;
      FindUnique(db1.modules, id, k);
    }
  }

  /** With no deleted filter, deleting again succeeds and re-stamps the links. */
  lemma DeleteAgain(db: Db, id: Id, now: Time, later: Time)
    requires DeleteCourseModuleSpec(db, id, now).res.Ok?
    ensures var o1 := DeleteCourseModuleSpec(db, id, now);
      var o2 := DeleteCourseModuleSpec(o1.db, id, later);
      && o2.res == o1.res
      && o2.db.modules == o1.db.modules
      && o2.db.moduleMappings == RetireLinks(db.moduleMappings, id, later)
  {
    var o1 := DeleteCourseModuleSpec(db, id, now);
    FindSameIds(db.modules, o1.db.modules, id);
  }

  lemma DeleteKeepsKeyed(db: Db, id: Id, now: Time)
    requires WellKeyed(db)
    ensures WellKeyed(DeleteCourseModuleSpec(db, id, now).db)
  {
    var o := DeleteCourseModuleSpec(db, id, now);
    if o.res.Ok? {
      KeyedRewrite(db.modules, o.db.modules, db.nextId);
      ReplaceModules(db, o.db.modules);
      KeyedRewrite(db.moduleMappings, o.db.moduleMappings, db.nextId);
      ReplaceModuleMappings(db.(modules := o.db.modules), o.db.moduleMappings);
    }
  }
}
