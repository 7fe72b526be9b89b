/** Courses and what hangs off them: a course is created together with its modules (one module
    and one course-module link each), one price with its link and, when given, a special price
    with its link; it is read back with those, updated (modules with an id are rewritten,
    modules without one are created and linked), and soft-deleted with a three-way cascade. */
module Courses {
  import opened Wrappers
  import opened Tables
  import opened Models

  /** One element of a request's `modules` array. */
  datatype ModuleInput = ModuleInput(
    id: Option<Id>, title: Option<string>, subtitle: Option<string>, content: Option<string>,
    order: Option<int>)

  datatype CourseRequest = CourseRequest(
    courseName: string, description: string, courseThumbnail: Option<string>, videoUrl: string,
    duration: string, language: string, createdBy: string, pdfUrl: Option<string>, isFree: bool,
    category: Option<string>, price: Option<int>, specialPrice: Option<int>,
    modules: seq<ModuleInput>)

  datatype CoursePatch = CoursePatch(
    courseName: Option<string>, description: Option<string>, videoUrl: Option<string>,
    duration: Option<string>, language: Option<string>, pdfUrl: Option<string>,
    isFree: Option<bool>, category: Option<string>, price: Option<int>,
    specialPrice: Option<int>, modules: seq<ModuleInput>)

  datatype CourseDetail = CourseDetail(
    course: Row<Course>, modules: Table<CourseModule>, price: Option<Row<Price>>,
    specialPrice: Option<Row<SpecialPrice>>)

  /** The database after a run of module writes, and whether every write was accepted. */
  datatype Fanout = Fanout(db: Db, ok: bool)

  /** Schema validation refuses a module without a title, and a price without an amount. */
  const MISSING_TITLE: string := "courseModule validation failed: title: Path `title` is required."
  const MISSING_PRICE: string := "priceCollection validation failed: price: Path `price` is required."

  // ---------------------------------------------------------------------------
  // Queries

  /** `findOne({ courseName, isDeleted: false })`. */
  function LiveNamed(courseName: string): Row<Course> -> bool {
    (x: Row<Course>) => x.doc.courseName == courseName && !x.doc.isDeleted
  }

  /** `findOne({ _id: id, isDeleted: false })`: the position of that course. */
  function LiveCourseAt(t: Table<Course>, id: Id): Option<nat> {
    match Find(t, id)
    case Some(i) => if t[i].doc.isDeleted then None else Some(i)
    case None => None
  }

  /** `find({ courseId, isDeleted: false })` on each of the three link collections. */
  function ModuleLinksOf(courseId: Id): Row<ModuleMapping> -> bool {
    (x: Row<ModuleMapping>) => x.doc.courseId == courseId && !x.doc.isDeleted
  }

  function PriceLinksOf(courseId: Id): Row<PriceMapping> -> bool {
    (x: Row<PriceMapping>) => x.doc.courseId == courseId && !x.doc.isDeleted
  }

  function SpecialLinksOf(courseId: Id): Row<SpecialPriceMapping> -> bool {
    (x: Row<SpecialPriceMapping>) => x.doc.courseId == courseId && !x.doc.isDeleted
  }

  /** A JavaScript number is truthy when present and not zero. */
  predicate Truthy(n: Option<int>) { n.Some? && n.value != 0 }

  // ---------------------------------------------------------------------------
  // createCourse

  predicate CourseComplete(req: CourseRequest) {
    && Given(req.courseName) && Given(req.videoUrl) && Given(req.duration)
    && Given(req.language) && Given(req.description) && req.isFree
  }

  function NewCourse(req: CourseRequest): (c: Course)
    ensures c.createdBy == if Given(req.createdBy) then req.createdBy else "LLB"
    ensures c.category == req.category.GetOr("free courses")
    ensures c.courseName == req.courseName && c.isActive && !c.isDeleted
  {
    Course(req.courseName, req.courseThumbnail, req.description, req.videoUrl, req.duration,
           req.language, if Given(req.createdBy) then req.createdBy else "LLB",
           req.category.GetOr("free courses"), req.pdfUrl, req.isFree, true, false)
  }

  predicate Titled(m: ModuleInput) { m.title.Some? && Given(m.title.value) }

  /** `CourseModule.create(m)` with the schema's defaults. */
  function NewModule(m: ModuleInput): CourseModule
    requires Titled(m)
  {
    CourseModule(m.title.value, m.subtitle.GetOr(""), m.content.GetOr(""), m.order.GetOr(0), true, false)
  }

  /** One loop step: create the module, then link it to the course. */
  function AddModule(db: Db, courseId: Id, m: ModuleInput): (f: Fanout)
    ensures f.ok <==> Titled(m)
    ensures !f.ok ==> f.db == db
    ensures f.ok ==>
      && f.db == db.(modules := f.db.modules, moduleMappings := f.db.moduleMappings, nextId := db.nextId + 2)
      && f.db.modules == db.modules + [Row(db.nextId, NewModule(m))]
      && f.db.moduleMappings ==
           db.moduleMappings + [Row(db.nextId + 1, ModuleMapping(courseId, db.nextId, None, true, false))]
  {
    if !Titled(m) then Fanout(db, false)
    else
      var created := Row(db.nextId, NewModule(m));
      var link := Row(db.nextId + 1, ModuleMapping(courseId, created.id, None, true, false));
      Fanout(db.(modules := db.modules + [created], moduleMappings := db.moduleMappings + [link],
                 nextId := db.nextId + 2), true)
  }

  /** The whole loop, stopping at the first module the schema refuses. */
  function AddModules(db: Db, courseId: Id, ms: seq<ModuleInput>): (f: Fanout)
    ensures f.ok <==> forall k :: 0 <= k < |ms| ==> Titled(ms[k])
    decreases |ms|
  {
    if ms == [] then Fanout(db, true)
    else
      var f := AddModule(db, courseId, ms[0]);
      if !f.ok then f
      else
        var rest := AddModules(f.db, courseId, ms[1..]);
        assert forall k :: 1 <= k < |ms| ==> ms[k] == ms[1..][k - 1];
        rest
  }

  /** `Price.create` followed by `PriceMapping.create` for the course. */
  function PriceAdded(db: Db, courseId: Id, price: int): (d: Db)
    ensures d == db.(prices := db.prices + [Row(db.nextId, Price(price, true, false))],
                     priceMappings := db.priceMappings +
                       [Row(db.nextId + 1, PriceMapping(courseId, db.nextId, None, true, false))],
                     nextId := db.nextId + 2)
  {
    var pr := Row(db.nextId, Price(price, true, false));
    var pm := Row(db.nextId + 1, PriceMapping(courseId, pr.id, None, true, false));
    db.(prices := db.prices + [pr], priceMappings := db.priceMappings + [pm], nextId := db.nextId + 2)
  }

  /** `SpecialPrice.create` followed by `SpecialPriceMapping.create` for the course. */
  function SpecialPriceAdded(db: Db, courseId: Id, specialPrice: int): (d: Db)
    ensures d == db.(specialPrices := db.specialPrices + [Row(db.nextId, SpecialPrice(specialPrice, true, false))],
                     specialPriceMappings := db.specialPriceMappings +
                       [Row(db.nextId + 1, SpecialPriceMapping(courseId, db.nextId, None, true, false))],
                     nextId := db.nextId + 2)
  {
    var sp := Row(db.nextId, SpecialPrice(specialPrice, true, false));
    var sm := Row(db.nextId + 1, SpecialPriceMapping(courseId, sp.id, None, true, false));
    db.(specialPrices := db.specialPrices + [sp], specialPriceMappings := db.specialPriceMappings + [sm],
        nextId := db.nextId + 2)
  }

  /** The price and its link and, for a truthy special price, the special price and its link;
      a missing price is refused by schema validation and nothing is written. */
  function AddPrices(db: Db, course: Row<Course>, price: Option<int>, specialPrice: Option<int>)
    : (o: Outcome<Row<Course>>)
    ensures price.None? ==> o == Outcome(db, Err(SERVER_ERROR, MISSING_PRICE))
    ensures o.res.Ok? <==> price.Some?
    ensures o.db.courses == db.courses
    ensures o.res.Ok? ==>
      && o.res == Ok(201, "Course created successfully", course)
      && o.db.prices == db.prices + [Row(db.nextId, Price(price.value, true, false))]
      && o.db.priceMappings == db.priceMappings + [Row(db.nextId + 1, PriceMapping(course.id, db.nextId, None, true, false))]
      && (Truthy(specialPrice) ==>
            && o.db.specialPrices == db.specialPrices + [Row(db.nextId + 2, SpecialPrice(specialPrice.value, true, false))]
            && o.db.specialPriceMappings ==
                 db.specialPriceMappings + [Row(db.nextId + 3, SpecialPriceMapping(course.id, db.nextId + 2, None, true, false))])
      && (!Truthy(specialPrice) ==>
            o.db.specialPrices == db.specialPrices && o.db.specialPriceMappings == db.specialPriceMappings)
  {
    match price
    case None => Outcome(db, Err(SERVER_ERROR, MISSING_PRICE))
    case Some(p) =>
      var db1 := PriceAdded(db, course.id, p);
      var db2 := if Truthy(specialPrice) then SpecialPriceAdded(db1, course.id, specialPrice.value) else db1;
      Outcome(db2, Ok(201, "Course created successfully", course))
  }

  function CreateCourseSpec(db: Db, req: CourseRequest): (o: Outcome<Row<Course>>)
    ensures !CourseComplete(req) ==> o == Outcome(db, Err(400, "Required fields are missing"))
    ensures CourseComplete(req) && First(db.courses, LiveNamed(req.courseName)).Some? ==>
      o == Outcome(db, Err(400, "Course already exists"))
    ensures o.res.Ok? <==>
      && CourseComplete(req) && First(db.courses, LiveNamed(req.courseName)).None?
      && (forall k :: 0 <= k < |req.modules| ==> Titled(req.modules[k]))
      && req.price.Some?
    ensures o.res.Ok? ==>
      && o.res.data == Row(db.nextId, NewCourse(req))
      && o.db.courses == db.courses + [o.res.data]
  {
    if !CourseComplete(req) then Outcome(db, Err(400, "Required fields are missing"))
    else if First(db.courses, LiveNamed(req.courseName)).Some? then Outcome(db, Err(400, "Course already exists"))
    else
      var course := Row(db.nextId, NewCourse(req));
      Furnish(db.(courses := db.courses + [course], nextId := db.nextId + 1), course, req)
  }

  /** What follows `Course.create`: the module loop, then the prices. The course stays as
      created whatever happens after it. */
  function Furnish(db: Db, course: Row<Course>, req: CourseRequest): (o: Outcome<Row<Course>>)
    ensures o.res.Ok? <==> (forall k :: 0 <= k < |req.modules| ==> Titled(req.modules[k])) && req.price.Some?
    ensures o.db.courses == db.courses
    ensures o.res.Ok? ==> o.res.data == course
  {
    var f := AddModules(db, course.id, req.modules);
    assert f.db.courses == db.courses by { AddModulesFrame(db, course.id, req.modules); }
    if !f.ok then Outcome(f.db, Err(SERVER_ERROR, MISSING_TITLE))
    else AddPrices(f.db, course, req.price, req.specialPrice)
  }

  /** The module loop: each step creates a module and its link. */
  method AddModulesTo(st: Store, courseId: Id, ms: seq<ModuleInput>) returns (ok: bool)
    modifies st
    ensures Fanout(st.db, ok) == AddModules(old(st.db), courseId, ms)
  {
    ghost var target := AddModules(st.db, courseId, ms);
    var i := 0;
    while i < |ms|
      invariant 0 <= i <= |ms|
      invariant AddModules(st.db, courseId, ms[i..]) == target
    {
      var m := ms[i];
      assert ms[i..][1..] == ms[i + 1..];
      if !Titled(m) {
        return false;
      }
      var created := Row(st.db.nextId, NewModule(m));
      var link := Row(st.db.nextId + 1, ModuleMapping(courseId, created.id, None, true, false));
      st.db := st.db.(modules := st.db.modules + [created],
                      moduleMappings := st.db.moduleMappings + [link],
                      nextId := st.db.nextId + 2);
      i := i + 1;
    }
    ok := true;
  }

  method AddPricesTo(st: Store, course: Row<Course>, price: Option<int>, specialPrice: Option<int>)
    returns (r: ApiResult<Row<Course>>)
    modifies st
    ensures Outcome(st.db, r) == AddPrices(old(st.db), course, price, specialPrice)
  {
    if price.None? {
      return Err(SERVER_ERROR, MISSING_PRICE);
    }
    var pr := Row(st.db.nextId, Price(price.value, true, false));
    var pm := Row(st.db.nextId + 1, PriceMapping(course.id, pr.id, None, true, false));
    if Truthy(specialPrice) {
      var sp := Row(st.db.nextId + 2, SpecialPrice(specialPrice.value, true, false));
      var sm := Row(st.db.nextId + 3, SpecialPriceMapping(course.id, sp.id, None, true, false));
      st.db := st.db.(prices := st.db.prices + [pr],
                      priceMappings := st.db.priceMappings + [pm],
                      specialPrices := st.db.specialPrices + [sp],
                      specialPriceMappings := st.db.specialPriceMappings + [sm],
                      nextId := st.db.nextId + 4);
    } else {
      st.db := st.db.(prices := st.db.prices + [pr],
                      priceMappings := st.db.priceMappings + [pm],
                      nextId := st.db.nextId + 2);
    }
    r := Ok(201, "Course created successfully", course);
  }

  method CreateCourse(st: Store, req: CourseRequest) returns (r: ApiResult<Row<Course>>)
    modifies st
    requires st.Valid()
    ensures st.Valid()
    ensures Outcome(st.db, r) == CreateCourseSpec(old(st.db), req)
  {
    CreateCourseKeepsKeyed(st.db, req);
    if !CourseComplete(req) {
      return Err(400, "Required fields are missing");
    }
    if First(st.db.courses, LiveNamed(req.courseName)).Some? {
      return Err(400, "Course already exists");
    }
    var course := Row(st.db.nextId, NewCourse(req));
    st.db := st.db.(courses := st.db.courses + [course], nextId := st.db.nextId + 1);
    var ok := AddModulesTo(st, course.id, req.modules);
    if !ok {
      return Err(SERVER_ERROR, MISSING_TITLE);
    }
    r := AddPricesTo(st, course, req.price, req.specialPrice);
  }

  /** The module loop writes only modules, their links and the counter. */
  lemma {:induction false} AddModulesFrame(db: Db, courseId: Id, ms: seq<ModuleInput>)
    ensures var d := AddModules(db, courseId, ms).db;
      d == db.(modules := d.modules, moduleMappings := d.moduleMappings, nextId := d.nextId)
    decreases |ms|
  {
    if ms != [] && Titled(ms[0]) {
      AddModulesFrame(AddModule(db, courseId, ms[0]).db, courseId, ms[1..]);
    }
  }

  /** Each accepted element adds one module, one link and two ids, appended after the rows
      already there. */
  lemma {:induction false} AddModulesCount(db: Db, courseId: Id, ms: seq<ModuleInput>)
    requires AddModules(db, courseId, ms).ok
    ensures var d := AddModules(db, courseId, ms).db;
      && d.nextId == db.nextId + 2 * |ms|
      && |d.modules| == |db.modules| + |ms| && d.modules[..|db.modules|] == db.modules
      && |d.moduleMappings| == |db.moduleMappings| + |ms|
      && d.moduleMappings[..|db.moduleMappings|] == db.moduleMappings
    decreases |ms|
  {
    if ms != [] {
      var db1 := AddModule(db, courseId, ms[0]).db;
      assert forall k :: 1 <= k < |ms| ==> ms[k] == ms[1..][k - 1];
      AddModulesCount(db1, courseId, ms[1..]);
      var d := AddModules(db1, courseId, ms[1..]).db;
      assert d.modules[..|db1.modules|] == db1.modules;
      assert d.modules[..|db.modules|] == d.modules[..|db1.modules|][..|db.modules|];
      assert d.moduleMappings[..|db1.moduleMappings|] == db1.moduleMappings;
      assert d.moduleMappings[..|db.moduleMappings|] ==
               d.moduleMappings[..|db1.moduleMappings|][..|db.moduleMappings|];
    }
  }

  /** The k-th element becomes the module with id `nextId + 2k`. */
  lemma {:induction false} AddModulesRows(db: Db, courseId: Id, ms: seq<ModuleInput>)
    requires AddModules(db, courseId, ms).ok
    ensures var d := AddModules(db, courseId, ms).db;
      && |d.modules| == |db.modules| + |ms|
      && forall k :: 0 <= k < |ms| ==> d.modules[|db.modules| + k] == Row(db.nextId + 2 * k, NewModule(ms[k]))
    decreases |ms|
  {
    if ms != [] {
      var db1 := AddModule(db, courseId, ms[0]).db;
      assert forall k :: 1 <= k < |ms| ==> ms[k] == ms[1..][k - 1];
      AddModulesRows(db1, courseId, ms[1..]);
      AddModulesCount(db1, courseId, ms[1..]);
      var d := AddModules(db1, courseId, ms[1..]).db;
      assert d.modules[..|db1.modules|] == db1.modules;
      assert d.modules[|db.modules|] == db1.modules[|db.modules|];
      forall k | 1 <= k < |ms|
        ensures d.modules[|db.modules| + k] == Row(db.nextId + 2 * k, NewModule(ms[k]))
      {
        assert d.modules[|db1.modules| + (k - 1)] == Row(db1.nextId + 2 * (k - 1), NewModule(ms[1..][k - 1]));
      }
    }
  }

  /** The k-th element's module is linked to the course by the row with the next id. */
  lemma {:induction false} AddModulesLinks(db: Db, courseId: Id, ms: seq<ModuleInput>)
    requires AddModules(db, courseId, ms).ok
    ensures var d := AddModules(db, courseId, ms).db;
      && |d.moduleMappings| == |db.moduleMappings| + |ms|
      && forall k :: 0 <= k < |ms| ==>
           d.moduleMappings[|db.moduleMappings| + k] ==
             Row(db.nextId + 2 * k + 1, ModuleMapping(courseId, db.nextId + 2 * k, None, true, false))
    decreases |ms|
  {
    if ms != [] {
      var db1 := AddModule(db, courseId, ms[0]).db;
      assert forall k :: 1 <= k < |ms| ==> ms[k] == ms[1..][k - 1];
      AddModulesLinks(db1, courseId, ms[1..]);
      AddModulesCount(db1, courseId, ms[1..]);
      var d := AddModules(db1, courseId, ms[1..]).db;
      assert d.moduleMappings[..|db1.moduleMappings|] == db1.moduleMappings;
      assert d.moduleMappings[|db.moduleMappings|] == db1.moduleMappings[|db.moduleMappings|];
      forall k | 1 <= k < |ms|
        ensures d.moduleMappings[|db.moduleMappings| + k] ==
                  Row(db.nextId + 2 * k + 1, ModuleMapping(courseId, db.nextId + 2 * k, None, true, false))
      {
        assert d.moduleMappings[|db1.moduleMappings| + (k - 1)] ==
                 Row(db1.nextId + 2 * (k - 1) + 1, ModuleMapping(courseId, db1.nextId + 2 * (k - 1), None, true, false));
      }
    }
  }

  /** One module and its link keep every table keyed; the counter only grows. */
  lemma AddModuleKeepsKeyed(db: Db, courseId: Id, m: ModuleInput)
    requires WellKeyed(db)
    ensures WellKeyed(AddModule(db, courseId, m).db)
    ensures db.nextId <= AddModule(db, courseId, m).db.nextId
  {
    var d := AddModule(db, courseId, m).db;
    if Titled(m) {
      var db1 := db.(nextId := d.nextId);
      Advance(db, d.nextId);
      KeyedInsert(db.modules, NewModule(m), db.nextId, d.nextId);
      var db2 := db1.(modules := d.modules);
      ReplaceModules(db1, d.modules);
      KeyedInsert(db.moduleMappings, ModuleMapping(courseId, db.nextId, None, true, false),
                  db.nextId + 1, d.nextId);
      ReplaceModuleMappings(db2, d.moduleMappings);
      assert d == db2.(moduleMappings := d.moduleMappings);
    }
  }

  lemma {:induction false} AddModulesKeepsKeyed(db: Db, courseId: Id, ms: seq<ModuleInput>)
    requires WellKeyed(db)
    ensures WellKeyed(AddModules(db, courseId, ms).db)
    ensures db.nextId <= AddModules(db, courseId, ms).db.nextId
    decreases |ms|
  {
    if ms != [] {
      AddModuleKeepsKeyed(db, courseId, ms[0]);
      if Titled(ms[0]) {
        AddModulesKeepsKeyed(AddModule(db, courseId, ms[0]).db, courseId, ms[1..]);
      }
    }
  }

  lemma PriceAddedKeepsKeyed(db: Db, courseId: Id, price: int)
    requires WellKeyed(db)
    ensures WellKeyed(PriceAdded(db, courseId, price))
  {
    var d := PriceAdded(db, courseId, price);
    var db1 := db.(nextId := d.nextId);
    Advance(db, d.nextId);
    KeyedInsert(db.prices, Price(price, true, false), db.nextId, d.nextId);
    var db2 := db1.(prices := d.prices);
    ReplacePrices(db1, d.prices);
    KeyedInsert(db.priceMappings, PriceMapping(courseId, db.nextId, None, true, false), db.nextId + 1, d.nextId);
    ReplacePriceMappings(db2, d.priceMappings);
    assert d == db2.(priceMappings := d.priceMappings);
  }

  lemma SpecialPriceAddedKeepsKeyed(db: Db, courseId: Id, specialPrice: int)
    requires WellKeyed(db)
    ensures WellKeyed(SpecialPriceAdded(db, courseId, specialPrice))
  {
    var d := SpecialPriceAdded(db, courseId, specialPrice);
    var db1 := db.(nextId := d.nextId);
    Advance(db, d.nextId);
    KeyedInsert(db.specialPrices, SpecialPrice(specialPrice, true, false), db.nextId, d.nextId);
    var db2 := db1.(specialPrices := d.specialPrices);
    ReplaceSpecialPrices(db1, d.specialPrices);
    KeyedInsert(db.specialPriceMappings, SpecialPriceMapping(courseId, db.nextId, None, true, false),
                db.nextId + 1, d.nextId);
    ReplaceSpecialPriceMappings(db2, d.specialPriceMappings);
    assert d == db2.(specialPriceMappings := d.specialPriceMappings);
  }

  lemma AddPricesKeepsKeyed(db: Db, course: Row<Course>, price: Option<int>, specialPrice: Option<int>)
    requires WellKeyed(db)
    ensures WellKeyed(AddPrices(db, course, price, specialPrice).db)
  {
    if price.Some? {
      PriceAddedKeepsKeyed(db, course.id, price.value);
      if Truthy(specialPrice) {
        SpecialPriceAddedKeepsKeyed(PriceAdded(db, course.id, price.value), course.id, specialPrice.value);
      }
    }
  }

  /** `Course.create`: the new course takes the next id. */
  lemma CourseAddedKeepsKeyed(db: Db, course: Course)
    requires WellKeyed(db)
    ensures WellKeyed(db.(courses := db.courses + [Row(db.nextId, course)], nextId := db.nextId + 1))
  {
    var db0 := db.(nextId := db.nextId + 1);
    Advance(db, db0.nextId);
    KeyedInsert(db.courses, course, db.nextId, db0.nextId);
    ReplaceCourses(db0, db.courses + [Row(db.nextId, course)]);
  }

  lemma FurnishKeepsKeyed(db: Db, course: Row<Course>, req: CourseRequest)
    requires WellKeyed(db)
    ensures WellKeyed(Furnish(db, course, req).db)
  {
    AddModulesKeepsKeyed(db, course.id, req.modules);
    var f := AddModules(db, course.id, req.modules);
    if f.ok {
      AddPricesKeepsKeyed(f.db, course, req.price, req.specialPrice);
    }
  }

  /** Where `createCourse` writes: nowhere when it refuses the request, otherwise the course
      and whatever follows it. */
  lemma CreateCourseWrites(db: Db, req: CourseRequest)
    ensures var course := Row(db.nextId, NewCourse(req));
      CreateCourseSpec(db, req).db ==
        if CourseComplete(req) && First(db.courses, LiveNamed(req.courseName)).None?
        then Furnish(db.(courses := db.courses + [course], nextId := db.nextId + 1), course, req).db
        else db
  {
  }

  lemma CreateCourseKeepsKeyed(db: Db, req: CourseRequest)
    requires WellKeyed(db)
    ensures WellKeyed(CreateCourseSpec(db, req).db)
  {
    var course := Row(db.nextId, NewCourse(req));
    var db1 := db.(courses := db.courses + [course], nextId := db.nextId + 1);
    CreateCourseWrites(db, req);
    if CourseComplete(req) && First(db.courses, LiveNamed(req.courseName)).None? {
      CourseAddedKeepsKeyed(db, course.doc);
      FurnishKeepsKeyed(db1, course, req);
    }
  }

  /** The modules a complete fan-out writes after the course: module k and its link take
      the ids `2k` and `2k + 1` past the counter. */
  ghost predicate ModulesFannedOut(db: Db, d: Db, course: Row<Course>, req: CourseRequest)
    requires forall k :: 0 <= k < |req.modules| ==> Titled(req.modules[k])
  {
    var n := |req.modules|;
    && |d.modules| == |db.modules| + n && d.modules[..|db.modules|] == db.modules
    && (forall k :: 0 <= k < n ==> d.modules[|db.modules| + k] == Row(db.nextId + 2 * k, NewModule(req.modules[k])))
    && |d.moduleMappings| == |db.moduleMappings| + n && d.moduleMappings[..|db.moduleMappings|] == db.moduleMappings
    && (forall k :: 0 <= k < n ==>
          d.moduleMappings[|db.moduleMappings| + k] ==
            Row(db.nextId + 2 * k + 1, ModuleMapping(course.id, db.nextId + 2 * k, None, true, false)))
  }

  /** The prices that follow the modules: the price and its link, then, for a truthy special
      price, the special price and its link. */
  ghost predicate PricesFannedOut(db: Db, d: Db, course: Row<Course>, req: CourseRequest)
    requires req.price.Some?
  {
    var p := db.nextId + 2 * |req.modules|;
    && d.prices == db.prices + [Row(p, Price(req.price.value, true, false))]
    && d.priceMappings == db.priceMappings + [Row(p + 1, PriceMapping(course.id, p, None, true, false))]
    && (Truthy(req.specialPrice) ==>
          && d.specialPrices == db.specialPrices + [Row(p + 2, SpecialPrice(req.specialPrice.value, true, false))]
          && d.specialPriceMappings ==
               db.specialPriceMappings + [Row(p + 3, SpecialPriceMapping(course.id, p + 2, None, true, false))])
    && (!Truthy(req.specialPrice) ==>
          d.specialPrices == db.specialPrices && d.specialPriceMappings == db.specialPriceMappings)
  }

  lemma FurnishAddsModules(db: Db, course: Row<Course>, req: CourseRequest)
    requires Furnish(db, course, req).res.Ok?
    ensures ModulesFannedOut(db, Furnish(db, course, req).db, course, req)
  {
    var f := AddModules(db, course.id, req.modules);
    AddModulesCount(db, course.id, req.modules);
    AddModulesRows(db, course.id, req.modules);
    AddModulesLinks(db, course.id, req.modules);
    var d := AddPrices(f.db, course, req.price, req.specialPrice).db;
    assert Furnish(db, course, req).db == d;
    assert d.modules == f.db.modules && d.moduleMappings == f.db.moduleMappings;
  }

  lemma FurnishAddsPrices(db: Db, course: Row<Course>, req: CourseRequest)
    requires Furnish(db, course, req).res.Ok?
    ensures PricesFannedOut(db, Furnish(db, course, req).db, course, req)
  {
    var f := AddModules(db, course.id, req.modules);
    AddModulesFrame(db, course.id, req.modules);
    AddModulesCount(db, course.id, req.modules);
    assert Furnish(db, course, req).db == AddPrices(f.db, course, req.price, req.specialPrice).db;
  }

  /** A successful `createCourse` writes the course under the counter, then one module and
      one link per requested module, in request order, then one price with its link and, only
      for a truthy special price, one special price with its link. */
  lemma CreateCourseFansOut(db: Db, req: CourseRequest)
    requires CreateCourseSpec(db, req).res.Ok?
    ensures var course := Row(db.nextId, NewCourse(req));
      && CreateCourseSpec(db, req).res == Ok(201, "Course created successfully", course)
      && ModulesFannedOut(db.(courses := db.courses + [course], nextId := db.nextId + 1),
                          CreateCourseSpec(db, req).db, course, req)
      && PricesFannedOut(db.(courses := db.courses + [course], nextId := db.nextId + 1),
                         CreateCourseSpec(db, req).db, course, req)
  {
    var course := Row(db.nextId, NewCourse(req));
    var db1 := db.(courses := db.courses + [course], nextId := db.nextId + 1);
    assert CreateCourseSpec(db, req) == Furnish(db1, course, req);
    FurnishAddsModules(db1, course, req);
    FurnishAddsPrices(db1, course, req);
  }

  /** A live course name is taken: creating it again is refused and writes nothing. */
  lemma CreateCourseTwiceRefused(db: Db, req: CourseRequest, again: CourseRequest)
    requires CreateCourseSpec(db, req).res.Ok?
    requires CourseComplete(again) && again.courseName == req.courseName
    ensures var db1 := CreateCourseSpec(db, req).db;
      CreateCourseSpec(db1, again) == Outcome(db1, Err(400, "Course already exists"))
  {
    var db1 := CreateCourseSpec(db, req).db;
    var c := CreateCourseSpec(db, req).res.data;
    assert db1.courses[|db.courses|] == c;
    assert First(db1.courses, LiveNamed(req.courseName)).Some?;
  }

  // ---------------------------------------------------------------------------
  // getAllCourses, getSingleCourseById

  predicate IsListed(x: Row<Course>) { !x.doc.isDeleted && x.doc.isActive }

  function GetAllCourses(db: Db): (r: ApiResult<Table<Course>>)
    ensures r.Ok? && r.status == 200
    ensures forall x :: x in r.data <==> x in db.courses && !x.doc.isDeleted && x.doc.isActive
  {
    Ok(200, "Course list", Filter(db.courses, IsListed))
  }

  /** The links whose module `findById` finds (it applies no deleted filter). */
  function ResolvedIn(t: Table<CourseModule>): Row<ModuleMapping> -> bool {
    (l: Row<ModuleMapping>) => Get(t, l.doc.moduleId).Some?
  }

  /** The modules the links name, in link order, skipping links whose module is absent:
      position by position, the target of each link that resolves. */
  function MappedModules(t: Table<CourseModule>, links: Table<ModuleMapping>): (r: Table<CourseModule>)
    ensures var found := Filter(links, ResolvedIn(t));
      && |r| == |found|
      && forall k :: 0 <= k < |r| ==>
           Get(t, found[k].doc.moduleId).Some? &&
           r[k] == Row(found[k].doc.moduleId, Get(t, found[k].doc.moduleId).value)
    ensures forall x :: x in r ==> x in t
  {
    if links == [] then []
    else
      var n := |links| - 1;
      var prefix := MappedModules(t, links[..n]);
      assert links == links[..n] + [links[n]];
      FilterSnoc(links[..n], links[n], ResolvedIn(t));
      match Get(t, links[n].doc.moduleId)
      case Some(d) =>
        assert t[Find(t, links[n].doc.moduleId).value] == Row(links[n].doc.moduleId, d);
        prefix + [Row(links[n].doc.moduleId, d)]
      case None => prefix
  }

  /** Every link whose module exists contributes that module to the listing, and every
      module listed is the target of one of the links. */
  lemma MappedModulesExact(t: Table<CourseModule>, links: Table<ModuleMapping>)
    ensures forall l :: l in links && Get(t, l.doc.moduleId).Some? ==>
      Row(l.doc.moduleId, Get(t, l.doc.moduleId).value) in MappedModules(t, links)
    ensures forall x :: x in MappedModules(t, links) ==>
      exists l :: l in links && l.doc.moduleId == x.id && Get(t, x.id) == Some(x.doc)
  {
    var r := MappedModules(t, links);
    var found := Filter(links, ResolvedIn(t));
    forall l | l in links && Get(t, l.doc.moduleId).Some?
      ensures Row(l.doc.moduleId, Get(t, l.doc.moduleId).value) in r
    {
      assert l in found;
      var k :| 0 <= k < |found| && found[k] == l;
      assert r[k] == Row(l.doc.moduleId, Get(t, l.doc.moduleId).value);
    }
    forall x | x in r ensures exists l :: l in links && l.doc.moduleId == x.id && Get(t, x.id) == Some(x.doc) {
      var k :| 0 <= k < |r| && r[k] == x;
      assert found[k] in found;
    }
  }

  /** `findOne` on the live price links of the course, then `findById` of its target: the
      price the first live link names, or none when there is no live link or its price is
      absent. */
  function PriceOf(db: Db, courseId: Id): (r: Option<Row<Price>>)
    ensures (forall k :: 0 <= k < |db.priceMappings| ==> !PriceLinksOf(courseId)(db.priceMappings[k])) ==>
      r.None?
    ensures forall k | IsFirst(db.priceMappings, PriceLinksOf(courseId), k) ::
      var pid := db.priceMappings[k].doc.priceId;
      && (Get(db.prices, pid).None? ==> r.None?)
      && (Get(db.prices, pid).Some? ==> r == Some(Row(pid, Get(db.prices, pid).value)))
  {
    FirstLink(db.priceMappings, PriceLinksOf(courseId));
    match First(db.priceMappings, PriceLinksOf(courseId))
    case None => None
    case Some(l) =>
      match Get(db.prices, l.doc.priceId)
      case Some(p) => Some(Row(l.doc.priceId, p))
      case None => None
  }

  /** The same for the special price. */
  function SpecialPriceOf(db: Db, courseId: Id): (r: Option<Row<SpecialPrice>>)
    ensures (forall k :: 0 <= k < |db.specialPriceMappings| ==>
               !SpecialLinksOf(courseId)(db.specialPriceMappings[k])) ==>
      r.None?
    ensures forall k | IsFirst(db.specialPriceMappings, SpecialLinksOf(courseId), k) ::
      var pid := db.specialPriceMappings[k].doc.specialPriceId;
      && (Get(db.specialPrices, pid).None? ==> r.None?)
      && (Get(db.specialPrices, pid).Some? ==> r == Some(Row(pid, Get(db.specialPrices, pid).value)))
  {
    FirstLink(db.specialPriceMappings, SpecialLinksOf(courseId));
    match First(db.specialPriceMappings, SpecialLinksOf(courseId))
    case None => None
    case Some(l) =>
      match Get(db.specialPrices, l.doc.specialPriceId)
      case Some(p) => Some(Row(l.doc.specialPriceId, p))
      case None => None
  }

  function SingleCourseSpec(db: Db, id: Id): (r: ApiResult<CourseDetail>)
    ensures r.Err? <==> LiveCourseAt(db.courses, id).None?
    ensures r.Err? ==> r == Err(404, "Course not found")
    ensures r.Ok? ==>
      && r.status == 200 && r.data.course.id == id && Get(db.courses, id) == Some(r.data.course.doc)
      && !r.data.course.doc.isDeleted
      && r.data.price == PriceOf(db, id) && r.data.specialPrice == SpecialPriceOf(db, id)
    ensures r.Ok? ==> forall l ::
      l in db.moduleMappings && ModuleLinksOf(id)(l) && Get(db.modules, l.doc.moduleId).Some? ==>
      Row(l.doc.moduleId, Get(db.modules, l.doc.moduleId).value) in r.data.modules
    ensures r.Ok? ==> forall x {:trigger x in r.data.modules} :: x in r.data.modules ==>
      && x in db.modules
      && exists l :: l in db.moduleMappings && ModuleLinksOf(id)(l) && l.doc.moduleId == x.id
  {
    match LiveCourseAt(db.courses, id)
    case None => Err(404, "Course not found")
    case Some(i) =>
      var links := Filter(db.moduleMappings, ModuleLinksOf(id));
      var modules := MappedModules(db.modules, links);
      MappedModulesExact(db.modules, links);
      Ok(200, "Course details", CourseDetail(db.courses[i], modules, PriceOf(db, id), SpecialPriceOf(db, id)))
  }

  /** A live link of the course whose module `findById` finds puts that module in the listing. */
  lemma LinkedModuleListed(db: Db, id: Id, k: nat, x: Row<CourseModule>)
    requires SingleCourseSpec(db, id).Ok? && k < |db.moduleMappings|
    requires ModuleLinksOf(id)(db.moduleMappings[k]) && db.moduleMappings[k].doc.moduleId == x.id
    requires Get(db.modules, x.id) == Some(x.doc)
    ensures x in SingleCourseSpec(db, id).data.modules
  {
    assert db.moduleMappings[k] in db.moduleMappings;
  }

  /** The modules of a course detail are, in the order of the live links of the course, the
      target of each link whose module exists. */
  lemma {:induction false} CourseModulesInLinkOrder(db: Db, id: Id)
    requires SingleCourseSpec(db, id).Ok?
    ensures var found := Filter(Filter(db.moduleMappings, ModuleLinksOf(id)), ResolvedIn(db.modules));
      var modules := SingleCourseSpec(db, id).data.modules;
      && |modules| == |found|
      && forall k :: 0 <= k < |modules| ==>
           found[k] in db.moduleMappings && ModuleLinksOf(id)(found[k]) &&
           Get(db.modules, found[k].doc.moduleId).Some? &&
           modules[k] == Row(found[k].doc.moduleId, Get(db.modules, found[k].doc.moduleId).value)
  {
    var links := Filter(db.moduleMappings, ModuleLinksOf(id));
    var found := Filter(links, ResolvedIn(db.modules));
    assert SingleCourseSpec(db, id).data.modules == MappedModules(db.modules, links);
    forall k | 0 <= k < |found| ensures found[k] in db.moduleMappings && ModuleLinksOf(id)(found[k]) {
      assert found[k] in found;
    }
  }

  /** One more link adds its module to the listing when `findById` finds it. */
  lemma MappedModulesSnoc(t: Table<CourseModule>, links: Table<ModuleMapping>, i: nat)
    requires i < |links|
    ensures var m := Get(t, links[i].doc.moduleId);
      MappedModules(t, links[..i + 1]) ==
        MappedModules(t, links[..i]) + (if m.Some? then [Row(links[i].doc.moduleId, m.value)] else [])
  {
    assert links[..i + 1][..i] == links[..i];
  }

  /** The handler's `for` loop: fetch the module of each link, keeping the ones found. */
  method FetchModules(st: Store, links: Table<ModuleMapping>) returns (modules: Table<CourseModule>)
    ensures modules == MappedModules(st.db.modules, links)
  {
    modules := [];
    var i := 0;
    while i < |links|
      invariant 0 <= i <= |links|
      invariant modules == MappedModules(st.db.modules, links[..i])
    {
      MappedModulesSnoc(st.db.modules, links, i);
      var found := Get(st.db.modules, links[i].doc.moduleId);
      if found.Some? {
        modules := modules + [Row(links[i].doc.moduleId, found.value)];
      }
      i := i + 1;
    }
    assert links[..|links|] == links;
  }

  method GetSingleCourseById(st: Store, id: Id) returns (r: ApiResult<CourseDetail>)
    ensures r == SingleCourseSpec(st.db, id)
  {
    var at := LiveCourseAt(st.db.courses, id);
    if at.None? {
      return Err(404, "Course not found");
    }
    var links := Filter(st.db.moduleMappings, ModuleLinksOf(id));
    var modules := FetchModules(st, links);
    r := Ok(200, "Course details", CourseDetail(st.db.courses[at.value], modules,
                                                 PriceOf(st.db, id), SpecialPriceOf(st.db, id)));
  }
}
