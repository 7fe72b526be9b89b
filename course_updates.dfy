/** Changing a course after it exists: `updateCourse` rewrites the course, reprices it through
    its first live price links and rewrites or adds modules; `deleteCourse` soft-deletes the
    course and retires every link, module and price hanging off it. */
module CourseUpdates {
  import opened Wrappers
  import opened Tables
  import opened Models
  import opened Courses

  // ---------------------------------------------------------------------------
  // updateCourse

  /** The course fields of the update; keys the request leaves out keep their value, and
      thumbnail, author and the two flags are not part of the update. */
  function PatchedCourse(c: Course, p: CoursePatch): (r: Course)
    ensures r.courseThumbnail == c.courseThumbnail && r.createdBy == c.createdBy
    ensures r.isActive == c.isActive && r.isDeleted == c.isDeleted
    ensures r.courseName == p.courseName.GetOr(c.courseName)
    ensures r.isFree == p.isFree.GetOr(c.isFree)
  {
    c.(courseName := Patch(c.courseName, p.courseName),
       description := Patch(c.description, p.description),
       videoUrl := Patch(c.videoUrl, p.videoUrl),
       duration := Patch(c.duration, p.duration),
       language := Patch(c.language, p.language),
       pdfUrl := if p.pdfUrl.Some? then p.pdfUrl else c.pdfUrl,
       isFree := Patch(c.isFree, p.isFree),
       category := Patch(c.category, p.category))
  }

  /** For a truthy price, `Price.findByIdAndUpdate` of the price named by the course's first
      live price link; nothing happens without such a link or when that price is gone. */
  function Repriced(db: Db, courseId: Id, price: Option<int>): (d: Db)
    ensures d == db.(prices := d.prices) && SameIds(db.prices, d.prices)
    ensures var l := First(db.priceMappings, PriceLinksOf(courseId));
      forall k :: 0 <= k < |db.prices| && d.prices[k] != db.prices[k] ==>
        && Truthy(price) && l.Some? && db.prices[k].id == l.value.doc.priceId
        && d.prices[k].doc == db.prices[k].doc.(price := price.value)
    ensures var l := First(db.priceMappings, PriceLinksOf(courseId));
      Truthy(price) && l.Some? && Find(db.prices, l.value.doc.priceId).Some? ==>
        d.prices[Find(db.prices, l.value.doc.priceId).value].doc.price == price.value
  {
    match First(db.priceMappings, PriceLinksOf(courseId))
    case None => db
    case Some(l) =>
      if !Truthy(price) then db
      else
        match Find(db.prices, l.doc.priceId)
        case None => db
        case Some(j) => db.(prices := SetDoc(db.prices, j, db.prices[j].doc.(price := price.value)))
  }

  /** The same for the special price. */
  function SpecialRepriced(db: Db, courseId: Id, specialPrice: Option<int>): (d: Db)
    ensures d == db.(specialPrices := d.specialPrices) && SameIds(db.specialPrices, d.specialPrices)
    ensures var l := First(db.specialPriceMappings, SpecialLinksOf(courseId));
      forall k :: 0 <= k < |db.specialPrices| && d.specialPrices[k] != db.specialPrices[k] ==>
        && Truthy(specialPrice) && l.Some? && db.specialPrices[k].id == l.value.doc.specialPriceId
        && d.specialPrices[k].doc == db.specialPrices[k].doc.(specialPrice := specialPrice.value)
    ensures var l := First(db.specialPriceMappings, SpecialLinksOf(courseId));
      Truthy(specialPrice) && l.Some? && Find(db.specialPrices, l.value.doc.specialPriceId).Some? ==>
        d.specialPrices[Find(db.specialPrices, l.value.doc.specialPriceId).value].doc.specialPrice ==
          specialPrice.value
  {
    match First(db.specialPriceMappings, SpecialLinksOf(courseId))
    case None => db
    case Some(l) =>
      if !Truthy(specialPrice) then db
      else
        match Find(db.specialPrices, l.doc.specialPriceId)
        case None => db
        case Some(j) =>
          db.(specialPrices := SetDoc(db.specialPrices, j,
                                      db.specialPrices[j].doc.(specialPrice := specialPrice.value)))
  }

  /** `findByIdAndUpdate(_id, { title, subtitle, content, order })`: no validation runs, and
      keys the element leaves out keep their value. */
  function PatchedModule(m: CourseModule, input: ModuleInput): (r: CourseModule)
    ensures r.isActive == m.isActive && r.isDeleted == m.isDeleted
    ensures r.title == input.title.GetOr(m.title) && r.order == input.order.GetOr(m.order)
  {
    m.(title := Patch(m.title, input.title), subtitle := Patch(m.subtitle, input.subtitle),
       content := Patch(m.content, input.content), order := Patch(m.order, input.order))
  }

  /** One loop step: an element with an id rewrites that module (whichever course it belongs
      to, and nothing when it is gone); one without an id is created and linked. */
  function ApplyModule(db: Db, courseId: Id, m: ModuleInput): (f: Fanout)
    ensures f.ok <==> m.id.Some? || Titled(m)
    ensures !f.ok ==> f.db == db
    ensures m.id.Some? ==> f.db == db.(modules := f.db.modules) && SameIds(db.modules, f.db.modules)
    ensures m.id.None? && Titled(m) ==>
      && f.db == db.(modules := f.db.modules, moduleMappings := f.db.moduleMappings, nextId := db.nextId + 2)
      && f.db.modules == db.modules + [Row(db.nextId, NewModule(m))]
      && f.db.moduleMappings ==
           db.moduleMappings + [Row(db.nextId + 1, ModuleMapping(courseId, db.nextId, None, true, false))]
  {
    match m.id
    case Some(_) => Fanout(db.(modules := PatchById(db.modules, m)), true)
    case None => AddModule(db, courseId, m)
  }

  /** The module table after `findByIdAndUpdate` of an element with an `_id`. */
  function PatchById(t: Table<CourseModule>, m: ModuleInput): (r: Table<CourseModule>)
    requires m.id.Some?
    ensures SameIds(t, r)
  {
    match Find(t, m.id.value)
    case None => t
    case Some(j) => SetDoc(t, j, PatchedModule(t[j].doc, m))
  }

  /** The whole loop, stopping at the first new module the schema refuses. */
  function ApplyModules(db: Db, courseId: Id, ms: seq<ModuleInput>): (f: Fanout)
    ensures f.ok <==> forall k :: 0 <= k < |ms| ==> ms[k].id.Some? || Titled(ms[k])
    decreases |ms|
  {
    if ms == [] then Fanout(db, true)
    else
      var f := ApplyModule(db, courseId, ms[0]);
      if !f.ok then f
      else
        var rest := ApplyModules(f.db, courseId, ms[1..]);
        assert forall k :: 1 <= k < |ms| ==> ms[k] == ms[1..][k - 1];
        rest
  }

  /** An element with an `_id` rewrites the module with that id, and only it, in place: no
      link is added and no id is spent, even when the module belongs to another course. */
  lemma ExistingModuleRewritten(db: Db, courseId: Id, m: ModuleInput)
    requires m.id.Some? && Increasing(db.modules)
    ensures var d := ApplyModule(db, courseId, m).db;
      && d == db.(modules := d.modules)
      && SameIds(db.modules, d.modules)
      && forall k :: 0 <= k < |db.modules| ==>
           d.modules[k].doc ==
             if db.modules[k].id == m.id.value then PatchedModule(db.modules[k].doc, m) else db.modules[k].doc
  {
    match Find(db.modules, m.id.value)
    case None =>
    case Some(j) =>
      assert forall k :: 0 <= k < |db.modules| && k != j ==> db.modules[k].id != m.id.value;
  }

  /** The module loop writes only modules, their links and the counter. */
  lemma {:induction false} ApplyModulesFrame(db: Db, courseId: Id, ms: seq<ModuleInput>)
    ensures var d := ApplyModules(db, courseId, ms).db;
      d == db.(modules := d.modules, moduleMappings := d.moduleMappings, nextId := d.nextId)
    decreases |ms|
  {
    if ms != [] && (ms[0].id.Some? || Titled(ms[0])) {
      ApplyModulesFrame(ApplyModule(db, courseId, ms[0]).db, courseId, ms[1..]);
    }
  }

  /** The elements without an `_id`, in request order: the ones the loop creates. */
  function Created(ms: seq<ModuleInput>): (r: seq<ModuleInput>)
    ensures |r| <= |ms|
    ensures forall j :: 0 <= j < |r| ==> r[j].id.None?
    decreases |ms|
  {
    if ms == [] then []
    else
      assert forall k :: 1 <= k < |ms| ==> ms[k] == ms[1..][k - 1];
      (if ms[0].id.None? then [ms[0]] else []) + Created(ms[1..])
  }

  /** The elements after the j-th created one: those that can still rewrite it. */
  function Following(ms: seq<ModuleInput>, j: nat): (r: seq<ModuleInput>)
    requires j < |Created(ms)|
    ensures |r| < |ms|
    decreases |ms|
  {
    assert Created(ms) == (if ms[0].id.None? then [ms[0]] else []) + Created(ms[1..]);
    if ms[0].id.None? && j == 0 then ms[1..]
    else Following(ms[1..], if ms[0].id.None? then j - 1 else j)
  }

  /** The position in the request of the j-th created element; what follows it there is
      `Following(ms, j)`. */
  function CreatedAt(ms: seq<ModuleInput>, j: nat): (p: nat)
    requires j < |Created(ms)|
    ensures p < |ms| && ms[p] == Created(ms)[j]
    ensures ms[p + 1..] == Following(ms, j)
    decreases |ms|
  {
    var rest := Created(ms[1..]);
    assert Created(ms) == (if ms[0].id.None? then [ms[0]] else []) + rest;
    if ms[0].id.None? && j == 0 then 0
    else
      var i := if ms[0].id.None? then j - 1 else j;
      assert Created(ms)[j] == rest[i];
      var q := CreatedAt(ms[1..], i);
      assert ms[1..][q + 1..] == ms[q + 2..];
      q + 1
  }

  /** A module document after the elements of `ms` whose `_id` is `id` have each rewritten it,
      in turn; the flags are never touched. */
  function PatchedBy(doc: CourseModule, id: Id, ms: seq<ModuleInput>): (r: CourseModule)
    ensures r.isActive == doc.isActive && r.isDeleted == doc.isDeleted
    decreases |ms|
  {
    if ms == [] then doc
    else
      assert forall k :: 1 <= k < |ms| ==> ms[k] == ms[1..][k - 1];
      PatchedBy(if ms[0].id == Some(id) then PatchedModule(doc, ms[0]) else doc, id, ms[1..])
  }

  /** The links of `n` modules created from id `from` on: module and link take two ids each. */
  function NewLinks(courseId: Id, from: Id, n: nat): (r: Table<ModuleMapping>)
    ensures |r| == n
    ensures forall j :: 0 <= j < n ==>
      r[j] == Row(from + 2 * j + 1, ModuleMapping(courseId, from + 2 * j, None, true, false))
    decreases n
  {
    if n == 0 then []
    else [Row(from + 1, ModuleMapping(courseId, from, None, true, false))] + NewLinks(courseId, from + 2, n - 1)
  }

  /** Nothing is created exactly when every element has an `_id`. */
  lemma {:induction false} CreatedNone(ms: seq<ModuleInput>)
    ensures Created(ms) == [] <==> forall k :: 0 <= k < |ms| ==> ms[k].id.Some?
    decreases |ms|
  {
    if ms != [] {
      CreatedNone(ms[1..]);
      assert forall k :: 1 <= k < |ms| ==> ms[k] == ms[1..][k - 1];
    }
  }

  /** A module no element names is left as it was. */
  lemma {:induction false} PatchedByUnnamed(doc: CourseModule, id: Id, ms: seq<ModuleInput>)
    requires forall k :: 0 <= k < |ms| ==> ms[k].id != Some(id)
    ensures PatchedBy(doc, id, ms) == doc
    decreases |ms|
  {
    if ms != [] {
      assert forall k :: 1 <= k < |ms| ==> ms[1..][k - 1] == ms[k];
      PatchedByUnnamed(doc, id, ms[1..]);
    }
  }

  /** The module table the loop leaves, computed on that table and the counter alone: each
      element with an `_id` patches the module with that id, each titled one without an `_id`
      appends a module under the counter and moves it on by two (the module and its link),
      and the first untitled one without an `_id` stops the loop. */
  function ModulesAfter(t: Table<CourseModule>, next: Id, ms: seq<ModuleInput>): (r: Table<CourseModule>)
    ensures |t| <= |r|
    decreases |ms|
  {
    if ms == [] then t
    else if ms[0].id.Some? then ModulesAfter(PatchById(t, ms[0]), next, ms[1..])
    else if Titled(ms[0]) then ModulesAfter(t + [Row(next, NewModule(ms[0]))], next + 2, ms[1..])
    else t
  }

  /** Every element has an `_id` or a title: the loop runs to the end. */
  predicate AllAccepted(ms: seq<ModuleInput>) {
    forall k :: 0 <= k < |ms| ==> ms[k].id.Some? || Titled(ms[k])
  }

  /** The loop's module table is `ModulesAfter` of the table and counter it starts from. */
  lemma {:induction false} ApplyModulesModules(db: Db, courseId: Id, ms: seq<ModuleInput>)
    ensures ApplyModules(db, courseId, ms).db.modules == ModulesAfter(db.modules, db.nextId, ms)
    decreases |ms|
  {
    if ms != [] && (ms[0].id.Some? || Titled(ms[0])) {
      var db1 := ApplyModule(db, courseId, ms[0]).db;
      ApplyModulesModules(db1, courseId, ms[1..]);
      if ms[0].id.Some? {
        assert db1.modules == PatchById(db.modules, ms[0]) && db1.nextId == db.nextId;
      }
    }
  }

  /** What a loop that runs to the end writes. Every element without an `_id` creates a
      module under the next free id and links it to the course, live, under the id after; the
      links are appended in order and no other link changes. Every module keeps its id, and
      its document is rewritten by the `_id` elements naming it that come after it exists. */
  lemma {:induction false} ApplyModulesWrites(db: Db, courseId: Id, ms: seq<ModuleInput>)
    requires Keyed(db.modules, db.nextId)
    requires ApplyModules(db, courseId, ms).ok
    ensures var d := ApplyModules(db, courseId, ms).db;
      var n := |Created(ms)|;
      && d.nextId == db.nextId + 2 * n
      && d.moduleMappings == db.moduleMappings + NewLinks(courseId, db.nextId, n)
      && |d.modules| == |db.modules| + n
      && (forall i :: 0 <= i < |db.modules| ==>
            d.modules[i] == Row(db.modules[i].id, PatchedBy(db.modules[i].doc, db.modules[i].id, ms)))
      && (forall j :: 0 <= j < n ==>
            Titled(Created(ms)[j]) &&
            d.modules[|db.modules| + j] ==
              Row(db.nextId + 2 * j,
                  PatchedBy(NewModule(Created(ms)[j]), db.nextId + 2 * j, Following(ms, j))))
  {
    ApplyModulesShape(db, courseId, ms);
    ApplyModulesModules(db, courseId, ms);
    assert AllAccepted(ms);
    forall i | 0 <= i < |db.modules|
      ensures ModulesAfter(db.modules, db.nextId, ms)[i] ==
        Row(db.modules[i].id, PatchedBy(db.modules[i].doc, db.modules[i].id, ms))
    {
      OldRowAfter(db.modules, db.nextId, ms, i);
    }
    forall j | 0 <= j < |Created(ms)|
      ensures Titled(Created(ms)[j])
      ensures ModulesAfter(db.modules, db.nextId, ms)[|db.modules| + j] ==
        Row(db.nextId + 2 * j, PatchedBy(NewModule(Created(ms)[j]), db.nextId + 2 * j, Following(ms, j)))
    {
      NewRowAfter(db.modules, db.nextId, ms, j);
    }
  }

  /** The counter, the links and the number of modules after a loop that runs to the end. */
  lemma {:induction false} ApplyModulesShape(db: Db, courseId: Id, ms: seq<ModuleInput>)
    requires ApplyModules(db, courseId, ms).ok
    ensures ApplyModules(db, courseId, ms).db.nextId == db.nextId + 2 * |Created(ms)|
    ensures ApplyModules(db, courseId, ms).db.moduleMappings ==
      db.moduleMappings + NewLinks(courseId, db.nextId, |Created(ms)|)
    ensures |ApplyModules(db, courseId, ms).db.modules| == |db.modules| + |Created(ms)|
    decreases |ms|, 1
  {
    if ms != [] {
      if ms[0].id.None? {
        ShapeCreating(db, courseId, ms);
      } else {
        ShapePatching(db, courseId, ms);
      }
    }
  }

  /** A first element without an `_id` adds one module, one link and two ids to the rest's. */
  lemma {:induction false} ShapeCreating(db: Db, courseId: Id, ms: seq<ModuleInput>)
    requires ms != [] && ms[0].id.None? && ApplyModules(db, courseId, ms).ok
    ensures ApplyModules(db, courseId, ms).db.nextId == db.nextId + 2 * |Created(ms)|
    ensures ApplyModules(db, courseId, ms).db.moduleMappings ==
      db.moduleMappings + NewLinks(courseId, db.nextId, |Created(ms)|)
    ensures |ApplyModules(db, courseId, ms).db.modules| == |db.modules| + |Created(ms)|
    decreases |ms|, 0
  {
    var rest := ms[1..];
    assert Titled(ms[0]);
    var db1 := ApplyModule(db, courseId, ms[0]).db;
    ApplyModulesShape(db1, courseId, rest);
    var d := ApplyModules(db1, courseId, rest).db;
    assert d == ApplyModules(db, courseId, ms).db;
    var m := |Created(rest)|;
    var links := NewLinks(courseId, db1.nextId, m);
    assert Created(ms) == [ms[0]] + Created(rest);
    var link := Row(db.nextId + 1, ModuleMapping(courseId, db.nextId, None, true, false));
    assert db1.nextId == db.nextId + 2 && db1.moduleMappings == db.moduleMappings + [link];
    assert |db1.modules| == |db.modules| + 1;
    assert NewLinks(courseId, db.nextId, m + 1) == [link] + links;
    assert d.moduleMappings == db.moduleMappings + ([link] + links);
  }

  /** A first element with an `_id` leaves links, counter and table length to the rest. */
  lemma {:induction false} ShapePatching(db: Db, courseId: Id, ms: seq<ModuleInput>)
    requires ms != [] && ms[0].id.Some? && ApplyModules(db, courseId, ms).ok
    ensures ApplyModules(db, courseId, ms).db.nextId == db.nextId + 2 * |Created(ms)|
    ensures ApplyModules(db, courseId, ms).db.moduleMappings ==
      db.moduleMappings + NewLinks(courseId, db.nextId, |Created(ms)|)
    ensures |ApplyModules(db, courseId, ms).db.modules| == |db.modules| + |Created(ms)|
    decreases |ms|, 0
  {
    var rest := ms[1..];
    var db1 := ApplyModule(db, courseId, ms[0]).db;
    ApplyModulesShape(db1, courseId, rest);
    assert ApplyModules(db1, courseId, rest).db == ApplyModules(db, courseId, ms).db;
    assert Created(ms) == Created(rest);
    assert db1.nextId == db.nextId && db1.moduleMappings == db.moduleMappings;
    assert |db1.modules| == |db.modules|;
  }

  /** A module there before the loop keeps its place and id and gets every rewrite naming it. */
  lemma {:induction false} OldRowAfter(t: Table<CourseModule>, next: Id, ms: seq<ModuleInput>, i: nat)
    requires Keyed(t, next) && AllAccepted(ms) && i < |t|
    ensures var r := ModulesAfter(t, next, ms);
      i < |r| && r[i] == Row(t[i].id, PatchedBy(t[i].doc, t[i].id, ms))
    decreases |ms|
  {
    if ms != [] {
      var rest := ms[1..];
      assert AllAccepted(rest) by {
        assert forall k :: 0 <= k < |rest| ==> rest[k] == ms[k + 1];
      }
      var id := t[i].id;
      var step := if ms[0].id == Some(id) then PatchedModule(t[i].doc, ms[0]) else t[i].doc;
      if ms[0].id.Some? {
        var t1 := PatchById(t, ms[0]);
        assert t1[i] == Row(id, step) by {
          KeyedIncreasing(t, next);
          match Find(t, ms[0].id.value) {
            case None =>
            case Some(j) =>
              assert forall k :: 0 <= k < |t| && k != j ==> t[k].id != ms[0].id.value;
          }
        }
        KeyedRewrite(t, t1, next);
        assert ModulesAfter(t, next, ms) == ModulesAfter(t1, next, rest);
        OldRowAfter(t1, next, rest, i);
      } else {
        var t1 := t + [Row(next, NewModule(ms[0]))];
        KeyedInsert(t, NewModule(ms[0]), next, next + 2);
        assert t1[i] == Row(id, step);
        assert ModulesAfter(t, next, ms) == ModulesAfter(t1, next + 2, rest);
        OldRowAfter(t1, next + 2, rest, i);
      }
      assert PatchedBy(t[i].doc, id, ms) == PatchedBy(step, id, rest);
    }
  }

  /** The j-th element without an `_id` becomes the j-th appended module, under id
      `next + 2j`, rewritten by the `_id` elements after it that name that id. */
  lemma {:induction false} NewRowAfter(t: Table<CourseModule>, next: Id, ms: seq<ModuleInput>, j: nat)
    requires Keyed(t, next) && AllAccepted(ms) && j < |Created(ms)|
    ensures Titled(Created(ms)[j])
    ensures |t| + j < |ModulesAfter(t, next, ms)|
    ensures ModulesAfter(t, next, ms)[|t| + j] ==
      Row(next + 2 * j, PatchedBy(NewModule(Created(ms)[j]), next + 2 * j, Following(ms, j)))
    decreases |ms|, 1
  {
    if ms[0].id.Some? {
      NewRowPast(t, next, ms, j);
    } else if j == 0 {
      NewRowHere(t, next, ms);
    } else {
      NewRowLater(t, next, ms, j);
    }
  }

  /** The first element creates the first new module, which the rest of the loop may patch. */
  lemma {:induction false} NewRowHere(t: Table<CourseModule>, next: Id, ms: seq<ModuleInput>)
    requires Keyed(t, next) && AllAccepted(ms) && ms != [] && ms[0].id.None?
    ensures 0 < |Created(ms)| && Titled(Created(ms)[0])
    ensures var r := ModulesAfter(t, next, ms);
      |t| < |r| && r[|t|] == Row(next, PatchedBy(NewModule(Created(ms)[0]), next, Following(ms, 0)))
  {
    var rest := ms[1..];
    assert AllAccepted(rest) by {
      assert forall k :: 0 <= k < |rest| ==> rest[k] == ms[k + 1];
    }
    assert Created(ms) == [ms[0]] + Created(rest);
    var t1 := t + [Row(next, NewModule(ms[0]))];
    KeyedInsert(t, NewModule(ms[0]), next, next + 2);
    assert ModulesAfter(t, next, ms) == ModulesAfter(t1, next + 2, rest);
    OldRowAfter(t1, next + 2, rest, |t|);
    assert t1[|t|] == Row(next, NewModule(ms[0]));
    assert Created(ms)[0] == ms[0] && Following(ms, 0) == rest;
  }

  /** A later element without an `_id` lands one place further on than it does in the rest. */
  lemma {:induction false} NewRowLater(t: Table<CourseModule>, next: Id, ms: seq<ModuleInput>, j: nat)
    requires Keyed(t, next) && AllAccepted(ms) && ms != [] && ms[0].id.None?
    requires 0 < j < |Created(ms)|
    ensures Titled(Created(ms)[j])
    ensures |t| + j < |ModulesAfter(t, next, ms)|
    ensures ModulesAfter(t, next, ms)[|t| + j] ==
      Row(next + 2 * j, PatchedBy(NewModule(Created(ms)[j]), next + 2 * j, Following(ms, j)))
    decreases |ms|, 0
  {
    var rest := ms[1..];
    var t1 := t + [Row(next, NewModule(ms[0]))];
    assert Created(ms) == [ms[0]] + Created(rest);
    KeyedInsert(t, NewModule(ms[0]), next, next + 2);
    assert AllAccepted(rest) by {
      assert forall k :: 0 <= k < |rest| ==> rest[k] == ms[k + 1];
    }
    NewRowAfter(t1, next + 2, rest, j - 1);
    CreatedStep(ms, j);
    assert |t1| + (j - 1) == |t| + j && next + 2 + 2 * (j - 1) == next + 2 * j;
    assert ModulesAfter(t, next, ms) == ModulesAfter(t1, next + 2, rest);
  }

  /** Past a first element without an `_id`, the j-th created element is the rest's (j-1)-th. */
  lemma CreatedStep(ms: seq<ModuleInput>, j: nat)
    requires ms != [] && ms[0].id.None? && 0 < j < |Created(ms)|
    ensures j - 1 < |Created(ms[1..])| && Created(ms)[j] == Created(ms[1..])[j - 1]
    ensures Following(ms, j) == Following(ms[1..], j - 1)
  {
    assert Created(ms) == [ms[0]] + Created(ms[1..]);
  }

  /** Past a first element with an `_id`, the j-th created element is the rest's j-th. */
  lemma CreatedSkip(ms: seq<ModuleInput>, j: nat)
    requires ms != [] && ms[0].id.Some? && j < |Created(ms)|
    ensures j < |Created(ms[1..])| && Created(ms)[j] == Created(ms[1..])[j]
    ensures Following(ms, j) == Following(ms[1..], j)
  {
    assert Created(ms) == Created(ms[1..]);
  }

  /** An element with an `_id` creates nothing: the j-th new module is the rest's j-th. */
  lemma {:induction false} NewRowPast(t: Table<CourseModule>, next: Id, ms: seq<ModuleInput>, j: nat)
    requires Keyed(t, next) && AllAccepted(ms) && ms != [] && ms[0].id.Some?
    requires j < |Created(ms)|
    ensures Titled(Created(ms)[j])
    ensures |t| + j < |ModulesAfter(t, next, ms)|
    ensures ModulesAfter(t, next, ms)[|t| + j] ==
      Row(next + 2 * j, PatchedBy(NewModule(Created(ms)[j]), next + 2 * j, Following(ms, j)))
    decreases |ms|, 0
  {
    var rest := ms[1..];
    assert AllAccepted(rest) by {
      assert forall k :: 0 <= k < |rest| ==> rest[k] == ms[k + 1];
    }
    var t1 := PatchById(t, ms[0]);
    KeyedRewrite(t, t1, next);
    CreatedSkip(ms, j);
    NewRowAfter(t1, next, rest, j);
    assert |t1| == |t|;
    assert ModulesAfter(t, next, ms) == ModulesAfter(t1, next, rest);
  }

  /** The first element the schema refuses stops the loop with a server error; the writes of
      the elements before it stay. */
  lemma {:induction false} ApplyModulesStops(db: Db, courseId: Id, ms: seq<ModuleInput>, k: nat)
    requires k < |ms| && ms[k].id.None? && !Titled(ms[k])
    requires forall j :: 0 <= j < k ==> ms[j].id.Some? || Titled(ms[j])
    ensures ApplyModules(db, courseId, ms[..k]).ok
    ensures ApplyModules(db, courseId, ms) == Fanout(ApplyModules(db, courseId, ms[..k]).db, false)
    decreases k
  {
    if k > 0 {
      var db1 := ApplyModule(db, courseId, ms[0]).db;
      assert ms[1..][..k - 1] == ms[..k][1..];
      assert forall j :: 0 <= j < k - 1 ==> ms[1..][j] == ms[j + 1];
      ApplyModulesStops(db1, courseId, ms[1..], k - 1);
    }
  }

  /** Course, price and special price: the writes before the module loop. */
  function Rewritten(db: Db, i: nat, p: CoursePatch): (d: Db)
    requires i < |db.courses|
    ensures d.courses == SetDoc(db.courses, i, PatchedCourse(db.courses[i].doc, p))
    ensures d == db.(courses := d.courses, prices := d.prices, specialPrices := d.specialPrices)
  {
    var id := db.courses[i].id;
    var db1 := db.(courses := SetDoc(db.courses, i, PatchedCourse(db.courses[i].doc, p)));
    SpecialRepriced(Repriced(db1, id, p.price), id, p.specialPrice)
  }

  function UpdateCourseSpec(db: Db, id: Id, p: CoursePatch): (o: Outcome<Row<Course>>)
    ensures LiveCourseAt(db.courses, id).None? ==> o == Outcome(db, Err(404, "Course not found"))
    ensures o.res.Ok? <==>
      && LiveCourseAt(db.courses, id).Some?
      && forall k :: 0 <= k < |p.modules| ==> p.modules[k].id.Some? || Titled(p.modules[k])
    ensures LiveCourseAt(db.courses, id).Some? && o.res.Err? ==> o.res == Err(SERVER_ERROR, MISSING_TITLE)
    ensures LiveCourseAt(db.courses, id).Some? ==>
      var i := LiveCourseAt(db.courses, id).value;
      o.db.courses == SetDoc(db.courses, i, PatchedCourse(db.courses[i].doc, p))
    ensures o.res.Ok? ==>
      o.res == Ok(200, "Course updated", Row(id, PatchedCourse(Get(db.courses, id).value, p)))
    ensures LiveCourseAt(db.courses, id).Some? ==>
      && o.db.prices == Repriced(db, id, p.price).prices
      && o.db.specialPrices == SpecialRepriced(db, id, p.specialPrice).specialPrices
      && o.db == db.(courses := o.db.courses, prices := o.db.prices, specialPrices := o.db.specialPrices,
                     modules := o.db.modules, moduleMappings := o.db.moduleMappings, nextId := o.db.nextId)
  {
    match LiveCourseAt(db.courses, id)
    case None => Outcome(db, Err(404, "Course not found"))
    case Some(i) =>
      var d := Rewritten(db, i, p);
      var f := ApplyModules(d, id, p.modules);
      assert f.db == d.(modules := f.db.modules, moduleMappings := f.db.moduleMappings, nextId := f.db.nextId) by {
        ApplyModulesFrame(d, id, p.modules);
      }
      assert d.prices == Repriced(db, id, p.price).prices;
      assert d.specialPrices == SpecialRepriced(db, id, p.specialPrice).specialPrices;
      if !f.ok then Outcome(f.db, Err(SERVER_ERROR, MISSING_TITLE))
      else Outcome(f.db, Ok(200, "Course updated", Row(id, PatchedCourse(db.courses[i].doc, p))))
  }

  /** A 500 at the first refused element leaves the store as the same update with only the
      elements before it would: the course, price and earlier module writes stay. */
  lemma {:induction false} UpdateCourseStops(db: Db, id: Id, p: CoursePatch, k: nat)
    requires LiveCourseAt(db.courses, id).Some?
    requires k < |p.modules| && p.modules[k].id.None? && !Titled(p.modules[k])
    requires forall j :: 0 <= j < k ==> p.modules[j].id.Some? || Titled(p.modules[j])
    ensures UpdateCourseSpec(db, id, p).res == Err(SERVER_ERROR, MISSING_TITLE)
    ensures UpdateCourseSpec(db, id, p.(modules := p.modules[..k])).res.Ok?
    ensures UpdateCourseSpec(db, id, p).db == UpdateCourseSpec(db, id, p.(modules := p.modules[..k])).db
  {
    var i := LiveCourseAt(db.courses, id).value;
    var q := p.(modules := p.modules[..k]);
    assert PatchedCourse(db.courses[i].doc, q) == PatchedCourse(db.courses[i].doc, p);
    assert Rewritten(db, i, q) == Rewritten(db, i, p);
    ApplyModulesStops(Rewritten(db, i, p), id, p.modules, k);
  }

  /** What a successful update writes to the modules, their links and the counter: the loop's
      writes, starting from the tables as they were, since the course and price writes leave
      them alone. The module table is `ModulesAfter` of the old one, whose rows `OldRowAfter`
      and `NewRowAfter` describe. */
  lemma {:induction false} UpdateCourseWritesModules(db: Db, id: Id, p: CoursePatch)
    requires UpdateCourseSpec(db, id, p).res.Ok?
    ensures AllAccepted(p.modules)
    ensures UpdateCourseSpec(db, id, p).db.modules == ModulesAfter(db.modules, db.nextId, p.modules)
    ensures |UpdateCourseSpec(db, id, p).db.modules| == |db.modules| + |Created(p.modules)|
    ensures UpdateCourseSpec(db, id, p).db.nextId == db.nextId + 2 * |Created(p.modules)|
    ensures UpdateCourseSpec(db, id, p).db.moduleMappings ==
      db.moduleMappings + NewLinks(id, db.nextId, |Created(p.modules)|)
  {
    var i := LiveCourseAt(db.courses, id).value;
    var d0 := Rewritten(db, i, p);
    assert d0.modules == db.modules && d0.moduleMappings == db.moduleMappings && d0.nextId == db.nextId;
    assert UpdateCourseSpec(db, id, p).db == ApplyModules(d0, id, p.modules).db;
    ApplyModulesShape(d0, id, p.modules);
    ApplyModulesModules(d0, id, p.modules);
  }

  /** After a successful update, reading the course lists every module the update created. */
  lemma {:induction false} UpdateThenListsNewModules(db: Db, id: Id, p: CoursePatch, j: nat)
    requires WellKeyed(db)
    requires UpdateCourseSpec(db, id, p).res.Ok? && j < |Created(p.modules)|
    ensures var o := UpdateCourseSpec(db, id, p);
      var r := SingleCourseSpec(o.db, id);
      && |db.modules| + j < |o.db.modules|
      && o.db.modules[|db.modules| + j].id == db.nextId + 2 * j
      && r.Ok? && o.db.modules[|db.modules| + j] in r.data.modules
  {
    var d := UpdateCourseSpec(db, id, p).db;
    UpdateCourseWritesModules(db, id, p);
    UpdateThenRead(db, id, p);
    UpdateCourseKeepsKeyed(db, id, p);
    CreatedModuleListed(db.modules, db.nextId, db.moduleMappings, p.modules, j, d, id);
  }

  /** A store whose module table and links are what the loop leaves, and that has the course,
      lists the j-th created module under the course. */
  lemma {:induction false} CreatedModuleListed(t: Table<CourseModule>, next: Id, links: Table<ModuleMapping>,
                                               ms: seq<ModuleInput>, j: nat, d: Db, id: Id)
    requires Keyed(t, next) && AllAccepted(ms) && j < |Created(ms)|
    requires d.modules == ModulesAfter(t, next, ms)
    requires d.moduleMappings == links + NewLinks(id, next, |Created(ms)|)
    requires Keyed(d.modules, d.nextId) && SingleCourseSpec(d, id).Ok?
    ensures |t| + j < |d.modules| && d.modules[|t| + j].id == next + 2 * j
    ensures d.modules[|t| + j] in SingleCourseSpec(d, id).data.modules
  {
    CreatedModuleLinked(t, next, links, ms, j, d, id);
    LinkedModuleListed(d, id, |links| + j, d.modules[|t| + j]);
  }

  /** A store whose module table and links are what the loop leaves holds the j-th created
      module under its own id, and a live link of the course that names it. */
  lemma {:induction false} CreatedModuleLinked(t: Table<CourseModule>, next: Id, links: Table<ModuleMapping>,
                            ms: seq<ModuleInput>, j: nat, d: Db, id: Id)
    requires Keyed(t, next) && AllAccepted(ms) && j < |Created(ms)|
    requires d.modules == ModulesAfter(t, next, ms)
    requires d.moduleMappings == links + NewLinks(id, next, |Created(ms)|)
    requires Keyed(d.modules, d.nextId)
    ensures |t| + j < |d.modules| && d.modules[|t| + j].id == next + 2 * j
    ensures Get(d.modules, next + 2 * j) == Some(d.modules[|t| + j].doc)
    ensures |links| + j < |d.moduleMappings|
    ensures ModuleLinksOf(id)(d.moduleMappings[|links| + j])
    ensures d.moduleMappings[|links| + j].doc.moduleId == next + 2 * j
  {
    var at := |t| + j;
    assert at < |d.modules| && d.modules[at].id == next + 2 * j by {
      NewRowAfter(t, next, ms, j);
    }
    KeyedGet(d.modules, d.nextId, at);
    assert d.moduleMappings[|links| + j] == NewLinks(id, next, |Created(ms)|)[j];
  }

  /** The handler's module loop. */
  method ApplyModulesTo(st: Store, courseId: Id, ms: seq<ModuleInput>) returns (ok: bool)
    modifies st
    ensures Fanout(st.db, ok) == ApplyModules(old(st.db), courseId, ms)
  {
    ghost var target := ApplyModules(st.db, courseId, ms);
    var i := 0;
    while i < |ms|
      invariant 0 <= i <= |ms|
      invariant ApplyModules(st.db, courseId, ms[i..]) == target
    {
      var m := ms[i];
      assert ms[i..][1..] == ms[i + 1..];
      if m.id.Some? {
        var j := Find(st.db.modules, m.id.value);
        if j.Some? {
          st.db := st.db.(modules := SetDoc(st.db.modules, j.value, PatchedModule(st.db.modules[j.value].doc, m)));
        }
      } else {
        if !Titled(m) {
          return false;
        }
        var created := Row(st.db.nextId, NewModule(m));
        var link := Row(st.db.nextId + 1, ModuleMapping(courseId, created.id, None, true, false));
        st.db := st.db.(modules := st.db.modules + [created],
                        moduleMappings := st.db.moduleMappings + [link],
                        nextId := st.db.nextId + 2);
      }
      i := i + 1;
    }
    ok := true;
  }

  /** `findOne` of the first live price link, then `Price.findByIdAndUpdate` for a truthy price. */
  method Reprice(st: Store, courseId: Id, price: Option<int>)
    modifies st
    ensures st.db == Repriced(old(st.db), courseId, price)
  {
    var link := First(st.db.priceMappings, PriceLinksOf(courseId));
    if link.Some? && Truthy(price) {
      var j := Find(st.db.prices, link.value.doc.priceId);
      if j.Some? {
        st.db := st.db.(prices := SetDoc(st.db.prices, j.value, st.db.prices[j.value].doc.(price := price.value)));
      }
    }
  }

  method SpecialReprice(st: Store, courseId: Id, specialPrice: Option<int>)
    modifies st
    ensures st.db == SpecialRepriced(old(st.db), courseId, specialPrice)
  {
    var link := First(st.db.specialPriceMappings, SpecialLinksOf(courseId));
    if link.Some? && Truthy(specialPrice) {
      var j := Find(st.db.specialPrices, link.value.doc.specialPriceId);
      if j.Some? {
        st.db := st.db.(specialPrices := SetDoc(st.db.specialPrices, j.value,
                                                st.db.specialPrices[j.value].doc.(specialPrice := specialPrice.value)));
      }
    }
  }

  /** The course, then the price and the special price through their first live links. */
  method RewriteCourse(st: Store, i: nat, p: CoursePatch)
    requires i < |st.db.courses|
    modifies st
    ensures st.db == Rewritten(old(st.db), i, p)
  {
    var id := st.db.courses[i].id;
    st.db := st.db.(courses := SetDoc(st.db.courses, i, PatchedCourse(st.db.courses[i].doc, p)));
    Reprice(st, id, p.price);
    SpecialReprice(st, id, p.specialPrice);
  }

  method UpdateCourse(st: Store, id: Id, p: CoursePatch) returns (r: ApiResult<Row<Course>>)
    modifies st
    requires st.Valid()
    ensures st.Valid()
    ensures Outcome(st.db, r) == UpdateCourseSpec(old(st.db), id, p)
  {
    UpdateCourseKeepsKeyed(st.db, id, p);
    var at := LiveCourseAt(st.db.courses, id);
    if at.None? {
      return Err(404, "Course not found");
    }
    var course := Row(id, PatchedCourse(st.db.courses[at.value].doc, p));
    RewriteCourse(st, at.value, p);
    var ok := ApplyModulesTo(st, id, p.modules);
    if !ok {
      return Err(SERVER_ERROR, MISSING_TITLE);
    }
    r := Ok(200, "Course updated", course);
  }

  /** The updated course is what a read of it returns afterwards. */
  lemma UpdateThenRead(db: Db, id: Id, p: CoursePatch)
    requires UpdateCourseSpec(db, id, p).res.Ok?
    ensures var o := UpdateCourseSpec(db, id, p);
      var r := SingleCourseSpec(o.db, id);
      r.Ok? && r.data.course == o.res.data
  {
    var o := UpdateCourseSpec(db, id, p);
    var i := LiveCourseAt(db.courses, id).value;
    FindSameIds(db.courses, o.db.courses, id);
  }

  /** A truthy price reaches the price the course's first live link names, and a read of the
      course shows it. */
  lemma UpdatePriceThenRead(db: Db, id: Id, p: CoursePatch)
    requires UpdateCourseSpec(db, id, p).res.Ok?
    requires Truthy(p.price) && PriceOf(db, id).Some?
    ensures var before := PriceOf(db, id).value;
      PriceOf(UpdateCourseSpec(db, id, p).db, id) == Some(Row(before.id, before.doc.(price := p.price.value)))
  {
    var i := LiveCourseAt(db.courses, id).value;
    var db1 := db.(courses := SetDoc(db.courses, i, PatchedCourse(db.courses[i].doc, p)));
    var d1 := Repriced(db1, id, p.price);
    var d := Rewritten(db, i, p);
    ApplyModulesFrame(d, id, p.modules);
    var o := UpdateCourseSpec(db, id, p);
    assert o.db.prices == d1.prices && o.db.priceMappings == db.priceMappings;
    var l := First(db.priceMappings, PriceLinksOf(id)).value;
    var j := Find(db.prices, l.doc.priceId).value;
    FindSameIds(db.prices, d1.prices, l.doc.priceId);
  }

  lemma ApplyModuleKeepsKeyed(db: Db, courseId: Id, m: ModuleInput)
    requires WellKeyed(db)
    ensures WellKeyed(ApplyModule(db, courseId, m).db)
  {
    if m.id.None? {
      AddModuleKeepsKeyed(db, courseId, m);
    } else {
      var d := ApplyModule(db, courseId, m).db;
      KeyedRewrite(db.modules, d.modules, db.nextId);
      ReplaceModules(db, d.modules);
    }
  }

  lemma {:induction false} ApplyModulesKeepsKeyed(db: Db, courseId: Id, ms: seq<ModuleInput>)
    requires WellKeyed(db)
    ensures WellKeyed(ApplyModules(db, courseId, ms).db)
    decreases |ms|
  {
    if ms != [] {
      ApplyModuleKeepsKeyed(db, courseId, ms[0]);
      if ms[0].id.Some? || Titled(ms[0]) {
        ApplyModulesKeepsKeyed(ApplyModule(db, courseId, ms[0]).db, courseId, ms[1..]);
      }
    }
  }

  lemma RewrittenKeepsKeyed(db: Db, i: nat, p: CoursePatch)
    requires WellKeyed(db) && i < |db.courses|
    ensures WellKeyed(Rewritten(db, i, p))
  {
    var d := Rewritten(db, i, p);
    KeyedRewrite(db.courses, d.courses, db.nextId);
    ReplaceCourses(db, d.courses);
    var db1 := db.(courses := d.courses);
    var id := db.courses[i].id;
    var d1 := Repriced(db1, id, p.price);
    KeyedRewrite(db.prices, d1.prices, db.nextId);
    ReplacePrices(db1, d1.prices);
    KeyedRewrite(db.specialPrices, d.specialPrices, db.nextId);
    ReplaceSpecialPrices(db1.(prices := d1.prices), d.specialPrices);
    assert d == db1.(prices := d1.prices, specialPrices := d.specialPrices);
  }

  lemma UpdateCourseKeepsKeyed(db: Db, id: Id, p: CoursePatch)
    requires WellKeyed(db)
    ensures WellKeyed(UpdateCourseSpec(db, id, p).db)
  {
    var o := UpdateCourseSpec(db, id, p);
    match LiveCourseAt(db.courses, id)
    case None =>
    case Some(i) =>
      RewrittenKeepsKeyed(db, i, p);
      ApplyModulesKeepsKeyed(Rewritten(db, i, p), id, p.modules);
      assert o.db == ApplyModules(Rewritten(db, i, p), id, p.modules).db;
  }

  // ---------------------------------------------------------------------------
  // deleteCourse

  /** The modules, prices and special prices named by the course's live links, read before
      the links are retired. */
  function LinkedModuleIds(t: Table<ModuleMapping>, courseId: Id): set<Id> {
    set l | l in t && ModuleLinksOf(courseId)(l) :: l.doc.moduleId
  }

  function LinkedPriceIds(t: Table<PriceMapping>, courseId: Id): set<Id> {
    set l | l in t && PriceLinksOf(courseId)(l) :: l.doc.priceId
  }

  function LinkedSpecialIds(t: Table<SpecialPriceMapping>, courseId: Id): set<Id> {
    set l | l in t && SpecialLinksOf(courseId)(l) :: l.doc.specialPriceId
  }

  /** `updateMany({ courseId }, { isDeleted: true, isActive: false, validTo: now })` on each
      link collection: every link of the course, already deleted or not, is retired. */
  function RetireModuleLinks(t: Table<ModuleMapping>, courseId: Id, now: Time): (r: Table<ModuleMapping>)
    ensures SameIds(t, r)
    ensures forall k :: 0 <= k < |r| ==> !ModuleLinksOf(courseId)(r[k])
    ensures forall k :: 0 <= k < |t| && t[k].doc.courseId == courseId ==>
      r[k].doc == t[k].doc.(isDeleted := true, isActive := false, validTo := Some(now))
    ensures forall k :: 0 <= k < |t| && t[k].doc.courseId != courseId ==> r[k] == t[k]
  {
    MapDocs(t, (x: Row<ModuleMapping>) =>
      if x.doc.courseId == courseId then x.doc.(isDeleted := true, isActive := false, validTo := Some(now))
      else x.doc)
  }

  function RetirePriceLinks(t: Table<PriceMapping>, courseId: Id, now: Time): (r: Table<PriceMapping>)
    ensures SameIds(t, r)
    ensures forall k :: 0 <= k < |r| ==> !PriceLinksOf(courseId)(r[k])
    ensures forall k :: 0 <= k < |t| && t[k].doc.courseId == courseId ==>
      r[k].doc == t[k].doc.(isDeleted := true, isActive := false, validTo := Some(now))
    ensures forall k :: 0 <= k < |t| && t[k].doc.courseId != courseId ==> r[k] == t[k]
  {
    MapDocs(t, (x: Row<PriceMapping>) =>
      if x.doc.courseId == courseId then x.doc.(isDeleted := true, isActive := false, validTo := Some(now))
      else x.doc)
  }

  function RetireSpecialLinks(t: Table<SpecialPriceMapping>, courseId: Id, now: Time)
    : (r: Table<SpecialPriceMapping>)
    ensures SameIds(t, r)
    ensures forall k :: 0 <= k < |r| ==> !SpecialLinksOf(courseId)(r[k])
    ensures forall k :: 0 <= k < |t| && t[k].doc.courseId == courseId ==>
      r[k].doc == t[k].doc.(isDeleted := true, isActive := false, validTo := Some(now))
    ensures forall k :: 0 <= k < |t| && t[k].doc.courseId != courseId ==> r[k] == t[k]
  {
    MapDocs(t, (x: Row<SpecialPriceMapping>) =>
      if x.doc.courseId == courseId then x.doc.(isDeleted := true, isActive := false, validTo := Some(now))
      else x.doc)
  }

  /** `CourseModule.updateMany({ _id: { $in: ids } }, { isDeleted: true, isActive: false })`. */
  function RetireModules(t: Table<CourseModule>, ids: set<Id>): (r: Table<CourseModule>)
    ensures SameIds(t, r)
    ensures forall k :: 0 <= k < |t| && t[k].id in ids ==>
      r[k].doc == t[k].doc.(isDeleted := true, isActive := false)
    ensures forall k :: 0 <= k < |t| && t[k].id !in ids ==> r[k] == t[k]
  {
    MapDocs(t, (x: Row<CourseModule>) =>
      if x.id in ids then x.doc.(isDeleted := true, isActive := false) else x.doc)
  }

  /** The same update on the two price collections. Their schemas call the flag `isDelete`,
      so strict mode drops the `isDeleted` key and only `isActive` changes. */
  function DeactivatePrices(t: Table<Price>, ids: set<Id>): (r: Table<Price>)
    ensures SameIds(t, r)
    ensures forall k :: 0 <= k < |t| && t[k].id in ids ==> r[k].doc == t[k].doc.(isActive := false)
    ensures forall k :: 0 <= k < |t| && t[k].id !in ids ==> r[k] == t[k]
  {
    MapDocs(t, (x: Row<Price>) => if x.id in ids then x.doc.(isActive := false) else x.doc)
  }

  function DeactivateSpecialPrices(t: Table<SpecialPrice>, ids: set<Id>): (r: Table<SpecialPrice>)
    ensures SameIds(t, r)
    ensures forall k :: 0 <= k < |t| && t[k].id in ids ==> r[k].doc == t[k].doc.(isActive := false)
    ensures forall k :: 0 <= k < |t| && t[k].id !in ids ==> r[k] == t[k]
  {
    MapDocs(t, (x: Row<SpecialPrice>) => if x.id in ids then x.doc.(isActive := false) else x.doc)
  }

  /** The database after the three-way cascade of a course that exists. */
  function Cascaded(db: Db, i: nat, now: Time): (d: Db)
    requires i < |db.courses|
    ensures d.courses == SetDoc(db.courses, i, db.courses[i].doc.(isDeleted := true, isActive := false))
    ensures d == db.(courses := d.courses, moduleMappings := d.moduleMappings, modules := d.modules,
                     priceMappings := d.priceMappings, prices := d.prices,
                     specialPriceMappings := d.specialPriceMappings, specialPrices := d.specialPrices)
  {
    var id := db.courses[i].id;
    db.(courses := SetDoc(db.courses, i, db.courses[i].doc.(isDeleted := true, isActive := false)),
        moduleMappings := RetireModuleLinks(db.moduleMappings, id, now),
        modules := RetireModules(db.modules, LinkedModuleIds(db.moduleMappings, id)),
        priceMappings := RetirePriceLinks(db.priceMappings, id, now),
        prices := DeactivatePrices(db.prices, LinkedPriceIds(db.priceMappings, id)),
        specialPriceMappings := RetireSpecialLinks(db.specialPriceMappings, id, now),
        specialPrices := DeactivateSpecialPrices(db.specialPrices, LinkedSpecialIds(db.specialPriceMappings, id)))
  }

  /** `findByIdAndUpdate` with no deleted filter: a course deleted before is found again. */
  function DeleteCourseSpec(db: Db, id: Id, now: Time): (o: Outcome<Row<Course>>)
    ensures o.res.Ok? <==> Find(db.courses, id).Some?
    ensures o.res.Err? ==> o == Outcome(db, Err(404, "Course not found"))
    ensures o.res.Ok? ==>
      && o.res.status == 200 && o.res.message == "Course and related data soft-deleted"
      && o.res.data.id == id
      && o.res.data.doc == Get(db.courses, id).value.(isDeleted := true, isActive := false)
      && o.db.nextId == db.nextId
  {
    match Find(db.courses, id)
    case None => Outcome(db, Err(404, "Course not found"))
    case Some(i) =>
      Outcome(Cascaded(db, i, now),
              Ok(200, "Course and related data soft-deleted",
                 Row(id, db.courses[i].doc.(isDeleted := true, isActive := false))))
  }

  method DeleteCourse(st: Store, id: Id, now: Time) returns (r: ApiResult<Row<Course>>)
    modifies st
    requires st.Valid()
    ensures st.Valid()
    ensures Outcome(st.db, r) == DeleteCourseSpec(old(st.db), id, now)
  {
    DeleteCourseKeepsKeyed(st.db, id, now);
    var at := Find(st.db.courses, id);
    if at.None? {
      return Err(404, "Course not found");
    }
    var course := st.db.courses[at.value].doc.(isDeleted := true, isActive := false);
    var moduleIds := LinkedModuleIds(st.db.moduleMappings, id);
    var priceIds := LinkedPriceIds(st.db.priceMappings, id);
    var specialIds := LinkedSpecialIds(st.db.specialPriceMappings, id);
    st.db := st.db.(courses := SetDoc(st.db.courses, at.value, course),
                    moduleMappings := RetireModuleLinks(st.db.moduleMappings, id, now),
                    modules := RetireModules(st.db.modules, moduleIds),
                    priceMappings := RetirePriceLinks(st.db.priceMappings, id, now),
                    prices := DeactivatePrices(st.db.prices, priceIds),
                    specialPriceMappings := RetireSpecialLinks(st.db.specialPriceMappings, id, now),
                    specialPrices := DeactivateSpecialPrices(st.db.specialPrices, specialIds));
    r := Ok(200, "Course and related data soft-deleted", Row(id, course));
  }

  /** The three `updateMany` calls on the mappings have no deleted filter: every mapping row
      of the course, live or not, ends deleted and inactive with `validTo = now`; mapping rows
      of other courses are untouched. */
  lemma DeleteCourseRetiresLinks(db: Db, id: Id, now: Time)
    requires DeleteCourseSpec(db, id, now).res.Ok?
    ensures var d := DeleteCourseSpec(db, id, now).db;
      && SameIds(db.moduleMappings, d.moduleMappings)
      && (forall k :: 0 <= k < |db.moduleMappings| ==>
            d.moduleMappings[k].doc ==
              if db.moduleMappings[k].doc.courseId == id
              then db.moduleMappings[k].doc.(isDeleted := true, isActive := false, validTo := Some(now))
              else db.moduleMappings[k].doc)
      && SameIds(db.priceMappings, d.priceMappings)
      && (forall k :: 0 <= k < |db.priceMappings| ==>
            d.priceMappings[k].doc ==
              if db.priceMappings[k].doc.courseId == id
              then db.priceMappings[k].doc.(isDeleted := true, isActive := false, validTo := Some(now))
              else db.priceMappings[k].doc)
      && SameIds(db.specialPriceMappings, d.specialPriceMappings)
      && (forall k :: 0 <= k < |db.specialPriceMappings| ==>
            d.specialPriceMappings[k].doc ==
              if db.specialPriceMappings[k].doc.courseId == id
              then db.specialPriceMappings[k].doc.(isDeleted := true, isActive := false, validTo := Some(now))
              else db.specialPriceMappings[k].doc)
  {
  }

  /** Only the targets of mappings that were live before the delete are marked: modules become
      deleted and inactive, prices and special prices only inactive (their schemas name the
      flag `isDelete`, so the `isDeleted` write is dropped). */
  lemma DeleteCourseRetiresTargets(db: Db, id: Id, now: Time)
    requires DeleteCourseSpec(db, id, now).res.Ok?
    ensures var d := DeleteCourseSpec(db, id, now).db;
      && SameIds(db.modules, d.modules)
      && (forall k :: 0 <= k < |db.modules| ==>
            d.modules[k].doc ==
              if exists l :: l in db.moduleMappings && ModuleLinksOf(id)(l) && l.doc.moduleId == db.modules[k].id
              then db.modules[k].doc.(isDeleted := true, isActive := false)
              else db.modules[k].doc)
      && SameIds(db.prices, d.prices)
      && (forall k :: 0 <= k < |db.prices| ==>
            d.prices[k].doc ==
              if exists l :: l in db.priceMappings && PriceLinksOf(id)(l) && l.doc.priceId == db.prices[k].id
              then db.prices[k].doc.(isActive := false)
              else db.prices[k].doc)
      && SameIds(db.specialPrices, d.specialPrices)
      && (forall k :: 0 <= k < |db.specialPrices| ==>
            d.specialPrices[k].doc ==
              if exists l :: l in db.specialPriceMappings && SpecialLinksOf(id)(l) &&
                             l.doc.specialPriceId == db.specialPrices[k].id
              then db.specialPrices[k].doc.(isActive := false)
              else db.specialPrices[k].doc)
  {
  }

  /** After the delete the course reads as missing. */
  lemma DeleteCourseHides(db: Db, id: Id, now: Time)
    requires DeleteCourseSpec(db, id, now).res.Ok?
    ensures SingleCourseSpec(DeleteCourseSpec(db, id, now).db, id) == Err(404, "Course not found")
  {
    FindSameIds(db.courses, DeleteCourseSpec(db, id, now).db.courses, id);
  }

  /** A table with no live link of the course filters to nothing. */
  lemma NoModuleLinks(t: Table<ModuleMapping>, courseId: Id)
    requires forall k :: 0 <= k < |t| ==> !ModuleLinksOf(courseId)(t[k])
    ensures Filter(t, ModuleLinksOf(courseId)) == []
  {
    FrontIsMember(Filter(t, ModuleLinksOf(courseId)));
  }

  /** After the delete the course has no live module, price or special-price link left. */
  lemma DeleteCourseUnlinks(db: Db, id: Id, now: Time)
    requires DeleteCourseSpec(db, id, now).res.Ok?
    ensures var d := DeleteCourseSpec(db, id, now).db;
      && Filter(d.moduleMappings, ModuleLinksOf(id)) == []
      && PriceOf(d, id).None? && SpecialPriceOf(d, id).None?
  {
    var d := DeleteCourseSpec(db, id, now).db;
    assert d.moduleMappings == RetireModuleLinks(db.moduleMappings, id, now);
    NoModuleLinks(d.moduleMappings, id);
  }

  /** A module named in the id set reads back soft-deleted. */
  lemma RetiredModuleReads(t: Table<CourseModule>, ids: set<Id>, id: Id)
    requires id in ids && Get(t, id).Some?
    ensures Get(RetireModules(t, ids), id) == Some(Get(t, id).value.(isDeleted := true, isActive := false))
  {
    FindSameIds(t, RetireModules(t, ids), id);
  }

  /** Every module the course's detail listed before the delete is soft-deleted by it. */
  lemma DeleteCourseRetiresModules(db: Db, id: Id, now: Time)
    requires DeleteCourseSpec(db, id, now).res.Ok? && SingleCourseSpec(db, id).Ok?
    ensures var d := DeleteCourseSpec(db, id, now).db;
      forall x :: x in SingleCourseSpec(db, id).data.modules ==>
        Get(d.modules, x.id) == Some(Get(db.modules, x.id).value.(isDeleted := true, isActive := false))
  {
    var d := DeleteCourseSpec(db, id, now).db;
    var ids := LinkedModuleIds(db.moduleMappings, id);
    assert d.modules == RetireModules(db.modules, ids);
    forall x | x in SingleCourseSpec(db, id).data.modules
      ensures Get(d.modules, x.id) == Some(Get(db.modules, x.id).value.(isDeleted := true, isActive := false))
    {
      var l :| l in db.moduleMappings && ModuleLinksOf(id)(l) && l.doc.moduleId == x.id;
      assert x.id in ids;
      GetAbsent(db.modules, x.id);
      RetiredModuleReads(db.modules, ids, x.id);
    }
  }

  /** Deleting twice succeeds twice with the same course, since the lookup ignores the flag. */
  lemma DeleteCourseAgain(db: Db, id: Id, now: Time, later: Time)
    requires DeleteCourseSpec(db, id, now).res.Ok?
    ensures var first := DeleteCourseSpec(db, id, now);
      var second := DeleteCourseSpec(first.db, id, later);
      second.res == first.res
  {
    var first := DeleteCourseSpec(db, id, now);
    FindSameIds(db.courses, first.db.courses, id);
  }

  lemma DeleteCourseKeepsKeyed(db: Db, id: Id, now: Time)
    requires WellKeyed(db)
    ensures WellKeyed(DeleteCourseSpec(db, id, now).db)
  {
    match Find(db.courses, id)
    case None =>
    case Some(i) =>
      var d := Cascaded(db, i, now);
      var n := db.nextId;
      KeyedRewrite(db.courses, d.courses, n);
      KeyedRewrite(db.moduleMappings, d.moduleMappings, n);
      KeyedRewrite(db.modules, d.modules, n);
      KeyedRewrite(db.priceMappings, d.priceMappings, n);
      KeyedRewrite(db.prices, d.prices, n);
      KeyedRewrite(db.specialPriceMappings, d.specialPriceMappings, n);
      KeyedRewrite(db.specialPrices, d.specialPrices, n);
      var d1 := db.(courses := d.courses);
      ReplaceCourses(db, d.courses);
      var d2 := d1.(moduleMappings := d.moduleMappings);
      ReplaceModuleMappings(d1, d.moduleMappings);
      var d3 := d2.(modules := d.modules);
      ReplaceModules(d2, d.modules);
      var d4 := d3.(priceMappings := d.priceMappings);
      ReplacePriceMappings(d3, d.priceMappings);
      var d5 := d4.(prices := d.prices);
      ReplacePrices(d4, d.prices);
      var d6 := d5.(specialPriceMappings := d.specialPriceMappings);
      ReplaceSpecialPriceMappings(d5, d.specialPriceMappings);
      ReplaceSpecialPrices(d6, d.specialPrices);
      assert d == d6.(specialPrices := d.specialPrices);
  }
}
