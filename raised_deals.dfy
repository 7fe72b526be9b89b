/** Raised deals: an agreed price and seat count for a course, linked to the institute user it
    was raised for. Admins create, edit, list and soft-delete deals; a user reads the deals
    linked to them. */
module RaisedDeals {
  import opened Wrappers
  import opened Tables
  import opened Models

  datatype DealRequest = DealRequest(
    agreementPrice: int, seats: int, adminMessage: string, courseId: Option<Id>, userId: Option<Id>)

  /** An entry of the admin listing: the deal's own fields and the name of the user it is for. */
  datatype DealView = DealView(deal: Row<Deal>, userName: string)

  /** The single-deal read: the deal with its linked user and course, each null when gone. */
  datatype DealDetail = DealDetail(deal: Row<Deal>, user: Option<Row<User>>, course: Option<Row<Course>>)

  // ---------------------------------------------------------------------------
  // Queries

  /** `findOne({ _id: id, isDeleted: false })` on a table whose rows carry `isDeleted`. */
  function LiveDeal(t: Table<Deal>, id: Id): (r: Option<Row<Deal>>)
    ensures r.Some? ==> r.value in t && r.value.id == id && !r.value.doc.isDeleted
    ensures r.Some? <==> Find(t, id).Some? && !t[Find(t, id).value].doc.isDeleted
  {
    match Find(t, id)
    case Some(i) => if t[i].doc.isDeleted then None else Some(t[i])
    case None => None
  }

  function LiveUser(t: Table<User>, id: Id): Option<Row<User>> {
    match Find(t, id)
    case Some(i) => if t[i].doc.isDeleted then None else Some(t[i])
    case None => None
  }

  function LiveCourse(t: Table<Course>, id: Id): Option<Row<Course>> {
    match Find(t, id)
    case Some(i) => if t[i].doc.isDeleted then None else Some(t[i])
    case None => None
  }

  /** `user?.userName || "Unknown"` for a user looked up with a deleted filter. */
  function UserNameOr(users: Table<User>, id: Id): (r: string)
    ensures LiveUser(users, id).None? ==> r == "Unknown"
  {
    match LiveUser(users, id)
    case Some(u) => if u.doc.userName != "" then u.doc.userName else "Unknown"
    case None => "Unknown"
  }

  predicate IsLiveLink(x: Row<DealMapping>) { !x.doc.isDeleted }

  /** The live links a user holds (`DealMapping.find({ userId, isDeleted: false })`). */
  function HeldBy(userId: Id): Row<DealMapping> -> bool {
    (x: Row<DealMapping>) => x.doc.userId == userId && !x.doc.isDeleted
  }

  // ---------------------------------------------------------------------------
  // createRaisedDeal

  predicate Complete(req: DealRequest) {
    req.agreementPrice != 0 && req.seats != 0 && Given(req.adminMessage) && req.courseId.Some? &&
    req.userId.Some?
  }

  /** The validation error the deal schema raises: it requires `requestedPrice` and
      `requestedSeats`, while the handler writes `agreementPrice` and `seats`, which strict mode
      drops. */
  const DEAL_FIELDS_REJECTED: string :=
    "RaisedDeal validation failed: requestedPrice: Path `requestedPrice` is required., " +
    "requestedSeats: Path `requestedSeats` is required."

  /** The handler as written against its schema: a complete request reaches `RaisedDeal.create`,
      which fails validation before anything is stored. */
  function CreateRaisedDealAsWritten(db: Db, req: DealRequest): (o: Outcome<(Row<Deal>, Row<DealMapping>)>)
    ensures o.db == db && o.res.Err?
    ensures !Complete(req) ==> o.res.status == 400
  {
    if !Complete(req) then Outcome(db, Err(400, "Missing required fields: price, seats, courseId, userId"))
    else Outcome(db, Err(SERVER_ERROR, DEAL_FIELDS_REJECTED))
  }

  /** The handler with a schema that declares the fields it writes. */
  function CreateRaisedDealSpec(db: Db, req: DealRequest): (o: Outcome<(Row<Deal>, Row<DealMapping>)>)
    ensures o.res.Err? <==> !Complete(req)
    ensures o.res.Err? ==> o == Outcome(db, Err(400, "Missing required fields: price, seats, courseId, userId"))
    ensures o.res.Ok? ==>
      var (d, m) := o.res.data;
      && o.res.status == 201
      && d == Row(db.nextId, Deal(req.agreementPrice, req.seats, req.adminMessage, "pending", "", false))
      && m == Row(db.nextId + 1, DealMapping(req.courseId.value, req.userId.value, d.id, None, true, false))
      && o.db == db.(deals := db.deals + [d], dealMappings := db.dealMappings + [m], nextId := db.nextId + 2)
  {
    if !Complete(req) then Outcome(db, Err(400, "Missing required fields: price, seats, courseId, userId"))
    else
      var d := Row(db.nextId, Deal(req.agreementPrice, req.seats, req.adminMessage, "pending", "", false));
      var m := Row(db.nextId + 1, DealMapping(req.courseId.value, req.userId.value, d.id, None, true, false));
      Outcome(db.(deals := db.deals + [d], dealMappings := db.dealMappings + [m], nextId := db.nextId + 2),
              Ok(201, "Deal created successfully", (d, m)))
  }

  method CreateRaisedDeal(st: Store, req: DealRequest) returns (r: ApiResult<(Row<Deal>, Row<DealMapping>)>)
    modifies st
    requires st.Valid()
    ensures st.Valid()
    ensures Outcome(st.db, r) == CreateRaisedDealSpec(old(st.db), req)
  {
    CreateKeepsKeyed(st.db, req);
    if !Complete(req) {
      return Err(400, "Missing required fields: price, seats, courseId, userId");
    }
    var dealId := st.db.nextId;
    var deal := Row(dealId, Deal(req.agreementPrice, req.seats, req.adminMessage, "pending", "", false));
    var mapping := Row(dealId + 1, DealMapping(req.courseId.value, req.userId.value, dealId, None, true, false));
    st.db := st.db.(deals := st.db.deals + [deal], dealMappings := st.db.dealMappings + [mapping],
                    nextId := st.db.nextId + 2);
    r := Ok(201, "Deal created successfully", (deal, mapping));
  }

  /** Every request the intended handler accepts, the written one refuses with the schema's
      validation error and no write; the two agree on every other request. */
  lemma CreateAsWrittenFails(db: Db, req: DealRequest)
    ensures CreateRaisedDealSpec(db, req).res.Ok? <==>
      CreateRaisedDealAsWritten(db, req) == Outcome(db, Err(SERVER_ERROR, DEAL_FIELDS_REJECTED))
    ensures CreateRaisedDealSpec(db, req).res.Err? ==>
      CreateRaisedDealAsWritten(db, req) == CreateRaisedDealSpec(db, req)
  {
  }

  lemma CreateKeepsKeyed(db: Db, req: DealRequest)
    requires WellKeyed(db)
    ensures WellKeyed(CreateRaisedDealSpec(db, req).db)
  {
    var o := CreateRaisedDealSpec(db, req);
    if o.res.Ok? {
      var (d, m) := o.res.data;
      var db1 := db.(nextId := db.nextId + 2);
      Advance(db, db1.nextId);
      KeyedInsert(db.deals, d.doc, db.nextId, db1.nextId);
      ReplaceDeals(db1, db.deals + [d]);
      KeyedInsert(db.dealMappings, m.doc, db.nextId + 1, db1.nextId);
      ReplaceDealMappings(db1.(deals := db.deals + [d]), db.dealMappings + [m]);
    }
  }

  // ---------------------------------------------------------------------------
  // updateRaisedDeal

  function UpdateRaisedDealSpec(db: Db, id: Id, agreementPrice: Option<int>, seats: Option<int>,
                                adminMessage: Option<string>): (o: Outcome<Deal>)
    ensures o.res.Err? <==> LiveDeal(db.deals, id).None?
    ensures o.res.Err? ==> o == Outcome(db, Err(404, "Deal not found"))
    ensures o.res.Ok? ==>
      var i := Find(db.deals, id).value;
      var d := db.deals[i].doc;
      && o.res.status == 200
      && o.res.data == d.(agreementPrice := Patch(d.agreementPrice, agreementPrice), seats := Patch(d.seats, seats),
                          adminMessage := Patch(d.adminMessage, adminMessage))
      && o.db == db.(deals := SetDoc(db.deals, i, o.res.data))
  {
    match Find(db.deals, id)
    case None => Outcome(db, Err(404, "Deal not found"))
    case Some(i) =>
      var d := db.deals[i].doc;
      if d.isDeleted then Outcome(db, Err(404, "Deal not found"))
      else
        var u := d.(agreementPrice := Patch(d.agreementPrice, agreementPrice), seats := Patch(d.seats, seats),
                    adminMessage := Patch(d.adminMessage, adminMessage));
        Outcome(db.(deals := SetDoc(db.deals, i, u)), Ok(200, "Deal updated successfully", u))
  }

  method UpdateRaisedDeal(st: Store, id: Id, agreementPrice: Option<int>, seats: Option<int>,
                          adminMessage: Option<string>) returns (r: ApiResult<Deal>)
    modifies st
    requires st.Valid()
    ensures st.Valid()
    ensures Outcome(st.db, r) == UpdateRaisedDealSpec(old(st.db), id, agreementPrice, seats, adminMessage)
  {
    UpdateKeepsKeyed(st.db, id, agreementPrice, seats, adminMessage);
    var at := Find(st.db.deals, id);
    if at.None? || st.db.deals[at.value].doc.isDeleted {
      return Err(404, "Deal not found");
    }
    var d := st.db.deals[at.value].doc;
    var u := d.(agreementPrice := Patch(d.agreementPrice, agreementPrice), seats := Patch(d.seats, seats),
                adminMessage := Patch(d.adminMessage, adminMessage));
    st.db := st.db.(deals := SetDoc(st.db.deals, at.value, u));
    r := Ok(200, "Deal updated successfully", u);
  }

  lemma UpdateKeepsKeyed(db: Db, id: Id, agreementPrice: Option<int>, seats: Option<int>, adminMessage: Option<string>)
    requires WellKeyed(db)
    ensures WellKeyed(UpdateRaisedDealSpec(db, id, agreementPrice, seats, adminMessage).db)
  {
    var o := UpdateRaisedDealSpec(db, id, agreementPrice, seats, adminMessage);
    if o.res.Ok? {
      KeyedRewrite(db.deals, o.db.deals, db.nextId);
      ReplaceDeals(db, o.db.deals);
    }
  }

  // ---------------------------------------------------------------------------
  // deleteRaisedDeal

  /** `updateMany({ raisedDealId }, { isDeleted: true, isActive: false, validTo: now })`. */
  function RetireLinks(t: Table<DealMapping>, dealId: Id, now: Time): (r: Table<DealMapping>)
    ensures SameIds(t, r)
    ensures forall k :: 0 <= k < |t| && t[k].doc.raisedDealId == dealId ==>
      r[k].doc == t[k].doc.(isDeleted := true, isActive := false, validTo := Some(now))
    ensures forall k :: 0 <= k < |t| && t[k].doc.raisedDealId != dealId ==> r[k] == t[k]
  {
    MapDocs(t, (x: Row<DealMapping>) =>
      if x.doc.raisedDealId == dealId then x.doc.(isDeleted := true, isActive := false, validTo := Some(now))
      else x.doc)
  }

  /** The deal must be live; its links are retired whatever their state. The answer has no data. */
  function DeleteRaisedDealSpec(db: Db, id: Id, now: Time): (o: Outcome<()>)
    ensures o.res.Err? <==> LiveDeal(db.deals, id).None?
    ensures o.res.Err? ==> o == Outcome(db, Err(404, "Deal not found"))
    ensures o.res.Ok? ==>
      var i := Find(db.deals, id).value;
      && o.res == Ok(200, "Deal and mapping deleted successfully", ())
      && o.db == db.(deals := SetDoc(db.deals, i, db.deals[i].doc.(isDeleted := true)),
                     dealMappings := RetireLinks(db.dealMappings, id, now))
  {
    match LiveDeal(db.deals, id)
    case None => Outcome(db, Err(404, "Deal not found"))
    case Some(_) =>
      var i := Find(db.deals, id).value;
      Outcome(db.(deals := SetDoc(db.deals, i, db.deals[i].doc.(isDeleted := true)),
                  dealMappings := RetireLinks(db.dealMappings, id, now)),
              Ok(200, "Deal and mapping deleted successfully", ()))
  }

  method DeleteRaisedDeal(st: Store, id: Id, now: Time) returns (r: ApiResult<()>)
    modifies st
    requires st.Valid()
    ensures st.Valid()
    ensures Outcome(st.db, r) == DeleteRaisedDealSpec(old(st.db), id, now)
  {
    DeleteKeepsKeyed(st.db, id, now);
    var at := Find(st.db.deals, id);
    if at.None? || st.db.deals[at.value].doc.isDeleted {
      return Err(404, "Deal not found");
    }
    var deal := st.db.deals[at.value].doc.(isDeleted := true);
    st.db := st.db.(deals := SetDoc(st.db.deals, at.value, deal),
                    dealMappings := RetireLinks(st.db.dealMappings, id, now));
    r := Ok(200, "Deal and mapping deleted successfully", ());
  }

  /** A deleted deal stays deleted: deleting it again answers 404 and writes nothing. */
  lemma DeleteTwiceNotFound(db: Db, id: Id, now: Time, later: Time)
    requires DeleteRaisedDealSpec(db, id, now).res.Ok?
    ensures var db1 := DeleteRaisedDealSpec(db, id, now).db;
      DeleteRaisedDealSpec(db1, id, later) == Outcome(db1, Err(404, "Deal not found"))
  {
    var db1 := DeleteRaisedDealSpec(db, id, now).db;
    FindSameIds(db.deals, db1.deals, id);
  }

  /** The cascade reaches every link of the deal, live or not, and no other link. */
  lemma DeleteCascadeExact(db: Db, id: Id, now: Time, k: nat)
    requires DeleteRaisedDealSpec(db, id, now).res.Ok? && k < |db.dealMappings|
    ensures var after := DeleteRaisedDealSpec(db, id, now).db.dealMappings;
      && after[k].id == db.dealMappings[k].id
      && (db.dealMappings[k].doc.raisedDealId == id ==>
            after[k].doc.isDeleted && !after[k].doc.isActive && after[k].doc.validTo == Some(now))
      && (db.dealMappings[k].doc.raisedDealId != id ==> after[k] == db.dealMappings[k])
  {
  }

  lemma DeleteKeepsKeyed(db: Db, id: Id, now: Time)
    requires WellKeyed(db)
    ensures WellKeyed(DeleteRaisedDealSpec(db, id, now).db)
  {
    var o := DeleteRaisedDealSpec(db, id, now);
    if o.res.Ok? {
      KeyedRewrite(db.deals, o.db.deals, db.nextId);
      ReplaceDeals(db, o.db.deals);
      KeyedRewrite(db.dealMappings, o.db.dealMappings, db.nextId);
      ReplaceDealMappings(db.(deals := o.db.deals), o.db.dealMappings);
    }
  }

  // ---------------------------------------------------------------------------
  // getAllDeals, getDealsForUser

  /** What one pass of the admin loop pushes for a link: its deal, if live, with a user name. */
  function EntryFor(db: Db, m: Row<DealMapping>): seq<DealView> {
    match LiveDeal(db.deals, m.doc.raisedDealId)
    case Some(d) => [DealView(d, UserNameOr(db.users, m.doc.userId))]
    case None => []
  }

  /** The admin loop over the links, in link order. */
  function DealRows(db: Db, ms: Table<DealMapping>): (r: seq<DealView>)
    ensures |r| <= |ms|
    decreases |ms|
  {
    if ms == [] then [] else DealRows(db, ms[..|ms| - 1]) + EntryFor(db, ms[|ms| - 1])
  }

  /** Every entry shows a live deal that some link names, with that link's user name. */
  lemma {:induction false} DealRowsSound(db: Db, ms: Table<DealMapping>, v: DealView)
    requires v in DealRows(db, ms)
    ensures LiveDeal(db.deals, v.deal.id) == Some(v.deal)
    ensures exists m :: m in ms && m.doc.raisedDealId == v.deal.id && v.userName == UserNameOr(db.users, m.doc.userId)
    decreases |ms|
  {
    var front := ms[..|ms| - 1];
    var last := ms[|ms| - 1];
    if v in DealRows(db, front) {
      DealRowsSound(db, front, v);
      var m :| m in front && m.doc.raisedDealId == v.deal.id && v.userName == UserNameOr(db.users, m.doc.userId);
      assert m in ms;
    } else {
      assert v in EntryFor(db, last);
    }
  }

  /** Every link whose deal is live gets an entry for that deal. */
  lemma {:induction false} DealRowsComplete(db: Db, ms: Table<DealMapping>, m: Row<DealMapping>)
    requires m in ms && LiveDeal(db.deals, m.doc.raisedDealId).Some?
    ensures exists v :: v in DealRows(db, ms) && v.deal.id == m.doc.raisedDealId
    decreases |ms|
  {
    var front := ms[..|ms| - 1];
    var last := ms[|ms| - 1];
    if m == last {
      var v := EntryFor(db, last)[0];
      assert v in DealRows(db, ms);
    } else {
      var k :| 0 <= k < |ms| && ms[k] == m;
      assert front[k] == m;
      DealRowsComplete(db, front, m);
      var v :| v in DealRows(db, front) && v.deal.id == m.doc.raisedDealId;
      assert v in DealRows(db, ms);
    }
  }

  method GetAllDeals(st: Store) returns (r: ApiResult<seq<DealView>>)
    ensures r == Ok(200, "All deals with user", DealRows(st.db, Filter(st.db.dealMappings, IsLiveLink)))
  {
    var db := st.db;
    var ms := Filter(db.dealMappings, IsLiveLink);
    var all: seq<DealView> := [];
    for i := 0 to |ms|
      invariant all == DealRows(db, ms[..i])
    {
      assert ms[..i + 1][..i] == ms[..i];
      assert DealRows(db, ms[..i + 1]) == DealRows(db, ms[..i]) + EntryFor(db, ms[i]);
      var deal := LiveDeal(db.deals, ms[i].doc.raisedDealId);
      if deal.Some? {
        all := all + [DealView(deal.value, UserNameOr(db.users, ms[i].doc.userId))];
      }
    }
    assert ms[..|ms|] == ms;
    r := Ok(200, "All deals with user", all);
  }

  /** A deal raised for a live course is listed for the admin, with its user's name. */
  lemma CreateThenListed(db: Db, req: DealRequest)
    requires WellKeyed(db) && CreateRaisedDealSpec(db, req).res.Ok?
    ensures var o := CreateRaisedDealSpec(db, req);
      exists v :: v in DealRows(o.db, Filter(o.db.dealMappings, IsLiveLink)) && v.deal == o.res.data.0
  {
    var o := CreateRaisedDealSpec(db, req);
    var (d, m) := o.res.data;
    KeyedInsert(db.deals, d.doc, db.nextId, o.db.nextId);
    KeyedIncreasing(o.db.deals, o.db.nextId);
    FindUnique(o.db.deals, d.id, |db.deals|);
    var ms := Filter(o.db.dealMappings, IsLiveLink);
    assert m in ms;
    DealRowsComplete(o.db, ms, m);
    var v :| v in DealRows(o.db, ms) && v.deal.id == d.id;
    DealRowsSound(o.db, ms, v);
  }

  /** What one pass of the user's loop pushes for a link. */
  function DealOf(db: Db, m: Row<DealMapping>): seq<Row<Deal>> {
    match LiveDeal(db.deals, m.doc.raisedDealId)
    case Some(d) => [d]
    case None => []
  }

  /** The user's loop over their live links, in link order. */
  function UserDeals(db: Db, ms: Table<DealMapping>): (r: Table<Deal>)
    ensures |r| <= |ms|
    decreases |ms|
  {
    if ms == [] then [] else UserDeals(db, ms[..|ms| - 1]) + DealOf(db, ms[|ms| - 1])
  }

  /** The user's list holds exactly the live deals their links name. */
  lemma {:induction false} UserDealsExact(db: Db, ms: Table<DealMapping>, d: Row<Deal>)
    ensures d in UserDeals(db, ms) <==>
      LiveDeal(db.deals, d.id) == Some(d) && exists m :: m in ms && m.doc.raisedDealId == d.id
    decreases |ms|
  {
    if ms != [] {
      var front := ms[..|ms| - 1];
      var last := ms[|ms| - 1];
      UserDealsExact(db, front, d);
      assert forall m :: m in ms <==> m in front || m == last by {
        forall m | m in ms ensures m in front || m == last {
          var k :| 0 <= k < |ms| && ms[k] == m;
          if k < |ms| - 1 { assert front[k] == m; }
        }
      }
    }
  }

  /** `getDealsForUser`: the caller's live deals, one per live link. */
  method GetDealsForUser(st: Store, userId: Id) returns (r: ApiResult<Table<Deal>>)
    ensures r == Ok(200, "Your raised deals fetched", UserDeals(st.db, Filter(st.db.dealMappings, HeldBy(userId))))
  {
    var db := st.db;
    var ms := Filter(db.dealMappings, HeldBy(userId));
    var deals: Table<Deal> := [];
    for i := 0 to |ms|
      invariant deals == UserDeals(db, ms[..i])
    {
      assert ms[..i + 1][..i] == ms[..i];
      assert UserDeals(db, ms[..i + 1]) == UserDeals(db, ms[..i]) + DealOf(db, ms[i]);
      var deal := LiveDeal(db.deals, ms[i].doc.raisedDealId);
      if deal.Some? {
        deals := deals + [deal.value];
      }
    }
    assert ms[..|ms|] == ms;
    r := Ok(200, "Your raised deals fetched", deals);
  }

  // ---------------------------------------------------------------------------
  // getSingleDealForUser, getSingleDealById

  /** The access check comes first: without a live link of their own the caller gets 403, even
      for a deal that does not exist. */
  function GetSingleDealForUser(db: Db, id: Id, userId: Id): (r: ApiResult<Row<Deal>>)
    ensures r.Err? && r.status == 403 <==>
      forall m :: m in db.dealMappings ==> !(HeldBy(userId)(m) && m.doc.raisedDealId == id)
    ensures r.Err? && r.status == 403 ==> r == Err(403, "No access to this deal")
    ensures r.Err? && r.status != 403 ==> r == Err(404, "Deal not found") && LiveDeal(db.deals, id).None?
    ensures r.Ok? ==> r.status == 200 && Some(r.data) == LiveDeal(db.deals, id)
  {
    match First(db.dealMappings, (x: Row<DealMapping>) => HeldBy(userId)(x) && x.doc.raisedDealId == id)
    case None => Err(403, "No access to this deal")
    case Some(_) =>
      match LiveDeal(db.deals, id)
      case None => Err(404, "Deal not found")
      case Some(d) => Ok(200, "Deal fetched successfully", d)
  }

  /** `{ raisedDealId: id, isDeleted: false }` on the deal links. */
  function LiveLinkTo(id: Id): Row<DealMapping> -> bool {
    (x: Row<DealMapping>) => IsLiveLink(x) && x.doc.raisedDealId == id
  }

  /** The first live link of the deal decides the user and course shown. */
  function GetSingleDealById(db: Db, id: Id): (r: ApiResult<DealDetail>)
    ensures (forall m :: m in db.dealMappings ==> !(IsLiveLink(m) && m.doc.raisedDealId == id)) ==>
      r == Err(404, "Mapping not found")
    ensures ((exists m :: m in db.dealMappings && IsLiveLink(m) && m.doc.raisedDealId == id) &&
             LiveDeal(db.deals, id).None?) ==> r == Err(404, "Deal not found")
    ensures r.Ok? ==>
      && r.status == 200 && Some(r.data.deal) == LiveDeal(db.deals, id)
      && exists m :: m in db.dealMappings && IsLiveLink(m) && m.doc.raisedDealId == id &&
           r.data.user == LiveUser(db.users, m.doc.userId) && r.data.course == LiveCourse(db.courses, m.doc.courseId)
    ensures r.Ok? <==>
      (exists m :: m in db.dealMappings && IsLiveLink(m) && m.doc.raisedDealId == id) && LiveDeal(db.deals, id).Some?
    ensures forall k | r.Ok? && IsFirst(db.dealMappings, LiveLinkTo(id), k) ::
      && r.data.user == LiveUser(db.users, db.dealMappings[k].doc.userId)
      && r.data.course == LiveCourse(db.courses, db.dealMappings[k].doc.courseId)
  {
    FirstLink(db.dealMappings, LiveLinkTo(id));
    match First(db.dealMappings, LiveLinkTo(id))
    case None => Err(404, "Mapping not found")
    case Some(m) =>
      match LiveDeal(db.deals, id)
      case None => Err(404, "Deal not found")
      case Some(d) =>
        Ok(200, "Deal with mapped user and course fetched",
           DealDetail(d, LiveUser(db.users, m.doc.userId), LiveCourse(db.courses, m.doc.courseId)))
  }

  /** Deleting a deal makes both single reads fail. */
  lemma DeleteThenUnreadable(db: Db, id: Id, now: Time, userId: Id)
    requires DeleteRaisedDealSpec(db, id, now).res.Ok?
    ensures var db1 := DeleteRaisedDealSpec(db, id, now).db;
      GetSingleDealById(db1, id).Err? && GetSingleDealForUser(db1, id, userId).Err?
  {
    var db1 := DeleteRaisedDealSpec(db, id, now).db;
    FindSameIds(db.deals, db1.deals, id);
  }

  // ---------------------------------------------------------------------------
  // getCoursesWithDealsForInstitute

  /** The handler as written: after the 401 check it names `RaisedDealMapping`, which is never
      defined, so every signed-in call fails with a reference error. */
  function CoursesWithDealsAsWritten(db: Db, userId: Option<Id>): (r: ApiResult<Table<Course>>)
    ensures r.Err?
  {
    match userId
    case None => Err(401, "Unauthorized")
    case Some(_) => Err(SERVER_ERROR, "RaisedDealMapping is not defined")
  }

  /** The handler with the model it imports as `DealMapping`: the live courses named by the
      caller's live links, each once, in course-table order. */
  function CoursesWithDeals(db: Db, userId: Option<Id>): (r: ApiResult<Table<Course>>)
    ensures userId.None? <==> r.Err?
    ensures r.Err? ==> r == Err(401, "Unauthorized")
    ensures r.Ok? ==> r.status == 200 && forall c :: c in r.data <==>
      c in db.courses && !c.doc.isDeleted &&
      exists m :: m in db.dealMappings && HeldBy(userId.value)(m) && m.doc.courseId == c.id
    ensures r.Ok? && Increasing(db.courses) ==> Increasing(r.data)
  {
    match userId
    case None => Err(401, "Unauthorized")
    case Some(u) =>
      var ms := Filter(db.dealMappings, HeldBy(u));
      var ids := set m | m in ms :: m.doc.courseId;
      Ok(200, "Courses with raised deals",
         Within(Filter(db.courses, (c: Row<Course>) => !c.doc.isDeleted), ids))
  }

  /** The as-written handler answers 500 exactly where the repaired one lists courses. */
  lemma CoursesWithDealsAsWrittenFails(db: Db, userId: Option<Id>)
    ensures CoursesWithDeals(db, userId).Ok? <==>
      CoursesWithDealsAsWritten(db, userId) == Err(SERVER_ERROR, "RaisedDealMapping is not defined")
    ensures CoursesWithDeals(db, userId).Err? ==>
      CoursesWithDealsAsWritten(db, userId) == CoursesWithDeals(db, userId)
  {
  }

  /** Once a deal is raised for a user on a live course, that course is among theirs. */
  lemma CreateThenCourseListed(db: Db, req: DealRequest, c: Row<Course>)
    requires CreateRaisedDealSpec(db, req).res.Ok?
    requires c in db.courses && !c.doc.isDeleted && c.id == req.courseId.value
    ensures var o := CreateRaisedDealSpec(db, req);
      c in CoursesWithDeals(o.db, req.userId).data
  {
    var o := CreateRaisedDealSpec(db, req);
    assert o.res.data.1 in o.db.dealMappings;
  }
}
