/** Ratings: a signed-in user rates a course from 1 to 5; ratings are listed per course, edited
    and soft-deleted together with their course links. */
module Ratings {
  import opened Wrappers
  import opened Tables
  import opened Models

  /** A listed link with what `populate` brings along: the rating it names and its author's name,
      each null when the row is gone. */
  datatype RatingView = RatingView(link: Row<RatingMapping>, rating: Option<Rating>, userName: Option<string>)

  const MIN_RATING: int := 1
  const MAX_RATING: int := 5

  predicate InRange(rating: int) { MIN_RATING <= rating <= MAX_RATING }

  /** Every stored rating lies within the schema's bounds. */
  ghost predicate AllInRange(t: Table<Rating>) {
    forall x :: x in t ==> InRange(x.doc.rating)
  }

  // ---------------------------------------------------------------------------
  // The schema validator's messages

  function DigitChar(d: nat): char
    requires d < 10
  {
    "0123456789"[d]
  }

  function DecimalOf(n: nat): string
    decreases n
  {
    if n < 10 then [DigitChar(n)] else DecimalOf(n / 10) + [DigitChar(n % 10)]
  }

  function IntText(i: int): string {
    if i < 0 then "-" + DecimalOf(-i) else DecimalOf(i)
  }

  function OutOfRange(rating: int): string
    requires !InRange(rating)
  {
    if rating < MIN_RATING then
      "rating validation failed: rating: Path `rating` (" + IntText(rating) +
      ") is less than minimum allowed value (1)."
    else
      "rating validation failed: rating: Path `rating` (" + IntText(rating) +
      ") is more than maximum allowed value (5)."
  }

  // ---------------------------------------------------------------------------
  // createRating

  /** A rating of 0 is falsy and so counts as missing. */
  function CreateRatingSpec(db: Db, courseId: Option<Id>, rating: int, review: Option<string>, userId: Option<Id>)
    : (o: Outcome<(Row<Rating>, Row<RatingMapping>)>)
    ensures courseId.None? || rating == 0 || userId.None? ==>
      o == Outcome(db, Err(400, "courseId, rating, and userId are required"))
    ensures courseId.Some? && rating != 0 && userId.Some? && !InRange(rating) ==>
      o == Outcome(db, Err(SERVER_ERROR, OutOfRange(rating)))
    ensures o.res.Ok? <==> courseId.Some? && userId.Some? && InRange(rating)
    ensures o.res.Ok? ==>
      var (x, m) := o.res.data;
      && o.res.status == 201
      && x == Row(db.nextId, Rating(rating, review.GetOr(""), false, false, true, false))
      && m == Row(db.nextId + 1, RatingMapping(courseId.value, userId.value, x.id, false))
      && o.db == db.(ratings := db.ratings + [x], ratingMappings := db.ratingMappings + [m],
                     nextId := db.nextId + 2)
  {
    if courseId.None? || rating == 0 || userId.None? then
      Outcome(db, Err(400, "courseId, rating, and userId are required"))
    else if !InRange(rating) then Outcome(db, Err(SERVER_ERROR, OutOfRange(rating)))
    else
      var x := Row(db.nextId, Rating(rating, review.GetOr(""), false, false, true, false));
      var m := Row(db.nextId + 1, RatingMapping(courseId.value, userId.value, x.id, false));
      Outcome(db.(ratings := db.ratings + [x], ratingMappings := db.ratingMappings + [m],
                  nextId := db.nextId + 2),
              Ok(201, "Rating submitted successfully", (x, m)))
  }

  method CreateRating(st: Store, courseId: Option<Id>, rating: int, review: Option<string>, userId: Option<Id>)
    returns (r: ApiResult<(Row<Rating>, Row<RatingMapping>)>)
    modifies st
    requires st.Valid()
    ensures st.Valid()
    ensures Outcome(st.db, r) == CreateRatingSpec(old(st.db), courseId, rating, review, userId)
  {
    if courseId.None? || rating == 0 || userId.None? {
      return Err(400, "courseId, rating, and userId are required");
    }
    if !InRange(rating) {
      return Err(SERVER_ERROR, OutOfRange(rating));
    }
    var ratingId := st.db.nextId;
    var created := Row(ratingId, Rating(rating, review.GetOr(""), false, false, true, false));
    var mapping := Row(ratingId + 1, RatingMapping(courseId.value, userId.value, ratingId, false));
    st.db := st.db.(ratings := st.db.ratings + [created], ratingMappings := st.db.ratingMappings + [mapping],
                    nextId := st.db.nextId + 2);
    r := Ok(201, "Rating submitted successfully", (created, mapping));
    assert st.db == CreateRatingSpec(old(st.db), courseId, rating, review, userId).db;
    CreateKeepsKeyed(old(st.db), courseId, rating, review, userId);
  }

  /** Creation never stores a rating outside 1..5. */
  lemma CreateKeepsInRange(db: Db, courseId: Option<Id>, rating: int, review: Option<string>, userId: Option<Id>)
    requires AllInRange(db.ratings)
    ensures AllInRange(CreateRatingSpec(db, courseId, rating, review, userId).db.ratings)
  {
  }

  lemma CreateKeepsKeyed(db: Db, courseId: Option<Id>, rating: int, review: Option<string>, userId: Option<Id>)
    requires WellKeyed(db)
    ensures WellKeyed(CreateRatingSpec(db, courseId, rating, review, userId).db)
  {
    var o := CreateRatingSpec(db, courseId, rating, review, userId);
    if o.res.Ok? {
      var (x, m) := o.res.data;
      var db1 := db.(nextId := db.nextId + 2);
      Advance(db, db1.nextId);
      KeyedInsert(db.ratings, x.doc, db.nextId, db1.nextId);
      ReplaceRatings(db1, db.ratings + [x]);
      KeyedInsert(db.ratingMappings, m.doc, db.nextId + 1, db1.nextId);
      ReplaceRatingMappings(db1.(ratings := db.ratings + [x]), db.ratingMappings + [m]);
    }
  }

  // ---------------------------------------------------------------------------
  // getRatingsByCourse

  /** `RatingMapping.find({ courseId, isDeleted: false })`. */
  function CourseLinks(courseId: Id): Row<RatingMapping> -> bool {
    (x: Row<RatingMapping>) => x.doc.courseId == courseId && !x.doc.isDeleted
  }

  function UserNameAt(users: Table<User>, id: Id): Option<string> {
    match Get(users, id)
    case Some(u) => Some(u.userName)
    case None => None
  }

  /** The two `populate` calls over the fetched links, with no deleted filter on either. */
  function Populated(db: Db, links: Table<RatingMapping>): (r: seq<RatingView>)
    ensures |r| == |links|
    ensures forall k :: 0 <= k < |links| ==>
      r[k] == RatingView(links[k], Get(db.ratings, links[k].doc.ratingId), UserNameAt(db.users, links[k].doc.userId))
  {
    seq(|links|, k requires 0 <= k < |links| =>
      RatingView(links[k], Get(db.ratings, links[k].doc.ratingId), UserNameAt(db.users, links[k].doc.userId)))
  }

  function GetRatingsByCourse(db: Db, courseId: Id): (r: ApiResult<seq<RatingView>>)
    ensures r.Err? <==> forall m :: m in db.ratingMappings ==> !CourseLinks(courseId)(m)
    ensures r.Err? ==> r == Err(404, "No ratings found for this course")
    ensures r.Ok? ==> r.status == 200
    ensures r.Ok? ==> forall m :: m in db.ratingMappings && CourseLinks(courseId)(m) <==>
      exists v :: v in r.data && v.link == m
    ensures r.Ok? ==> forall v :: v in r.data ==> v.rating == Get(db.ratings, v.link.doc.ratingId)
  {
    var links := Filter(db.ratingMappings, CourseLinks(courseId));
    var views := Populated(db, links);
    assert links != [] ==> links[0] in links;
    assert forall m :: m in links ==> exists v :: v in views && v.link == m by {
      forall m | m in links ensures exists v :: v in views && v.link == m {
        var k :| 0 <= k < |links| && links[k] == m;
        assert views[k].link == m;
      }
    }
    if links == [] then Err(404, "No ratings found for this course")
    else Ok(200, "Ratings list", views)
  }

  /** A submitted rating is listed last for its course, with its value. */
  lemma CreateThenListed(db: Db, courseId: Option<Id>, rating: int, review: Option<string>, userId: Option<Id>)
    requires WellKeyed(db) && CreateRatingSpec(db, courseId, rating, review, userId).res.Ok?
    ensures var o := CreateRatingSpec(db, courseId, rating, review, userId);
      var l := GetRatingsByCourse(o.db, courseId.value);
      && l.Ok? && l.data != []
      && l.data[|l.data| - 1].link == o.res.data.1
      && l.data[|l.data| - 1].rating == Some(o.res.data.0.doc)
  {
    var o := CreateRatingSpec(db, courseId, rating, review, userId);
    var (x, m) := o.res.data;
    var links := Filter(o.db.ratingMappings, CourseLinks(courseId.value));
    FilterLast(o.db.ratingMappings, CourseLinks(courseId.value));
    KeyedInsert(db.ratings, x.doc, db.nextId, o.db.nextId);
    KeyedIncreasing(o.db.ratings, o.db.nextId);
    FindUnique(o.db.ratings, x.id, |db.ratings|);
    LastView(o.db, links, GetRatingsByCourse(o.db, courseId.value).data);
  }

  lemma LastView(db: Db, links: Table<RatingMapping>, l: seq<RatingView>)
    requires links != [] && l == Populated(db, links)
    ensures l != [] && l[|l| - 1].link == links[|links| - 1]
    ensures l[|l| - 1].rating == Get(db.ratings, links[|links| - 1].doc.ratingId)
  {
  }

  // ---------------------------------------------------------------------------
  // updateRating

  /** `findOneAndUpdate({ _id: id, isDeleted: false }, { rating, review })`: runs no validators,
      and an absent key is dropped from the update. */
  function UpdateRatingSpec(db: Db, id: Id, rating: Option<int>, review: Option<string>): (o: Outcome<Rating>)
    ensures o.res.Err? <==> Find(db.ratings, id).None? || db.ratings[Find(db.ratings, id).value].doc.isDeleted
    ensures o.res.Err? ==> o == Outcome(db, Err(404, "Rating not found"))
    ensures o.res.Ok? ==>
      var i := Find(db.ratings, id).value;
      && o.res.status == 200
      && o.res.data == db.ratings[i].doc.(rating := Patch(db.ratings[i].doc.rating, rating),
                                          review := Patch(db.ratings[i].doc.review, review))
      && o.db == db.(ratings := SetDoc(db.ratings, i, o.res.data))
  {
    match Find(db.ratings, id)
    case None => Outcome(db, Err(404, "Rating not found"))
    case Some(i) =>
      if db.ratings[i].doc.isDeleted then Outcome(db, Err(404, "Rating not found"))
      else
        var x := db.ratings[i].doc.(rating := Patch(db.ratings[i].doc.rating, rating),
                                    review := Patch(db.ratings[i].doc.review, review));
        Outcome(db.(ratings := SetDoc(db.ratings, i, x)), Ok(200, "Rating updated", x))
  }

  method UpdateRating(st: Store, id: Id, rating: Option<int>, review: Option<string>) returns (r: ApiResult<Rating>)
    modifies st
    requires st.Valid()
    ensures st.Valid()
    ensures Outcome(st.db, r) == UpdateRatingSpec(old(st.db), id, rating, review)
  {
    UpdateKeepsKeyed(st.db, id, rating, review);
    var at := Find(st.db.ratings, id);
    if at.None? || st.db.ratings[at.value].doc.isDeleted {
      return Err(404, "Rating not found");
    }
    var current := st.db.ratings[at.value].doc;
    var x := current.(rating := Patch(current.rating, rating), review := Patch(current.review, review));
    st.db := st.db.(ratings := SetDoc(st.db.ratings, at.value, x));
    r := Ok(200, "Rating updated", x);
  }

  /** The new value shows on every listed link to the edited rating. */
  lemma UpdateThenListed(db: Db, id: Id, rating: Option<int>, review: Option<string>, courseId: Id)
    requires UpdateRatingSpec(db, id, rating, review).res.Ok?
    ensures var o := UpdateRatingSpec(db, id, rating, review);
      var l := GetRatingsByCourse(o.db, courseId);
      l.Ok? ==> forall v :: v in l.data && v.link.doc.ratingId == id ==> v.rating == Some(o.res.data)
  {
    var o := UpdateRatingSpec(db, id, rating, review);
    FindSameIds(db.ratings, o.db.ratings, id);
  }

  /** The edit skips the schema's bounds: an in-range table can take a 9. */
  lemma UpdateCanLeaveRange(db: Db, id: Id)
    requires AllInRange(db.ratings) && UpdateRatingSpec(db, id, Some(9), None).res.Ok?
    ensures !AllInRange(UpdateRatingSpec(db, id, Some(9), None).db.ratings)
  {
    var o := UpdateRatingSpec(db, id, Some(9), None);
    var i := Find(db.ratings, id).value;
    assert o.db.ratings[i] in o.db.ratings;
  }

  lemma UpdateKeepsKeyed(db: Db, id: Id, rating: Option<int>, review: Option<string>)
    requires WellKeyed(db)
    ensures WellKeyed(UpdateRatingSpec(db, id, rating, review).db)
  {
    var o := UpdateRatingSpec(db, id, rating, review);
    if o.res.Ok? {
      KeyedRewrite(db.ratings, o.db.ratings, db.nextId);
      ReplaceRatings(db, o.db.ratings);
    }
  }

  // ---------------------------------------------------------------------------
  // deleteRating

  /** `updateMany({ ratingId }, { isDeleted: true })`: only the flag changes. */
  function RetireLinks(t: Table<RatingMapping>, ratingId: Id): (r: Table<RatingMapping>)
    ensures SameIds(t, r)
    ensures forall k :: 0 <= k < |t| && t[k].doc.ratingId == ratingId ==> r[k].doc == t[k].doc.(isDeleted := true)
    ensures forall k :: 0 <= k < |t| && t[k].doc.ratingId != ratingId ==> r[k] == t[k]
  {
    MapDocs(t, (x: Row<RatingMapping>) => if x.doc.ratingId == ratingId then x.doc.(isDeleted := true) else x.doc)
  }

  /** `findByIdAndUpdate(id, { isDeleted: true })`: no deleted filter and `isActive` untouched. */
  function DeleteRatingSpec(db: Db, id: Id): (o: Outcome<Rating>)
    ensures o.res.Err? <==> Find(db.ratings, id).None?
    ensures o.res.Err? ==> o == Outcome(db, Err(404, "Rating not found"))
    ensures o.res.Ok? ==>
      var i := Find(db.ratings, id).value;
      && o.res == Ok(200, "Rating and mapping soft-deleted", db.ratings[i].doc.(isDeleted := true))
      && o.db == db.(ratings := SetDoc(db.ratings, i, o.res.data),
                     ratingMappings := RetireLinks(db.ratingMappings, id))
  {
    match Find(db.ratings, id)
    case None => Outcome(db, Err(404, "Rating not found"))
    case Some(i) =>
      var x := db.ratings[i].doc.(isDeleted := true);
      Outcome(db.(ratings := SetDoc(db.ratings, i, x), ratingMappings := RetireLinks(db.ratingMappings, id)),
              Ok(200, "Rating and mapping soft-deleted", x))
  }

  method DeleteRating(st: Store, id: Id) returns (r: ApiResult<Rating>)
    modifies st
    requires st.Valid()
    ensures st.Valid()
    ensures Outcome(st.db, r) == DeleteRatingSpec(old(st.db), id)
  {
    DeleteKeepsKeyed(st.db, id);
    var at := Find(st.db.ratings, id);
    if at.None? {
      return Err(404, "Rating not found");
    }
    var x := st.db.ratings[at.value].doc.(isDeleted := true);
    st.db := st.db.(ratings := SetDoc(st.db.ratings, at.value, x),
                    ratingMappings := RetireLinks(st.db.ratingMappings, id));
    r := Ok(200, "Rating and mapping soft-deleted", x);
  }

  /** After a delete no course lists the rating, and it can no longer be edited. */
  lemma DeleteHides(db: Db, id: Id, courseId: Id, rating: Option<int>, review: Option<string>)
    requires DeleteRatingSpec(db, id).res.Ok?
    ensures var db1 := DeleteRatingSpec(db, id).db;
      && UpdateRatingSpec(db1, id, rating, review).res == Err(404, "Rating not found")
      && (GetRatingsByCourse(db1, courseId).Ok? ==>
            forall v :: v in GetRatingsByCourse(db1, courseId).data ==> v.link.doc.ratingId != id)
  {
    var db1 := DeleteRatingSpec(db, id).db;
    FindSameIds(db.ratings, db1.ratings, id);
    var l := GetRatingsByCourse(db1, courseId);
    if l.Ok? {
      forall v | v in l.data ensures v.link.doc.ratingId != id {
        assert v.link in db1.ratingMappings && CourseLinks(courseId)(v.link);
      }
    }
  }

  /** Deleting again still succeeds and changes nothing more; the rating stays active. */
  lemma DeleteAgain(db: Db, id: Id)
    requires DeleteRatingSpec(db, id).res.Ok?
    ensures var o1 := DeleteRatingSpec(db, id);
      var o2 := DeleteRatingSpec(o1.db, id);
      o2 == o1 && o1.res.data.isActive == db.ratings[Find(db.ratings, id).value].doc.isActive
  {
    var o1 := DeleteRatingSpec(db, id);
    FindSameIds(db.ratings, o1.db.ratings, id);
    var i := Find(db.ratings, id).value;
    assert SetDoc(o1.db.ratings, i, o1.res.data) == o1.db.ratings;
    assert RetireLinks(o1.db.ratingMappings, id) == o1.db.ratingMappings;
  }

  lemma DeleteKeepsKeyed(db: Db, id: Id)
    requires WellKeyed(db)
    ensures WellKeyed(DeleteRatingSpec(db, id).db)
  {
    var o := DeleteRatingSpec(db, id);
    if o.res.Ok? {
      KeyedRewrite(db.ratings, o.db.ratings, db.nextId);
      ReplaceRatings(db, o.db.ratings);
      KeyedRewrite(db.ratingMappings, o.db.ratingMappings, db.nextId);
      ReplaceRatingMappings(db.(ratings := o.db.ratings), o.db.ratingMappings);
    }
  }
}
