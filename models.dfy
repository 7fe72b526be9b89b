/** The records the collections hold (one datatype per schema), the whole database as one
    value, and the mutable store the request handlers work on. Time stamps are instants on one
    clock; `createdAt` is the row id. */
module Models {
  import opened Wrappers
  import opened Tables

  /** A bcrypt hash, kept abstract: it remembers which password it was made from, and nothing
      else about it is used. */
  datatype Hash = Hashed(plain: string)

  /** `bcrypt.compare`. */
  predicate Matches(password: string, h: Hash) { h.plain == password }

  datatype User = User(
    userName: string, email: string, phone: string, password: Hash,
    isActive: bool, isDeleted: bool, role: Option<string>, userProfilePic: Option<string>)

  datatype Course = Course(
    courseName: string, courseThumbnail: Option<string>, description: string, videoUrl: string,
    duration: string, language: string, createdBy: string, category: string,
    pdfUrl: Option<string>, isFree: bool, isActive: bool, isDeleted: bool)

  datatype CourseEnquiry = CourseEnquiry(
    name: string, email: string, message: string, status: string,
    closureMessage: Option<string>, isDeleted: bool)

  datatype EnquiryMapping = EnquiryMapping(
    courseId: Id, userId: Id, enquiryId: Id, validTo: Option<Time>, isDeleted: bool)

  datatype Assign = Assign(adminNotes: Option<string>, assignedBy: string, priority: string, isDeleted: bool)

  datatype AssignMapping = AssignMapping(enquiryId: Id, childAdminId: Id, assignId: Id, isDeleted: bool)

  datatype FollowUp = FollowUp(
    mode: string, message: string, nextFollowUpDate: Time, nextFollowUpTime: string, isDeleted: bool)

  datatype FollowUpMapping = FollowUpMapping(
    followUpId: Id, enquiryId: Id, childAdminId: Id, isDeleted: bool)

  datatype GeneralEnquiry = GeneralEnquiry(email: string, courseId: Id, status: string, isDeleted: bool)

  datatype Batch = Batch(
    courseId: Id, startDate: Time, endDate: Time, startTime: string, endTime: string,
    mode: string, location: string, capacity: int, isActive: bool, isDeleted: bool)

  datatype BatchMapping = BatchMapping(
    courseId: Id, batchId: Id, validTo: Option<Time>, isActive: bool, isDeleted: bool)

  datatype CourseModule = CourseModule(
    title: string, subtitle: string, content: string, order: int, isActive: bool, isDeleted: bool)

  datatype ModuleMapping = ModuleMapping(
    courseId: Id, moduleId: Id, validTo: Option<Time>, isActive: bool, isDeleted: bool)

  /** The price schema names its flag `isDelete`. */
  datatype Price = Price(price: int, isActive: bool, isDelete: bool)

  datatype PriceMapping = PriceMapping(
    courseId: Id, priceId: Id, validTo: Option<Time>, isActive: bool, isDeleted: bool)

  datatype SpecialPrice = SpecialPrice(specialPrice: int, isActive: bool, isDelete: bool)

  datatype SpecialPriceMapping = SpecialPriceMapping(
    courseId: Id, specialPriceId: Id, validTo: Option<Time>, isActive: bool, isDeleted: bool)

  datatype Rating = Rating(
    rating: int, review: string, showInCourse: bool, showInTestimonial: bool,
    isActive: bool, isDeleted: bool)

  datatype RatingMapping = RatingMapping(courseId: Id, userId: Id, ratingId: Id, isDeleted: bool)

  /** A raised deal with the fields its controller writes. */
  datatype Deal = Deal(
    agreementPrice: int, seats: int, adminMessage: string, status: string, adminRemarks: string,
    isDeleted: bool)

  datatype DealMapping = DealMapping(
    courseId: Id, userId: Id, raisedDealId: Id, validTo: Option<Time>, isActive: bool,
    isDeleted: bool)

  datatype Mentor = Mentor(
    mentorName: string, title: string, description: Option<string>, mentorPic: Option<string>,
    isActive: bool, isDeleted: bool,
    createdByName: Option<string>, updatedByName: Option<string>, deletedByName: Option<string>)

  datatype MentorMapping = MentorMapping(
    userId: Id, mentorId: Id, validTo: Option<Time>, isActive: bool, isDeleted: bool)

  datatype Institute = Institute(
    instituteName: string, contactPerson: string, email: string, phone: string, address: Option<string>,
    isVerified: bool, isActive: bool, isDeleted: bool)

  datatype InstituteMapping = InstituteMapping(
    userId: Id, instituteId: Id, validTo: Option<Time>, isActive: bool, isDeleted: bool)

  datatype StudentMapping = StudentMapping(studentId: Id, instituteId: Id)

  datatype Invite = Invite(email: string, token: string, isUsed: bool)

  /** Every collection at one instant, plus the counter the next id comes from. */
  datatype Db = Db(
    users: Table<User>,
    courses: Table<Course>,
    enquiries: Table<CourseEnquiry>,
    enquiryMappings: Table<EnquiryMapping>,
    assigns: Table<Assign>,
    assignMappings: Table<AssignMapping>,
    followUps: Table<FollowUp>,
    followUpMappings: Table<FollowUpMapping>,
    generalEnquiries: Table<GeneralEnquiry>,
    batches: Table<Batch>,
    batchMappings: Table<BatchMapping>,
    modules: Table<CourseModule>,
    moduleMappings: Table<ModuleMapping>,
    prices: Table<Price>,
    priceMappings: Table<PriceMapping>,
    specialPrices: Table<SpecialPrice>,
    specialPriceMappings: Table<SpecialPriceMapping>,
    ratings: Table<Rating>,
    ratingMappings: Table<RatingMapping>,
    deals: Table<Deal>,
    dealMappings: Table<DealMapping>,
    mentors: Table<Mentor>,
    mentorMappings: Table<MentorMapping>,
    institutes: Table<Institute>,
    instituteMappings: Table<InstituteMapping>,
    studentMappings: Table<StudentMapping>,
    invites: Table<Invite>,
    nextId: Id)

  /** Every table lists its rows in creation order under ids the counter has already passed. */
  ghost predicate WellKeyed(db: Db) {
    && Keyed(db.users, db.nextId)
    && Keyed(db.courses, db.nextId)
    && Keyed(db.enquiries, db.nextId)
    && Keyed(db.enquiryMappings, db.nextId)
    && Keyed(db.assigns, db.nextId)
    && Keyed(db.assignMappings, db.nextId)
    && Keyed(db.followUps, db.nextId)
    && Keyed(db.followUpMappings, db.nextId)
    && Keyed(db.generalEnquiries, db.nextId)
    && Keyed(db.batches, db.nextId)
    && Keyed(db.batchMappings, db.nextId)
    && Keyed(db.modules, db.nextId)
    && Keyed(db.moduleMappings, db.nextId)
    && Keyed(db.prices, db.nextId)
    && Keyed(db.priceMappings, db.nextId)
    && Keyed(db.specialPrices, db.nextId)
    && Keyed(db.specialPriceMappings, db.nextId)
    && Keyed(db.ratings, db.nextId)
    && Keyed(db.ratingMappings, db.nextId)
    && Keyed(db.deals, db.nextId)
    && Keyed(db.dealMappings, db.nextId)
    && Keyed(db.mentors, db.nextId)
    && Keyed(db.mentorMappings, db.nextId)
    && Keyed(db.institutes, db.nextId)
    && Keyed(db.instituteMappings, db.nextId)
    && Keyed(db.studentMappings, db.nextId)
    && Keyed(db.invites, db.nextId)
  }

  // One lemma per collection: replacing that collection by a keyed table keeps the database
  // well keyed. Handlers chain them instead of unfolding the whole predicate at once.

  /** Moving the counter forward keeps every table keyed. */
  lemma Advance(db: Db, next: Id)
    requires WellKeyed(db) && db.nextId <= next
    ensures WellKeyed(db.(nextId := next))
  {
  }

  lemma ReplaceUsers(db: Db, t: Table<User>)
    requires WellKeyed(db) && Keyed(t, db.nextId)
    ensures WellKeyed(db.(users := t))
  {
  }

  lemma ReplaceCourses(db: Db, t: Table<Course>)
    requires WellKeyed(db) && Keyed(t, db.nextId)
    ensures WellKeyed(db.(courses := t))
  {
  }

  lemma ReplaceEnquiries(db: Db, t: Table<CourseEnquiry>)
    requires WellKeyed(db) && Keyed(t, db.nextId)
    ensures WellKeyed(db.(enquiries := t))
  {
  }

  lemma ReplaceEnquiryMappings(db: Db, t: Table<EnquiryMapping>)
    requires WellKeyed(db) && Keyed(t, db.nextId)
    ensures WellKeyed(db.(enquiryMappings := t))
  {
  }

  lemma ReplaceAssigns(db: Db, t: Table<Assign>)
    requires WellKeyed(db) && Keyed(t, db.nextId)
    ensures WellKeyed(db.(assigns := t))
  {
  }

  lemma ReplaceAssignMappings(db: Db, t: Table<AssignMapping>)
    requires WellKeyed(db) && Keyed(t, db.nextId)
    ensures WellKeyed(db.(assignMappings := t))
  {
  }

  lemma ReplaceFollowUps(db: Db, t: Table<FollowUp>)
    requires WellKeyed(db) && Keyed(t, db.nextId)
    ensures WellKeyed(db.(followUps := t))
  {
  }

  lemma ReplaceFollowUpMappings(db: Db, t: Table<FollowUpMapping>)
    requires WellKeyed(db) && Keyed(t, db.nextId)
    ensures WellKeyed(db.(followUpMappings := t))
  {
  }

  lemma ReplaceGeneralEnquiries(db: Db, t: Table<GeneralEnquiry>)
    requires WellKeyed(db) && Keyed(t, db.nextId)
    ensures WellKeyed(db.(generalEnquiries := t))
  {
  }

  lemma ReplaceBatches(db: Db, t: Table<Batch>)
    requires WellKeyed(db) && Keyed(t, db.nextId)
    ensures WellKeyed(db.(batches := t))
  {
  }

  lemma ReplaceBatchMappings(db: Db, t: Table<BatchMapping>)
    requires WellKeyed(db) && Keyed(t, db.nextId)
    ensures WellKeyed(db.(batchMappings := t))
  {
  }

  lemma ReplaceModules(db: Db, t: Table<CourseModule>)
    requires WellKeyed(db) && Keyed(t, db.nextId)
    ensures WellKeyed(db.(modules := t))
  {
  }

  lemma ReplaceModuleMappings(db: Db, t: Table<ModuleMapping>)
    requires WellKeyed(db) && Keyed(t, db.nextId)
    ensures WellKeyed(db.(moduleMappings := t))
  {
  }

  lemma ReplacePrices(db: Db, t: Table<Price>)
    requires WellKeyed(db) && Keyed(t, db.nextId)
    ensures WellKeyed(db.(prices := t))
  {
  }

  lemma ReplacePriceMappings(db: Db, t: Table<PriceMapping>)
    requires WellKeyed(db) && Keyed(t, db.nextId)
    ensures WellKeyed(db.(priceMappings := t))
  {
  }

  lemma ReplaceSpecialPrices(db: Db, t: Table<SpecialPrice>)
    requires WellKeyed(db) && Keyed(t, db.nextId)
    ensures WellKeyed(db.(specialPrices := t))
  {
  }

  lemma ReplaceSpecialPriceMappings(db: Db, t: Table<SpecialPriceMapping>)
    requires WellKeyed(db) && Keyed(t, db.nextId)
    ensures WellKeyed(db.(specialPriceMappings := t))
  {
  }

  lemma ReplaceRatings(db: Db, t: Table<Rating>)
    requires WellKeyed(db) && Keyed(t, db.nextId)
    ensures WellKeyed(db.(ratings := t))
  {
  }

  lemma ReplaceRatingMappings(db: Db, t: Table<RatingMapping>)
    requires WellKeyed(db) && Keyed(t, db.nextId)
    ensures WellKeyed(db.(ratingMappings := t))
  {
  }

  lemma ReplaceDeals(db: Db, t: Table<Deal>)
    requires WellKeyed(db) && Keyed(t, db.nextId)
    ensures WellKeyed(db.(deals := t))
  {
  }

  lemma ReplaceDealMappings(db: Db, t: Table<DealMapping>)
    requires WellKeyed(db) && Keyed(t, db.nextId)
    ensures WellKeyed(db.(dealMappings := t))
  {
  }

  lemma ReplaceMentors(db: Db, t: Table<Mentor>)
    requires WellKeyed(db) && Keyed(t, db.nextId)
    ensures WellKeyed(db.(mentors := t))
  {
  }

  lemma ReplaceMentorMappings(db: Db, t: Table<MentorMapping>)
    requires WellKeyed(db) && Keyed(t, db.nextId)
    ensures WellKeyed(db.(mentorMappings := t))
  {
  }

  lemma ReplaceInstitutes(db: Db, t: Table<Institute>)
    requires WellKeyed(db) && Keyed(t, db.nextId)
    ensures WellKeyed(db.(institutes := t))
  {
  }

  lemma ReplaceInstituteMappings(db: Db, t: Table<InstituteMapping>)
    requires WellKeyed(db) && Keyed(t, db.nextId)
    ensures WellKeyed(db.(instituteMappings := t))
  {
  }

  lemma ReplaceStudentMappings(db: Db, t: Table<StudentMapping>)
    requires WellKeyed(db) && Keyed(t, db.nextId)
    ensures WellKeyed(db.(studentMappings := t))
  {
  }

  lemma ReplaceInvites(db: Db, t: Table<Invite>)
    requires WellKeyed(db) && Keyed(t, db.nextId)
    ensures WellKeyed(db.(invites := t))
  {
  }

  /** What a handler leaves behind: the database after it and the response it sends. */
  datatype Outcome<T> = Outcome(db: Db, res: ApiResult<T>)

  /** A handler that answers without writing. */
  function Reply<T>(db: Db, res: ApiResult<T>): (o: Outcome<T>)
    ensures o.db == db && o.res == res
  {
    Outcome(db, res)
  }

  /** The database the request handlers share. Its one field holds every collection;
      a handler reassigns it with the collections it writes replaced. `nextId` plays the
      part of ObjectId generation and of the clock behind `createdAt`. */
  class Store {
    /** Every collection of the database, replaced as a whole by each handler. */
    var db: Db

    ghost predicate Valid()
      reads this
    {
      WellKeyed(db)
    }

    /** An empty database. */
    constructor ()
      ensures Valid()
      ensures db == Db([], [], [], [], [], [], [], [], [], [], [], [], [], [], [], [],
                       [], [], [], [], [], [], [], [], [], [], [], 0)
    {
      db := Db([], [], [], [], [], [], [], [], [], [], [], [], [], [], [], [],
               [], [], [], [], [], [], [], [], [], [], [], 0);
    }
  }
}
