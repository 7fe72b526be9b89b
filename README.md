# LLB-Server request handlers, modelled in Dafny

LLB-Server is the Express/Mongoose back end of a course-selling platform. Its controllers
validate a request, then read and write MongoDB collections: users, courses with their
modules, prices and special prices, course and general enquiries, enquiry assignments and
follow-ups, batches, ratings, raised deals, mentors, institutes and student invitations.
Relations live in separate mapping collections, and "deleting" means soft-deleting: the
handler sets `isDeleted` (and often `isActive = false` and `validTo = now`) on the record,
then cascades by hand to the mapping rows that name it. In front of the protected routes sit
two middleware gates: `tokenChecker` names the caller from a bearer token, and `allowRoles`
admits only listed roles.

The model replaces MongoDB by an in-memory database value `Models.Db`:
- Each collection is a `Table<T>`, a sequence of `Row(id, doc)` in insertion order, which is
  the order `find` returns.
- One counter `nextId` issues every `_id`. A row's id doubles as its `createdAt`, so "newest
  first" means "largest id first".
- `WellKeyed(db)` is the store invariant: in every table the ids strictly increase and stay
  below the counter.
- The handlers run on a `Models.Store` object whose single field `db` they replace.
  `Store.Valid()` is `WellKeyed(db)`. The constructor establishes it, and every handler
  method that writes requires and preserves it.

Each controller handler is modelled in two parts:
- A specification function `XxxSpec(db, …)` returns an `Outcome`: the new database and the
  `ApiResult`, i.e. the HTTP status, message and payload. Its contract states the error
  cases, their order and the exact rows written.
- A method `Xxx(st, …)` performs the writes step by step on the store, in the source's
  order. It is proved to produce exactly what the function describes.

Handlers that only read are functions of the database. Where a handler builds lookup
dictionaries in a loop, a method with loop invariants is proved equal to a join function.
Every state-changing handler has a `…KeepsKeyed` lemma showing it preserves `WellKeyed`; the
handler methods use it to keep `Store.Valid()`.
Further lemmas relate handlers to each other:
- create-then-read;
- delete-then-404;
- exactly which mapping rows a cascade changes;
- single-use invites;
- a log-in token passing the gate.

Mongoose behaviour the handlers rely on is written out:
- A request field that is absent, or falsy (`""` or `0`), counts as missing.
- `findOneAndUpdate` ignores fields that are `undefined` and runs no schema validators. This is
  `Wrappers.Patch`.
- Strict mode drops fields a schema does not declare.
- A thrown error becomes a 500 response with the error's message.

Things supplied from outside are parameters: the clock (`now`), bcrypt (`Models.Hash`), JWT
signing and verification (`Auth.Verdict`, and the `sign` function the invitations use).

## Model

| member | source | states |
|---|---|---|
| Validators.EmailMatchesPattern | controllers/userController.js:17-20 | the character scan the handlers use accepts a string exactly when it matches `^[^\s@]+@[^\s@]+\.[^\s@]{2,}$`: a non-empty local part, `@`, a non-empty segment, a dot and a final segment of at least two UTF-16 code units, none of them containing whitespace or `@` (both directions) |
| Validators.EmailScanSound | controllers/userController.js:17 | every string the scan accepts has such an `@` and dot split |
| Validators.EmailScanComplete | controllers/userController.js:17 | every string with such a split is accepted by the scan |
| Validators.JsLength | controllers/userController.js:26 | `length` counts UTF-16 code units: between one and two per character |
| Validators.TldRoom | controllers/userController.js:17 | a dot leaves the two code units `{2,}` asks for exactly when it sits below `TldLimit`, the bound the scan searches to |
| Validators.SurrogatePairsCount | controllers/userController.js:26 | three characters outside the Basic Multilingual Plane make a long enough password, and one of them a long enough top-level part |
| Validators.PhoneShape | controllers/userController.js:22-24 | `^[6-9]\d{9}$`: exactly ten decimal digits, the first one 6, 7, 8 or 9 (both directions) |
| Validators.Invalid | controllers/studentInvitesController.js:24-26 | the invalid-email list holds exactly the inputs that fail the email pattern, and is empty exactly when every input passes |
| Validators.ToLower | controllers/userController.js:47 | `toLowerCase` on ASCII: same length, upper-case letters mapped to lower case, every other character kept |
| Wrappers.Patch | controllers/userController.js:293-308 | a `findOneAndUpdate` update whose field is `undefined` leaves the stored value, otherwise replaces it |
| Wrappers.PatchNullable | controllers/mentorController.js:61-71 | the same for a field the schema lets be absent |
| Tables.Filter | controllers/courseEnquiryController.js:44 | `find` with a filter: exactly the rows that satisfy it, in stored order |
| Tables.First | controllers/courseEnquiryController.js:161-164 | `findOne`: the first stored row that satisfies the filter, or none exactly when no row does |
| Tables.Find | controllers/userController.js:304-308 | the position of the row with an `_id`, or none when no row carries it |
| Tables.GetMember | controllers/courseController.js:116 | in a table with increasing ids, `findById` yields a document exactly when that row is stored |
| Tables.FillIndex | controllers/courseEnquiryController.js:58-66 | the `forEach` loop that fills a dictionary keyed by `_id` builds exactly the index of the fetched rows |
| Tables.IndexIsGet | controllers/courseEnquiryController.js:58-66 | the dictionary holds an id exactly when the table does, mapped to that row's value |
| Tables.NewestToOldest | controllers/followUpController.js:74-81 | `sort({ createdAt: -1 })`: the same rows, largest id first |
| Tables.NewestFirstUnique | controllers/followUpController.js:74-81 | two newest-first lists of the same rows are equal, so the sorted listing is determined by its rows |
| Users.RegistrationError | controllers/userController.js:14-27 | no error exactly when all four fields are given, the email and phone match their patterns and the password has at least 6 characters; any missing field gives "Missing required fields" before any pattern check |
| Users.Clash | controllers/userController.js:29-31 | `findOne({$or: [{email}, {phone}]})`: a stored user sharing the email or the phone, and none exactly when no user shares either |
| Users.RoleFor | controllers/userController.js:46-47 | the first user ever is `admin`; later users get the lower-cased `userType`, or no role without one |
| Users.SignUpSpec | controllers/userController.js:11-64 | validation errors with status 400 come first; a clash gives 400 "Email already exists" when the clashing user has the email, otherwise "Phone already exists"; a role outside the user schema's enum (models/userModel.js:12) then fails validation with no write; success exactly when valid, no user shares email or phone and the role is admitted, storing one user with the hashed password and the role rule under the next id |
| Users.SignUp | controllers/userController.js:11-64 | the handler's writes produce exactly the outcome `SignUpSpec` describes |
| Users.SignUpKeepsKeyed | controllers/userController.js:49-56 | sign-up keeps the store well keyed |
| Users.SignUpTwiceRefused | controllers/userController.js:29-40 | repeating a successful sign-up is refused with "Email already exists" and writes nothing |
| Users.Public | controllers/userController.js:116 | the returned user view carries the stored fields but no password |
| Users.Login | controllers/userController.js:67-124 | the checks in the handler's order: missing contact or password gives 400, then a contact that is neither email nor phone gives 400 "Invalid email or phone format", then a password shorter than six UTF-16 code units gives 400; 404 "User not found" exactly when the checks pass and no stored user has the contact as email or phone; the account is the first stored user with the contact, and a password that does not match its hash gives 401 "Password is invalid"; success exactly when it matches, returning that user without the password and a token naming its id, role and name |
| Users.SignUpThenLogin | controllers/userController.js:11-124 | a user who has just signed up can log in with the same email and password and receives claims naming the new account |
| Users.AddChildAdminSpec | controllers/userController.js:128-238 | the same validation as sign-up, duplicates reported with 409 and a trailing full stop; success stores one user with role `childAdmin` and the fixed profile picture |
| Users.AddChildAdmin | controllers/userController.js:128-238 | the handler's writes produce exactly the outcome `AddChildAdminSpec` describes |
| Users.AddChildAdminKeepsKeyed | controllers/userController.js:171-181 | adding a child admin keeps the store well keyed |
| Users.ChildAdminLikeSignUp | controllers/userController.js:155-176 | adding a child admin succeeds exactly when a sign-up without a user type would; where both fail, the statuses differ only by 409 for a duplicate; the role is always `childAdmin` |
| Users.PatchError | controllers/userController.js:278-290 | an update is rejected only for a supplied (truthy) email, phone or password that fails its check |
| Users.Patched | controllers/userController.js:293-301 | the update never touches `isActive`, `isDeleted` or the role; a truthy password is stored hashed; an empty patch changes nothing |
| Users.UpdateUserSpec | controllers/userController.js:272-320 | validation errors (400) come before the lookup; a missing or deleted user gives 404 "User not found or already deleted"; otherwise only that user's document changes, to the patched one |
| Users.UpdateUser | controllers/userController.js:272-320 | the handler's writes produce exactly the outcome `UpdateUserSpec` describes |
| Users.UpdateUserKeepsKeyed | controllers/userController.js:304-308 | updating a user keeps the store well keyed |
| Users.DeleteUserSpec | controllers/userController.js:324-342 | fails exactly when the user is missing or already deleted, with 404 and no write; otherwise sets `isDeleted` and clears `isActive` on that user alone |
| Users.DeleteUser | controllers/userController.js:324-342 | the handler's writes produce exactly the outcome `DeleteUserSpec` describes |
| Users.DeleteUserKeepsKeyed | controllers/userController.js:328-332 | deleting a user keeps the store well keyed |
| Users.GetSingleUserById | controllers/userController.js:346-364 | 404 "User not found" exactly when the user is missing or deleted; otherwise that user's public view |
| Users.DeletedUserNotFound | controllers/userController.js:324-364 | after a delete, deleting again, updating and reading the user all give 404 |
| Users.UpdateThenRead | controllers/userController.js:272-364 | reading a user after a successful update returns exactly the updated view |
| CourseEnquiries.CreateCourseEnquirySpec | controllers/courseEnquiryController.js:8-39 | 400 "All fields are required" when name, email, message, courseId or the caller's id is missing, then 400 for a malformed email, both with no write; success exactly when complete and well formed, adding one `pending`, not-deleted enquiry and one mapping from the course and the caller to it, nothing else |
| CourseEnquiries.CreateCourseEnquiry | controllers/courseEnquiryController.js:8-39 | the handler's two creates produce exactly the outcome `CreateCourseEnquirySpec` describes |
| CourseEnquiries.CreateKeepsKeyed | controllers/courseEnquiryController.js:22-28 | creating an enquiry keeps the store well keyed |
| CourseEnquiries.UpdateCourseEnquiryStatusSpec | controllers/courseEnquiryController.js:94-118 | a status outside the five allowed values gives 400 with no write; a missing or deleted enquiry gives 404; otherwise only that enquiry's status changes |
| CourseEnquiries.UpdateCourseEnquiryStatus | controllers/courseEnquiryController.js:94-118 | the handler produces exactly the outcome `UpdateCourseEnquiryStatusSpec` describes |
| CourseEnquiries.UpdateStatusKeepsKeyed | controllers/courseEnquiryController.js:104-108 | a status update keeps the store well keyed |
| CourseEnquiries.RetireLinks | controllers/courseEnquiryController.js:135-141 | `updateMany` on the live mappings of the enquiry: each gets `isDeleted` and `validTo = now`, every other row is unchanged |
| CourseEnquiries.DeleteCourseEnquirySpec | controllers/courseEnquiryController.js:121-149 | fails exactly when the enquiry is missing or deleted, with 404 and no write; otherwise marks the enquiry deleted and retires its live mappings |
| CourseEnquiries.DeleteCourseEnquiry | controllers/courseEnquiryController.js:121-149 | the handler's two writes produce exactly the outcome `DeleteCourseEnquirySpec` describes |
| CourseEnquiries.DeleteTwiceNotFound | controllers/courseEnquiryController.js:125-133 | a second delete of the same enquiry gives 404 and writes nothing |
| CourseEnquiries.DeleteCascadeExact | controllers/courseEnquiryController.js:135-141 | a mapping row changes exactly when it names the enquiry and was live; a changed row is deleted with `validTo = now` and keeps its id |
| CourseEnquiries.DeleteKeepsKeyed | controllers/courseEnquiryController.js:121-149 | deleting an enquiry keeps the store well keyed |
| CourseEnquiries.GetSingleCourseEnquiry | controllers/courseEnquiryController.js:152-182 | 404 exactly when the enquiry is missing or deleted; otherwise the stored enquiry, and the course name is taken from the first live mapping of the enquiry: that course's name when the course exists and its name is not empty, no name when it is absent or has an empty name, and no name when the enquiry has no live mapping |
| CourseEnquiries.UpdateThenRead | controllers/courseEnquiryController.js:94-182 | reading an enquiry after a successful status update shows the new status |
| CourseEnquiries.LinkedEnquiries | controllers/courseEnquiryController.js:197-202 | `find({_id: {$in: ids}, isDeleted: false})`: exactly the live enquiries a given mapping names |
| CourseEnquiries.GetCourseEnquiryByUserId | controllers/courseEnquiryController.js:185-210 | 401 exactly without a caller id; otherwise the live enquiries named by the caller's live mappings, possibly none |
| CourseEnquiries.GetEnquiriesByCourseId | controllers/courseEnquiryController.js:213-244 | 400 without a course id; otherwise the live enquiries linked to the course by a live mapping, and 404 exactly when there are none |
| CourseEnquiries.AllCourseEnquiriesSpec | controllers/courseEnquiryController.js:42-91 | 404 "No course enquiries found" exactly when there is no live mapping; otherwise 200 |
| CourseEnquiries.GetAllCourseEnquiries | controllers/courseEnquiryController.js:42-91 | the handler's two dictionary loops and the filter-and-map produce exactly `AllCourseEnquiriesSpec` |
| CourseEnquiries.RowsAgree | controllers/courseEnquiryController.js:68-83 | given dictionaries that agree with the tables, the filter-and-map emits, for each live mapping in order, one row when its enquiry is live, with the course name or "Unknown" |
| CourseEnquiries.AllCourseEnquiriesIsJoin | controllers/courseEnquiryController.js:42-91 | on a well-keyed store the result is the join, one row per live mapping whose enquiry is live, in mapping order |
| EnquiryAssign.AssignCourseEnquirySpec | controllers/enquiryAssignController.js:8-52 | in order: 400 when enquiryId, childAdminId or priority is missing, 400 "Invalid priority" outside low/medium/high, 404 when the enquiry is missing or deleted, none of them writing; success exactly otherwise, creating one assign record (`assignedBy` = caller's role, schema default "Admin") and one mapping `{enquiryId, childAdminId, assignId}` |
| EnquiryAssign.AssignCourseEnquiry | controllers/enquiryAssignController.js:8-52 | the handler's two creates produce exactly the outcome `AssignCourseEnquirySpec` describes |
| EnquiryAssign.AssignKeepsKeyed | controllers/enquiryAssignController.js:29-41 | assigning keeps the store well keyed |
| EnquiryAssign.AssignKeepsEarlier | controllers/enquiryAssignController.js:29-41 | earlier assignment mappings are untouched, and assigning the same enquiry again succeeds too (duplicates are allowed) |
| EnquiryAssign.AssignedTo | controllers/enquiryAssignController.js:64-67 | exactly the caller's live assignment mappings |
| EnquiryAssign.LiveLinksFor | controllers/enquiryAssignController.js:88-91 | exactly the live course-enquiry mappings of the assigned enquiries |
| EnquiryAssign.AssignedSpec | controllers/enquiryAssignController.js:55-138 | 401 exactly without a caller id; 404 exactly when the caller has no live assignment mapping; otherwise 200 with one row per such mapping |
| EnquiryAssign.GetAssignedEnquiriesForChildAdmin | controllers/enquiryAssignController.js:55-138 | the handler's fetches, three dictionary loops and the per-mapping map produce exactly `AssignedSpec`, the corrected join described under Findings |
| EnquiryAssign.JoinedAssignmentsAt | controllers/enquiryAssignController.js:113-131 | row k of the join carries the enquiry exactly when it is stored and live, the assign record exactly when it is stored, and a course name only when the enquiry has a live course mapping; a deleted enquiry's row is kept, with its enquiry fields absent |
| EnquiryAssign.AssignedRowsAgree | controllers/enquiryAssignController.js:113-131 | given dictionaries that agree with the tables, the per-mapping map equals the join |
| EnquiryAssign.LinkForIsFirstLink | controllers/enquiryAssignController.js:116 | `mappings.find` on the fetched links picks the enquiry's first live course mapping in the whole table |
| EnquiryAssign.EnquiryMapAgrees | controllers/enquiryAssignController.js:103-106 | the enquiry dictionary holds an assigned enquiry exactly when it is stored and live, with its stored value |
| EnquiryAssign.AssignMapAgrees | controllers/enquiryAssignController.js:108-111 | the assign dictionary holds an assign id exactly when the record is stored, with its stored value |
| EnquiryAssign.LinksAgree | controllers/enquiryAssignController.js:88-91 | the link found among the fetched mappings is the enquiry's first live course mapping |
| EnquiryAssign.CourseMapAgrees | controllers/enquiryAssignController.js:96-101 | the course-name dictionary holds a linked course exactly when it is stored, with its name |
| EnquiryAssign.FetchAgrees | controllers/enquiryAssignController.js:64-111 | all three dictionaries agree with the tables |
| EnquiryAssign.AssignedIsJoin | controllers/enquiryAssignController.js:55-138 | a successful result is the join over the caller's live assignment mappings, in mapping order |
| EnquiryAssign.AssignedAsWritten | controllers/enquiryAssignController.js:88 | as written, the handler never succeeds: it reaches the undeclared `CourseEnquiryMapping` and throws |
| EnquiryAssign.AssignedAsWrittenFails | controllers/enquiryAssignController.js:55-138 | the as-written handler returns 500 "CourseEnquiryMapping is not defined" exactly where the intended one succeeds, and agrees with it on every error |
| EnquiryAssign.AssignThenListed | controllers/enquiryAssignController.js:8-138 | after a successful assignment the child admin's listing succeeds and its last row carries the new assign record |
| FollowUps.CreateFollowUpSpec | controllers/followUpController.js:9-54 | in order: 400 when enquiryId, mode, message, nextFollowUpDate or nextFollowUpTime is missing, 400 "Invalid mode value" outside call/onlineMeeting/physicalMeeting, 404 for a missing or deleted enquiry, none writing; success exactly when these pass and there is a caller, creating one follow-up and one mapping `{followUpId, enquiryId, childAdminId = caller}`; without a caller the follow-up is created and the mapping fails its required `childAdminId` (models/followUpMapping.js:15-18), giving 500 |
| FollowUps.CreateCourseEnquiryFollowUp | controllers/followUpController.js:9-54 | the handler's two creates produce exactly the outcome `CreateFollowUpSpec` describes |
| FollowUps.CreateFollowUpKeepsKeyed | controllers/followUpController.js:30-43 | logging a follow-up keeps the store well keyed |
| FollowUps.GetFollowUpsByEnquiryId | controllers/followUpController.js:56-89 | 400 without an enquiry id; 404 exactly when the enquiry has no live follow-up mapping; otherwise exactly the live follow-ups its live mappings name, newest first |
| FollowUps.ListingIsTheSortedLogs | controllers/followUpController.js:74-81 | the listing is the one newest-first arrangement of those follow-ups |
| FollowUps.NewestLogHeads | controllers/followUpController.js:76-81 | the newest logged follow-up heads the listing |
| FollowUps.CreateThenListFirst | controllers/followUpController.js:9-89 | a follow-up just logged comes first when the enquiry's follow-ups are listed |
| Courses.NewCourse | controllers/courseController.js:46-57 | the stored course takes the request's name, is active and not deleted, has `createdBy` "LLB" when none is given and category "free courses" (the schema default, models/courseModel.js:36-38) when none is given |
| Courses.AddModule | controllers/courseController.js:61-65 | one loop step: an untitled module fails the schema with nothing written; a titled one is appended under the counter and linked, live, to the course under the id after it, and the counter moves on by two; nothing else changes |
| Courses.AddModules | controllers/courseController.js:59-67 | the module loop succeeds exactly when every module has a title; the first untitled one stops it |
| Courses.AddModulesTo | controllers/courseController.js:59-67 | the loop's writes produce exactly `AddModules` |
| Courses.AddModulesFrame | controllers/courseController.js:59-67 | the module loop writes only the module and module-mapping tables and the counter |
| Courses.AddModulesCount | controllers/courseController.js:59-67 | a complete loop appends exactly one module and one mapping per input module, keeps the earlier rows and advances the counter by two per module |
| Courses.AddModulesRows | controllers/courseController.js:61 | module k is stored under the k-th pair of ids, built from input k |
| Courses.AddModulesLinks | controllers/courseController.js:62-65 | mapping k links the course to module k |
| Courses.AddPrices | controllers/courseController.js:69-81 | a missing price fails the schema's required check (500) with nothing written; otherwise one price and one price mapping, plus a special price and its mapping exactly when `specialPrice` is truthy; the course table is untouched |
| Courses.AddPricesTo | controllers/courseController.js:69-81 | the handler's price writes produce exactly `AddPrices` |
| Courses.Furnish | controllers/courseController.js:59-85 | what follows `Course.create` succeeds exactly when every module has a title and a price is given, never changes the course table, and answers with the created course |
| Courses.CreateCourseSpec | controllers/courseController.js:14-91 | 400 "Required fields are missing" when courseName, videoUrl, duration, language or description is missing or `isFree` is falsy; then 400 "Course already exists" for a live course of that name, both with no write; success exactly when, in addition, every module is titled and a price is given, appending the new course under the counter |
| Courses.CreateCourse | controllers/courseController.js:14-91 | the handler's sequence of creates produces exactly the outcome `CreateCourseSpec` describes |
| Courses.FurnishAddsModules | controllers/courseController.js:59-67 | a successful fan-out writes one module and one course-module mapping per input module, in order |
| Courses.FurnishAddsPrices | controllers/courseController.js:69-81 | a successful fan-out writes exactly one price and price mapping, and a special price and its mapping only for a truthy special price |
| Courses.CreateCourseFansOut | controllers/courseController.js:46-85 | a successful create answers 201 with the course stored under the counter, followed by one module and mapping per input module, one price and mapping, and a special price and mapping only when `specialPrice` is truthy |
| Courses.AddModuleKeepsKeyed | controllers/courseController.js:61-65 | one step of the module loop keeps the store well keyed |
| Courses.AddModulesKeepsKeyed | controllers/courseController.js:59-67 | the module loop keeps the store well keyed |
| Courses.PriceAddedKeepsKeyed | controllers/courseController.js:69-73 | adding the price keeps the store well keyed |
| Courses.SpecialPriceAddedKeepsKeyed | controllers/courseController.js:75-81 | adding the special price keeps the store well keyed |
| Courses.AddPricesKeepsKeyed | controllers/courseController.js:69-81 | the price writes keep the store well keyed |
| Courses.CourseAddedKeepsKeyed | controllers/courseController.js:46-57 | `Course.create` keeps the store well keyed |
| Courses.FurnishKeepsKeyed | controllers/courseController.js:59-81 | the whole fan-out keeps the store well keyed |
| Courses.CreateCourseKeepsKeyed | controllers/courseController.js:14-91 | creating a course keeps the store well keyed, whichever step it stops at |
| Courses.CreateCourseTwiceRefused | controllers/courseController.js:43-44 | once a course is created, a complete request with the same name is refused with 400 "Course already exists" and writes nothing |
| Courses.GetAllCourses | controllers/courseController.js:94-101 | exactly the courses that are active and not deleted |
| Courses.MappedModules | controllers/courseController.js:114-118 | position by position, the listing is the module each mapping names, for exactly the mappings whose module `findById` finds, in mapping order; every listed module is stored |
| Courses.MappedModulesExact | controllers/courseController.js:114-118 | every mapping whose module exists contributes that module, and every listed module is the stored target of one of the mappings |
| Courses.FetchModules | controllers/courseController.js:114-118 | the handler's loop over the mappings produces exactly `MappedModules` |
| Courses.PriceOf | controllers/courseController.js:120-124 | no price when the course has no live price mapping; otherwise the price the first live mapping names, or none when that price is absent |
| Courses.SpecialPriceOf | controllers/courseController.js:126-132 | the same for the special price: the first live special-price mapping's target, none without one |
| Courses.SingleCourseSpec | controllers/courseController.js:104-145 | 404 "Course not found" exactly when the course is missing or deleted; otherwise the stored course, with price and special price as `PriceOf` and `SpecialPriceOf` state, and modules that include the target of every live mapping whose module exists and hold nothing else |
| Courses.LinkedModuleListed | controllers/courseController.js:110-118 | a module that a live mapping of the course names and that `findById` finds is in the course's module list |
| Courses.CourseModulesInLinkOrder | controllers/courseController.js:110-118 | the detail's modules are, position by position, the targets of the course's live module mappings whose module exists, in mapping order |
| Courses.GetSingleCourseById | controllers/courseController.js:104-145 | the handler's lookups and loop produce exactly `SingleCourseSpec` |
| CourseUpdates.PatchedCourse | controllers/courseController.js:166-179 | the course update writes only the fields the request supplies: a supplied name or `isFree` replaces the stored one, an absent one keeps it; thumbnail, `createdBy` and the flags are never touched |
| CourseUpdates.Repriced | controllers/courseController.js:182-189 | the price step writes only the price table and keeps its ids; a row changes only when the price is truthy and the row is the one the course's first live price link names, and then only its amount, to the new price; that row does get the new price |
| CourseUpdates.SpecialRepriced | controllers/courseController.js:191-200 | the same for the special price and the course's first live special-price link |
| CourseUpdates.Reprice | controllers/courseController.js:182-189 | the handler's price step produces exactly `Repriced` |
| CourseUpdates.SpecialReprice | controllers/courseController.js:191-200 | the handler's special-price step produces exactly `SpecialRepriced` |
| CourseUpdates.PatchedModule | controllers/courseController.js:209-214 | a module rewrite takes each supplied field and keeps the flags |
| CourseUpdates.ApplyModule | controllers/courseController.js:205-228 | one step of the module loop succeeds exactly when the element has an `_id` or a title; a refused element writes nothing; an element with an `_id` touches only the module table and keeps its ids; a titled one without appends the module under the counter and its live link under the id after, moving the counter on by two |
| CourseUpdates.PatchById | controllers/courseController.js:207-214 | `findByIdAndUpdate` of a module keeps every row's place and id |
| CourseUpdates.ExistingModuleRewritten | controllers/courseController.js:207-214 | an element with an `_id` rewrites that module alone, in place, adding no link and spending no id, whichever course the module belongs to |
| CourseUpdates.ApplyModules | controllers/courseController.js:203-230 | the loop succeeds exactly when every element has an `_id` or a title |
| CourseUpdates.ApplyModulesTo | controllers/courseController.js:203-230 | the handler's loop produces exactly `ApplyModules` |
| CourseUpdates.ApplyModulesFrame | controllers/courseController.js:203-230 | the module loop writes only modules, their links and the counter |
| CourseUpdates.Created | controllers/courseController.js:215-216 | the elements the loop creates, in order: at most as many as the request has, none with an `_id` |
| CourseUpdates.CreatedNone | controllers/courseController.js:207-228 | the loop creates nothing exactly when every element has an `_id` |
| CourseUpdates.Following | controllers/courseController.js:204 | what follows the j-th created element in the request is strictly shorter than the request |
| CourseUpdates.CreatedAt | controllers/courseController.js:204 | the j-th created element sits at a position of the request, and what follows it there is `Following` |
| CourseUpdates.PatchedBy | controllers/courseController.js:207-214 | repeated rewrites of a module never touch its `isActive` and `isDeleted` flags |
| CourseUpdates.PatchedByUnnamed | controllers/courseController.js:207-214 | a module no `_id` element names comes out of the loop as it went in |
| CourseUpdates.NewLinks | controllers/courseController.js:224-227 | the j-th link the loop creates has id `from + 2j + 1` and links the course, live, to module `from + 2j` |
| CourseUpdates.ModulesAfter | controllers/courseController.js:203-230 | the loop never removes a module row |
| CourseUpdates.ApplyModulesModules | controllers/courseController.js:203-230 | the loop's module table is `ModulesAfter` of the table and counter it starts from, whether it completes or stops |
| CourseUpdates.ApplyModulesWrites | controllers/courseController.js:203-230 | a loop that completes: the counter moves on by two per created module; the links are the old ones followed by one live link per created module, in order; every old module keeps its place and id and receives each rewrite naming it; the j-th created module comes after them under `nextId + 2j`, built from its element and rewritten by the later elements naming it |
| CourseUpdates.ApplyModulesShape | controllers/courseController.js:203-230 | a loop that completes spends two ids, one link and one module row per element without an `_id`, and changes no old link |
| CourseUpdates.ShapeCreating | controllers/courseController.js:216-228 | an element without an `_id` adds one module, one live link and two ids to what the rest of the loop adds |
| CourseUpdates.ShapePatching | controllers/courseController.js:207-214 | an element with an `_id` adds no module, no link and no id to what the rest of the loop adds |
| CourseUpdates.OldRowAfter | controllers/courseController.js:207-214 | a module there before the loop keeps its place and id and receives, in order, every rewrite naming it |
| CourseUpdates.NewRowAfter | controllers/courseController.js:216-222 | the j-th created element is titled and becomes the module at position `|old| + j`, id `next + 2j`, rewritten only by the later elements naming that id |
| CourseUpdates.NewRowHere | controllers/courseController.js:216-222 | a first element without an `_id` becomes the first appended module, and only the rest of the loop can rewrite it |
| CourseUpdates.NewRowLater | controllers/courseController.js:216-222 | after a first element without an `_id`, the later created modules land one place and two ids further on |
| CourseUpdates.NewRowPast | controllers/courseController.js:207-214 | a first element with an `_id` shifts no created module |
| CourseUpdates.ApplyModulesStops | controllers/courseController.js:216-222 | the first untitled element without an `_id` stops the loop with a failure, and the store is what the elements before it left |
| CourseUpdates.Rewritten | controllers/courseController.js:166-200 | the course row is replaced by its patched document; apart from it only the price tables change |
| CourseUpdates.RewriteCourse | controllers/courseController.js:166-200 | the handler's course and price writes produce exactly `Rewritten` |
| CourseUpdates.UpdateCourseSpec | controllers/courseController.js:148-236 | 404 "Course not found" with no write for a missing or deleted course; otherwise the course is patched and the price and special price written as `Repriced` and `SpecialRepriced` state, whatever the module loop does; apart from those only modules, their links and the counter change; the result is 200 "Course updated" with the patched course exactly when every module element has an `_id` or a title, else 500 from the module schema |
| CourseUpdates.UpdateCourseStops | controllers/courseController.js:203-235 | a 500 at the first refused element leaves the store exactly as the same update with only the elements before it, which succeeds, would leave it |
| CourseUpdates.UpdateCourseWritesModules | controllers/courseController.js:148-236 | after a successful update the module table is `ModulesAfter` of the old one, with one new row per element without an `_id`; the counter moves on by two per such element; the links are the old ones followed by one live link to the course per created module |
| CourseUpdates.UpdateCourse | controllers/courseController.js:148-236 | the handler's writes produce exactly the outcome `UpdateCourseSpec` describes |
| CourseUpdates.UpdateThenRead | controllers/courseController.js:104-236 | reading the course after a successful update returns the patched course |
| CourseUpdates.UpdateThenListsNewModules | controllers/courseController.js:104-236 | after a successful update, reading the course lists each module the update created, stored under `nextId + 2j` |
| CourseUpdates.CreatedModuleListed | controllers/courseController.js:110-118 | a store holding the loop's modules and links lists the j-th created module under the course |
| CourseUpdates.CreatedModuleLinked | controllers/courseController.js:216-227 | the j-th created module is stored under `next + 2j`, `findById` finds it, and a live link of the course names it |
| CourseUpdates.UpdatePriceThenRead | controllers/courseController.js:182-189 | with a truthy price and a live price link, the course's price afterwards is the new amount under the same price id |
| CourseUpdates.ApplyModuleKeepsKeyed | controllers/courseController.js:205-228 | one loop step keeps the store well keyed |
| CourseUpdates.ApplyModulesKeepsKeyed | controllers/courseController.js:203-230 | the module loop keeps the store well keyed |
| CourseUpdates.RewrittenKeepsKeyed | controllers/courseController.js:166-200 | the course and price writes keep the store well keyed |
| CourseUpdates.UpdateCourseKeepsKeyed | controllers/courseController.js:148-236 | updating a course keeps the store well keyed |
| CourseUpdates.RetireModuleLinks | controllers/courseController.js:258-261 | `updateMany({courseId})` with no deleted filter: every module link of the course, live or not, becomes deleted, inactive, `validTo = now`; no live link of the course is left; other rows unchanged |
| CourseUpdates.RetirePriceLinks | controllers/courseController.js:271-274 | the same for the price links |
| CourseUpdates.RetireSpecialLinks | controllers/courseController.js:284-287 | the same for the special-price links |
| CourseUpdates.RetireModules | controllers/courseController.js:263-267 | exactly the modules whose ids were collected are marked deleted and inactive |
| CourseUpdates.DeactivatePrices | controllers/courseController.js:276-280 | exactly the collected prices become inactive; `isDeleted` is not in the price schema (models/priceModel.js:7 names it `isDelete`), so strict mode drops it |
| CourseUpdates.DeactivateSpecialPrices | controllers/courseController.js:289-293 | the same for special prices |
| CourseUpdates.Cascaded | controllers/courseController.js:245-293 | the course is marked deleted and inactive; apart from it only the module, price and special-price tables and their mappings change |
| CourseUpdates.DeleteCourseSpec | controllers/courseController.js:241-300 | with no deleted filter, succeeds exactly when the id is stored at all, so a deleted course is deleted again; 404 "Course not found" otherwise, with no write; success returns the course marked deleted and inactive and spends no id |
| CourseUpdates.DeleteCourse | controllers/courseController.js:241-300 | the handler's seven writes produce exactly the outcome `DeleteCourseSpec` describes |
| CourseUpdates.DeleteCourseRetiresLinks | controllers/courseController.js:258-287 | every module, price and special-price mapping of the course, live or not, ends deleted, inactive, `validTo = now`; mappings of other courses are unchanged |
| CourseUpdates.DeleteCourseRetiresTargets | controllers/courseController.js:256-293 | only modules, prices and special prices named by a mapping that was live before the delete are marked; modules become deleted and inactive, prices and special prices only inactive |
| CourseUpdates.DeleteCourseHides | controllers/courseController.js:104-108 | after a delete the course reads as 404 |
| CourseUpdates.DeleteCourseUnlinks | controllers/courseController.js:256-293 | after a delete the course has no live module link and no readable price or special price |
| CourseUpdates.RetiredModuleReads | controllers/courseController.js:263-267 | a retired module reads back deleted and inactive |
| CourseUpdates.DeleteCourseRetiresModules | controllers/courseController.js:256-267 | every module `getCourse` (lines 104-118) showed for the course before the delete reads back deleted and inactive |
| CourseUpdates.DeleteCourseAgain | controllers/courseController.js:246-251 | deleting the course a second time succeeds again with the same answer |
| CourseUpdates.DeleteCourseKeepsKeyed | controllers/courseController.js:241-300 | deleting a course keeps the store well keyed |
| GeneralEnquiries.CreateGeneralEnquirySpec | controllers/genEnquiryController.js:7-34 | 400 without an email or courseId, then 400 for a malformed email, both with no write; success exactly otherwise, storing one `pending`, not-deleted enquiry under the counter |
| GeneralEnquiries.CreateGeneralEnquiry | controllers/genEnquiryController.js:7-34 | the handler produces exactly the outcome `CreateGeneralEnquirySpec` describes |
| GeneralEnquiries.Summary | controllers/genEnquiryController.js:45-52 | the course details are absent exactly when no course has that id, and otherwise name that course |
| GeneralEnquiries.GetAllGeneralEnquiries | controllers/genEnquiryController.js:38-62 | always 200; an enquiry is listed exactly when it is stored and not deleted; each carries the name, description and duration of its course, and no details exactly when no course, deleted or not, has its `courseId` |
| GeneralEnquiries.ListedLast | controllers/genEnquiryController.js:40-54 | the newest live enquiry is listed last |
| GeneralEnquiries.EnrichLast | controllers/genEnquiryController.js:43-54 | the last view belongs to the last enquiry |
| GeneralEnquiries.CreateThenListed | controllers/genEnquiryController.js:7-62 | a new enquiry appears last in the listing, with its course's details |
| GeneralEnquiries.UpdateGeneralEnquiryStatusSpec | controllers/genEnquiryController.js:65-89 | a status outside pending/in-progress/resolved/closed (a different set from course enquiries) gives 400 with no write; a missing or deleted enquiry 404; otherwise only its status changes |
| GeneralEnquiries.UpdateGeneralEnquiryStatus | controllers/genEnquiryController.js:65-89 | the handler produces exactly the outcome `UpdateGeneralEnquiryStatusSpec` describes |
| GeneralEnquiries.DeleteGeneralEnquirySpec | controllers/genEnquiryController.js:92-110 | succeeds exactly for a live enquiry, marking only it deleted; 404 with no write otherwise |
| GeneralEnquiries.DeleteGeneralEnquiry | controllers/genEnquiryController.js:92-110 | the handler produces exactly the outcome `DeleteGeneralEnquirySpec` describes |
| GeneralEnquiries.DeleteThenNotFound | controllers/genEnquiryController.js:75-102 | after a delete, a second delete and any valid status update give 404 and write nothing |
| GeneralEnquiries.DeleteThenUnlisted | controllers/genEnquiryController.js:38-110 | a deleted enquiry is no longer listed |
| GeneralEnquiries.CreateKeepsKeyed | controllers/genEnquiryController.js:23-26 | creating keeps the store well keyed |
| GeneralEnquiries.UpdateKeepsKeyed | controllers/genEnquiryController.js:75-79 | a status update keeps the store well keyed |
| GeneralEnquiries.DeleteKeepsKeyed | controllers/genEnquiryController.js:96-100 | deleting keeps the store well keyed |
| Batches.OpenBatchAt | controllers/batchController.js:98-102 | finds the position of a batch with that id exactly when it exists, is active and not deleted |
| Batches.LinksOfCourse | controllers/batchController.js:164-166 | the mappings of the course, and only those |
| Batches.CreateBatchSpec | controllers/batchController.js:9-77 | 400 when any field is missing or falsy, 404 when the course is missing or deleted, a server error naming the mode when it is not Online/Offline/Hybrid; success exactly otherwise, with status 201, storing the batch and then its course mapping under the next two ids and nothing else |
| Batches.CreateBatch | controllers/batchController.js:9-77 | the handler produces exactly the outcome `CreateBatchSpec` describes |
| Batches.CreateKeepsKeyed | controllers/batchController.js:49-66 | creating keeps the store well keyed |
| Batches.GetAllBatches | controllers/batchController.js:80-92 | 404 exactly when no batch is open; otherwise 200 listing exactly the open batches |
| Batches.GetBatchById | controllers/batchController.js:95-110 | 404 exactly when no open batch has the id; otherwise 200 with a stored, active, not-deleted batch under that id |
| Batches.GetAllBatchesByCourseId | controllers/batchController.js:159-188 | 404 exactly when no mapping, live or retired, names the course; otherwise 200 listing exactly the open batches that some mapping of the course names |
| Batches.CreateThenRead | controllers/batchController.js:9-188 | a created batch is found by id, in the full listing and in its course's listing |
| Batches.UpdateBatchSpec | controllers/batchController.js:113-130 | 404 with no write exactly when the batch is not open; otherwise only that batch's document changes, to the patched one, which is returned |
| Batches.UpdateBatch | controllers/batchController.js:113-130 | the handler produces exactly the outcome `UpdateBatchSpec` describes |
| Batches.UpdateThenRead | controllers/batchController.js:95-130 | after an update that keeps the batch open, a read returns the patched location, capacity, mode and course and the old values where the patch is silent |
| Batches.UpdateKeepsKeyed | controllers/batchController.js:118-122 | updating keeps the store well keyed |
| Batches.RetireLinks | controllers/batchController.js:146-149 | every mapping of the batch is retired, stamped with the time, and every other mapping is untouched |
| Batches.DeleteBatchSpec | controllers/batchController.js:133-157 | 404 with no write exactly when no batch has the id (deleted or not); otherwise the batch is marked deleted and inactive and its mappings retired, nothing else |
| Batches.DeleteBatch | controllers/batchController.js:133-157 | the handler produces exactly the outcome `DeleteBatchSpec` describes |
| Batches.DeleteBatchHides | controllers/batchController.js:80-188 | after a delete the batch is unreadable by id and absent from every listing |
| Batches.DeleteBatchAgain | controllers/batchController.js:138-149 | a second delete succeeds again, changes no batch and only re-stamps the mappings |
| Batches.DeleteCascadeExact | controllers/batchController.js:146-149 | mapping by mapping, the cascade retires exactly the mappings of the batch |
| Batches.DeletedLinksStillFound | controllers/batchController.js:164-169 | the by-course listing keeps answering 200 after its batches are deleted, because it reads retired mappings too |
| Batches.DeleteKeepsKeyed | controllers/batchController.js:138-149 | deleting keeps the store well keyed |
| CourseModules.SortedCons | controllers/moduleController.js:62 | a module no later than the head of an ascending list keeps it ascending by `order` |
| CourseModules.InsertByOrder | controllers/moduleController.js:62 | inserting adds exactly the new module to the multiset of rows and puts it or the old head first |
| CourseModules.InsertKeepsSorted | controllers/moduleController.js:62 | inserting into a list ascending by `order` keeps it ascending |
| CourseModules.SortByOrder | controllers/moduleController.js:62 | the result is ascending by `order` and a permutation of the input |
| CourseModules.LiveModuleAt | controllers/moduleController.js:74 | finds the position of a module with that id exactly when it exists and is not deleted |
| CourseModules.CreateCourseModuleSpec | controllers/moduleController.js:7-36 | 400 with no write exactly when the title is falsy or the courseId missing; otherwise status 201, the module (defaults: empty subtitle and content, order 0) and then its course mapping stored under the next two ids, nothing else |
| CourseModules.CreateCourseModule | controllers/moduleController.js:7-36 | the handler produces exactly the outcome `CreateCourseModuleSpec` describes |
| CourseModules.CreateKeepsKeyed | controllers/moduleController.js:15-25 | creating keeps the store well keyed |
| CourseModules.GetModulesByCourseId | controllers/moduleController.js:39-68 | 404 exactly when the course has no live mapping; otherwise 200 listing, ascending by order, exactly the open modules that a live mapping of the course names |
| CourseModules.ListingHasNoRepeats | controllers/moduleController.js:58-62 | the by-course listing names each module at most once, however many mappings name it |
| CourseModules.IncreasingOnce | controllers/moduleController.js:58-62 | a table with increasing ids holds each row at most once |
| CourseModules.GetSingleModule | controllers/moduleController.js:71-82 | 404 exactly when no undeleted module has the id; otherwise 200 with that stored module, even an inactive one |
| CourseModules.CreateThenListed | controllers/moduleController.js:7-68 | a created module is found by id and in its course's listing |
| CourseModules.UpdateCourseModuleSpec | controllers/moduleController.js:85-103 | 404 with no write exactly when no undeleted module has the id; otherwise only its document changes, to the patched one |
| CourseModules.UpdateCourseModule | controllers/moduleController.js:85-103 | the handler produces exactly the outcome `UpdateCourseModuleSpec` describes |
| CourseModules.UpdateThenRead | controllers/moduleController.js:71-103 | an update that does not delete is read back with the patched title, order and content and the old values where the patch is silent |
| CourseModules.UpdateKeepsKeyed | controllers/moduleController.js:91-95 | updating keeps the store well keyed |
| CourseModules.RetireLinks | controllers/moduleController.js:118-125 | every mapping of the module is retired and stamped with the time; every other mapping is untouched |
| CourseModules.DeleteCourseModuleSpec | controllers/moduleController.js:106-131 | 404 with no write exactly when no module has the id (deleted or not); otherwise the module is marked deleted and inactive and its mappings retired, nothing else |
| CourseModules.DeleteCourseModule | controllers/moduleController.js:106-131 | the handler produces exactly the outcome `DeleteCourseModuleSpec` describes |
| CourseModules.DeleteHides | controllers/moduleController.js:39-131 | after a delete the module is unreadable by id and absent from every course listing |
| CourseModules.DeleteAgain | controllers/moduleController.js:110-125 | a second delete succeeds again, changes no module and only re-stamps the mappings |
| CourseModules.DeleteKeepsKeyed | controllers/moduleController.js:110-125 | deleting keeps the store well keyed |
| Ratings.CreateRatingSpec | controllers/ratingController.js:8-31 | 400 with no write when the courseId, the caller or the rating is missing or zero; a validation error when the rating lies outside 1..5 (models/ratingModel.js:7-8); success exactly otherwise, with status 201, the rating and then its mapping stored under the next two ids |
| Ratings.CreateRating | controllers/ratingController.js:8-31 | the handler produces exactly the outcome `CreateRatingSpec` describes |
| Ratings.CreateKeepsInRange | controllers/ratingController.js:17 | creating keeps every stored rating within 1..5 |
| Ratings.CreateKeepsKeyed | controllers/ratingController.js:17-23 | creating keeps the store well keyed |
| Ratings.Populated | controllers/ratingController.js:37-39 | one view per mapping, in order, each carrying its rating document and its user's name when they exist |
| Ratings.GetRatingsByCourse | controllers/ratingController.js:34-49 | 404 exactly when the course has no undeleted mapping; otherwise 200 with a view for exactly those mappings, each with the rating it names |
| Ratings.CreateThenListed | controllers/ratingController.js:8-49 | a new rating is the last entry of its course's listing, carrying its document |
| Ratings.LastView | controllers/ratingController.js:37-39 | the last view is the last mapping's, with that mapping's rating |
| Ratings.UpdateRatingSpec | controllers/ratingController.js:52-69 | 404 with no write exactly when no undeleted rating has the id; otherwise only the rating's score and review change, each kept where not given |
| Ratings.UpdateRating | controllers/ratingController.js:52-69 | the handler produces exactly the outcome `UpdateRatingSpec` describes |
| Ratings.UpdateThenListed | controllers/ratingController.js:34-69 | listings after an update show the updated rating |
| Ratings.UpdateCanLeaveRange | controllers/ratingController.js:57-61 | because the update runs no validators, a score of 9 is stored and the 1..5 bound stops holding |
| Ratings.UpdateKeepsKeyed | controllers/ratingController.js:57-61 | updating keeps the store well keyed |
| Ratings.RetireLinks | controllers/ratingController.js:79 | the rating's mappings are marked deleted; the others are untouched |
| Ratings.DeleteRatingSpec | controllers/ratingController.js:72-85 | 404 with no write exactly when no rating has the id; otherwise the rating and its mappings are marked deleted, nothing else |
| Ratings.DeleteRating | controllers/ratingController.js:72-85 | the handler produces exactly the outcome `DeleteRatingSpec` describes |
| Ratings.DeleteHides | controllers/ratingController.js:34-85 | after a delete the rating can no longer be updated and is absent from every course listing |
| Ratings.DeleteAgain | controllers/ratingController.js:76-79 | a second delete returns the same response and changes nothing; the rating keeps its `isActive` |
| Ratings.DeleteKeepsKeyed | controllers/ratingController.js:76-79 | deleting keeps the store well keyed |
| RaisedDeals.LiveDeal | controllers/raisedDealController.js:70 | returns a deal exactly when one with that id exists and is not deleted, and then that stored deal |
| RaisedDeals.UserNameOr | controllers/raisedDealController.js:102-110 | "Unknown" when the mapped user is missing or deleted |
| RaisedDeals.CreateRaisedDealSpec | controllers/raisedDealController.js:10-41 | with a schema declaring the fields the handler writes: 400 with no write exactly when the price, seats, message, courseId or userId is missing or falsy; otherwise status 201, a `pending` deal and then its mapping stored under the next two ids, nothing else |
| RaisedDeals.CreateRaisedDeal | controllers/raisedDealController.js:10-41 | the handler produces exactly the outcome `CreateRaisedDealSpec` describes |
| RaisedDeals.CreateKeepsKeyed | controllers/raisedDealController.js:20-30 | creating keeps the store well keyed |
| RaisedDeals.CreateRaisedDealAsWritten | controllers/raisedDealController.js:10-41 | as written a create never succeeds and writes nothing: 400 for a missing field, otherwise the deal schema (models/raisedDealModel.js:6-7) requires `requestedPrice` and `requestedSeats`, which the handler does not write |
| RaisedDeals.CreateAsWrittenFails | controllers/raisedDealController.js:20-24 | every request the intended create accepts, the written one refuses with the schema's validation error and no write; on all other requests the two agree |
| RaisedDeals.UpdateRaisedDealSpec | controllers/raisedDealController.js:44-63 | 404 with no write exactly when no undeleted deal has the id; otherwise only its price, seats and message change, each kept where not given |
| RaisedDeals.UpdateRaisedDeal | controllers/raisedDealController.js:44-63 | the handler produces exactly the outcome `UpdateRaisedDealSpec` describes |
| RaisedDeals.UpdateKeepsKeyed | controllers/raisedDealController.js:49-53 | updating keeps the store well keyed |
| RaisedDeals.RetireLinks | controllers/raisedDealController.js:76-79 | the deal's mappings are retired and stamped with the time; the others are untouched |
| RaisedDeals.DeleteRaisedDealSpec | controllers/raisedDealController.js:66-87 | 404 with no write exactly when no undeleted deal has the id; otherwise the deal is marked deleted and its mappings retired, nothing else |
| RaisedDeals.DeleteRaisedDeal | controllers/raisedDealController.js:66-87 | the handler produces exactly the outcome `DeleteRaisedDealSpec` describes |
| RaisedDeals.DeleteTwiceNotFound | controllers/raisedDealController.js:70-71 | a second delete of the same deal answers 404 and writes nothing |
| RaisedDeals.DeleteCascadeExact | controllers/raisedDealController.js:76-79 | mapping by mapping, the cascade retires exactly the mappings of the deal |
| RaisedDeals.DeleteKeepsKeyed | controllers/raisedDealController.js:73-79 | deleting keeps the store well keyed |
| RaisedDeals.DealRows | controllers/raisedDealController.js:96-113 | at most one entry per mapping |
| RaisedDeals.DealRowsSound | controllers/raisedDealController.js:96-113 | every entry is a live deal named by some mapping, labelled with that mapping's user name or "Unknown" |
| RaisedDeals.DealRowsComplete | controllers/raisedDealController.js:96-113 | every mapping whose deal is live contributes an entry for that deal |
| RaisedDeals.GetAllDeals | controllers/raisedDealController.js:90-119 | the loop over undeleted mappings returns 200 with exactly the entries `DealRows` gives for them |
| RaisedDeals.CreateThenListed | controllers/raisedDealController.js:10-119 | a new deal appears in the admin's listing |
| RaisedDeals.UserDeals | controllers/raisedDealController.js:133-142 | at most one deal per mapping |
| RaisedDeals.UserDealsExact | controllers/raisedDealController.js:133-142 | a deal is listed exactly when it is live and one of the mappings names it |
| RaisedDeals.GetDealsForUser | controllers/raisedDealController.js:122-150 | the loop over the caller's undeleted mappings returns 200 with exactly the deals `UserDeals` gives |
| RaisedDeals.GetSingleDealForUser | controllers/raisedDealController.js:153-179 | 403 exactly when no undeleted mapping ties the deal to the caller; otherwise 404 when the deal is deleted or missing, else 200 with the live deal |
| RaisedDeals.GetSingleDealById | controllers/raisedDealController.js:182-218 | 404 "Mapping not found" with no undeleted mapping, 404 "Deal not found" when the deal is not live; success exactly when an undeleted mapping and the live deal both exist, returning the live deal with the live user and course of the first undeleted mapping, each absent when not live |
| RaisedDeals.DeleteThenUnreadable | controllers/raisedDealController.js:66-218 | after a delete neither single-deal read succeeds |
| RaisedDeals.CoursesWithDealsAsWritten | controllers/raisedDealController.js:222-252 | as written the handler never succeeds: 401 without a caller, otherwise the undefined `RaisedDealMapping` throws |
| RaisedDeals.CoursesWithDeals | controllers/raisedDealController.js:222-252 | with the mapping model the file imports: 401 exactly without a caller; otherwise 200 with exactly the undeleted courses named by the caller's undeleted mappings, each once and in table order |
| RaisedDeals.CoursesWithDealsAsWrittenFails | controllers/raisedDealController.js:231 | whenever the intended handler succeeds the written one answers a server error "RaisedDealMapping is not defined"; otherwise the two agree |
| RaisedDeals.CreateThenCourseListed | controllers/raisedDealController.js:10-252 | after a deal is raised for a live course, that course is among the holder's courses with deals |
| Mentors.ActorName | controllers/mentorController.js:12-13 | "admin" for an admin caller and the caller's user name otherwise |
| Mentors.LiveMentorAt | controllers/mentorController.js:99-102 | finds the position of the mentor exactly when it exists and is not deleted |
| Mentors.CreateMentorSpec | controllers/mentorController.js:7-50 | 400 with no write when the name or title is falsy, then 401 with no write when there is no caller or no creator name; success exactly otherwise, with status 201, the mentor stamped with its creator and then the caller's mapping stored under the next two ids |
| Mentors.CreateMentor | controllers/mentorController.js:7-50 | the handler produces exactly the outcome `CreateMentorSpec` describes |
| Mentors.CreateKeepsKeyed | controllers/mentorController.js:27-39 | creating keeps the store well keyed |
| Mentors.GetAllMentors | controllers/mentorController.js:83-92 | always 200, listing exactly the undeleted mentors, newest first |
| Mentors.ListingIsTheSortedMentors | controllers/mentorController.js:85 | any newest-first list of exactly the undeleted mentors is the listing |
| Mentors.GetMentorById | controllers/mentorController.js:95-114 | 404 exactly when no undeleted mentor has the id; otherwise 200 with that mentor |
| Mentors.ReadFindsLive | controllers/mentorController.js:99-106 | a read succeeds exactly when an undeleted mentor with the id is stored |
| Mentors.CreateThenListedFirst | controllers/mentorController.js:7-114 | a new mentor heads the listing and is readable by id |
| Mentors.Patched | controllers/mentorController.js:58-71 | name and title are kept where not given, description and picture may also be cleared, the updater's name is recorded, and the flags and other names are untouched |
| Mentors.UpdateMentorSpec | controllers/mentorController.js:53-79 | 404 with no write exactly when no undeleted mentor has the id; otherwise only that mentor changes, to the patched one |
| Mentors.UpdateMentor | controllers/mentorController.js:53-79 | the handler produces exactly the outcome `UpdateMentorSpec` describes |
| Mentors.UpdateThenRead | controllers/mentorController.js:53-114 | an update is read back as returned, naming the updater |
| Mentors.UpdateKeepsKeyed | controllers/mentorController.js:61-71 | updating keeps the store well keyed |
| Mentors.Retired | controllers/mentorController.js:125-137 | the mentor becomes deleted and inactive, naming who deleted it, and nothing else about it changes |
| Mentors.RetireLinks | controllers/mentorController.js:144-151 | the mentor's undeleted mappings are retired and stamped; all other mappings are untouched |
| Mentors.DeleteMentorAsWritten | controllers/mentorController.js:122-159 | as written a delete never succeeds: 404 for a missing mentor, otherwise the mentor is retired and then the undefined `UserMentorMapping` throws, leaving the mappings as they were |
| Mentors.DeleteMentorAsWrittenStrandsLinks | controllers/mentorController.js:129-151 | after the failed delete the mentor is gone and a retry answers 404, while its live mappings stay live |
| Mentors.DeleteMentorSpec | controllers/mentorController.js:122-159 | with the mapping model the file imports: 404 with no write exactly when no undeleted mentor has the id; otherwise the mentor is retired and its live mappings retired, nothing else |
| Mentors.DeleteMentor | controllers/mentorController.js:122-159 | the handler produces exactly the outcome `DeleteMentorSpec` describes |
| Mentors.DeleteMentorCorrects | controllers/mentorController.js:129-151 | the intended delete leaves the mentors as the written one does, succeeds exactly when the written one throws, and then retires every mapping of the mentor |
| Mentors.DeleteHides | controllers/mentorController.js:53-159 | after a delete the mentor cannot be read, updated or deleted again |
| Mentors.DeleteUnlists | controllers/mentorController.js:83-159 | a deleted mentor is no longer listed |
| Mentors.DeleteKeepsKeyed | controllers/mentorController.js:129-151 | deleting keeps the store well keyed |
| Institutes.NewInstitute | models/instituteModel.js:5-12 | a new institute carries the request's fields and starts unverified, inactive and not deleted |
| Institutes.LiveInstituteAt | controllers/instituteController.js:76-79 | finds the position of the institute exactly when it exists and is not deleted |
| Institutes.CreateInstituteAsWritten | controllers/instituteController.js:4-45 | as written a create never succeeds: 400 with no write when a required field is falsy; otherwise the institute is stored and then reading `req.user._id` throws, answering 500 "Server error" with no mapping |
| Institutes.CreateInstituteSpec | controllers/instituteController.js:4-45 | with the caller's `userId` claim: 400 with no write exactly when a required field is falsy; otherwise 201, the institute and then the caller's ownership mapping under the next two ids |
| Institutes.CreateInstitute | controllers/instituteController.js:4-45 | the handler produces exactly the outcome `CreateInstituteSpec` describes |
| Institutes.CreateAsWrittenOrphans | controllers/instituteController.js:19-32 | the written create stores the same institutes as the intended one but no mapping, so the institute has no owner, and answers 500 where the intended answers 201 |
| Institutes.CreateKeepsKeyed | controllers/instituteController.js:19-32 | creating keeps the store well keyed |
| Institutes.GetAllInstitutesForUser | controllers/instituteController.js:48-69 | with the caller's `userId` claim: always 200, listing exactly the undeleted institutes that a live mapping of the caller names, each once, in table order |
| Institutes.CreateThenListed | controllers/instituteController.js:4-69 | a created institute is listed for its creator |
| Institutes.GetSingleInstituteById | controllers/instituteController.js:72-89 | 404 exactly when no undeleted institute has the id; otherwise 200 with that institute |
| Institutes.Patched | controllers/instituteController.js:95-101 | every field is kept where the body does not give it; the address may also be cleared |
| Institutes.UpdateInstituteSpec | controllers/instituteController.js:92-114 | 404 with no write exactly when no undeleted institute has the id; otherwise only that institute changes, to the patched one |
| Institutes.UpdateInstituteById | controllers/instituteController.js:92-114 | the handler produces exactly the outcome `UpdateInstituteSpec` describes |
| Institutes.UpdateThenRead | controllers/instituteController.js:72-114 | an update that does not delete is read back as returned |
| Institutes.UpdateCanDeleteWithoutCascade | controllers/instituteController.js:97-101 | an update that sets `isDeleted` hides the institute but leaves its mappings live |
| Institutes.UpdateKeepsKeyed | controllers/instituteController.js:97-101 | updating keeps the store well keyed |
| Institutes.RetireLinks | controllers/instituteController.js:128-131 | the institute's undeleted mappings become deleted and inactive; all other mappings are untouched |
| Institutes.DeleteInstituteSpec | controllers/instituteController.js:117-141 | the mappings are retired whether or not the institute is found; 404 exactly when no undeleted institute has the id, otherwise the institute is also marked deleted and inactive |
| Institutes.DeleteInstituteById | controllers/instituteController.js:117-141 | the handler produces exactly the outcome `DeleteInstituteSpec` describes |
| Institutes.DeleteMissRetiresLinks | controllers/instituteController.js:121-135 | a delete that answers 404 still retires the live mappings of that id |
| Institutes.DeleteAgain | controllers/instituteController.js:121-135 | after any delete, a second delete of the same id answers 404 and writes nothing |
| Institutes.RetiredLinksUnowned | controllers/instituteController.js:128-131 | no live mapping left by the cascade names the deleted institute |
| Institutes.DeleteUnlists | controllers/instituteController.js:48-141 | after a delete the institute is listed for no one |
| Institutes.DeleteKeepsKeyed | controllers/instituteController.js:121-131 | deleting keeps the store well keyed |
| StudentInvites.InvitesFor | controllers/studentInvitesController.js:35-40 | one unused invite per email, in order, each under the next id and carrying the token signed for that email |
| StudentInvites.InvitesForStep | controllers/studentInvitesController.js:35-40 | each pass of the loop appends exactly the next email's invite |
| StudentInvites.SendInvitesSpec | controllers/studentInvitesController.js:11-61 | 400 with no write for a missing or empty list, then 400 naming every malformed address, comma-separated; success exactly when every address is well formed, storing one invite per email and nothing else |
| StudentInvites.StoreInvites | controllers/studentInvitesController.js:35-53 | the loop stores one unused invitation per address, in order, under consecutive ids, and changes nothing else |
| StudentInvites.SendStudentInvites | controllers/studentInvitesController.js:11-61 | the loop over the emails produces exactly the outcome `SendInvitesSpec` describes |
| StudentInvites.SendOnePerEmail | controllers/studentInvitesController.js:35-40 | a send keeps the old invites and adds, for the k-th email, an unused invite for that email and its token |
| StudentInvites.SendKeepsKeyed | controllers/studentInvitesController.js:35-40 | sending keeps the store well keyed |
| StudentInvites.UnusedAt | controllers/studentInvitesController.js:85 | the first unused invite matching the token and email, or none exactly when no invite matches |
| StudentInvites.Admit | controllers/studentInvitesController.js:69-89 | the checks in the handler's order: missing fields, phone shape, password length, an expired or rejected token, no unused matching invite, an email already registered; admission exactly when all pass, for the token's email and institute |
| StudentInvites.RegisterAsWritten | controllers/studentInvitesController.js:64-116 | as written a registration never succeeds and writes nothing: an admitted student is refused by the user schema, whose roles do not include `instituteStudent` (models/userModel.js:12) |
| StudentInvites.RegisterStudentSpec | controllers/studentInvitesController.js:64-116 | with the role accepted: each refusal writes nothing; success exactly on admission, with status 201, storing the student with the hashed password, the student's institute mapping, and the invite marked used |
| StudentInvites.RegisterStudentViaInvite | controllers/studentInvitesController.js:64-116 | the handler produces exactly the outcome `RegisterStudentSpec` describes |
| StudentInvites.RegisterAsWrittenFails | controllers/studentInvitesController.js:93-99 | whenever the intended registration succeeds, the written one answers the role validation error and writes nothing |
| StudentInvites.RegisterOnce | controllers/studentInvitesController.js:85-89 | a second registration with the same invite is refused with 400 and writes nothing |
| StudentInvites.RegisterSpendsInvite | controllers/studentInvitesController.js:106-107 | registration marks exactly the matched invite used and leaves every other invite alone |
| StudentInvites.RegisterKeepsKeyed | controllers/studentInvitesController.js:93-107 | registering keeps the store well keyed |
| Auth.FirstField | middleware/authChecker.js:15 | the longest space-free prefix of the header, followed by a space or the end |
| Auth.FirstFieldUnique | middleware/authChecker.js:15 | any space-free prefix followed by a space or the end is that first field |
| Auth.TokenOf | middleware/authChecker.js:15 | the token is a space-free prefix of what follows "Bearer " |
| Auth.TokenChecker | middleware/authChecker.js:6-37 | 401 "token missing" without a "Bearer " header, then 401 for an expired or invalid token; the request passes, carrying the token's claims, exactly when the token verifies and names a stored, undeleted account; every refusal is 401 |
| Auth.AllowRoles | middleware/authChecker.js:40-47 | passes the caller on exactly when it has a role among the allowed ones, and refuses every other request with 403 "Access denied" |
| Auth.BearerOfLiveAccountPasses | middleware/authChecker.js:6-37 | a verified token naming a live account passes whatever follows it in the header |
| Auth.LoginThenPass | controllers/userController.js:67-124 | the claims a successful log-in issues pass the token check while the account is live |
| Auth.DeletedAccountLockedOut | controllers/userController.js:324-342 | after the account is deleted, a token that still verifies is refused with 401 |
| Auth.GatesCompose | middleware/authChecker.js:40-47 | behind the token check, the role check passes exactly the callers whose role is listed |

## Left out

- HTTP wiring (app.js, routes/*.js, CORS, cookies) is left out. Every handler is modelled as reachable, although app.js:36-44 mounts no routes for enquiry assignment, follow-ups, institutes or student invitations, and some route files import handlers that do not exist.
- middleware/errorHandler.js is not part of this model. A thrown error, such as a Mongoose validation error or a reference to an undefined name, is modelled as status 500 carrying the error's message.
- Handlers behind `tokenChecker` are assumed to run with `req.user` set. They take the caller's claims (or the id or role they read from them) as a parameter.
- bcrypt is modelled as the abstract `Models.Hash` and `Models.Matches`. JWT signing and verification are modelled as `Auth.Verdict` and the `sign` parameter of the invitations. Secrets, expiry times and salt rounds are left out.
- E-mail delivery (utils/sendMail.js) and the HTML bodies are left out. A send has no modelled result.
- The daily cron in server.js is left out. The reminder sweep it calls is not defined in controllers/followUpController.js.
- Concurrency and the non-atomicity of multi-write handlers are left out. Each handler runs to completion alone.
- Ids are `nat`. A malformed ObjectId string, which makes Mongoose throw a cast error, cannot be represented.
- `createdAt` is the id, so two records never tie on it. The order MongoDB gives to equal timestamps (newest-first listings) is not modelled.
- Schema validators are modelled only where a handler can trip them:
  - the required paths `title` of a course module, `price` of a price, `childAdminId` of a follow-up mapping, and `requestedPrice` and `requestedSeats` of a raised deal;
  - the rating range on create;
  - the batch `mode` enum on create;
  - the user `role` enum on sign-up and student registration.
  Other validators are left out, and so is `trim` on string fields: values are stored as given.
- Strict mode is modelled where it drops a written field:
  - `batchName` and `batchNo` are not in the batch schema;
  - the invitation's `instituteId` is not in the invite schema;
  - the price schema names its flag `isDelete`, so `deleteCourse` only deactivates prices.
- Strings are sequences of Unicode scalar values. JavaScript's `length` and the `{2,}` count of the e-mail pattern are modelled in UTF-16 code units (`Validators.JsLength`). Lone surrogates, which a JavaScript string can hold, cannot be represented.
- Regex `\s` is the ECMAScript WhiteSpace and LineTerminator set (`Validators.IsSpace`). `toLowerCase` lower-cases ASCII letters only; other letters with a lower-case form are kept as they are.
- JavaScript numbers (price, special price, agreement price, seats, capacity, rating, module order) are modelled as `int`. Fractional values, `NaN` and values sent as strings are not represented.
- A module element sent to `createCourse` with its own `_id` is created with a fresh id. A client-chosen id is not modelled.
- Invitation e-mails are strings. Non-string array elements, which the regex test would coerce, are not modelled.
- Response bodies beyond status, message and payload are left out. The institute handlers, which answer without a `message` on reads, are modelled with the message "".
- getAllInstitutes and getAllStudent (controllers/userController.js:242-268) and getAllStudentsByInstituteId (controllers/studentInvitesController.js:119-145) are left out.
- The require paths that do not match the model files are left out. They are controllers/ratingController.js:2-3, controllers/instituteController.js:1-2 and controllers/batchController.js:4. The model reads them as the schemas under models/.
- Institutes.GetAllInstitutesForUser takes the caller's `userId` claim. As written, line 50 reads `req.user._id` and every call fails with a server error, the same fault as the create finding below. No as-written member is given for the listing.
- RaisedDeals.GetDealsForUser and RaisedDeals.GetSingleDealForUser take the caller's id as present. Without a caller, Mongoose drops the undefined `userId` from the filter, so every live mapping matches. That case is not modelled.
- RaisedDeals.UpdateRaisedDealSpec assumes the deal schema declares the fields the handler writes. With the schema as written, strict mode drops all three and the update changes nothing.

## Findings

| source | as written | input that shows it | evidently intended | confidence | as-written member | corrected member |
|---|---|---|---|---|---|---|
| controllers/enquiryAssignController.js:88 | the join queries `CourseEnquiryMapping`, which the file never imports | a child admin with at least one live assignment mapping: the handler throws, answering 500 | look up each enquiry's course link in the course-enquiry mapping collection | not executed | EnquiryAssign.AssignedAsWritten | EnquiryAssign.AssignedSpec |
| controllers/raisedDealController.js:231 | the handler queries `RaisedDealMapping`, but the file imports the mapping model as `DealMapping` | any signed-in caller: the handler answers 500 "RaisedDealMapping is not defined" | query `DealMapping` and list the caller's live courses with deals | not executed | RaisedDeals.CoursesWithDealsAsWritten | RaisedDeals.CoursesWithDeals |
| controllers/mentorController.js:144 | the cascade names `UserMentorMapping`, but the file imports the model as `mentorUserMMapping` | deleting any live mentor: the mentor is marked deleted, then the handler throws with its mappings still live, and a retry answers 404 | retire the mentor's live mappings with the imported model | not executed | Mentors.DeleteMentorAsWritten | Mentors.DeleteMentorSpec |
| controllers/instituteController.js:29 | the handler reads `req.user._id`, but `tokenChecker` stores the claims `{ userId, role, userName }` (middleware/authChecker.js:27) | any complete create request: the institute is stored, then the handler answers 500 "Server error" and writes no owner mapping | map the institute to `req.user.userId` | not executed | Institutes.CreateInstituteAsWritten | Institutes.CreateInstituteSpec |
| controllers/studentInvitesController.js:98 | the student is created with role `instituteStudent`, which the user schema's role enum (models/userModel.js:12) does not list | any admitted registration: 500 validation error, nothing written, the invitation stays unused | a role the schema admits for institute students | not executed | StudentInvites.RegisterAsWritten | StudentInvites.RegisterStudentSpec |
| controllers/raisedDealController.js:20-24 | the deal is created with `agreementPrice`, `seats` and `adminMessage`, but the schema (models/raisedDealModel.js:6-7) declares none of them and requires `requestedPrice` and `requestedSeats` | any complete create request: 500 validation error and nothing written | a schema that declares the fields the controller writes and the other handlers read | not executed | RaisedDeals.CreateRaisedDealAsWritten | RaisedDeals.CreateRaisedDealSpec |
