# SkillShareHub in Dafny

SkillShareHub is a course marketplace. Its server is Express over MongoDB, and its client is a set of React pages. This project models the parts of it that decide things.

- **Server route handlers.** These cover payment and enrollment, course records and their lists, course content, search, skills, lesson progress, reviews, analytics, the instructor dashboard, registration and login, and the admin gate.
  - The database is the class `Store.Database`, with one sequence per collection, in insertion order.
  - Each state-changing handler is a `method` on that database. Its contract ties the new database and the HTTP status to a pure specification function over `Store.Tables`.
  - The specification function states the status cases, what changes, what stays the same, and that the schema's invariants (`Store.ValidTables`) are preserved.
- **Client-side decisions.** These are:
  - the course list filter and the local roster and rating updates;
  - the instructor dashboard's content form and YouTube pattern;
  - the course wizard's upload loop, quiz editor and steps;
  - the course detail page's field validator;
  - the course form's tag parsing;
  - the video player's embed URLs;
  - the route guards and the navigation bar;
  - the session held by the auth provider, modelled as a class with `user`, `token`, `loading` and the browser storage.
- **Shared building blocks.** The JavaScript string built-ins (`toLowerCase`, `includes`, first-occurrence `replace`, `split`, `trim`) are defined over `seq<char>` in `JsStrings`. List operations (`filter`, `findIndex`, `splice`, `sort`, `limit`) are in `Seqs`.

Things the code reaches outside itself for are parameters:

- the HMAC digest (`sign`);
- the payment gateway's reply;
- `JSON.parse` and `JSON.stringify`;
- email validation and normalisation;
- password comparison;
- file uploads;
- the ids and clock values the database assigns.

Averages are `real`s.

Where the code and its documentation differ, the model follows the code:

- **Verify does not check the order's status.** `POST /verify` completes the first order with the gateway id whatever its status. It enrolls the caller, not the order's user, and never writes `FAILED`.
- **Analytics `GET /` divides by the whole roster.** It counts an unrated entry as 0 and matches only roster records that carry a `student` field. Enrolling pushes bare ids, so those never match.
- **The second `/login` handler in `auth.js` is unreachable.** The first one registered on the same path always answers.
- **Five route files are never mounted.** server/server.js (lines 78-84) mounts auth, users, courses, enrollments, payment, reviews and analytics only. The handlers of course.js, courseContent.js, skills.js, progress.js and instructor.js are modelled as written, though no request reaches them.

## Model

| member | source | states |
|---|---|---|
| CourseModel.NewCourse | server/models/course.js:3-15 | a course is created iff title and instructor are given; price defaults to 0, lists start empty, createdAt is the body's or else now |
| CourseModel.AddToSet | server/routes/payment.js:98-102 | `$addToSet`: the student is in the roster afterwards; appended at the end only when absent, otherwise the roster is unchanged |
| CourseModel.AddToSetOnce | server/routes/payment.js:98-102 | a student added by `$addToSet` appears exactly once, and a second add changes nothing |
| EnrollmentModel.NewEnrollment | server/models/Enrollment.js:3-40 | a new enrollment is active, progress 0, unrated, enrolled and accessed now, and satisfies the schema's ranges |
| EnrollmentModel.UniquePairsSnoc | server/models/Enrollment.js:45-46 | inserting a (student, course) pair not yet present keeps the unique compound index valid |
| OrderModel.NewOrder | server/models/order.js:3-42 | a new order is PENDING, without a payment id, and has every required field |
| ReviewModel.UniqueReviewsSnoc | server/models/Review.js:13 | inserting a (userId, courseId) pair not yet reviewed keeps the unique index valid |
| ProgressModel.NewProgress | server/models/progress.js:3-9 | a new progress record has percentage 0 and lastAccessed equal to the creation time |
| Store.CourseIndex | server/routes/courses.js:20 | `findById`: the position of the course with that id, none before it has the id, or no course has it |
| Store.EnrollmentIndex | server/routes/enrollments.js:74 | `findById` on enrollments: the position of the first enrollment with that id, or none has it |
| Store.UserIndex | server/routes/skills.js:45 | `findById` on users: the position of the first user with that id, or none has it |
| Store.AddStudentToCourse | server/routes/payment.js:98-102 | only the course with that id changes, its roster gaining the student by `$addToSet`; a missing course changes nothing |
| Store.InsertEnrollmentValid | server/models/Enrollment.js:45-46 | saving an enrollment with a new id and a new (student, course) pair keeps the database valid |
| Payment.CreateOrderSpec | server/routes/payment.js:23-63 | 404 iff the course is missing; 200 iff the course exists, the gateway creates the order and the order's required fields (gateway id, caller, course) are non-empty; every other case is 500; errors change nothing; on 200 exactly one order is appended: amount = price × 100, INR, receipt `rcpt_<user>_<course>`, PENDING, for (caller, course) |
| Payment.Receipt | server/routes/payment.js:36 | `rcpt_`, the user id, an underscore, the course id, and nothing else |
| Payment.CreateOrder | server/routes/payment.js:23-63 | the handler's new database and status are those of `CreateOrderSpec`, and the database stays valid |
| Payment.Completing | server/routes/payment.js:87-89 | the saved order is COMPLETED with the payment id, all else kept, whatever its previous status |
| Payment.VerifySpec | server/routes/payment.js:66-115 | 400 iff the signature differs from the HMAC of the order id and payment id joined by a vertical bar, 404 iff it matches but no order has that id, both with no change; past them the first such order is completed; 200 appends an active enrollment for the caller and the order's course and adds the caller to the roster; 500 iff the new enrollment breaks the schema (an empty caller or course id) or a unique index (its id is taken, or the caller already holds the course), and keeps the completed order but no enrollment |
| Payment.Verify | server/routes/payment.js:66-115 | the handler's new database and status are those of `VerifySpec`, and the database stays valid |
| Payment.VerifyRosterOnce | server/routes/payment.js:92-104 | after a successful verify, the caller is in the course's roster (exactly once if newly added), and no other course changed |
| Payment.VerifyTwice | server/models/Enrollment.js:45-46 | verifying the same order again fails with 500 at the unique index: no second enrollment, roster unchanged, order still COMPLETED |
| Payment.CreateThenVerify | server/routes/payment.js:23-115 | creating an order and verifying it with the gateway's signature completes it, enrolls the buyer and puts them in the roster |
| Enrollments.Mine | server/routes/enrollments.js:10-21 | exactly the caller's enrollments (as a multiset), ordered by enrolledAt descending |
| Enrollments.EnrollSpec | server/routes/enrollments.js:26-62 | 404 iff the course is missing, 400 iff the pair is already enrolled, both with no change; 200 iff neither, the ids are non-empty, the enrollment id is free and the stored course is valid; 200 appends exactly the active, progress-0, unrated enrollment and pushes the caller onto that course's roster, leaving orders, reviews, progress and users unchanged; 500 keeps the saved enrollment when only `course.save()` fails, and on a valid database 500 changes nothing |
| Enrollments.Enroll | server/routes/enrollments.js:26-62 | the handler's new database and status are those of `EnrollSpec`, and the database stays valid |
| Enrollments.EnrollTwice | server/routes/enrollments.js:34-41 | a second enrollment in the same course is refused with 400 and no change; the caller's list holds that course once |
| Enrollments.OnlyOnePair | server/models/Enrollment.js:45-46 | under the unique index, the caller's list holds exactly one enrollment of an enrolled course |
| Enrollments.WithProgress | server/routes/enrollments.js:84-89 | the progress is set and lastAccessed refreshed; status becomes completed iff progress is 100, otherwise it is kept |
| Enrollments.UpdateProgressSpec | server/routes/enrollments.js:67-97 | 400 iff progress is outside 0..100 (before any lookup), 404 iff the enrollment is missing, 401 iff the caller does not own it, none of them changing anything; 200 replaces only that enrollment |
| Enrollments.UpdateProgress | server/routes/enrollments.js:67-97 | the handler's new database and status are those of `UpdateProgressSpec`, and the database stays valid |
| Enrollments.CompletedStays | server/routes/enrollments.js:84-89 | once set to 100 the enrollment stays completed under any later valid update, even one lowering the progress |
| CourseContent.OwnerGate | server/routes/courseContent.js:28-37 | owned iff the course exists and its instructor is the caller; otherwise 404 for a missing course, 401 for another instructor |
| CourseContent.UpdateItem | server/routes/courseContent.js:89-101 | none iff no item has the id; otherwise only the first item with the id is rewritten with the four fields, keeping its id |
| CourseContent.DeleteItem | server/routes/courseContent.js:127-136 | none iff no item has the id; otherwise exactly the first matching item is removed and the rest keep their order |
| CourseContent.AddThenDelete | server/routes/courseContent.js:41-48 | deleting the item just appended gives back the list as it was |
| CourseContent.UpdateIdempotent | server/routes/courseContent.js:94-101 | rewriting an item twice with the same body equals rewriting it once |
| CourseContent.AddContentSpec | server/routes/courseContent.js:10-58 | 400 iff the type is not video/pdf/quiz or a field is empty, then the owner gate's 404/401, all with no change; 200 iff the body is valid and the caller owns the course; 200 appends exactly one item at the end |
| CourseContent.UpdateContentSpec | server/routes/courseContent.js:60-111 | 400 on invalid fields, the owner gate, 404 iff no item has the id; 200 iff the body is valid, the caller owns the course and an item has the id; 200 rewrites only that item and replies with the saved course |
| CourseContent.DeleteContentSpec | server/routes/courseContent.js:113-144 | the owner gate, 404 iff no item has the id; 200 iff the caller owns the course and an item has the id; 200 removes exactly the first matching item and replies with the saved course |
| CourseContent.AddContent | server/routes/courseContent.js:10-58 | the handler's result is that of `AddContentSpec`, and the database stays valid |
| CourseContent.UpdateContent | server/routes/courseContent.js:60-111 | the handler's result is that of `UpdateContentSpec`, and the database stays valid |
| CourseContent.DeleteContent | server/routes/courseContent.js:113-144 | the handler's result is that of `DeleteContentSpec`, and the database stays valid |
| Courses.GetCourseSpec | server/routes/courses.js:18-27 | 404 iff no course has the id; 200 returns a stored course with that id |
| Courses.CreateCourseSpec | server/routes/courses.js:29-44 | 201 iff a title is given (and the id is free); the instructor is the caller whatever the body says; price defaults to 0 and createdAt to now; 400 changes nothing |
| Courses.CreateCourse | server/routes/courses.js:29-44 | the handler's result is that of `CreateCourseSpec`, and the database stays valid |
| Courses.ApplyBody | server/routes/courses.js:48-52 | each of title, description, category, price, tags, instructor, thumbnail, videos, resources, quizzes and createdAt is the body's value when given and the stored one otherwise; id, content, roster and rating are kept; an empty body changes nothing; a valid course stays valid unless the body empties title or instructor |
| Courses.UpdateCourseSpec | server/routes/courses.js:46-59 | 400 iff the body empties title or instructor, 404 iff the course is missing, both with no change; 200 replaces only that course |
| Courses.UpdateCourse | server/routes/courses.js:46-59 | the handler's result is that of `UpdateCourseSpec`, and the database stays valid |
| Courses.DeleteCourseSpec | server/routes/courses.js:61-70 | 404 iff the course is missing (no change); 200 removes it, and no course with that id remains |
| Courses.DeleteCourse | server/routes/courses.js:61-70 | the handler's result is that of `DeleteCourseSpec`, and the database stays valid |
| Courses.ApplyEdit | server/routes/courses.js:72-123 | a push appends the body to the named list only; a splice applies `splice(index, 1)` to the named list only; the other two lists are unchanged |
| Courses.EditSpec | server/routes/courses.js:72-123 | a missing course gives no response and no change; otherwise only that course is edited |
| Courses.Edit | server/routes/courses.js:72-123 | the handler's result is that of `EditSpec`, and the database stays valid |
| Courses.PushThenSplice | server/routes/courses.js:72-101 | a pushed video is removed again by splicing at its index or at -1 |
| Courses.SpliceVideoAt | server/routes/courses.js:96-101 | splicing an in-range index removes that element and shifts later ones down; an index at or past the end changes nothing |
| CourseSearch.BuildFilters | server/routes/course.js:9-21 | each filter key is set iff its parameter is given |
| CourseSearch.Matches | server/routes/course.js:9-21 | the query text occurs (ignoring case) in the title or description, the category is equal, and the price lies within each given bound |
| CourseSearch.Satisfies | server/routes/course.js:9-21 | how the database applies the filter document: `$or` of case-insensitive matches, category equality, `$gte`/`$lte` on price |
| CourseSearch.BuildFiltersCorrect | server/routes/course.js:9-21 | a course satisfies the built filter iff the query text occurs (ignoring case) in title or description, the category is equal, and the price is within the given bounds |
| CourseSearch.SortOf | server/routes/course.js:23-27 | price_asc → price ascending, price_desc → price descending, rating → rating descending, else createdAt descending |
| CourseSearch.SortedTake | server/routes/course.js:29 | the first n of a sort: sorted, drawn from the list, all of it when it is short, otherwise n elements none sorting after one left out |
| CourseSearch.Search | server/routes/course.js:6-31 | at most 50 courses, all matching, sorted as requested; all matching ones when at most 50 match, else exactly 50; no matching course left out sorts before any course returned |
| Skills.AllSkills | server/routes/skills.js:10-24 | the users' skill lists concatenated in user order |
| Skills.AllSkillsMembers | server/routes/skills.js:13-18 | a skill is listed iff some user has it |
| Skills.AddSkillSpec | server/routes/skills.js:29-65 | 400 for an empty trimmed name, a level outside beginner/intermediate/advanced, or a name already taken ignoring case; 500 for a missing user; 200 appends {name, level} at the end; errors change nothing |
| Skills.AddSkill | server/routes/skills.js:29-65 | the handler's result is that of `AddSkillSpec`, and the database stays valid |
| Skills.AddSkillKeepsDistinct | server/routes/skills.js:49-57 | adding a skill keeps the names pairwise distinct ignoring case |
| Skills.AddSkillTwice | server/routes/skills.js:49-55 | adding the same name again, in any case and with any surrounding whitespace, is refused |
| Skills.TrimLower | server/routes/skills.js:49-51 | trimming commutes with lower-casing |
| Skills.DeleteSkillSpec | server/routes/skills.js:71-83 | every skill with the id is removed and the rest keep their order and their number; a missing user gives 500 and changes nothing |
| Skills.FilterNoneRemoved | server/routes/skills.js:74-76 | deleting an id no skill has leaves the list unchanged |
| Skills.DeleteSkill | server/routes/skills.js:71-83 | the handler's result is that of `DeleteSkillSpec`, and the database stays valid |
| Progress.Requester | server/routes/progress.js:8 | the authenticated user's id, or `mock-user-id` when there is none |
| Progress.GetProgress | server/routes/progress.js:6-14 | the first record for (user, course), or none (answered `{}`) iff no record matches |
| Progress.MarkLesson | server/routes/progress.js:26-28 | the lesson is in the list afterwards; appended only when absent |
| Progress.Percentage | server/routes/progress.js:31-32 | percentage = 10 × completed count |
| Progress.Marked | server/routes/progress.js:22-33 | a new record holds exactly the lesson; an existing one gains it if absent; the percentage is recomputed and lastAccessed refreshed |
| Progress.UpdateSpec | server/routes/progress.js:17-40 | the record is created (appended) or updated in place; 500 iff the course id is empty |
| Progress.Update | server/routes/progress.js:17-40 | the handler's result is that of `UpdateSpec`, and the database stays valid |
| Progress.MarkKeepsNoDuplicates | server/routes/progress.js:26-28 | completedLessons stays free of duplicates |
| Progress.MarkTwice | server/routes/progress.js:26-33 | repeating an update leaves the lessons and percentage as they were; only lastAccessed moves |
| Progress.MarkPercentage | server/routes/progress.js:29-32 | marking a new lesson raises the percentage by 10, marking a known one keeps it; nothing caps it at 100 |
| Reviews.SubmitSpec | server/routes/reviews.js:6-21 | 400 iff userId, courseId or rating is missing or falsy (rating 0 counts as missing); 500 iff the rating is outside 1..5 or the pair has a review; 201 inserts exactly that review; errors change nothing |
| Reviews.Submit | server/routes/reviews.js:6-21 | the handler's result is that of `SubmitSpec`, and the database stays valid |
| Reviews.SubmitTwice | server/models/Review.js:13 | a second review of the same course by the same user fails with 500 and stores nothing |
| Analytics.Mean | server/routes/analytics.js:36-39 | 0 for no values; otherwise mean × count = sum |
| Analytics.MeanBounds | server/routes/analytics.js:36-39 | the mean of values in lo..hi lies in lo..hi |
| Analytics.Rate | server/routes/analytics.js:42-45 | 0 when there is nothing to count; otherwise rate × n = 100 × count, within 0..100 |
| Analytics.RatingsInRange | server/routes/analytics.js:36-38 | the truthy ratings of valid enrollments lie in 1..5 |
| Analytics.Ratings | server/routes/analytics.js:36 | the truthy ratings, one per enrollment at most, each the rating of some enrollment |
| Analytics.Students | server/routes/analytics.js:33 | exactly the student ids of the enrollments |
| Analytics.ProgressRowOf | server/routes/analytics.js:65-77 | the row carries the enrollment's id, student, course, progress and last access |
| Analytics.StudentsBound | server/routes/analytics.js:33 | the number of distinct students is at most the number of enrollments |
| Analytics.EnrolledCourses | server/routes/analytics.js:19-22 | the courses of the caller's enrollments, in order; none iff some enrollment's course is missing |
| Analytics.Scope | server/routes/analytics.js:13-23 | admin: all courses; instructor: exactly their own; anyone else: the courses they are enrolled in |
| Analytics.RevenueOf | server/routes/analytics.js:48-61 | the course's enrollment count, revenue = price × count, rating = mean of its truthy ratings (0 if none) |
| Analytics.ReportOf | server/routes/analytics.js:25-86 | totalStudents = distinct students ≤ enrollments; averageRating = mean of truthy ratings; completionRate = 100 × completed / enrollments (0 if none), within 0..100; one revenue entry per course; one progress row per enrollment |
| Analytics.StoredMeanRatingBounded | server/models/Enrollment.js:31-32 | the mean rating of stored enrollments lies in 0..5 |
| Analytics.AnalyticsData | server/routes/analytics.js:11-86 | none iff the scope throws; otherwise the report over the visible courses and the enrollments in them, whose averageRating lies in 0..5 on a valid database |
| Analytics.RosterRatings | server/routes/analytics.js:103-105 | one value per roster entry: its rating, or 0 |
| Analytics.EntryRating | server/routes/analytics.js:104 | an entry's rating, or 0: non-zero exactly for a record with a non-zero rating, and then that rating |
| Analytics.RowOf | server/routes/analytics.js:117-121 | a record gives its student, its progress or 0 and its rating or 0; a bare id gives no student and zeros |
| Analytics.EntryDone | server/routes/analytics.js:106 | a roster record whose progress is 100 |
| Analytics.StatsOf | server/routes/analytics.js:96-122 | courseId and courseTitle are the course's; totalStudents = roster length; averageRating = mean over the whole roster; completionRate = 100 × entries at progress 100 / roster length (0 for an empty roster); revenue = price × roster length; one progress row per roster entry, in order |
| Analytics.StatsCourses | server/routes/analytics.js:93-95 | an order-preserving subsequence of the stored courses; admin: all of them; instructor: exactly their own; others: exactly the courses whose roster holds a record for them; each kept course as many times as it is stored |
| Analytics.Stats | server/routes/analytics.js:91-130 | one statistics entry per visible course, in order, each that course's `StatsOf` |
| Analytics.BareIdsNotMatched | server/routes/analytics.js:95 | a roster of bare ids (what enrolling pushes) never matches a student's query |
| Analytics.UnratedCountsAsZero | server/routes/analytics.js:103-105 | a roster with one rating 4 and one bare id averages 2, where the helper's mean of the rating alone is 4 |
| Analytics.ExportSpec | server/routes/analytics.js:135-180 | 403 iff the role is neither admin nor instructor; otherwise 200 with the report's progress rows |
| Instructor.Owned | server/routes/instructor.js:12 | exactly the caller's courses |
| Instructor.InstructorCourses | server/routes/instructor.js:42-52 | exactly the caller's courses, newest first |
| Instructor.PriceOf | server/routes/instructor.js:24-25 | the price of a course with that id, or 0 when none is in the list |
| Instructor.Revenue | server/routes/instructor.js:23-26 | the total is 0 when no enrollment's course is listed, and not negative when no price is |
| Instructor.PerCourseRevenue | server/routes/instructor.js:23-26 | the per-course total is 0 without enrollments, and not negative when no price is |
| Instructor.RevenueByCourse | server/routes/instructor.js:23-26 | with distinct course ids, summing each enrollment's course price equals Σ price × enrollment count |
| Instructor.OwnedUnique | server/routes/instructor.js:12 | the caller's courses keep distinct ids |
| Instructor.DashboardOf | server/routes/instructor.js:9-39 | courses = number of own courses; totalEnrollments = enrollments in them; totalStudents = distinct students ≤ totalEnrollments; totalRevenue = Σ price × count on a valid database |
| Instructor.CourseAnalyticsOf | server/routes/instructor.js:55-86 | 404 iff no course has that id and the caller as instructor; otherwise count, the course rating or 0, revenue = count × price, one row per enrollment |
| Auth.RegisterValid | server/routes/auth.js:43-57 | the validators pass: trimmed username of at least 3, an email, a password of at least 6, a role (if any) of user or admin |
| Auth.Clash | server/routes/auth.js:71 | a user clashes when it has the email or the username |
| Auth.RegisterSpec | server/routes/auth.js:40-119 | 400 for a trimmed username under 3, a bad email, a password under 6 or a role outside user/admin; 400 iff a user has the email or username, with field "email" iff the first such user's email matches; role defaults to "user"; 201 appends exactly one user; errors change nothing |
| Auth.Register | server/routes/auth.js:40-119 | the handler's result is that of `RegisterSpec`, and the database stays valid |
| Auth.RegisterTwice | server/routes/auth.js:71-78 | registering the same body again is refused with field "email" and no change |
| Auth.Login | server/routes/auth.js:15-32 | the first user with the email decides: unknown email or wrong password gives 400 "Invalid credentials"; a missing password gives 500; a matching password gives 200 with that user's id |
| Auth.LoginIndistinguishable | server/routes/auth.js:19-23 | an unknown email and a failed password get identical replies |
| Auth.Dispatch | server/routes/auth.js:15 | the first route registered for the verb and path answers; none iff no route matches |
| Auth.SecondLoginShadowed | server/routes/auth.js:125 | POST /login reaches the first handler; the second is reached by no request |
| AdminGate.IsAdmin | server/middleware/isAdmin.js:1-20 | next iff a user is present with role admin; otherwise 403 with the one message |
| AdminGate.SameRefusal | server/middleware/isAdmin.js:8-16 | no user and a non-admin user get the same refusal |
| CourseListPage.FilteredCourses | client/src/pages/CourseList.jsx:216-223 | an order-preserving subsequence of the non-null courses the filters accept, containing all of them, as many times as they occur |
| CourseListPage.Shown | client/src/pages/CourseList.jsx:218-222 | the query occurs, lower-cased, in the lower-cased title or description, and the category and level match when chosen |
| CourseListPage.EmptyFiltersShowAll | client/src/pages/CourseList.jsx:218-221 | with no query, category or level, every non-null course is shown |
| CourseListPage.RatingsOfKeys | client/src/pages/CourseList.jsx:80-88 | the map's keys are exactly the courses of enrollments with a truthy rating, each holding the last such rating |
| CourseListPage.FetchUserRatings | client/src/pages/CourseList.jsx:73-92 | the `forEach` loop builds exactly `RatingsOf` of the enrollments |
| CourseListPage.HandleEnrollClick | client/src/pages/CourseList.jsx:95-102 | with no user, go to /login and open no dialog; otherwise open the dialog for the course |
| CourseListPage.Appended | client/src/pages/CourseList.jsx:152 | `user._id` as a roster entry: undefined exactly when the user has no `_id`, otherwise the bare id |
| CourseListPage.AfterPayment | client/src/pages/CourseList.jsx:148-156 | only the selected course's roster changes, gaining `user._id` (possibly undefined) at its end |
| CourseListPage.AfterPaymentEnrolled | client/src/pages/CourseList.jsx:148-156 | after a payment, a course not shown as enrolled stays so for a user with an `_id` and makes the next render throw for a user without one; every other course renders as before |
| CourseListPage.IsEnrolled | client/src/pages/CourseList.jsx:307 | with a user and a roster, shown as enrolled iff an entry matches `user._id` before any undefined entry, and the render throws iff an undefined entry comes before any match; otherwise not enrolled |
| CourseListPage.SomeMatches | client/src/pages/CourseList.jsx:307 | `some` scans in order: true iff a matching entry precedes every undefined one, a throw iff an undefined entry precedes every match |
| CourseListPage.SomeMatchesAppend | client/src/pages/CourseList.jsx:307 | an appended entry decides only when the old entries gave false |
| CourseListPage.BareIdShowsEnrolled | client/src/pages/CourseList.jsx:307 | a user signed in through the login page (no `_id`) sees a course whose roster holds another student's bare id as enrolled |
| CourseListPage.Reaveraged | client/src/pages/CourseList.jsx:202-210 | defined iff the average is known and the roster non-empty; new × n = avg × n + (new − old) |
| CourseListPage.HandleRatingSubmit | client/src/pages/CourseList.jsx:195-214 | the ratings map gets the new entry; only the rated course's averageRating changes, to the re-averaged value |
| CourseListPage.SameRatingKeepsAverage | client/src/pages/CourseList.jsx:202-210 | re-rating with the same value keeps the average |
| InstructorDashboardPage.YouTubeTest | client/src/components/instructor/InstructorDashboard.jsx:213-214 | the left-to-right test holds iff the URL is in the language of the pattern: optional `http://` or `https://`, optional `www.`, the host `youtube.com` or `youtu.be`, a slash and at least one more character |
| InstructorDashboardPage.PatternChoice | client/src/components/instructor/InstructorDashboard.jsx:213 | any match uses the scheme, `www.` and host choices the left-to-right test takes |
| InstructorDashboardPage.ReplaceEdited | client/src/components/instructor/InstructorDashboard.jsx:224-226 | same length; exactly the items with the edited id are replaced |
| InstructorDashboardPage.HandleContentSubmit | client/src/components/instructor/InstructorDashboard.jsx:204-233 | any empty field: "All fields are required"; a video whose URL fails the pattern: the YouTube error; the request is sent iff every field is filled and a video's URL fits the pattern, carrying the content list with the edited item replaced, or the new one appended |
| InstructorDashboardPage.NonVideoSkipsUrlCheck | client/src/components/instructor/InstructorDashboard.jsx:212 | a complete non-video item is sent whatever its URL |
| InstructorDashboardPage.FormOf | client/src/components/instructor/InstructorDashboard.jsx:176-190 | the form holds the fields of an item with that id; none iff no item has it |
| InstructorDashboardPage.EditUnchanged | client/src/components/instructor/InstructorDashboard.jsx:176-227 | editing an item and submitting the form unchanged sends the list with that item's fields as they were |
| InstructorDashboardPage.AfterDelete | client/src/components/instructor/InstructorDashboard.jsx:163 | exactly the courses with that id leave the list; the rest keep their order and their number |
| InstructorDashboardPage.Earned | client/src/components/instructor/InstructorDashboard.jsx:329 | price × roster length, 0 without a roster |
| InstructorDashboardPage.CloseDialog | client/src/components/instructor/InstructorDashboard.jsx:132-141 | the dialog closes and the form returns to its defaults |
| CreateCoursePage.UploadAll | client/src/components/admin/CreateCourse.jsx:56-134 | the list gains one entry per successful upload, in file order; the error is set iff some upload failed |
| CreateCoursePage.HandleVideoUpload | client/src/components/admin/CreateCourse.jsx:56-96 | the video loop: the existing videos plus one per success; the video error iff a failure |
| CreateCoursePage.HandleResourceUpload | client/src/components/admin/CreateCourse.jsx:100-134 | the resource loop: the existing resources plus one per success; the resource error iff a failure |
| CreateCoursePage.SuccessNames | client/src/components/admin/CreateCourse.jsx:60-90 | the entries are the successfully uploaded files, in order, titled by file name |
| CreateCoursePage.AddQuestion | client/src/components/admin/CreateCourse.jsx:142-151 | one question with four empty options and answer 0 is appended; the rest is unchanged |
| CreateCoursePage.HandleQuizChange | client/src/components/admin/CreateCourse.jsx:153-163 | only the question at the index changes, by the given field |
| CreateCoursePage.ApplyChangesOneField | client/src/components/admin/CreateCourse.jsx:155-158 | a change sets its field and leaves the other two |
| CreateCoursePage.SaveQuiz | client/src/components/admin/CreateCourse.jsx:165-176 | with a title and a question the quiz is appended and the editor reset; otherwise nothing changes |
| CreateCoursePage.SaveNeedsTitleAndQuestion | client/src/components/admin/CreateCourse.jsx:165-176 | a fresh editor is saved only once it has a title and a question |
| CreateCoursePage.RemoveVideo | client/src/components/admin/CreateCourse.jsx:309-313 | exactly the video at the index is removed, the rest in order, other lists untouched |
| CreateCoursePage.RemoveResource | client/src/components/admin/CreateCourse.jsx:353-357 | exactly the resource at the index is removed, the rest in order |
| CreateCoursePage.RemoveQuiz | client/src/components/admin/CreateCourse.jsx:448-452 | exactly the quiz at the index is removed, the rest in order |
| CreateCoursePage.SaveThenRemove | client/src/components/admin/CreateCourse.jsx:448-452 | removing the quiz just saved restores the draft |
| CreateCoursePage.ButtonsAt | client/src/components/admin/CreateCourse.jsx:484-506 | Back is enabled iff the step is not 0; Create shows iff it is the last step |
| CreateCoursePage.Press | client/src/components/admin/CreateCourse.jsx:201-207 | Next adds one to the step, Back subtracts one |
| CreateCoursePage.StepsStayInRange | client/src/components/admin/CreateCourse.jsx:201-207 | pressing only offered buttons keeps the step within the four steps |
| CourseDetailPage.CheckField | client/src/pages/CourseDetail.jsx:68-92 | videos need title and url, resources name and link, quizzes question, options and answer; any other field is refused with "Invalid field type"; a request is sent iff the fields are present |
| CourseDetailPage.ResetAfter | client/src/pages/CourseDetail.jsx:101-103 | only the submitted field's form is cleared |
| CourseDetailPage.ClearedFormRefused | client/src/pages/CourseDetail.jsx:70-103 | a just-cleared form would be refused |
| CourseDetailPage.NextCourse | client/src/pages/CourseDetail.jsx:39-41 | the state is set iff the fetched course differs from the shown one; the page shows the fetched course |
| InstructorCourseForm.HandleChange | client/src/components/InstructorCourseForm.jsx:15-17 | only the field the input names is set |
| InstructorCourseForm.HandleChangeIdempotent | client/src/components/InstructorCourseForm.jsx:15-17 | typing the same value twice equals once |
| InstructorCourseForm.SetVideoTitle | client/src/components/InstructorCourseForm.jsx:51-58 | exactly one video remains, with the new title and the first video's url |
| InstructorCourseForm.SetVideoUrl | client/src/components/InstructorCourseForm.jsx:60-66 | exactly one video remains, with the new url and the first video's title |
| InstructorCourseForm.ParseTags | client/src/components/InstructorCourseForm.jsx:24 | one tag per comma-separated piece, each the trimmed piece, in order |
| InstructorCourseForm.ParseTagsCount | client/src/components/InstructorCourseForm.jsx:24 | the number of tags is the number of commas + 1, and no tag contains a comma |
| InstructorCourseForm.PayloadOf | client/src/components/InstructorCourseForm.jsx:22-25 | the payload equals the form except that tags are parsed |
| InstructorCourseForm.EmptyTagsGiveOneEmptyTag | client/src/components/InstructorCourseForm.jsx:5-24 | the untouched form sends a single empty tag |
| JsStrings.ReplaceFirstSpec | client/src/components/VideoPlayer.jsx:11-13 | `replace` with a string pattern: without an occurrence the text is unchanged; otherwise only the first occurrence is replaced, the text around it kept |
| JsStrings.Trim | server/routes/skills.js:33 | `trim`: a substring of the text with only whitespace cut at both ends, neither end whitespace |
| JsStrings.TrimIdempotent | server/routes/skills.js:33 | trimming twice equals trimming once |
| Seqs.SortBy | server/routes/course.js:23-27 | `sort`: sorted by the key in the requested direction, and a permutation of the input |
| Seqs.SpliceOneCases | server/routes/courses.js:96-123 | `splice(start, 1)`: an in-range or negative-from-end index removes that element; past the end changes nothing; below −length removes the first |
| JsStrings.SplitCount | client/src/components/InstructorCourseForm.jsx:24 | `split` yields one more piece than there are separators |
| JsStrings.SplitJoin | client/src/components/InstructorCourseForm.jsx:24 | joining the pieces with the separator gives back the text |
| VideoPlayer.EmbedUrl | client/src/components/VideoPlayer.jsx:9-16 | a watch URL gets its first `watch?v=` replaced by `embed/` (this rule first); else a youtu.be URL gets its first `youtu.be/` replaced by `youtube.com/embed/`; else unchanged |
| VideoPlayer.IsYouTube | client/src/components/VideoPlayer.jsx:6 | the URL contains youtube.com or youtu.be |
| VideoPlayer.NotYouTubeUnchanged | client/src/components/VideoPlayer.jsx:6-16 | a URL that is not a YouTube one is returned unchanged |
| VideoPlayer.WatchIsYouTube | client/src/components/VideoPlayer.jsx:6-10 | every watch URL is played in the YouTube frame |
| VideoPlayer.WatchBecomesEmbed | client/src/components/VideoPlayer.jsx:10-11 | the text around the first `watch?v=` is kept, with `embed/` in its place |
| VideoPlayer.ShortLinkBecomesEmbed | client/src/components/VideoPlayer.jsx:12-13 | the text around the first `youtu.be/` is kept, with `youtube.com/embed/` in its place |
| RouteGuards.Guard | client/src/components/ProtectedRoutes.jsx:9-46 | nothing iff loading; a protected path without a user email goes to /login; an unprotected path renders; a signed-in user without role admin on /admin*, or without role instructor on /instructor*, goes to /dashboard; on /dashboard an instructor goes to /instructor/dashboard and an admin to /admin; the page renders iff not loading and every check passes: a user email on a protected path, role admin on /admin*, role instructor on /instructor*, neither on /dashboard |
| RouteGuards.IsProtected | client/src/components/ProtectedRoutes.jsx:12-14 | the path starts with /admin or /instructor, or is /dashboard |
| RouteGuards.RequireRole | client/src/components/RequireRole.js:7-10 | children iff a user is present whose role is in the list; otherwise /login |
| RouteGuards.NoRolesAlwaysRedirect | client/src/components/RequireRole.js:7 | an empty role list always redirects |
| RouteGuards.DashboardPath | client/src/components/Navbar.js:46-56 | no user → /login, admin → /admin, instructor → /instructor/dashboard, else /dashboard |
| RouteGuards.DashboardLabel | client/src/components/Navbar.js:104-106 | the label is Admin/Instructor/My Dashboard exactly as the path is /admin, /instructor/dashboard, /dashboard |
| RouteGuards.DashboardLinkAdmitted | client/src/components/Navbar.js:46-56 | a signed-in user's dashboard link is rendered by the guard |
| RouteGuards.DashboardRedirectMatchesNavbar | client/src/components/ProtectedRoutes.jsx:38-44 | the guard's redirect from /dashboard is the navigation bar's dashboard path |
| RouteGuards.RedirectsSettle | client/src/components/ProtectedRoutes.jsx:16-44 | following the guard's redirects renders a page after at most two |
| RouteGuards.LoggedOutIsSentToLogin | client/src/context/AuthContext.js:52-57 | after logout every protected path redirects to /login |
| AuthSession.Restored | client/src/context/AuthContext.js:10-27 | the token and the parsed value are set iff both keys are stored and parsing does not throw; the result is consistent except exactly when the stored user parses to a falsy value, which leaves a token and no user; a throw removes both keys; loading ends false |
| AuthSession.NullUserAuthenticated | client/src/context/AuthContext.js:14-17 | a stored user "null" beside a token gives a session that is authenticated (line 65) but holds no user |
| AuthSession.LoginSpec | client/src/context/AuthContext.js:29-50 | a missing user or token changes nothing; success sets user, token and both keys; a storage failure clears all and reports "Failed to complete login"; consistency is kept |
| AuthSession.LogoutSpec | client/src/context/AuthContext.js:52-57 | user, token and both keys are cleared; other keys kept |
| AuthSession.AuthenticatedIffUser | client/src/context/AuthContext.js:65 | in a session where user and token come together, `isAuthenticated` holds iff a user is held |
| AuthSession.LoginThenReload | client/src/context/AuthContext.js:10-40 | a login survives a reload when parsing undoes stringifying |
| AuthSession.LogoutThenReload | client/src/context/AuthContext.js:10-57 | after a logout a reload restores nobody |
| AuthSession.Initial | client/src/context/AuthContext.js:6-8 | the provider starts with no user or token, loading, and consistent |
| AuthSession.AuthProvider.constructor | client/src/context/AuthContext.js:6-8 | the new provider's state is `Initial` of the browser storage |
| AuthSession.AuthProvider.Restore | client/src/context/AuthContext.js:10-27 | the effect's new state is `Restored` of the storage; a held user comes with its stored token |
| AuthSession.AuthProvider.Login | client/src/context/AuthContext.js:29-50 | the new state and result are those of `LoginSpec`; coherence is kept, and so is user-iff-token |
| AuthSession.AuthProvider.Logout | client/src/context/AuthContext.js:52-57 | the new state is `LogoutSpec` of the old |

## Left out

- Express routing, the auth middleware and JWTs: the caller's id and role are parameters. Nothing of server/server.js, the database configuration, or server/middleware/auth.js is modelled.
- The hashing and comparison of passwords (bcrypt), and HMAC-SHA-256: these are function parameters.
- Calls to the payment gateway, file uploads and every client HTTP request: their replies are parameters.
- `GET /` of server/routes/courses.js (lines 8-15) returns the stored list as it is; there is nothing to model there beyond `Store.Database`.
- The schema file server/models/User.js is not part of this model. server/routes/courses.js:3 loads server/models/course.js; the other seven route files that use courses load `../models/Course` with a capital C. That file is not part of this model.
  - The course record follows server/models/course.js, plus the `content`, `enrolledStudents` and `rating` fields the routes use.
  - `Courses.CourseBody` carries only the schema's fields.
- The CSV file written by `GET /export` (server/routes/analytics.js:145-175): file I/O.
- `populate` and ObjectId casting. A malformed id is not modelled; ids are plain strings.
- Floating point:
  - averages and rates are exact `real`s;
  - `parseFloat` in the search route is replaced by already-parsed bounds;
  - the upload-progress `Math.round` is left out.
- Progress.Percentage: is exact `10 × count`. The floating-point `Math.floor(count / 10 * 100)` can differ for some counts above 10, and nothing caps it at 100.
- CourseSearch.Search: the unescaped `$regex` is modelled as a case-insensitive substring match, so regular-expression metacharacters in the query are not modelled.
- CourseListPage.Shown: the page's `(field || '')` lower-casing is ASCII only.
- Concurrent requests and races on the unique indexes: each handler is atomic.
- Auth.Login: tokens are not modelled, and a missing email is not modelled.
- The later `/login` handler of server/routes/auth.js (lines 125-177) is unreachable (`Auth.SecondLoginShadowed`), so its body is not modelled.
- `handleDeleteContent` (client/src/components/instructor/InstructorDashboard.jsx:192-202) is not modelled. It is only a network call, and it sends a course deletion rather than a content deletion.
- The page imports an `apiService` that client/src/utils/api.js does not export. The model covers the page's decisions up to the request it would send.
- CreateCoursePage.HandleQuizChange: requires an index inside the list. The page only offers indices of existing questions; at any other index JavaScript would create a sparse entry.
- AuthSession.LoginSpec: a failing `localStorage` write or `JSON.stringify` is one boolean parameter. The thrown error is the `Failed` result.
- The course detail page's request and its reply (client/src/pages/CourseDetail.jsx:93-100) are not modelled. Only the decision to send, and the form reset after a reply, are.
- Payment.CreateOrderSpec: prices are integers. A fractional price such as 499.99 gives a fractional `price * 100` at server/routes/payment.js:34, which the model cannot express.
- Analytics.RevenueOf: prices are integers, so sums of fractional prices and their floating-point rounding are not modelled.
- Instructor.DashboardOf: the same integer prices stand for the revenue total.
- Enrollments.UpdateProgressSpec: progress is an integer. A missing progress (`undefined`), a numeric string or a fractional number passes the range check at server/routes/enrollments.js:69; the model has no such inputs.
- Enrollments.WithProgress: with integer progress, the string `"100"` is not modelled. Mongoose would store it as 100, but `progress === 100` fails, so the enrollment would not be completed.
- Courses.ApplyEdit: the `:index` path parameter is an integer. In the source it is a string that `splice` converts: a non-numeric one acts as 0, and a fractional one is truncated (`"1.5"` removes index 1).
- Courses.EditSpec: the same conversion of the `:index` string is not modelled.
- Skills.AddSkillSpec: the duplicate check folds case with `JsStrings.Lower`, which lower-cases ASCII letters only. JavaScript's `toLowerCase` also folds other letters (É, Σ), so names differing only in such letters are distinct in the model and equal in the source.
- CourseSearch.Matches: the same ASCII-only folding stands for the database's case-insensitive `$regex`.
- CourseSearch.Satisfies: the same ASCII-only folding.
- JsStrings.Lower: lower-cases ASCII letters only.
- Reviews.SubmitSpec: ratings are integers. The schema's range 1..5 (server/models/Review.js:6) also admits 4.5, which the model cannot express.
- Analytics.AnalyticsData: an enrollment whose student was deleted makes `e.student._id` throw at server/routes/analytics.js:33. The model reads the stored student id and does not fail there.
