/** The stored records, one module per schema file: their fields, defaults,
    enumerations, ranges and required fields. */

/** The course record (server/models/course.js), with the three lists the
    route handlers also read and write on it: `content`, the roster
    `enrolledStudents`, and the aggregate `rating`. */
module CourseModel {
  import opened Base

  datatype Video = Video(title: Option<string>, url: Option<string>)
  datatype Resource = Resource(name: Option<string>, link: Option<string>)
  datatype QuizItem = QuizItem(question: Option<string>, options: seq<string>, answer: Option<string>)

  /** One item of a course's `content` list. */
  datatype ContentItem = ContentItem(id: Id, kind: string, title: string, url: string, description: string)

  /** An element of the roster: the handlers push a bare student id, while the
      analytics handler reads `student`, `rating` and `progress` off each element
      (all `undefined` on a bare id). */
  datatype RosterEntry =
    | Member(id: Id)
    | MemberRecord(student: Id, rating: Option<int>, progress: Option<int>)

  datatype Course = Course(
    id: Id,
    title: string,
    description: Option<string>,
    category: Option<string>,
    price: int,
    tags: seq<string>,
    instructor: Id,
    thumbnail: Option<string>,
    videos: seq<Video>,
    resources: seq<Resource>,
    quizzes: seq<QuizItem>,
    createdAt: Time,
    content: seq<ContentItem>,
    enrolledStudents: seq<RosterEntry>,
    rating: Option<real>)

  /** The fields a request body may carry for a course. */
  datatype CourseBody = CourseBody(
    title: Option<string>,
    description: Option<string>,
    category: Option<string>,
    price: Option<int>,
    tags: Option<seq<string>>,
    instructor: Option<Id>,
    thumbnail: Option<string>,
    videos: Option<seq<Video>>,
    resources: Option<seq<Resource>>,
    quizzes: Option<seq<QuizItem>>,
    createdAt: Option<Time>)

  /** `required: true` on a string path: Mongoose rejects a missing or empty value. */
  predicate RequiredString(x: Option<string>) {
    x.Some? && x.value != ""
  }

  /** A stored course has a title and an instructor. */
  predicate ValidCourse(c: Course) {
    c.title != "" && c.instructor != ""
  }

  /** `new Course(body)` followed by validation: a course without a title or an
      instructor is refused; the price defaults to 0 and the lists to empty. */
  function NewCourse(id: Id, body: CourseBody, now: Time): (r: Option<Course>)
    ensures r.Some? <==> RequiredString(body.title) && RequiredString(body.instructor)
    ensures r.Some? ==> ValidCourse(r.value) && r.value.id == id
    ensures r.Some? ==> r.value.title == body.title.value && r.value.instructor == body.instructor.value
    ensures r.Some? ==> r.value.price == (if body.price.Some? then body.price.value else 0)
    ensures r.Some? ==> r.value.createdAt == (if body.createdAt.Some? then body.createdAt.value else now)
    ensures r.Some? ==> r.value.enrolledStudents == [] && r.value.content == []
  {
    if !RequiredString(body.title) || !RequiredString(body.instructor) then None
    else Some(Course(
      id, body.title.value, body.description, body.category, body.price.GetOr(0),
      body.tags.GetOr([]), body.instructor.value, body.thumbnail,
      body.videos.GetOr([]), body.resources.GetOr([]), body.quizzes.GetOr([]),
      body.createdAt.GetOr(now), [], [], None))
  }

  /** `$addToSet`: the roster gains `student` at the end unless an equal entry
      is already there. */
  function AddToSet(roster: seq<RosterEntry>, student: Id): (r: seq<RosterEntry>)
    ensures Member(student) in r
    ensures Member(student) in roster ==> r == roster
    ensures Member(student) !in roster ==> r == roster + [Member(student)]
  {
    if Member(student) in roster then roster else roster + [Member(student)]
  }

  /** After `$addToSet` a student who was not in the roster appears exactly once,
      and a second `$addToSet` of the same student changes nothing. */
  lemma AddToSetOnce(roster: seq<RosterEntry>, student: Id)
    ensures Member(student) !in roster ==> multiset(AddToSet(roster, student))[Member(student)] == 1
    ensures AddToSet(AddToSet(roster, student), student) == AddToSet(roster, student)
  {
    if Member(student) !in roster {
      assert multiset(roster)[Member(student)] == 0;
    }
  }
}

/** The enrollment record (server/models/Enrollment.js). */
module EnrollmentModel {
  import opened Base

  datatype EnrollmentStatus = Active | Completed | Cancelled

  datatype Enrollment = Enrollment(
    id: Id,
    student: Id,
    course: Id,
    enrolledAt: Time,
    status: EnrollmentStatus,
    progress: int,
    rating: Option<int>,
    review: Option<string>,
    lastAccessed: Time)

  /** Student and course are present, progress lies in 0..100, and a rating,
      when given, lies in 1..5. */
  predicate ValidEnrollment(e: Enrollment) {
    && e.student != "" && e.course != ""
    && 0 <= e.progress <= 100
    && (e.rating.Some? ==> 1 <= e.rating.value <= 5)
  }

  /** A new enrollment with the schema's defaults: active, progress 0, no rating,
      enrolled and last accessed now. */
  function NewEnrollment(id: Id, student: Id, course: Id, now: Time): (e: Enrollment)
    requires student != "" && course != ""
    ensures ValidEnrollment(e)
    ensures e.status == Active && e.progress == 0 && e.rating.None? && e.review.None?
    ensures e.enrolledAt == now && e.lastAccessed == now
    ensures e.id == id && e.student == student && e.course == course
  {
    Enrollment(id, student, course, now, Active, 0, None, None, now)
  }

  /** The unique compound index on (student, course). */
  predicate UniquePairs(es: seq<Enrollment>) {
    forall i, j :: 0 <= i < j < |es| ==>
      (es[i].student, es[i].course) != (es[j].student, es[j].course)
  }

  predicate HasPair(es: seq<Enrollment>, student: Id, course: Id) {
    exists i :: 0 <= i < |es| && es[i].student == student && es[i].course == course
  }

  /** Inserting a pair that is not yet there keeps the index unique. */
  lemma UniquePairsSnoc(es: seq<Enrollment>, e: Enrollment)
    requires UniquePairs(es) && !HasPair(es, e.student, e.course)
    ensures UniquePairs(es + [e])
  {
    forall i, j | 0 <= i < j < |es| + 1
      ensures ((es + [e])[i].student, (es + [e])[i].course) != ((es + [e])[j].student, (es + [e])[j].course)
    {
      if j == |es| {
        assert (es + [e])[i] == es[i];
      }
    }
  }
}

/** The order record (server/models/order.js). */
module OrderModel {
  import opened Base

  datatype OrderStatus = Pending | Completed | Failed

  datatype Order = Order(
    paymentid: Option<string>,
    orderid: string,
    amount: int,
    currency: string,
    receipt: string,
    status: OrderStatus,
    userId: Id,
    courseId: Id,
    createdAt: Time)

  /** orderid, currency, receipt, userId and courseId are required (amount is a
      number, so it is always present in this model). */
  predicate ValidOrder(o: Order) {
    o.orderid != "" && o.currency != "" && o.receipt != "" && o.userId != "" && o.courseId != ""
  }

  /** A freshly created order: pending, and without a payment id. */
  function NewOrder(orderid: string, amount: int, currency: string, receipt: string,
                    userId: Id, courseId: Id, now: Time): (o: Order)
    requires orderid != "" && currency != "" && receipt != "" && userId != "" && courseId != ""
    ensures ValidOrder(o) && o.status == Pending && o.paymentid.None?
    ensures o.orderid == orderid && o.amount == amount && o.currency == currency
    ensures o.receipt == receipt && o.userId == userId && o.courseId == courseId
  {
    Order(None, orderid, amount, currency, receipt, Pending, userId, courseId, now)
  }
}

/** The review record (server/models/Review.js). */
module ReviewModel {
  import opened Base

  datatype Review = Review(userId: Id, courseId: Id, rating: int, comment: Option<string>, createdAt: Time)

  /** userId, courseId and a rating in 1..5 are required; the comment is optional. */
  predicate ValidReview(r: Review) {
    r.userId != "" && r.courseId != "" && 1 <= r.rating <= 5
  }

  /** The unique index on (userId, courseId). */
  predicate UniqueReviews(rs: seq<Review>) {
    forall i, j :: 0 <= i < j < |rs| ==>
      (rs[i].userId, rs[i].courseId) != (rs[j].userId, rs[j].courseId)
  }

  predicate HasReview(rs: seq<Review>, userId: Id, courseId: Id) {
    exists i :: 0 <= i < |rs| && rs[i].userId == userId && rs[i].courseId == courseId
  }

  lemma UniqueReviewsSnoc(rs: seq<Review>, r: Review)
    requires UniqueReviews(rs) && !HasReview(rs, r.userId, r.courseId)
    ensures UniqueReviews(rs + [r])
  {
    forall i, j | 0 <= i < j < |rs| + 1
      ensures ((rs + [r])[i].userId, (rs + [r])[i].courseId) != ((rs + [r])[j].userId, (rs + [r])[j].courseId)
    {
      if j == |rs| {
        assert (rs + [r])[i] == rs[i];
      }
    }
  }
}

/** The lesson-progress record (server/models/progress.js). */
module ProgressModel {
  import opened Base

  datatype ProgressRecord = ProgressRecord(
    userId: Id,
    courseId: Id,
    completedLessons: seq<string>,
    percentage: int,
    lastAccessed: Time)

  /** userId and courseId are required. */
  predicate ValidProgress(p: ProgressRecord) {
    p.userId != "" && p.courseId != ""
  }

  /** `new Progress({userId, courseId, completedLessons})`: percentage defaults
      to 0 and lastAccessed to the creation time. */
  function NewProgress(userId: Id, courseId: Id, lessons: seq<string>, now: Time): (p: ProgressRecord)
    ensures p.userId == userId && p.courseId == courseId && p.completedLessons == lessons
    ensures p.percentage == 0 && p.lastAccessed == now
  {
    ProgressRecord(userId, courseId, lessons, 0, now)
  }
}
