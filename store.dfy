/** The document database the route handlers share, held in memory: one list
    per collection, in insertion order (the order `find()` returns). The
    unique indexes and the schema ranges are the object invariant `Valid`. */
module Store {
  import opened Base
  import opened CourseModel
  import opened EnrollmentModel
  import opened OrderModel
  import opened ReviewModel
  import opened ProgressModel
  import Seqs

  /** A user's skill entry (the `skills` list of the user record). */
  datatype Skill = Skill(id: Id, name: string, level: string)

  /** The user record. Its schema file (server/models/User.js) is not part of
      this model; these are the fields the handlers read and write. */
  datatype User = User(id: Id, username: string, email: string, password: string,
                       role: string, skills: seq<Skill>)

  /** Ids are unique within a collection. */
  predicate UniqueCourseIds(cs: seq<Course>) {
    forall i, j :: 0 <= i < j < |cs| ==> cs[i].id != cs[j].id
  }

  predicate UniqueEnrollmentIds(es: seq<Enrollment>) {
    forall i, j :: 0 <= i < j < |es| ==> es[i].id != es[j].id
  }

  predicate UniqueUserIds(us: seq<User>) {
    forall i, j :: 0 <= i < j < |us| ==> us[i].id != us[j].id
  }

  /** Position of the course with id `id` (`Course.findById`). */
  function CourseIndex(cs: seq<Course>, id: Id): (r: Option<nat>)
    ensures r.Some? ==> r.value < |cs| && cs[r.value].id == id
    ensures r.Some? ==> forall k :: 0 <= k < r.value ==> cs[k].id != id
    ensures r.None? ==> forall k :: 0 <= k < |cs| ==> cs[k].id != id
  {
    Seqs.FirstIndex(cs, (x: Course) => x.id == id)
  }

  function EnrollmentIndex(es: seq<Enrollment>, id: Id): (r: Option<nat>)
    ensures r.Some? ==> r.value < |es| && es[r.value].id == id
    ensures r.Some? ==> forall k :: 0 <= k < r.value ==> es[k].id != id
    ensures r.None? ==> forall k :: 0 <= k < |es| ==> es[k].id != id
  {
    Seqs.FirstIndex(es, (x: Enrollment) => x.id == id)
  }

  function UserIndex(us: seq<User>, id: Id): (r: Option<nat>)
    ensures r.Some? ==> r.value < |us| && us[r.value].id == id
    ensures r.Some? ==> forall k :: 0 <= k < r.value ==> us[k].id != id
    ensures r.None? ==> forall k :: 0 <= k < |us| ==> us[k].id != id
  {
    Seqs.FirstIndex(us, (x: User) => x.id == id)
  }

  /** The whole database as one value, to say what a handler leaves unchanged. */
  datatype Tables = Tables(courses: seq<Course>, orders: seq<Order>, enrollments: seq<Enrollment>,
                           reviews: seq<Review>, progress: seq<ProgressRecord>, users: seq<User>)

  /** What the schemas and indexes guarantee of the stored documents: unique
      ids, the unique (student, course) and (userId, courseId) indexes, the
      required fields of courses, orders and progress records, and the ranges of
      enrollments and reviews. */
  predicate ValidTables(t: Tables) {
    && UniqueCourseIds(t.courses)
    && (forall i :: 0 <= i < |t.courses| ==> ValidCourse(t.courses[i]))
    && (forall i :: 0 <= i < |t.orders| ==> ValidOrder(t.orders[i]))
    && UniqueEnrollmentIds(t.enrollments)
    && UniquePairs(t.enrollments)
    && (forall i :: 0 <= i < |t.enrollments| ==> ValidEnrollment(t.enrollments[i]))
    && UniqueReviews(t.reviews)
    && (forall i :: 0 <= i < |t.reviews| ==> ValidReview(t.reviews[i]))
    && (forall i :: 0 <= i < |t.progress| ==> ValidProgress(t.progress[i]))
    && UniqueUserIds(t.users)
  }

  /** The first user with the id is the one `UserIndex` finds. */
  lemma {:induction false} UserIndexAt(us: seq<User>, id: Id, i: nat)
    requires i < |us| && us[i].id == id
    requires forall k :: 0 <= k < i ==> us[k].id != id
    ensures UserIndex(us, id) == Some(i)
  {
    if i > 0 {
      forall k | 0 <= k < i - 1 ensures us[1..][k].id != id {
        assert us[1..][k] == us[k + 1];
      }
      assert us[1..][i - 1] == us[i];
      UserIndexAt(us[1..], id, i - 1);
    }
  }

  /** The empty database. */
  const Empty := Tables([], [], [], [], [], [])

  /** An enrollment can be saved: its id is new and the (student, course)
      index has no entry for its pair. */
  predicate CanInsertEnrollment(es: seq<Enrollment>, e: Enrollment) {
    EnrollmentIndex(es, e.id).None? && !HasPair(es, e.student, e.course)
  }

  /** Saving an insertable, schema-valid enrollment keeps the database valid. */
  lemma InsertEnrollmentValid(t: Tables, e: Enrollment)
    requires ValidTables(t) && CanInsertEnrollment(t.enrollments, e) && ValidEnrollment(e)
    ensures ValidTables(t.(enrollments := t.enrollments + [e]))
  {
    UniquePairsSnoc(t.enrollments, e);
    var es := t.enrollments + [e];
    assert forall i :: 0 <= i < |t.enrollments| ==> es[i] == t.enrollments[i];
  }

  /** Replacing a course by a valid one with the same id keeps the database valid. */
  lemma ReplaceCourseValid(t: Tables, i: nat, c: Course)
    requires ValidTables(t) && i < |t.courses| && c.id == t.courses[i].id && ValidCourse(c)
    ensures ValidTables(t.(courses := t.courses[i := c]))
  {
  }

  /** Replacing an order by a schema-valid one keeps the database valid. */
  lemma ReplaceOrderValid(t: Tables, i: nat, o: Order)
    requires ValidTables(t) && i < |t.orders| && ValidOrder(o)
    ensures ValidTables(t.(orders := t.orders[i := o]))
  {
  }

  /** Saving a user with a new id keeps the database valid. */
  lemma InsertUserValid(t: Tables, u: User)
    requires ValidTables(t) && UserIndex(t.users, u.id).None?
    ensures ValidTables(t.(users := t.users + [u]))
  {
    var us := t.users + [u];
    forall i, j | 0 <= i < j < |us| ensures us[i].id != us[j].id {
      assert us[i] == t.users[i];
      if j < |t.users| {
        assert us[j] == t.users[j];
      }
    }
  }

  /** Replacing a user by one with the same id keeps the database valid. */
  lemma ReplaceUserValid(t: Tables, i: nat, u: User)
    requires ValidTables(t) && i < |t.users| && u.id == t.users[i].id
    ensures ValidTables(t.(users := t.users[i := u]))
  {
  }

  /** Replacing an enrollment by a schema-valid one with the same id, student and
      course keeps the database valid. */
  lemma ReplaceEnrollmentValid(t: Tables, i: nat, e: Enrollment)
    requires ValidTables(t) && i < |t.enrollments| && ValidEnrollment(e)
    requires e.id == t.enrollments[i].id && e.student == t.enrollments[i].student
    requires e.course == t.enrollments[i].course
    ensures ValidTables(t.(enrollments := t.enrollments[i := e]))
  {
  }

  /** `Course.findByIdAndUpdate(courseId, {$addToSet: {enrolledStudents: student}})`:
      the course with that id gains `student` in its roster unless it is there
      already; a missing course is no error and nothing changes. */
  function AddStudentToCourse(cs: seq<Course>, courseId: Id, student: Id): (r: seq<Course>)
    ensures |r| == |cs|
    ensures forall k :: 0 <= k < |cs| && cs[k].id != courseId ==> r[k] == cs[k]
    ensures forall k :: 0 <= k < |cs| && cs[k].id == courseId && UniqueCourseIds(cs) ==>
              r[k] == cs[k].(enrolledStudents := AddToSet(cs[k].enrolledStudents, student))
  {
    match CourseIndex(cs, courseId)
    case None => cs
    case Some(i) => cs[i := cs[i].(enrolledStudents := AddToSet(cs[i].enrolledStudents, student))]
  }

  /** Adding a student to a roster keeps the database valid. */
  lemma AddStudentValid(t: Tables, courseId: Id, student: Id)
    requires ValidTables(t)
    ensures ValidTables(t.(courses := AddStudentToCourse(t.courses, courseId, student)))
  {
    match CourseIndex(t.courses, courseId)
    case None =>
    case Some(i) =>
      ReplaceCourseValid(t, i, t.courses[i].(enrolledStudents := AddToSet(t.courses[i].enrolledStudents, student)));
  }

  /** The outcome of a handler that answers with a course. */
  datatype CourseOutcome = CourseOutcome(tables: Tables, status: int, course: Option<Course>)

  /** Status of a handler that throws outside a `try`: Express sends nothing. */
  const NoResponse := 0

  class Database {
    var courses: seq<Course>
    var orders: seq<Order>
    var enrollments: seq<Enrollment>
    var reviews: seq<Review>
    var progress: seq<ProgressRecord>
    var users: seq<User>

    ghost predicate Valid()
      reads this
    {
      ValidTables(Snapshot())
    }

    function Snapshot(): Tables
      reads this
    {
      Tables(courses, orders, enrollments, reviews, progress, users)
    }

    constructor ()
      ensures Valid()
      ensures Snapshot() == Empty
    {
      courses, orders, enrollments, reviews, progress, users := [], [], [], [], [], [];
    }
  }
}
