/** The instructor routes (server/routes/instructor.js): the dashboard totals
    over the caller's courses and the analytics of one of their courses. */
module Instructor {
  import opened Base
  import opened Seqs
  import opened CourseModel
  import opened EnrollmentModel
  import opened Store
  import Analytics

  datatype Dashboard = Dashboard(courses: nat, totalEnrollments: nat, totalStudents: nat,
                                 totalRevenue: int, coursesList: seq<Course>)

  /** `Course.find({instructor: caller})`: the caller's courses in store order. */
  function Owned(cs: seq<Course>, caller: Id): (r: seq<Course>)
    ensures forall k :: 0 <= k < |r| ==> r[k] in cs && r[k].instructor == caller
    ensures forall c :: c in cs && c.instructor == caller ==> c in r
  {
    Filter(cs, (c: Course) => c.instructor == caller)
  }

  lemma OwnedMembers(cs: seq<Course>, caller: Id)
    ensures forall c :: c in Owned(cs, caller) <==> c in cs && c.instructor == caller
  {
    var r := Owned(cs, caller);
    forall c | c in r ensures c in cs && c.instructor == caller {
      var k :| 0 <= k < |r| && r[k] == c;
    }
  }

  function CreatedAtKey(c: Course): Key {
    Val(c.createdAt as real)
  }

  /** `GET /courses`: the caller's courses, newest first. */
  function InstructorCourses(cs: seq<Course>, caller: Id): (r: seq<Course>)
    ensures forall c :: c in r <==> c in cs && c.instructor == caller
    ensures forall i, j :: 0 <= i < j < |r| ==> r[i].createdAt >= r[j].createdAt
    ensures multiset(r) == multiset(Owned(cs, caller))
  {
    var owned := Owned(cs, caller);
    OwnedMembers(cs, caller);
    SortByMembers(owned, CreatedAtKey, true);
    NewestFirst(SortBy(owned, CreatedAtKey, true));
    SortBy(owned, CreatedAtKey, true)
  }

  /** Sorted descending by the creation-time key: newest first. */
  lemma NewestFirst(r: seq<Course>)
    requires SortedBy(r, CreatedAtKey, true)
    ensures forall i, j :: 0 <= i < j < |r| ==> r[i].createdAt >= r[j].createdAt
  {
    forall i, j | 0 <= i < j < |r| ensures r[i].createdAt >= r[j].createdAt {
      assert Before(true, CreatedAtKey(r[i]), CreatedAtKey(r[j]));
    }
  }

  /** `courses.find(c => c._id === enrollment.course)`: that course's price, or
      0 when the course is not in the list. */
  function PriceOf(cs: seq<Course>, courseId: Id): (p: int)
    ensures (exists k :: 0 <= k < |cs| && cs[k].id == courseId) ==>
              exists k :: 0 <= k < |cs| && cs[k].id == courseId && p == cs[k].price
    ensures (forall k :: 0 <= k < |cs| ==> cs[k].id != courseId) ==> p == 0
  {
    if cs == [] then 0
    else if cs[0].id == courseId then cs[0].price
    else
      assert forall k :: 1 <= k < |cs| ==> cs[1..][k - 1] == cs[k];
      PriceOf(cs[1..], courseId)
  }

  /** The `reduce` at lines 23-26: each enrollment adds its course's price. */
  function Revenue(es: seq<Enrollment>, cs: seq<Course>): (r: int)
    ensures (forall k :: 0 <= k < |cs| ==> cs[k].price >= 0) ==> r >= 0
    ensures (forall k :: 0 <= k < |es| ==> forall j :: 0 <= j < |cs| ==> cs[j].id != es[k].course) ==> r == 0
  {
    if es == [] then 0 else PriceOf(cs, es[0].course) + Revenue(es[1..], cs)
  }

  /** The same total per course: price × that course's enrollment count. */
  function PerCourseRevenue(cs: seq<Course>, es: seq<Enrollment>): (r: int)
    ensures (forall k :: 0 <= k < |cs| ==> cs[k].price >= 0) ==> r >= 0
    ensures es == [] ==> r == 0
  {
    if cs == [] then 0
    else cs[0].price * Count(es, (e: Enrollment) => e.course == cs[0].id) + PerCourseRevenue(cs[1..], es)
  }

  /** Summing over the courses whose id is `x` picks the one price: ids are
      distinct, so at most one course is counted. */
  lemma {:induction false} OnePrice(cs: seq<Course>, x: Id)
    requires UniqueCourseIds(cs)
    ensures PerCourseRevenue(cs, [Enrollment("", "", x, 0, Active, 0, None, None, 0)]) == PriceOf(cs, x)
  {
    if cs != [] {
      assert UniqueCourseIds(cs[1..]) by {
        forall i, j | 0 <= i < j < |cs[1..]| ensures cs[1..][i].id != cs[1..][j].id {
          assert cs[1..][i] == cs[i + 1] && cs[1..][j] == cs[j + 1];
        }
      }
      OnePrice(cs[1..], x);
      if cs[0].id == x {
        assert PriceOf(cs[1..], x) == 0 by {
          forall k | 0 <= k < |cs[1..]| ensures cs[1..][k].id != x {
            assert cs[1..][k] == cs[k + 1];
          }
        }
      }
    }
  }

  /** The per-course total splits over the first enrollment and the rest. */
  lemma {:induction false} PerCourseSplit(cs: seq<Course>, es: seq<Enrollment>)
    requires es != []
    ensures PerCourseRevenue(cs, es) == PerCourseRevenue(cs, [es[0]]) + PerCourseRevenue(cs, es[1..])
  {
    if cs != [] {
      PerCourseSplit(cs[1..], es);
      var p := (e: Enrollment) => e.course == cs[0].id;
      var a, b := Count([es[0]], p), Count(es[1..], p);
      assert Count(es, p) == a + b by {
        assert [es[0]][1..] == [];
      }
      Distribute(cs[0].price, a, b);
    }
  }

  lemma Distribute(x: int, a: int, b: int)
    ensures x * (a + b) == x * a + x * b
  {
  }

  /** Lines 23-26 total the course price of each enrollment; with distinct
      course ids that equals the sum, over the courses, of price × enrollment
      count. */
  lemma {:induction false} RevenueByCourse(cs: seq<Course>, es: seq<Enrollment>)
    requires UniqueCourseIds(cs)
    ensures Revenue(es, cs) == PerCourseRevenue(cs, es)
  {
    if es == [] {
      NoEnrollmentsNoRevenue(cs);
    } else {
      RevenueByCourse(cs, es[1..]);
      PerCourseSplit(cs, es);
      var e := es[0];
      var single := Enrollment("", "", e.course, 0, Active, 0, None, None, 0);
      OnePrice(cs, e.course);
      SameCourseRevenue(cs, [e], [single]);
    }
  }

  lemma {:induction false} NoEnrollmentsNoRevenue(cs: seq<Course>)
    ensures PerCourseRevenue(cs, []) == 0
  {
    if cs != [] {
      NoEnrollmentsNoRevenue(cs[1..]);
    }
  }

  /** The per-course total depends only on the enrollments' courses. */
  lemma {:induction false} SameCourseRevenue(cs: seq<Course>, a: seq<Enrollment>, b: seq<Enrollment>)
    requires |a| == |b| && forall k :: 0 <= k < |a| ==> a[k].course == b[k].course
    ensures PerCourseRevenue(cs, a) == PerCourseRevenue(cs, b)
  {
    if cs != [] {
      SameCourseRevenue(cs[1..], a, b);
      SameCourseCount(a, b, cs[0].id);
    }
  }

  lemma {:induction false} SameCourseCount(a: seq<Enrollment>, b: seq<Enrollment>, id: Id)
    requires |a| == |b| && forall k :: 0 <= k < |a| ==> a[k].course == b[k].course
    ensures Count(a, (e: Enrollment) => e.course == id) == Count(b, (e: Enrollment) => e.course == id)
  {
    if a != [] {
      SameCourseCount(a[1..], b[1..], id);
    }
  }

  /** `GET /dashboard`: the caller's courses, the enrollments in them, the
      distinct students among those, and the revenue. */
  function DashboardOf(t: Tables, caller: Id): (r: Dashboard)
    ensures r.coursesList == Owned(t.courses, caller) && r.courses == |r.coursesList|
    ensures var es := Filter(t.enrollments, (e: Enrollment) => e.course in Analytics.CourseIds(r.coursesList));
            && r.totalEnrollments == |es|
            && r.totalStudents == |Analytics.Students(es)| <= r.totalEnrollments
            && (ValidTables(t) ==> r.totalRevenue == PerCourseRevenue(r.coursesList, es))
  {
    var courses := Owned(t.courses, caller);
    var es := Filter(t.enrollments, (e: Enrollment) => e.course in Analytics.CourseIds(courses));
    Analytics.StudentsBound(es);
    assert ValidTables(t) ==> Revenue(es, courses) == PerCourseRevenue(courses, es) by {
      if ValidTables(t) {
        OwnedUnique(t.courses, caller);
        RevenueByCourse(courses, es);
      }
    }
    Dashboard(|courses|, |es|, |Analytics.Students(es)|, Revenue(es, courses), courses)
  }

  /** Keeping some of the courses keeps their ids distinct. */
  lemma {:induction false} OwnedUnique(cs: seq<Course>, caller: Id)
    requires UniqueCourseIds(cs)
    ensures UniqueCourseIds(Owned(cs, caller))
  {
    if cs != [] {
      assert UniqueCourseIds(cs[1..]) by {
        forall i, j | 0 <= i < j < |cs[1..]| ensures cs[1..][i].id != cs[1..][j].id {
          assert cs[1..][i] == cs[i + 1] && cs[1..][j] == cs[j + 1];
        }
      }
      OwnedUnique(cs[1..], caller);
      var rest := Owned(cs[1..], caller);
      forall x | x in rest ensures x.id != cs[0].id {
        var k :| 0 <= k < |cs[1..]| && cs[1..][k] == x;
        assert cs[k + 1] == x;
      }
    }
  }

  // ------------------------------------------ GET /courses/:courseId/analytics

  datatype StudentRow = StudentRow(student: Id, enrolledAt: Time, progress: int, status: EnrollmentStatus)
  datatype CourseAnalytics = CourseAnalytics(totalEnrollments: nat, averageRating: real,
                                             totalRevenue: int, students: seq<StudentRow>)

  function RowOf(e: Enrollment): StudentRow {
    StudentRow(e.student, e.enrolledAt, e.progress, e.status)
  }

  /** The analytics of one course: 404 unless a course with that id has the
      caller as instructor; otherwise its enrollment count, `rating || 0`, and
      count × price. */
  function CourseAnalyticsOf(t: Tables, caller: Id, courseId: Id): (r: (int, Option<CourseAnalytics>))
    ensures r.0 == 200 || r.0 == 404
    ensures r.0 == 404 <==> forall k :: 0 <= k < |t.courses| ==> !(t.courses[k].id == courseId && t.courses[k].instructor == caller)
    ensures r.0 == 404 ==> r.1.None?
    ensures r.0 == 200 ==>
      exists k :: 0 <= k < |t.courses| && t.courses[k].id == courseId && t.courses[k].instructor == caller &&
        var c := t.courses[k];
        var es := Filter(t.enrollments, (e: Enrollment) => e.course == c.id);
        && r.1.Some?
        && r.1.value.totalEnrollments == |es|
        && r.1.value.averageRating == (if c.rating.Some? then c.rating.value else 0.0)
        && r.1.value.totalRevenue == |es| * c.price
        && |r.1.value.students| == |es|
        && (forall j :: 0 <= j < |es| ==> r.1.value.students[j] == RowOf(es[j]))
  {
    match FirstIndex(t.courses, (c: Course) => c.id == courseId && c.instructor == caller)
    case None => (404, None)
    case Some(i) =>
      var c := t.courses[i];
      var es := Filter(t.enrollments, (e: Enrollment) => e.course == c.id);
      var rows := seq(|es|, j requires 0 <= j < |es| => RowOf(es[j]));
      (200, Some(CourseAnalytics(|es|, if c.rating.Some? then c.rating.value else 0.0, |es| * c.price, rows)))
  }
}
