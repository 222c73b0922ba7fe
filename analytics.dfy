/** Course analytics (server/routes/analytics.js): the report `getAnalyticsData`
    builds for the courses a user may see, the per-course statistics of
    `GET /`, and the role gate of `GET /export`. Averages are `real`s. */
module Analytics {
  import opened Base
  import opened Seqs
  import opened CourseModel
  import opened EnrollmentModel
  import opened Store

  // ------------------------------------------------------------ arithmetic

  function Sum(xs: seq<int>): int {
    if xs == [] then 0 else xs[0] + Sum(xs[1..])
  }

  /** The sum of values in `lo..hi` lies in `n*lo .. n*hi`. */
  lemma {:induction false} SumBounds(xs: seq<int>, lo: int, hi: int)
    requires forall i :: 0 <= i < |xs| ==> lo <= xs[i] <= hi
    ensures (|xs| as real) * (lo as real) <= Sum(xs) as real <= (|xs| as real) * (hi as real)
  {
    if xs != [] {
      var tail := xs[1..];
      assert forall i :: 0 <= i < |tail| ==> tail[i] == xs[i + 1];
      SumBounds(tail, lo, hi);
      var m := |tail| as real;
      var l, h, x := lo as real, hi as real, xs[0] as real;
      assert l <= x <= h;
      assert m * l <= Sum(tail) as real <= m * h;
      assert |xs| as real == m + 1.0;
      assert Sum(xs) as real == x + Sum(tail) as real;
      Distribute(m, l);
      Distribute(m, h);
    }
  }

  lemma Distribute(m: real, x: real)
    ensures (m + 1.0) * x == m * x + x
  {
  }

  /** `xs.reduce((a, b) => a + b, 0) / xs.length`, or 0 for no values. */
  function Mean(xs: seq<int>): (m: real)
    ensures xs == [] ==> m == 0.0
    ensures xs != [] ==> m * (|xs| as real) == Sum(xs) as real
  {
    if xs == [] then 0.0 else Sum(xs) as real / (|xs| as real)
  }

  /** The mean of values in `lo..hi` lies in `lo..hi`. */
  lemma MeanBounds(xs: seq<int>, lo: int, hi: int)
    requires xs != []
    requires forall i :: 0 <= i < |xs| ==> lo <= xs[i] <= hi
    ensures lo as real <= Mean(xs) <= hi as real
  {
    SumBounds(xs, lo, hi);
    var n := |xs| as real;
    ScaleLe(lo as real, Mean(xs), n);
    ScaleLe(Mean(xs), hi as real, n);
  }

  /** Dividing both sides by a positive number keeps the order. */
  lemma ScaleLe(x: real, y: real, n: real)
    requires n > 0.0 && x * n <= y * n
    ensures x <= y
  {
  }

  /** `count / n * 100`, or 0 when `n` is 0. */
  function Rate(count: nat, n: nat): (r: real)
    requires count <= n
    ensures 0.0 <= r <= 100.0
    ensures n == 0 ==> r == 0.0
    ensures n > 0 ==> r * (n as real) == 100.0 * (count as real)
  {
    if n == 0 then 0.0 else (count as real / n as real) * 100.0
  }

  // ---------------------------------------------------------- the report

  /** The ratings of the enrollments whose rating is truthy, in order. */
  function Ratings(es: seq<Enrollment>): (r: seq<int>)
    ensures |r| <= |es|
    ensures forall x :: x in r ==> exists e :: e in es && e.rating == Some(x) && x != 0
  {
    if es == [] then []
    else if TruthyNum(es[0].rating) then [es[0].rating.value] + Ratings(es[1..])
    else Ratings(es[1..])
  }

  /** Valid enrollments' ratings lie in 1..5. */
  lemma RatingsInRange(es: seq<Enrollment>)
    requires forall k :: 0 <= k < |es| ==> ValidEnrollment(es[k])
    ensures forall i :: 0 <= i < |Ratings(es)| ==> 1 <= Ratings(es)[i] <= 5
  {
    forall i | 0 <= i < |Ratings(es)| ensures 1 <= Ratings(es)[i] <= 5 {
      var x := Ratings(es)[i];
      assert x in Ratings(es);
      var e :| e in es && e.rating == Some(x) && x != 0;
    }
  }

  /** `new Set(enrollments.map(e => e.student)).size`: distinct students. */
  function Students(es: seq<Enrollment>): (r: set<Id>)
    ensures forall x :: x in r <==> exists k :: 0 <= k < |es| && es[k].student == x
  {
    set e | e in es :: e.student
  }

  lemma {:induction false} StudentsBound(es: seq<Enrollment>)
    ensures |Students(es)| <= |es|
  {
    if es != [] {
      StudentsBound(es[1..]);
      assert Students(es) == {es[0].student} + Students(es[1..]);
    }
  }

  datatype CourseRevenue = CourseRevenue(id: Id, title: string, enrollments: nat, revenue: int, rating: real)
  datatype ProgressRow = ProgressRow(id: Id, student: Id, course: Id, percentage: int, lastActivity: Time)
  datatype Report = Report(totalStudents: nat, averageRating: real, completionRate: real,
                           revenueByCourse: seq<CourseRevenue>, studentProgress: seq<ProgressRow>)

  function CourseIds(cs: seq<Course>): set<Id> {
    set c | c in cs :: c.id
  }

  /** The courses of the caller's enrollments, in enrollment order; an
      enrollment whose course no longer exists makes the helper throw. */
  function EnrolledCourses(mine: seq<Enrollment>, cs: seq<Course>): (r: Option<seq<Course>>)
    ensures r.Some? ==> |r.value| == |mine| && forall k :: 0 <= k < |mine| ==> r.value[k] in cs && r.value[k].id == mine[k].course
    ensures r.None? <==> exists k :: 0 <= k < |mine| && CourseIndex(cs, mine[k].course).None?
  {
    if mine == [] then Some([])
    else
      match CourseIndex(cs, mine[0].course)
      case None => None
      case Some(i) =>
        match EnrolledCourses(mine[1..], cs)
        case None => None
        case Some(rest) =>
          assert forall k :: 1 <= k < |mine| ==> mine[k] == mine[1..][k - 1];
          Some([cs[i]] + rest)
  }

  /** Lines 13-23: admins see every course, instructors their own, anyone else
      the courses they are enrolled in. */
  function Scope(t: Tables, userId: Id, role: string): (r: Option<seq<Course>>)
    ensures role == "admin" ==> r == Some(t.courses)
    ensures role == "instructor" ==> r.Some? && forall k :: 0 <= k < |r.value| ==> r.value[k] in t.courses && r.value[k].instructor == userId
    ensures role == "instructor" ==> forall c :: c in t.courses && c.instructor == userId ==> c in r.value
    ensures role != "admin" && role != "instructor" ==> r == EnrolledCourses(Filter(t.enrollments, (e: Enrollment) => e.student == userId), t.courses)
  {
    if role == "admin" then Some(t.courses)
    else if role == "instructor" then Some(Filter(t.courses, (c: Course) => c.instructor == userId))
    else EnrolledCourses(Filter(t.enrollments, (e: Enrollment) => e.student == userId), t.courses)
  }

  function RevenueOf(c: Course, es: seq<Enrollment>): (r: CourseRevenue)
    ensures r.id == c.id && r.title == c.title
    ensures r.enrollments == Count(es, (e: Enrollment) => e.course == c.id)
    ensures r.revenue == c.price * r.enrollments
    ensures r.rating == Mean(Ratings(Filter(es, (e: Enrollment) => e.course == c.id)))
  {
    var mine := Filter(es, (e: Enrollment) => e.course == c.id);
    FilterCount(es, (e: Enrollment) => e.course == c.id);
    CourseRevenue(c.id, c.title, |mine|, c.price * |mine|, Mean(Ratings(mine)))
  }

  function ProgressRowOf(e: Enrollment): (r: ProgressRow)
    ensures r.id == e.id && r.student == e.student && r.course == e.course
    ensures r.percentage == e.progress && r.lastActivity == e.lastAccessed
  {
    ProgressRow(e.id, e.student, e.course, e.progress, e.lastAccessed)
  }

  /** The report over the visible courses and the enrollments in them. */
  function ReportOf(courses: seq<Course>, es: seq<Enrollment>): (r: Report)
    ensures r.totalStudents == |Students(es)| <= |es|
    ensures r.completionRate == Rate(Count(es, (e: Enrollment) => e.progress == 100), |es|)
    ensures 0.0 <= r.completionRate <= 100.0
    ensures r.averageRating == Mean(Ratings(es))
    ensures |r.revenueByCourse| == |courses|
    ensures forall k :: 0 <= k < |courses| ==> r.revenueByCourse[k] == RevenueOf(courses[k], es)
    ensures |r.studentProgress| == |es|
    ensures forall k :: 0 <= k < |es| ==> r.studentProgress[k] == ProgressRowOf(es[k])
  {
    StudentsBound(es);
    Report(
      |Students(es)|,
      Mean(Ratings(es)),
      Rate(Count(es, (e: Enrollment) => e.progress == 100), |es|),
      seq(|courses|, k requires 0 <= k < |courses| => RevenueOf(courses[k], es)),
      seq(|es|, k requires 0 <= k < |es| => ProgressRowOf(es[k])))
  }

  /** Stored enrollments obey the schema, so their mean rating lies in 0..5. */
  lemma StoredMeanRatingBounded(t: Tables, es: seq<Enrollment>)
    requires ValidTables(t)
    requires forall k :: 0 <= k < |es| ==> es[k] in t.enrollments
    ensures 0.0 <= Mean(Ratings(es)) <= 5.0
  {
    if Ratings(es) != [] {
      forall k | 0 <= k < |es| ensures ValidEnrollment(es[k]) {
        var j :| 0 <= j < |t.enrollments| && t.enrollments[j] == es[k];
      }
      RatingsInRange(es);
      MeanBounds(Ratings(es), 1, 5);
    }
  }

  /** `getAnalyticsData(userId, role)`; `None` when the helper throws. */
  function AnalyticsData(t: Tables, userId: Id, role: string): (r: Option<Report>)
    ensures r.None? <==> Scope(t, userId, role).None?
    ensures r.Some? ==>
      var courses := Scope(t, userId, role).value;
      var es := Filter(t.enrollments, (e: Enrollment) => e.course in CourseIds(courses));
      && r.value == ReportOf(courses, es)
      && (ValidTables(t) ==> 0.0 <= r.value.averageRating <= 5.0)
  {
    match Scope(t, userId, role)
    case None => None
    case Some(courses) =>
      var es := Filter(t.enrollments, (e: Enrollment) => e.course in CourseIds(courses));
      if ValidTables(t) then
        StoredMeanRatingBounded(t, es);
        Some(ReportOf(courses, es))
      else Some(ReportOf(courses, es))
  }

  // ---------------------------------------------------------------- GET /

  /** The value of `entry.rating || 0` and whether `entry.progress === 100`;
      a bare id has neither field. */
  function EntryRating(e: RosterEntry): (r: int)
    ensures r != 0 <==> e.MemberRecord? && e.rating.Some? && e.rating.value != 0
    ensures r != 0 ==> r == e.rating.value
  {
    if e.MemberRecord? && TruthyNum(e.rating) then e.rating.value else 0
  }

  predicate EntryDone(e: RosterEntry) {
    e.MemberRecord? && e.progress == Some(100)
  }

  datatype RosterRow = RosterRow(studentId: Option<Id>, progress: int, rating: int)
  datatype CourseStats = CourseStats(courseId: Id, courseTitle: string, totalStudents: nat,
                                     averageRating: real, completionRate: real, revenue: int,
                                     studentProgress: seq<RosterRow>)

  function RosterRatings(roster: seq<RosterEntry>): (r: seq<int>)
    ensures |r| == |roster|
    ensures forall k :: 0 <= k < |roster| ==> r[k] == EntryRating(roster[k])
  {
    seq(|roster|, k requires 0 <= k < |roster| => EntryRating(roster[k]))
  }

  /** One row of `studentProgress`: a record's student, progress (`|| 0`) and
      rating (`|| 0`); a bare id gives no student and zeros. */
  function RowOf(e: RosterEntry): (r: RosterRow)
    ensures r.studentId.Some? <==> e.MemberRecord?
    ensures e.MemberRecord? ==> r.studentId == Some(e.student)
    ensures r.rating == EntryRating(e)
    ensures r.progress != 0 <==> e.MemberRecord? && e.progress.Some? && e.progress.value != 0
    ensures r.progress != 0 ==> r.progress == e.progress.value
  {
    match e
    case Member(_) => RosterRow(None, 0, 0)
    case MemberRecord(s, rating, progress) =>
      RosterRow(Some(s), if TruthyNum(progress) then progress.value else 0, EntryRating(e))
  }

  /** The statistics of one course, from its roster: every entry counts as a
      student, and an unrated entry counts as a rating of 0. */
  function StatsOf(c: Course): (r: CourseStats)
    ensures r.courseId == c.id && r.courseTitle == c.title
    ensures r.totalStudents == |c.enrolledStudents|
    ensures r.averageRating == Mean(RosterRatings(c.enrolledStudents))
    ensures 0.0 <= r.completionRate <= 100.0
    // the percentage of roster entries whose progress is 100
    ensures r.completionRate == Rate(Count(c.enrolledStudents, EntryDone), |c.enrolledStudents|)
    ensures r.revenue == c.price * |c.enrolledStudents|
    ensures |r.studentProgress| == |c.enrolledStudents|
    ensures forall k :: 0 <= k < |c.enrolledStudents| ==> r.studentProgress[k] == RowOf(c.enrolledStudents[k])
  {
    var roster := c.enrolledStudents;
    var done := Count(roster, EntryDone);
    CourseStats(c.id, c.title, |roster|, Mean(RosterRatings(roster)), Rate(done, |roster|),
                c.price * |roster|, seq(|roster|, k requires 0 <= k < |roster| => RowOf(roster[k])))
  }

  /** The roster holds a record whose `student` is the user (what
      `{'enrolledStudents.student': userId}` matches; a bare id has no
      `student` field and never matches). */
  predicate RecordFor(c: Course, userId: Id) {
    exists k :: 0 <= k < |c.enrolledStudents| && c.enrolledStudents[k].MemberRecord? && c.enrolledStudents[k].student == userId
  }

  function StatsCourses(t: Tables, userId: Id, role: string): (r: seq<Course>)
    ensures role == "admin" ==> r == t.courses
    ensures forall k :: 0 <= k < |r| ==> r[k] in t.courses
    ensures IsSubseq(r, t.courses)
    ensures role == "instructor" ==> forall c :: c in r <==> c in t.courses && c.instructor == userId
    ensures role != "admin" && role != "instructor" ==> forall c :: c in r <==> c in t.courses && RecordFor(c, userId)
    // each kept course appears as often as in the collection
    ensures role == "instructor" ==> |r| == Count(t.courses, (c: Course) => c.instructor == userId)
    ensures role != "admin" && role != "instructor" ==> |r| == Count(t.courses, (c: Course) => RecordFor(c, userId))
  {
    if role == "admin" then
      SubseqRefl(t.courses);
      t.courses
    else if role == "instructor" then
      FilterIsSubseq(t.courses, (c: Course) => c.instructor == userId);
      FilterCount(t.courses, (c: Course) => c.instructor == userId);
      Filter(t.courses, (c: Course) => c.instructor == userId)
    else
      FilterIsSubseq(t.courses, (c: Course) => RecordFor(c, userId));
      FilterCount(t.courses, (c: Course) => RecordFor(c, userId));
      Filter(t.courses, (c: Course) => RecordFor(c, userId))
  }

  /** `GET /`: the statistics of each visible course. */
  function Stats(t: Tables, userId: Id, role: string): (r: seq<CourseStats>)
    ensures |r| == |StatsCourses(t, userId, role)|
    ensures forall k :: 0 <= k < |r| ==> r[k] == StatsOf(StatsCourses(t, userId, role)[k])
  {
    var cs := StatsCourses(t, userId, role);
    seq(|cs|, k requires 0 <= k < |cs| => StatsOf(cs[k]))
  }

  /** A course whose roster holds only bare ids (what enrolling pushes) is not
      among a student's courses in `GET /`. */
  lemma BareIdsNotMatched(c: Course, userId: Id)
    requires forall k :: 0 <= k < |c.enrolledStudents| ==> c.enrolledStudents[k].Member?
    ensures !RecordFor(c, userId)
  {
  }

  /** Unlike the helper's mean of the given ratings, `GET /` divides by the
      whole roster: one entry rated 4 and one bare id give 2, where the
      helper's mean of the rating 4 alone is 4. */
  lemma UnratedCountsAsZero(c: Course, s1: Id, s2: Id)
    requires c.enrolledStudents == [MemberRecord(s1, Some(4), None), Member(s2)]
    ensures StatsOf(c).averageRating == 2.0
    ensures Mean([4]) == 4.0
  {
    assert RosterRatings(c.enrolledStudents) == [4, 0];
    assert Sum([4, 0]) == 4;
  }

  // --------------------------------------------------------- GET /export

  /** `GET /export`: 403 unless the role is admin or instructor; otherwise the
      report's progress rows (written out as a CSV file). */
  function ExportSpec(t: Tables, userId: Id, role: string): (r: (int, seq<ProgressRow>))
    ensures r.0 == 403 <==> role != "admin" && role != "instructor"
    ensures r.0 == 403 ==> r.1 == []
    ensures r.0 != 403 ==> r.0 == 200 && r.1 == AnalyticsData(t, userId, role).value.studentProgress
  {
    if role != "admin" && role != "instructor" then (403, [])
    else (200, AnalyticsData(t, userId, role).value.studentProgress)
  }
}
