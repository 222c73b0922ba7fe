/** The enrollment routes (server/routes/enrollments.js): the caller's
    enrollments, newest first; direct enrollment in a course; progress updates. */
module Enrollments {
  import opened Base
  import opened Seqs
  import opened CourseModel
  import opened EnrollmentModel
  import opened Store

  datatype EnrollOutcome = EnrollOutcome(tables: Tables, status: int, enrollment: Option<Enrollment>)

  // ------------------------------------------------------------ GET /mine

  function EnrolledAtKey(e: Enrollment): Key {
    Val(e.enrolledAt as real)
  }

  /** `Enrollment.find({student: caller}).sort({enrolledAt: -1})`. */
  function Mine(es: seq<Enrollment>, caller: Id): (r: seq<Enrollment>)
    ensures forall k :: 0 <= k < |r| ==> r[k].student == caller
    ensures forall k :: 0 <= k < |es| && es[k].student == caller ==> es[k] in r
    ensures forall i, j :: 0 <= i < j < |r| ==> r[i].enrolledAt >= r[j].enrolledAt
    ensures multiset(r) == multiset(Filter(es, (e: Enrollment) => e.student == caller))
  {
    var mine := Filter(es, (e: Enrollment) => e.student == caller);
    var r := SortBy(mine, EnrolledAtKey, true);
    SameMembers(r, mine);
    forall k | 0 <= k < |r| ensures r[k].student == caller {
      var x := r[k];
      assert x in mine;
    }
    forall i, j | 0 <= i < j < |r| ensures r[i].enrolledAt >= r[j].enrolledAt {
      assert Before(true, EnrolledAtKey(r[i]), EnrolledAtKey(r[j]));
    }
    r
  }

  /** Two lists with the same multiset have the same members. */
  lemma SameMembers<T>(a: seq<T>, b: seq<T>)
    requires multiset(a) == multiset(b)
    ensures forall x :: x in a <==> x in b
  {
    forall x ensures x in a <==> x in b {
      assert x in a <==> x in multiset(a);
      assert x in b <==> x in multiset(b);
    }
  }

  // ------------------------------------------------- POST /:courseId (enroll)

  /** What enrolling the caller in `courseId` does. */
  function EnrollSpec(t: Tables, caller: Id, courseId: Id, enrollmentId: Id, now: Time): (r: EnrollOutcome)
    ensures r.status == 200 || r.status == 400 || r.status == 404 || r.status == 500
    ensures r.status == 404 <==> CourseIndex(t.courses, courseId).None?
    ensures r.status == 400 <==> CourseIndex(t.courses, courseId).Some? && HasPair(t.enrollments, caller, courseId)
    ensures r.status == 400 || r.status == 404 ==> r.tables == t && r.enrollment.None?
    ensures r.status == 200 <==>
      && CourseIndex(t.courses, courseId).Some? && !HasPair(t.enrollments, caller, courseId)
      && caller != "" && courseId != "" && EnrollmentIndex(t.enrollments, enrollmentId).None?
      && ValidCourse(t.courses[CourseIndex(t.courses, courseId).value])
    // a failed `course.save()` leaves the already saved enrollment in place
    ensures r.status == 500 ==>
      && r.enrollment.None?
      && (r.tables == t || r.tables == t.(enrollments := t.enrollments + [Enrollment(enrollmentId, caller, courseId, now, Active, 0, None, None, now)]))
      && (r.tables != t <==> caller != "" && courseId != "" && EnrollmentIndex(t.enrollments, enrollmentId).None?)
    ensures ValidTables(t) && r.status == 500 ==> r.tables == t
    ensures r.status == 200 ==>
      var i := CourseIndex(t.courses, courseId).value;
      && r.enrollment == Some(Enrollment(enrollmentId, caller, courseId, now, Active, 0, None, None, now))
      && r.tables.enrollments == t.enrollments + [r.enrollment.value]
      && r.tables.courses == t.courses[i := t.courses[i].(enrolledStudents := t.courses[i].enrolledStudents + [Member(caller)])]
      && r.tables.orders == t.orders && r.tables.reviews == t.reviews
      && r.tables.progress == t.progress && r.tables.users == t.users
    ensures ValidTables(t) ==> ValidTables(r.tables)
  {
    match CourseIndex(t.courses, courseId)
    case None => EnrollOutcome(t, 404, None)
    case Some(i) =>
      if HasPair(t.enrollments, caller, courseId) then EnrollOutcome(t, 400, None)
      else
        var e := Enrollment(enrollmentId, caller, courseId, now, Active, 0, None, None, now);
        if !ValidEnrollment(e) || !CanInsertEnrollment(t.enrollments, e) then EnrollOutcome(t, 500, None)
        else
          var t1 := t.(enrollments := t.enrollments + [e]);
          var c := t.courses[i].(enrolledStudents := t.courses[i].enrolledStudents + [Member(caller)]);
          assert ValidTables(t) ==> ValidTables(t1) by {
            if ValidTables(t) { InsertEnrollmentValid(t, e); }
          }
          if !ValidCourse(c) then
            // `course.save()` fails validation after the enrollment was saved
            EnrollOutcome(t1, 500, None)
          else
            assert ValidTables(t) ==> ValidTables(t1.(courses := t.courses[i := c])) by {
              if ValidTables(t) { ReplaceCourseValid(t1, i, c); }
            }
            EnrollOutcome(t1.(courses := t.courses[i := c]), 200, Some(e))
  }

  /** The handler: find the course, refuse a second enrollment, save the new
      enrollment, push the caller onto the roster and save the course. */
  method Enroll(db: Database, caller: Id, courseId: Id, enrollmentId: Id, now: Time)
    returns (status: int, enrollment: Option<Enrollment>)
    requires db.Valid()
    modifies db
    ensures db.Valid()
    ensures EnrollOutcome(db.Snapshot(), status, enrollment) == EnrollSpec(old(db.Snapshot()), caller, courseId, enrollmentId, now)
  {
    var found := CourseIndex(db.courses, courseId);
    if found.None? {
      return 404, None;
    }
    var i := found.value;
    if HasPair(db.enrollments, caller, courseId) {
      return 400, None;
    }
    var e := Enrollment(enrollmentId, caller, courseId, now, Active, 0, None, None, now);
    if !ValidEnrollment(e) || !CanInsertEnrollment(db.enrollments, e) {
      return 500, None;
    }
    InsertEnrollmentValid(db.Snapshot(), e);
    db.enrollments := db.enrollments + [e];
    // the stored course is valid, so `course.save()` succeeds
    var c := db.courses[i].(enrolledStudents := db.courses[i].enrolledStudents + [Member(caller)]);
    ReplaceCourseValid(db.Snapshot(), i, c);
    db.courses := db.courses[i := c];
    return 200, Some(e);
  }

  /** Enrolling twice in the same course: the second request is refused with
      400 and changes nothing, and the caller's list shows the course once. */
  lemma EnrollTwice(t: Tables, caller: Id, courseId: Id, id1: Id, now1: Time, id2: Id, now2: Time)
    requires ValidTables(t)
    requires EnrollSpec(t, caller, courseId, id1, now1).status == 200
    ensures var t1 := EnrollSpec(t, caller, courseId, id1, now1).tables;
            && EnrollSpec(t1, caller, courseId, id2, now2).status == 400
            && EnrollSpec(t1, caller, courseId, id2, now2).tables == t1
            && Count(Mine(t1.enrollments, caller), (e: Enrollment) => e.course == courseId) == 1
  {
    var r := EnrollSpec(t, caller, courseId, id1, now1);
    var t1 := r.tables;
    var e := r.enrollment.value;
    assert t1.enrollments[|t.enrollments|] == e;
    assert t1.courses[CourseIndex(t.courses, courseId).value].id == courseId;
    assert HasPair(t1.enrollments, caller, courseId);
    OnlyOnePair(t1.enrollments, caller, courseId);
  }

  /** Under the unique (student, course) index, the caller's list holds at most
      one enrollment per course, and exactly one where the pair exists. */
  lemma OnlyOnePair(es: seq<Enrollment>, caller: Id, courseId: Id)
    requires UniquePairs(es) && HasPair(es, caller, courseId)
    ensures Count(Mine(es, caller), (e: Enrollment) => e.course == courseId) == 1
  {
    var isMine := (e: Enrollment) => e.student == caller;
    var inCourse := (e: Enrollment) => e.course == courseId;
    var both := (e: Enrollment) => e.student == caller && e.course == courseId;
    var m := Mine(es, caller);
    MultisetCount(m, Filter(es, isMine), inCourse);
    CountFilterBoth(es, caller, courseId);
    UniquePairCount(es, caller, courseId);
  }

  /** Counting is invariant under permutation. */
  lemma {:induction false} MultisetCount<T>(a: seq<T>, b: seq<T>, p: T -> bool)
    requires multiset(a) == multiset(b)
    ensures Count(a, p) == Count(b, p)
    decreases |a|
  {
    if a != [] {
      var x := a[0];
      assert x in multiset(b);
      var k :| 0 <= k < |b| && b[k] == x;
      RemoveAtMultiset(b, k);
      assert a == [x] + a[1..];
      assert multiset(a) == multiset{x} + multiset(a[1..]);
      assert multiset(b) == multiset(RemoveAt(b, k)) + multiset{x};
      var ma, mr := multiset(a[1..]), multiset(RemoveAt(b, k));
      assert ma + multiset{x} == mr + multiset{x};
      forall y ensures ma[y] == mr[y] {
        assert (ma + multiset{x})[y] == ma[y] + multiset{x}[y];
        assert (mr + multiset{x})[y] == mr[y] + multiset{x}[y];
      }
      assert multiset(a[1..]) == multiset(RemoveAt(b, k));
      MultisetCount(a[1..], RemoveAt(b, k), p);
      CountRemoveAt(b, k, p);
    } else {
      assert |b| == |multiset(b)| == 0;
    }
  }

  lemma {:induction false} CountRemoveAt<T>(s: seq<T>, k: nat, p: T -> bool)
    requires k < |s|
    ensures Count(s, p) == Count(RemoveAt(s, k), p) + (if p(s[k]) then 1 else 0)
  {
    if k > 0 {
      assert RemoveAt(s, k)[1..] == RemoveAt(s[1..], k - 1);
      CountRemoveAt(s[1..], k - 1, p);
    } else {
      assert RemoveAt(s, 0) == s[1..];
    }
  }

  /** Counting one course within the caller's enrollments counts the pair. */
  lemma {:induction false} CountFilterBoth(es: seq<Enrollment>, caller: Id, courseId: Id)
    ensures Count(Filter(es, (e: Enrollment) => e.student == caller), (e: Enrollment) => e.course == courseId)
         == Count(es, (e: Enrollment) => e.student == caller && e.course == courseId)
  {
    if es != [] {
      CountFilterBoth(es[1..], caller, courseId);
    }
  }

  /** A pair that the index makes unique is counted once. */
  lemma {:induction false} UniquePairCount(es: seq<Enrollment>, caller: Id, courseId: Id)
    requires UniquePairs(es) && HasPair(es, caller, courseId)
    ensures Count(es, (e: Enrollment) => e.student == caller && e.course == courseId) == 1
  {
    var both := (e: Enrollment) => e.student == caller && e.course == courseId;
    if both(es[0]) {
      assert forall k :: 0 <= k < |es[1..]| ==> es[1..][k] == es[k + 1];
      NoPairCount(es[1..], caller, courseId);
    } else {
      var k :| 0 <= k < |es| && es[k].student == caller && es[k].course == courseId;
      assert k > 0;
      assert es[1..][k - 1] == es[k];
      UniquePairCount(es[1..], caller, courseId);
    }
  }

  lemma {:induction false} NoPairCount(es: seq<Enrollment>, caller: Id, courseId: Id)
    requires !HasPair(es, caller, courseId)
    ensures Count(es, (e: Enrollment) => e.student == caller && e.course == courseId) == 0
  {
    if es != [] {
      assert forall k :: 0 <= k < |es[1..]| ==> es[1..][k] == es[k + 1];
      NoPairCount(es[1..], caller, courseId);
    }
  }

  // ----------------------------------------------- PUT /:id/progress (update)

  /** The enrollment after a progress update: the new progress, accessed now,
      and completed exactly when the progress reaches 100 (otherwise its status
      is left as it was). */
  function WithProgress(e: Enrollment, progress: int, now: Time): (u: Enrollment)
    ensures u.progress == progress && u.lastAccessed == now
    ensures progress == 100 ==> u.status == Completed
    ensures progress != 100 ==> u.status == e.status
    ensures u.id == e.id && u.student == e.student && u.course == e.course
    ensures u.enrolledAt == e.enrolledAt && u.rating == e.rating && u.review == e.review
  {
    e.(progress := progress, lastAccessed := now, status := if progress == 100 then Completed else e.status)
  }

  /** What `PUT /:id/progress` does. */
  function UpdateProgressSpec(t: Tables, caller: Id, id: Id, progress: int, now: Time): (r: EnrollOutcome)
    ensures r.status == 200 || r.status == 400 || r.status == 401 || r.status == 404
    ensures r.status == 400 <==> progress < 0 || progress > 100
    ensures r.status == 404 <==> 0 <= progress <= 100 && EnrollmentIndex(t.enrollments, id).None?
    ensures r.status == 401 <==>
      && 0 <= progress <= 100 && EnrollmentIndex(t.enrollments, id).Some?
      && t.enrollments[EnrollmentIndex(t.enrollments, id).value].student != caller
    ensures r.status != 200 ==> r.tables == t && r.enrollment.None?
    ensures r.status == 200 ==>
      var i := EnrollmentIndex(t.enrollments, id).value;
      && r.enrollment == Some(WithProgress(t.enrollments[i], progress, now))
      && r.tables == t.(enrollments := t.enrollments[i := r.enrollment.value])
    ensures ValidTables(t) ==> ValidTables(r.tables)
  {
    if progress < 0 || progress > 100 then EnrollOutcome(t, 400, None)
    else
      match EnrollmentIndex(t.enrollments, id)
      case None => EnrollOutcome(t, 404, None)
      case Some(i) =>
        if t.enrollments[i].student != caller then EnrollOutcome(t, 401, None)
        else
          var u := WithProgress(t.enrollments[i], progress, now);
          assert ValidTables(t) ==> ValidTables(t.(enrollments := t.enrollments[i := u])) by {
            if ValidTables(t) {
              assert ValidEnrollment(t.enrollments[i]);
              ReplaceEnrollmentValid(t, i, u);
            }
          }
          EnrollOutcome(t.(enrollments := t.enrollments[i := u]), 200, Some(u))
  }

  /** The handler: range check, lookup, owner check, then update and save. */
  method UpdateProgress(db: Database, caller: Id, id: Id, progress: int, now: Time)
    returns (status: int, enrollment: Option<Enrollment>)
    requires db.Valid()
    modifies db
    ensures db.Valid()
    ensures EnrollOutcome(db.Snapshot(), status, enrollment) == UpdateProgressSpec(old(db.Snapshot()), caller, id, progress, now)
  {
    if progress < 0 || progress > 100 {
      return 400, None;
    }
    var found := EnrollmentIndex(db.enrollments, id);
    if found.None? {
      return 404, None;
    }
    var i := found.value;
    if db.enrollments[i].student != caller {
      return 401, None;
    }
    var u := WithProgress(db.enrollments[i], progress, now);
    ReplaceEnrollmentValid(db.Snapshot(), i, u);
    db.enrollments := db.enrollments[i := u];
    return 200, Some(u);
  }

  /** Once completed, an enrollment stays completed under any later progress
      update by its owner, even one that lowers the progress. */
  lemma CompletedStays(t: Tables, caller: Id, id: Id, p1: int, now1: Time, p2: int, now2: Time)
    requires UpdateProgressSpec(t, caller, id, p1, now1).status == 200 && p1 == 100
    ensures var t1 := UpdateProgressSpec(t, caller, id, p1, now1).tables;
            var r := UpdateProgressSpec(t1, caller, id, p2, now2);
            && t1.enrollments[EnrollmentIndex(t.enrollments, id).value].status == Completed
            && (0 <= p2 <= 100 ==> r.status == 200)
            && (r.status == 200 ==> r.enrollment.value.status == Completed && r.enrollment.value.progress == p2)
  {
    var i := EnrollmentIndex(t.enrollments, id).value;
    var t1 := UpdateProgressSpec(t, caller, id, p1, now1).tables;
    assert t1.enrollments[i].id == id;
    assert forall k :: 0 <= k < i ==> t1.enrollments[k] == t.enrollments[k];
    assert EnrollmentIndex(t1.enrollments, id) == Some(i);
  }
}
