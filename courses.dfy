/** Course CRUD and the course's three lists (server/routes/courses.js):
    create (the instructor is the caller), read, update with validation,
    delete, and push/splice on `videos`, `resources` and `quizzes`. */
module Courses {
  import opened Base
  import opened Seqs
  import opened CourseModel
  import opened Store

  // ------------------------------------------------------------- GET /:id

  datatype Lookup = Lookup(status: int, course: Option<Course>)

  /** `GET /:id`: the course, or 404. */
  function GetCourseSpec(t: Tables, id: Id): (r: Lookup)
    ensures r.status == 200 || r.status == 404
    ensures r.status == 404 <==> forall k :: 0 <= k < |t.courses| ==> t.courses[k].id != id
    ensures r.status == 200 ==> r.course.Some? && r.course.value in t.courses && r.course.value.id == id
    ensures r.status == 404 ==> r.course.None?
  {
    match CourseIndex(t.courses, id)
    case None => Lookup(404, None)
    case Some(i) => Lookup(200, Some(t.courses[i]))
  }

  // ----------------------------------------------------------------- POST /

  /** `POST /`: `new Course({...body, instructor: caller})` and `save()`; any
      failure (a missing title, a taken id) is answered 400. */
  function CreateCourseSpec(t: Tables, caller: Id, body: CourseBody, courseId: Id, now: Time): (r: CourseOutcome)
    ensures r.status == 201 || r.status == 400
    ensures r.status == 201 <==>
      RequiredString(body.title) && caller != "" && CourseIndex(t.courses, courseId).None?
    ensures r.status == 400 ==> r.tables == t && r.course.None?
    ensures r.status == 201 ==>
      && r.course.Some?
      && r.tables == t.(courses := t.courses + [r.course.value])
      && r.course.value.id == courseId
      && r.course.value.instructor == caller
      && r.course.value.title == body.title.value
      && r.course.value.price == (if body.price.Some? then body.price.value else 0)
      && r.course.value.enrolledStudents == []
      && r.course.value.createdAt == (if body.createdAt.Some? then body.createdAt.value else now)
    ensures ValidTables(t) ==> ValidTables(r.tables)
  {
    match NewCourse(courseId, body.(instructor := Some(caller)), now)
    case None => CourseOutcome(t, 400, None)
    case Some(c) =>
      if CourseIndex(t.courses, courseId).Some? then CourseOutcome(t, 400, None)
      else
        var t1 := t.(courses := t.courses + [c]);
        assert forall k :: 0 <= k < |t.courses| ==> t1.courses[k] == t.courses[k];
        CourseOutcome(t1, 201, Some(c))
  }

  method CreateCourse(db: Database, caller: Id, body: CourseBody, courseId: Id, now: Time)
    returns (status: int, course: Option<Course>)
    requires db.Valid()
    modifies db
    ensures db.Valid()
    ensures CourseOutcome(db.Snapshot(), status, course) == CreateCourseSpec(old(db.Snapshot()), caller, body, courseId, now)
  {
    var made := NewCourse(courseId, body.(instructor := Some(caller)), now);
    if made.None? {
      return 400, None;
    }
    if CourseIndex(db.courses, courseId).Some? {
      return 400, None;
    }
    var c := made.value;
    db.courses := db.courses + [c];
    return 201, Some(c);
  }

  // -------------------------------------------------------------- PUT /:id

  /** The stored course with every field the body carries set to the body's
      value; the fields the body leaves out, and the id, the content and the
      roster, are kept. */
  function ApplyBody(c: Course, b: CourseBody): (r: Course)
    ensures r.id == c.id && r.content == c.content
    ensures r.enrolledStudents == c.enrolledStudents && r.rating == c.rating
    ensures r.title == (if b.title.Some? then b.title.value else c.title)
    ensures r.description == (if b.description.Some? then b.description else c.description)
    ensures r.category == (if b.category.Some? then b.category else c.category)
    ensures r.price == (if b.price.Some? then b.price.value else c.price)
    ensures r.tags == (if b.tags.Some? then b.tags.value else c.tags)
    ensures r.instructor == (if b.instructor.Some? then b.instructor.value else c.instructor)
    ensures r.thumbnail == (if b.thumbnail.Some? then b.thumbnail else c.thumbnail)
    ensures r.videos == (if b.videos.Some? then b.videos.value else c.videos)
    ensures r.resources == (if b.resources.Some? then b.resources.value else c.resources)
    ensures r.quizzes == (if b.quizzes.Some? then b.quizzes.value else c.quizzes)
    ensures r.createdAt == (if b.createdAt.Some? then b.createdAt.value else c.createdAt)
    // an empty body changes nothing
    ensures b == CourseBody(None, None, None, None, None, None, None, None, None, None, None) ==> r == c
    ensures ValidCourse(c) && b.title != Some("") && b.instructor != Some("") ==> ValidCourse(r)
  {
    c.(title := b.title.GetOr(c.title),
       description := if b.description.Some? then b.description else c.description,
       category := if b.category.Some? then b.category else c.category,
       price := b.price.GetOr(c.price),
       tags := b.tags.GetOr(c.tags),
       instructor := b.instructor.GetOr(c.instructor),
       thumbnail := if b.thumbnail.Some? then b.thumbnail else c.thumbnail,
       videos := b.videos.GetOr(c.videos),
       resources := b.resources.GetOr(c.resources),
       quizzes := b.quizzes.GetOr(c.quizzes),
       createdAt := b.createdAt.GetOr(c.createdAt))
  }

  /** `PUT /:id`: `findByIdAndUpdate` with the update validators, which reject
      an empty title or instructor (400) before the lookup (404). */
  function UpdateCourseSpec(t: Tables, id: Id, b: CourseBody): (r: CourseOutcome)
    ensures r.status == 200 || r.status == 400 || r.status == 404
    ensures r.status == 400 <==> b.title == Some("") || b.instructor == Some("")
    ensures r.status == 404 <==> r.status != 400 && CourseIndex(t.courses, id).None?
    ensures r.status != 200 ==> r.tables == t && r.course.None?
    ensures r.status == 200 ==>
      var i := CourseIndex(t.courses, id).value;
      && r.tables == t.(courses := t.courses[i := ApplyBody(t.courses[i], b)])
      && r.course == Some(ApplyBody(t.courses[i], b))
    ensures ValidTables(t) ==> ValidTables(r.tables)
  {
    if b.title == Some("") || b.instructor == Some("") then CourseOutcome(t, 400, None)
    else
      match CourseIndex(t.courses, id)
      case None => CourseOutcome(t, 404, None)
      case Some(i) =>
        var c := ApplyBody(t.courses[i], b);
        assert ValidTables(t) ==> ValidTables(t.(courses := t.courses[i := c])) by {
          if ValidTables(t) { ReplaceCourseValid(t, i, c); }
        }
        CourseOutcome(t.(courses := t.courses[i := c]), 200, Some(c))
  }

  method UpdateCourse(db: Database, id: Id, b: CourseBody) returns (status: int, course: Option<Course>)
    requires db.Valid()
    modifies db
    ensures db.Valid()
    ensures CourseOutcome(db.Snapshot(), status, course) == UpdateCourseSpec(old(db.Snapshot()), id, b)
  {
    if b.title == Some("") || b.instructor == Some("") {
      return 400, None;
    }
    var found := CourseIndex(db.courses, id);
    if found.None? {
      return 404, None;
    }
    var i := found.value;
    var c := ApplyBody(db.courses[i], b);
    ReplaceCourseValid(db.Snapshot(), i, c);
    db.courses := db.courses[i := c];
    return 200, Some(c);
  }

  // ----------------------------------------------------------- DELETE /:id

  /** `DELETE /:id`: `findByIdAndDelete`; 404 when there is no such course.
      On a valid database no course with that id is left afterwards. */
  function DeleteCourseSpec(t: Tables, id: Id): (r: CourseOutcome)
    ensures r.status == 200 || r.status == 404
    ensures r.status == 404 <==> CourseIndex(t.courses, id).None?
    ensures r.status == 404 ==> r.tables == t
    ensures r.status == 200 ==>
      var i := CourseIndex(t.courses, id).value;
      && r.tables == t.(courses := RemoveAt(t.courses, i))
      && r.course == Some(t.courses[i])
    ensures ValidTables(t) && r.status == 200 ==>
      forall k :: 0 <= k < |r.tables.courses| ==> r.tables.courses[k].id != id
    ensures ValidTables(t) ==> ValidTables(r.tables)
  {
    match CourseIndex(t.courses, id)
    case None => CourseOutcome(t, 404, None)
    case Some(i) =>
      var rest := RemoveAt(t.courses, i);
      assert ValidTables(t) ==> ValidTables(t.(courses := rest)) && forall k :: 0 <= k < |rest| ==> rest[k].id != id by {
        if ValidTables(t) {
          forall k | 0 <= k < |rest| ensures rest[k].id != id {
            if k < i { assert rest[k] == t.courses[k]; } else { assert rest[k] == t.courses[k + 1]; }
          }
        }
      }
      CourseOutcome(t.(courses := rest), 200, Some(t.courses[i]))
  }

  method DeleteCourse(db: Database, id: Id) returns (status: int, course: Option<Course>)
    requires db.Valid()
    modifies db
    ensures db.Valid()
    ensures CourseOutcome(db.Snapshot(), status, course) == DeleteCourseSpec(old(db.Snapshot()), id)
  {
    var found := CourseIndex(db.courses, id);
    if found.None? {
      return 404, None;
    }
    var i := found.value;
    var c := db.courses[i];
    db.courses := RemoveAt(db.courses, i);
    return 200, Some(c);
  }

  // ------------------------------------------ videos, resources, quizzes

  /** The six list routes: push the body onto one list, or `splice(index, 1)`
      one list. */
  datatype ListEdit =
    | PushVideo(video: Video)
    | PushResource(resource: Resource)
    | PushQuiz(quiz: QuizItem)
    | SpliceVideo(vIndex: int)
    | SpliceResource(rIndex: int)
    | SpliceQuiz(qIndex: int)

  /** The edited course: only the list the route names changes. */
  function ApplyEdit(c: Course, e: ListEdit): (r: Course)
    ensures r == c.(videos := r.videos, resources := r.resources, quizzes := r.quizzes)
    ensures !(e.PushVideo? || e.SpliceVideo?) ==> r.videos == c.videos
    ensures !(e.PushResource? || e.SpliceResource?) ==> r.resources == c.resources
    ensures !(e.PushQuiz? || e.SpliceQuiz?) ==> r.quizzes == c.quizzes
    ensures e.PushVideo? ==> r.videos == c.videos + [e.video]
    ensures e.PushResource? ==> r.resources == c.resources + [e.resource]
    ensures e.PushQuiz? ==> r.quizzes == c.quizzes + [e.quiz]
    ensures e.SpliceVideo? ==> r.videos == SpliceOne(c.videos, e.vIndex)
    ensures e.SpliceResource? ==> r.resources == SpliceOne(c.resources, e.rIndex)
    ensures e.SpliceQuiz? ==> r.quizzes == SpliceOne(c.quizzes, e.qIndex)
  {
    match e
    case PushVideo(v) => c.(videos := c.videos + [v])
    case PushResource(x) => c.(resources := c.resources + [x])
    case PushQuiz(q) => c.(quizzes := c.quizzes + [q])
    case SpliceVideo(k) => c.(videos := SpliceOne(c.videos, k))
    case SpliceResource(k) => c.(resources := SpliceOne(c.resources, k))
    case SpliceQuiz(k) => c.(quizzes := SpliceOne(c.quizzes, k))
  }

  /** What the list route does: a missing course makes the handler throw
      outside any `try`, so nothing is answered and nothing changes. */
  function EditSpec(t: Tables, id: Id, e: ListEdit): (r: CourseOutcome)
    ensures r.status == 200 || r.status == NoResponse
    ensures r.status == NoResponse <==> CourseIndex(t.courses, id).None?
    ensures r.status == NoResponse ==> r.tables == t && r.course.None?
    ensures r.status == 200 ==>
      var i := CourseIndex(t.courses, id).value;
      && r.tables == t.(courses := t.courses[i := ApplyEdit(t.courses[i], e)])
      && r.course == Some(ApplyEdit(t.courses[i], e))
    ensures ValidTables(t) ==> ValidTables(r.tables)
  {
    match CourseIndex(t.courses, id)
    case None => CourseOutcome(t, NoResponse, None)
    case Some(i) =>
      var c := ApplyEdit(t.courses[i], e);
      assert ValidTables(t) ==> ValidTables(t.(courses := t.courses[i := c])) by {
        if ValidTables(t) { ReplaceCourseValid(t, i, c); }
      }
      CourseOutcome(t.(courses := t.courses[i := c]), 200, Some(c))
  }

  method Edit(db: Database, id: Id, e: ListEdit) returns (status: int, course: Option<Course>)
    requires db.Valid()
    modifies db
    ensures db.Valid()
    ensures CourseOutcome(db.Snapshot(), status, course) == EditSpec(old(db.Snapshot()), id, e)
  {
    var found := CourseIndex(db.courses, id);
    if found.None? {
      return NoResponse, None;
    }
    var i := found.value;
    var c := ApplyEdit(db.courses[i], e);
    ReplaceCourseValid(db.Snapshot(), i, c);
    db.courses := db.courses[i := c];
    return 200, Some(c);
  }

  /** A pushed video is removed again by splicing at its index, or at -1 (the
      last element): the course is as it was. */
  lemma PushThenSplice(c: Course, v: Video)
    ensures ApplyEdit(ApplyEdit(c, PushVideo(v)), SpliceVideo(|c.videos|)) == c
    ensures ApplyEdit(ApplyEdit(c, PushVideo(v)), SpliceVideo(-1)) == c
  {
    var s := c.videos + [v];
    SpliceOneCases(s, |c.videos|);
    SpliceOneCases(s, -1);
    assert RemoveAt(s, |c.videos|) == c.videos by {
      assert s[..|c.videos|] == c.videos;
    }
  }

  /** Splicing at an index inside the list removes that element and moves the
      later ones down by one; at or past the end nothing changes. */
  lemma SpliceVideoAt(c: Course, k: int)
    ensures 0 <= k < |c.videos| ==>
      var r := ApplyEdit(c, SpliceVideo(k)).videos;
      && |r| == |c.videos| - 1
      && (forall j :: 0 <= j < k ==> r[j] == c.videos[j])
      && (forall j :: k <= j < |r| ==> r[j] == c.videos[j + 1])
    ensures k >= |c.videos| ==> ApplyEdit(c, SpliceVideo(k)) == c
  {
    SpliceOneCases(c.videos, k);
  }
}
