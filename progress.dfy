/** Lesson progress (server/routes/progress.js): the caller's record for a
    course, and marking a lesson complete. */
module Progress {
  import opened Base
  import opened Seqs
  import opened ProgressModel
  import opened Store

  /** The user id used when the request carries no authenticated user. */
  const MockUser := "mock-user-id"

  /** The lesson count the percentage is computed against. */
  const TotalLessons := 10

  datatype ProgressOutcome = ProgressOutcome(tables: Tables, status: int, record: Option<ProgressRecord>)

  /** `req.user?.id || "mock-user-id"`. */
  function Requester(user: Option<Id>): (r: Id)
    ensures TruthyOpt(user) ==> r == user.value
    ensures !TruthyOpt(user) ==> r == MockUser
  {
    OrElse(user, MockUser)
  }

  function IsFor(userId: Id, courseId: Id): ProgressRecord -> bool {
    (p: ProgressRecord) => p.userId == userId && p.courseId == courseId
  }

  /** `Progress.findOne({userId, courseId})`: the first record for the pair,
      or nothing (answered as `{}`). */
  function GetProgress(ps: seq<ProgressRecord>, user: Option<Id>, courseId: Id): (r: Option<ProgressRecord>)
    ensures r.Some? ==> r.value in ps && r.value.userId == Requester(user) && r.value.courseId == courseId
    ensures r.None? <==> forall k :: 0 <= k < |ps| ==> !(ps[k].userId == Requester(user) && ps[k].courseId == courseId)
  {
    match FirstIndex(ps, IsFor(Requester(user), courseId))
    case None => None
    case Some(i) => Some(ps[i])
  }

  /** `completedLessons.includes(lessonId)` else push: the lesson is added once. */
  function MarkLesson(lessons: seq<string>, lessonId: string): (r: seq<string>)
    ensures lessonId in r
    ensures lessonId in lessons ==> r == lessons
    ensures lessonId !in lessons ==> r == lessons + [lessonId]
  {
    if lessonId in lessons then lessons else lessons + [lessonId]
  }

  /** `Math.floor(count / 10 * 100)`, in exact arithmetic. */
  function Percentage(count: nat): (p: int)
    ensures p == 10 * count
  {
    (count * 100) / TotalLessons
  }

  predicate NoDuplicates(lessons: seq<string>) {
    forall i, j :: 0 <= i < j < |lessons| ==> lessons[i] != lessons[j]
  }

  /** The record after marking `lessonId`: a new one holding just that lesson
      when there was none, else the old one with the lesson added if absent;
      either way the percentage is recomputed and the access time refreshed. */
  function Marked(existing: Option<ProgressRecord>, userId: Id, courseId: Id, lessonId: string, now: Time): (p: ProgressRecord)
    ensures existing.None? ==> p.completedLessons == [lessonId] && p.userId == userId && p.courseId == courseId
    ensures existing.Some? ==> p == existing.value.(completedLessons := p.completedLessons,
                                                    percentage := p.percentage, lastAccessed := now)
    ensures existing.Some? ==> p.completedLessons == MarkLesson(existing.value.completedLessons, lessonId)
    ensures p.percentage == Percentage(|p.completedLessons|) && p.lastAccessed == now
  {
    var base := if existing.Some? then existing.value.(completedLessons := MarkLesson(existing.value.completedLessons, lessonId))
                else NewProgress(userId, courseId, [lessonId], now);
    base.(percentage := Percentage(|base.completedLessons|), lastAccessed := now)
  }

  /** What `POST /update` does: the record is created or updated and saved; a
      record without a user or course fails validation (500). */
  function UpdateSpec(t: Tables, user: Option<Id>, courseId: Id, lessonId: string, now: Time): (r: ProgressOutcome)
    ensures r.status == 200 || r.status == 500
    ensures r.status == 500 <==> courseId == ""
    ensures r.status == 500 ==> r.tables == t && r.record.None?
    ensures r.status == 200 ==>
      var found := FirstIndex(t.progress, IsFor(Requester(user), courseId));
      var p := Marked(GetProgress(t.progress, user, courseId), Requester(user), courseId, lessonId, now);
      && r.record == Some(p)
      && (found.None? ==> r.tables == t.(progress := t.progress + [p]))
      && (found.Some? ==> r.tables == t.(progress := t.progress[found.value := p]))
    ensures ValidTables(t) ==> ValidTables(r.tables)
  {
    var userId := Requester(user);
    var found := FirstIndex(t.progress, IsFor(userId, courseId));
    var p := Marked(GetProgress(t.progress, user, courseId), userId, courseId, lessonId, now);
    if !ValidProgress(p) then ProgressOutcome(t, 500, None)
    else
      match found
      case None =>
        var t1 := t.(progress := t.progress + [p]);
        assert forall k :: 0 <= k < |t.progress| ==> t1.progress[k] == t.progress[k];
        ProgressOutcome(t1, 200, Some(p))
      case Some(i) => ProgressOutcome(t.(progress := t.progress[i := p]), 200, Some(p))
  }

  method Update(db: Database, user: Option<Id>, courseId: Id, lessonId: string, now: Time)
    returns (status: int, record: Option<ProgressRecord>)
    requires db.Valid()
    modifies db
    ensures db.Valid()
    ensures ProgressOutcome(db.Snapshot(), status, record) == UpdateSpec(old(db.Snapshot()), user, courseId, lessonId, now)
  {
    var userId := Requester(user);
    var found := FirstIndex(db.progress, IsFor(userId, courseId));
    var existing := if found.Some? then Some(db.progress[found.value]) else None;
    var p := Marked(existing, userId, courseId, lessonId, now);
    if !ValidProgress(p) {
      return 500, None;
    }
    if found.None? {
      db.progress := db.progress + [p];
    } else {
      db.progress := db.progress[found.value := p];
    }
    return 200, Some(p);
  }

  /** Marking a lesson keeps the completed lessons free of duplicates. */
  lemma MarkKeepsNoDuplicates(t: Tables, user: Option<Id>, courseId: Id, lessonId: string, now: Time)
    requires forall k :: 0 <= k < |t.progress| ==> NoDuplicates(t.progress[k].completedLessons)
    ensures var r := UpdateSpec(t, user, courseId, lessonId, now);
            forall k :: 0 <= k < |r.tables.progress| ==> NoDuplicates(r.tables.progress[k].completedLessons)
  {
    var r := UpdateSpec(t, user, courseId, lessonId, now);
    if r.status == 200 {
      var p := r.record.value;
      var existing := GetProgress(t.progress, user, courseId);
      if existing.Some? {
        var ls := existing.value.completedLessons;
        var i :| 0 <= i < |t.progress| && t.progress[i] == existing.value;
        assert NoDuplicates(ls);
        assert NoDuplicates(p.completedLessons) by {
          if lessonId !in ls {
            assert p.completedLessons == ls + [lessonId];
          }
        }
      }
    }
  }

  /** Marking the same lesson twice leaves the same lessons and percentage as
      marking it once; only the access time moves. */
  lemma MarkTwice(t: Tables, user: Option<Id>, courseId: Id, lessonId: string, now1: Time, now2: Time)
    requires UpdateSpec(t, user, courseId, lessonId, now1).status == 200
    ensures var r1 := UpdateSpec(t, user, courseId, lessonId, now1);
            var r2 := UpdateSpec(r1.tables, user, courseId, lessonId, now2);
            && r2.status == 200
            && r2.record.value.completedLessons == r1.record.value.completedLessons
            && r2.record.value.percentage == r1.record.value.percentage
            && r2.record.value.lastAccessed == now2
            && |r2.tables.progress| == |r1.tables.progress|
  {
    var userId := Requester(user);
    var r1 := UpdateSpec(t, user, courseId, lessonId, now1);
    var p := r1.record.value;
    var found := FirstIndex(t.progress, IsFor(userId, courseId));
    var j: nat := if found.Some? then found.value else |t.progress|;
    assert r1.tables.progress[j] == p;
    assert forall k :: 0 <= k < j ==> r1.tables.progress[k] == t.progress[k];
    assert FirstIndex(r1.tables.progress, IsFor(userId, courseId)) == Some(j);
    assert GetProgress(r1.tables.progress, user, courseId) == Some(p);
  }

  /** Marking a new lesson raises a record's percentage by 10 and marking a
      lesson already there keeps it; nothing caps it at 100, so an eleventh
      distinct lesson gives 110. */
  lemma MarkPercentage(existing: Option<ProgressRecord>, userId: Id, courseId: Id, lessonId: string, now: Time)
    requires existing.Some? ==> existing.value.percentage == Percentage(|existing.value.completedLessons|)
    ensures var p := Marked(existing, userId, courseId, lessonId, now);
            p.percentage == (if existing.Some? then existing.value.percentage else 0)
                          + (if existing.Some? && lessonId in existing.value.completedLessons then 0 else 10)
  {
  }
}
