/** A course's content list (server/routes/courseContent.js): the course's
    instructor adds, rewrites and removes items, each identified by the id the
    database gives it. */
module CourseContent {
  import opened Base
  import opened Seqs
  import opened CourseModel
  import opened Store

  /** The request body's four fields, each possibly missing. */
  datatype ContentBody = ContentBody(kind: Option<string>, title: Option<string>,
                                     url: Option<string>, description: Option<string>)

  /** The request validators: a type among video, pdf and quiz, and a non-empty
      title, url and description. */
  predicate ValidContentBody(b: ContentBody) {
    && b.kind.Some? && b.kind.value in {"video", "pdf", "quiz"}
    && TruthyOpt(b.title) && TruthyOpt(b.url) && TruthyOpt(b.description)
  }

  /** The outcome of finding the course and checking the caller owns it. */
  datatype Gate = Owned(index: nat) | Denied(status: int)

  /** 404 for a missing course, 401 for a caller who is not its instructor. */
  function OwnerGate(t: Tables, caller: Id, courseId: Id): (g: Gate)
    ensures g.Owned? <==> CourseIndex(t.courses, courseId).Some? && t.courses[CourseIndex(t.courses, courseId).value].instructor == caller
    ensures g.Owned? ==> g.index == CourseIndex(t.courses, courseId).value
    ensures g.Denied? && CourseIndex(t.courses, courseId).None? ==> g.status == 404
    ensures g.Denied? && CourseIndex(t.courses, courseId).Some? ==> g.status == 401
  {
    match CourseIndex(t.courses, courseId)
    case None => Denied(404)
    case Some(i) => if t.courses[i].instructor != caller then Denied(401) else Owned(i)
  }

  // ------------------------------------------------ operations on the list

  function HasId(id: Id): ContentItem -> bool {
    (c: ContentItem) => c.id == id
  }

  /** The item a validated body describes. */
  function ItemOf(id: Id, b: ContentBody): (c: ContentItem)
    requires ValidContentBody(b)
    ensures c.id == id && c.kind == b.kind.value && c.title == b.title.value
    ensures c.url == b.url.value && c.description == b.description.value
  {
    ContentItem(id, b.kind.value, b.title.value, b.url.value, b.description.value)
  }

  /** `content.id(contentId)` followed by assigning the four fields: the first
      item with that id is rewritten and keeps its id; no other item changes.
      No item with that id: `None`. */
  function UpdateItem(content: seq<ContentItem>, id: Id, b: ContentBody): (r: Option<seq<ContentItem>>)
    requires ValidContentBody(b)
    ensures r.None? <==> forall k :: 0 <= k < |content| ==> content[k].id != id
    ensures r.Some? ==>
      var i := FirstIndex(content, HasId(id)).value;
      && |r.value| == |content|
      && r.value[i] == ItemOf(id, b)
      && forall k :: 0 <= k < |content| && k != i ==> r.value[k] == content[k]
  {
    match FirstIndex(content, HasId(id))
    case None => None
    case Some(i) => Some(content[i := ItemOf(id, b)])
  }

  /** `findIndex` by id then `splice(index, 1)`: the first item with that id is
      removed and the others keep their order. No item with that id: `None`. */
  function DeleteItem(content: seq<ContentItem>, id: Id): (r: Option<seq<ContentItem>>)
    ensures r.None? <==> forall k :: 0 <= k < |content| ==> content[k].id != id
    ensures r.Some? ==>
      var i := FirstIndex(content, HasId(id)).value;
      && content[i].id == id
      && r.value == content[..i] + content[i + 1..]
      && multiset(content) == multiset(r.value) + multiset{content[i]}
  {
    match FirstIndex(content, HasId(id))
    case None => None
    case Some(i) =>
      RemoveAtMultiset(content, i);
      Some(RemoveAt(content, i))
  }

  /** Deleting the item just added (under an id no other item has) gives back
      the list as it was. */
  lemma AddThenDelete(content: seq<ContentItem>, item: ContentItem)
    requires forall k :: 0 <= k < |content| ==> content[k].id != item.id
    ensures DeleteItem(content + [item], item.id) == Some(content)
  {
    var s := content + [item];
    assert s[|content|].id == item.id;
    assert forall k :: 0 <= k < |content| ==> !HasId(item.id)(s[k]);
    assert FirstIndex(s, HasId(item.id)) == Some(|content|);
    assert s[..|content|] == content && s[|content| + 1..] == [];
    assert RemoveAt(s, |content|) == content;
  }

  /** Rewriting an item twice with the same body is rewriting it once. */
  lemma UpdateIdempotent(content: seq<ContentItem>, id: Id, b: ContentBody)
    requires ValidContentBody(b) && UpdateItem(content, id, b).Some?
    ensures UpdateItem(UpdateItem(content, id, b).value, id, b) == UpdateItem(content, id, b)
  {
    var i := FirstIndex(content, HasId(id)).value;
    var once := UpdateItem(content, id, b).value;
    assert forall k :: 0 <= k < i ==> once[k] == content[k];
    assert FirstIndex(once, HasId(id)) == Some(i);
    assert once[i := ItemOf(id, b)] == once;
  }

  // -------------------------------------------------------------- handlers

  /** The course with its content replaced, put back in place. */
  function WithContent(t: Tables, i: nat, content: seq<ContentItem>): Tables
    requires i < |t.courses|
  {
    t.(courses := t.courses[i := t.courses[i].(content := content)])
  }

  lemma WithContentValid(t: Tables, i: nat, content: seq<ContentItem>)
    requires ValidTables(t) && i < |t.courses|
    ensures ValidTables(WithContent(t, i, content))
  {
    ReplaceCourseValid(t, i, t.courses[i].(content := content));
  }

  /** `POST /:courseId/content`. */
  function AddContentSpec(t: Tables, caller: Id, courseId: Id, b: ContentBody, contentId: Id): (r: CourseOutcome)
    ensures r.status == 400 <==> !ValidContentBody(b)
    ensures r.status == 200 <==> ValidContentBody(b) && OwnerGate(t, caller, courseId).Owned?
    ensures ValidContentBody(b) && OwnerGate(t, caller, courseId).Denied? ==>
              r.status == OwnerGate(t, caller, courseId).status
    ensures r.status != 200 ==> r.tables == t && r.course.None?
    ensures r.status == 200 ==>
      var i := OwnerGate(t, caller, courseId).index;
      && ValidContentBody(b) && OwnerGate(t, caller, courseId).Owned?
      && r.tables == WithContent(t, i, t.courses[i].content + [ItemOf(contentId, b)])
      && r.course == Some(r.tables.courses[i])
    ensures ValidTables(t) ==> ValidTables(r.tables)
  {
    if !ValidContentBody(b) then CourseOutcome(t, 400, None)
    else
      match OwnerGate(t, caller, courseId)
      case Denied(s) => CourseOutcome(t, s, None)
      case Owned(i) =>
        var t1 := WithContent(t, i, t.courses[i].content + [ItemOf(contentId, b)]);
        assert ValidTables(t) ==> ValidTables(t1) by {
          if ValidTables(t) { WithContentValid(t, i, t.courses[i].content + [ItemOf(contentId, b)]); }
        }
        CourseOutcome(t1, 200, Some(t1.courses[i]))
  }

  /** `PUT /:courseId/content/:contentId`. */
  function UpdateContentSpec(t: Tables, caller: Id, courseId: Id, contentId: Id, b: ContentBody): (r: CourseOutcome)
    ensures r.status == 400 <==> !ValidContentBody(b)
    ensures r.status == 200 <==>
      && ValidContentBody(b) && OwnerGate(t, caller, courseId).Owned?
      && UpdateItem(t.courses[OwnerGate(t, caller, courseId).index].content, contentId, b).Some?
    ensures ValidContentBody(b) && OwnerGate(t, caller, courseId).Denied? ==>
              r.status == OwnerGate(t, caller, courseId).status
    ensures ValidContentBody(b) && OwnerGate(t, caller, courseId).Owned? ==>
      var i := OwnerGate(t, caller, courseId).index;
      && (r.status == 404 <==> UpdateItem(t.courses[i].content, contentId, b).None?)
      && (r.status == 200 ==> r.tables == WithContent(t, i, UpdateItem(t.courses[i].content, contentId, b).value))
      && (r.status == 200 ==> r.course == Some(r.tables.courses[i]))
    ensures r.status != 200 ==> r.tables == t && r.course.None?
    ensures ValidTables(t) ==> ValidTables(r.tables)
  {
    if !ValidContentBody(b) then CourseOutcome(t, 400, None)
    else
      match OwnerGate(t, caller, courseId)
      case Denied(s) => CourseOutcome(t, s, None)
      case Owned(i) =>
        match UpdateItem(t.courses[i].content, contentId, b)
        case None => CourseOutcome(t, 404, None)
        case Some(content) =>
          var t1 := WithContent(t, i, content);
          assert ValidTables(t) ==> ValidTables(t1) by {
            if ValidTables(t) { WithContentValid(t, i, content); }
          }
          CourseOutcome(t1, 200, Some(t1.courses[i]))
  }

  /** `DELETE /:courseId/content/:contentId`. */
  function DeleteContentSpec(t: Tables, caller: Id, courseId: Id, contentId: Id): (r: CourseOutcome)
    ensures r.status == 200 <==>
      && OwnerGate(t, caller, courseId).Owned?
      && DeleteItem(t.courses[OwnerGate(t, caller, courseId).index].content, contentId).Some?
    ensures OwnerGate(t, caller, courseId).Denied? ==> r.status == OwnerGate(t, caller, courseId).status
    ensures OwnerGate(t, caller, courseId).Owned? ==>
      var i := OwnerGate(t, caller, courseId).index;
      && (r.status == 404 <==> DeleteItem(t.courses[i].content, contentId).None?)
      && (r.status == 200 ==> r.tables == WithContent(t, i, DeleteItem(t.courses[i].content, contentId).value))
      && (r.status == 200 ==> r.course == Some(r.tables.courses[i]))
    ensures r.status != 200 ==> r.tables == t && r.course.None?
    ensures ValidTables(t) ==> ValidTables(r.tables)
  {
    match OwnerGate(t, caller, courseId)
    case Denied(s) => CourseOutcome(t, s, None)
    case Owned(i) =>
      match DeleteItem(t.courses[i].content, contentId)
      case None => CourseOutcome(t, 404, None)
      case Some(content) =>
        var t1 := WithContent(t, i, content);
        assert ValidTables(t) ==> ValidTables(t1) by {
          if ValidTables(t) { WithContentValid(t, i, content); }
        }
        CourseOutcome(t1, 200, Some(t1.courses[i]))
  }

  method AddContent(db: Database, caller: Id, courseId: Id, b: ContentBody, contentId: Id)
    returns (status: int, course: Option<Course>)
    requires db.Valid()
    modifies db
    ensures db.Valid()
    ensures CourseOutcome(db.Snapshot(), status, course) == AddContentSpec(old(db.Snapshot()), caller, courseId, b, contentId)
  {
    if !ValidContentBody(b) {
      return 400, None;
    }
    var gate := OwnerGate(db.Snapshot(), caller, courseId);
    if gate.Denied? {
      return gate.status, None;
    }
    var i := gate.index;
    var content := db.courses[i].content + [ItemOf(contentId, b)];
    WithContentValid(db.Snapshot(), i, content);
    db.courses := db.courses[i := db.courses[i].(content := content)];
    return 200, Some(db.courses[i]);
  }

  method UpdateContent(db: Database, caller: Id, courseId: Id, contentId: Id, b: ContentBody)
    returns (status: int, course: Option<Course>)
    requires db.Valid()
    modifies db
    ensures db.Valid()
    ensures CourseOutcome(db.Snapshot(), status, course) == UpdateContentSpec(old(db.Snapshot()), caller, courseId, contentId, b)
  {
    if !ValidContentBody(b) {
      return 400, None;
    }
    var gate := OwnerGate(db.Snapshot(), caller, courseId);
    if gate.Denied? {
      return gate.status, None;
    }
    var i := gate.index;
    var updated := UpdateItem(db.courses[i].content, contentId, b);
    if updated.None? {
      return 404, None;
    }
    WithContentValid(db.Snapshot(), i, updated.value);
    db.courses := db.courses[i := db.courses[i].(content := updated.value)];
    return 200, Some(db.courses[i]);
  }

  method DeleteContent(db: Database, caller: Id, courseId: Id, contentId: Id)
    returns (status: int, course: Option<Course>)
    requires db.Valid()
    modifies db
    ensures db.Valid()
    ensures CourseOutcome(db.Snapshot(), status, course) == DeleteContentSpec(old(db.Snapshot()), caller, courseId, contentId)
  {
    var gate := OwnerGate(db.Snapshot(), caller, courseId);
    if gate.Denied? {
      return gate.status, None;
    }
    var i := gate.index;
    var remaining := DeleteItem(db.courses[i].content, contentId);
    if remaining.None? {
      return 404, None;
    }
    WithContentValid(db.Snapshot(), i, remaining.value);
    db.courses := db.courses[i := db.courses[i].(content := remaining.value)];
    return 200, Some(db.courses[i]);
  }
}
