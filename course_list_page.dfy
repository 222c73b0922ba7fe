/** The course list page (client/src/pages/CourseList.jsx): the filter over
    the fetched courses, the ratings map built from the caller's enrollments,
    the enroll button, and the local updates after a payment and a rating. */
module CourseListPage {
  import opened Base
  import opened JsStrings
  import opened Seqs

  /** A roster entry as the page holds it: a bare id string (what the server
      stores), an object carrying `_id`, or `undefined` (what the page itself
      appends after a payment, see `AfterPayment`). */
  datatype RosterItem = IdString(s: Id) | Populated(id: Id) | Undefined

  /** A course as the page holds it; fields the response may lack are options,
      and a rating the page cannot compute (`NaN`, `Infinity`) is `None`. */
  datatype PageCourse = PageCourse(id: Id, title: Option<string>, description: Option<string>,
                                   category: Option<string>, level: Option<string>,
                                   roster: Option<seq<RosterItem>>, averageRating: Option<real>)

  /** The signed-in user; `uid` is `user._id`. The user object saved at sign-in
      carries `id` and no `_id` (server/routes/users.js lines 60-64), so for a
      user signed in through the login page `uid` is `None` (undefined). */
  datatype PageUser = PageUser(uid: Option<Id>)

  // ---------------------------------------------------------- the filter

  /** `(field?.toLowerCase() || '')`. */
  function LowerOr(field: Option<string>): string {
    if field.Some? then Lower(field.value) else ""
  }

  /** Lines 218-221 for one course. */
  predicate Shown(c: PageCourse, query: string, category: string, level: string) {
    && (Contains(LowerOr(c.title), Lower(query)) || Contains(LowerOr(c.description), Lower(query)))
    && (category == "" || c.category == Some(category))
    && (level == "" || c.level == Some(level))
  }

  /** `filteredCourses`: the non-null courses the filters accept, in order. */
  function FilteredCourses(courses: seq<Option<PageCourse>>, query: string, category: string, level: string)
    : (r: seq<Option<PageCourse>>)
    ensures IsSubseq(r, courses)
    ensures forall k :: 0 <= k < |r| ==> r[k].Some? && Shown(r[k].value, query, category, level)
    ensures forall k :: 0 <= k < |courses| && courses[k].Some? && Shown(courses[k].value, query, category, level) ==>
              courses[k] in r
    ensures |r| == Count(courses, (c: Option<PageCourse>) => c.Some? && Shown(c.value, query, category, level))
  {
    var p := (c: Option<PageCourse>) => c.Some? && Shown(c.value, query, category, level);
    FilterIsSubseq(courses, p);
    FilterCount(courses, p);
    Filter(courses, p)
  }

  /** With no search text and no category or level chosen, every course that is
      not null is shown. */
  lemma EmptyFiltersShowAll(courses: seq<Option<PageCourse>>)
    ensures forall k :: 0 <= k < |courses| && courses[k].Some? ==> courses[k] in FilteredCourses(courses, "", "", "")
  {
    forall k | 0 <= k < |courses| && courses[k].Some?
      ensures Shown(courses[k].value, "", "", "")
    {
      assert Lower("") == "";
      assert At(LowerOr(courses[k].value.title), 0, "");
    }
  }

  // ---------------------------------------------------- the ratings map

  /** An enrollment as `GET /enrollments/mine` returns it, reduced to what the
      page reads (the populated course's id). */
  datatype MyEnrollment = MyEnrollment(courseId: Id, rating: Option<int>, review: Option<string>)
  datatype UserRating = UserRating(rating: int, review: Option<string>)

  /** The map the `forEach` at lines 80-88 builds from the first `n` enrollments:
      a later enrollment of the same course overwrites an earlier one. */
  function RatingsOf(es: seq<MyEnrollment>): (m: map<Id, UserRating>)
  {
    if es == [] then map[]
    else
      var last := es[|es| - 1];
      var m := RatingsOf(es[..|es| - 1]);
      if TruthyNum(last.rating) then m[last.courseId := UserRating(last.rating.value, last.review)] else m
  }

  /** One step of `RatingsOf`: the last enrollment updates the map built from
      the others. */
  lemma RatingsOfLast(es: seq<MyEnrollment>, id: Id)
    requires es != []
    ensures var init := RatingsOf(es[..|es| - 1]);
            var last := es[|es| - 1];
            if last.courseId == id && TruthyNum(last.rating)
            then id in RatingsOf(es) && RatingsOf(es)[id] == UserRating(last.rating.value, last.review)
            else (id in RatingsOf(es) <==> id in init) && (id in init ==> RatingsOf(es)[id] == init[id])
  {
  }

  /** The keys are exactly the courses of the enrollments with a truthy rating. */
  lemma {:induction false} RatingsOfDomain(es: seq<MyEnrollment>, id: Id)
    ensures id in RatingsOf(es) <==> exists k :: 0 <= k < |es| && es[k].courseId == id && TruthyNum(es[k].rating)
  {
    if es != [] {
      var n := |es| - 1;
      var init := es[..n];
      RatingsOfDomain(init, id);
      RatingsOfLast(es, id);
      if id in RatingsOf(init) {
        var k :| 0 <= k < n && init[k].courseId == id && TruthyNum(init[k].rating);
        assert es[k] == init[k];
      }
      if exists k :: 0 <= k < |es| && es[k].courseId == id && TruthyNum(es[k].rating) {
        var k :| 0 <= k < |es| && es[k].courseId == id && TruthyNum(es[k].rating);
        if k < n {
          assert init[k] == es[k];
        }
      }
    }
  }

  /** A key holds the rating of the last enrollment of its course with a
      truthy rating. */
  lemma {:induction false} RatingsOfValue(es: seq<MyEnrollment>, id: Id)
    requires id in RatingsOf(es)
    ensures exists k :: 0 <= k < |es| && es[k].courseId == id && TruthyNum(es[k].rating) &&
                        RatingsOf(es)[id] == UserRating(es[k].rating.value, es[k].review) &&
                        forall j :: k < j < |es| ==> !(es[j].courseId == id && TruthyNum(es[j].rating))
  {
    var n := |es| - 1;
    var init := es[..n];
    RatingsOfLast(es, id);
    if es[n].courseId == id && TruthyNum(es[n].rating) {
      assert RatingsOf(es)[id] == UserRating(es[n].rating.value, es[n].review);
    } else {
      RatingsOfValue(init, id);
      var k :| 0 <= k < n && init[k].courseId == id && TruthyNum(init[k].rating) &&
        RatingsOf(init)[id] == UserRating(init[k].rating.value, init[k].review) &&
        forall j :: k < j < n ==> !(init[j].courseId == id && TruthyNum(init[j].rating));
      assert es[k] == init[k];
      forall j | k < j < |es|
        ensures !(es[j].courseId == id && TruthyNum(es[j].rating))
      {
        if j < n {
          assert es[j] == init[j];
        }
      }
    }
  }

  /** The keys are exactly the courses of the enrollments with a truthy rating,
      and each holds the rating of the last such enrollment of its course. */
  lemma RatingsOfKeys(es: seq<MyEnrollment>, id: Id)
    ensures id in RatingsOf(es) <==> exists k :: 0 <= k < |es| && es[k].courseId == id && TruthyNum(es[k].rating)
    ensures id in RatingsOf(es) ==>
      exists k :: 0 <= k < |es| && es[k].courseId == id && TruthyNum(es[k].rating) &&
        RatingsOf(es)[id] == UserRating(es[k].rating.value, es[k].review) &&
        forall j :: k < j < |es| ==> !(es[j].courseId == id && TruthyNum(es[j].rating))
  {
    RatingsOfDomain(es, id);
    if id in RatingsOf(es) {
      RatingsOfValue(es, id);
    }
  }

  /** `fetchUserRatings`, after the response has arrived. */
  method FetchUserRatings(es: seq<MyEnrollment>) returns (ratings: map<Id, UserRating>)
    ensures ratings == RatingsOf(es)
  {
    ratings := map[];
    var i := 0;
    while i < |es|
      invariant 0 <= i <= |es|
      invariant ratings == RatingsOf(es[..i])
    {
      var e := es[i];
      if TruthyNum(e.rating) {
        ratings := ratings[e.courseId := UserRating(e.rating.value, e.review)];
      }
      assert es[..i + 1][..i] == es[..i];
      i := i + 1;
    }
    assert es[..|es|] == es;
  }

  // ------------------------------------------------------- enroll button

  datatype EnrollClick = GoToLogin(from: string) | OpenDialog(course: PageCourse)

  /** `handleEnrollClick`: without a user the page goes to the login page and
      opens no dialog. */
  function HandleEnrollClick(user: Option<PageUser>, course: PageCourse): (r: EnrollClick)
    ensures user.None? <==> r.GoToLogin?
    ensures r.GoToLogin? ==> r == GoToLogin("/courses")
    ensures r.OpenDialog? ==> r.course == course
  {
    if user.None? then GoToLogin("/courses") else OpenDialog(course)
  }

  // ------------------------------------------------ the enrolled badge

  /** `student._id === user._id` for one roster entry that is not undefined: a
      bare id string has no `_id`, so it matches exactly a user whose `_id` is
      undefined too. */
  predicate EntryMatches(x: RosterItem, uid: Option<Id>) {
    match x
    case IdString(_) => uid.None?
    case Populated(id) => uid == Some(id)
    case Undefined => false
  }

  /** `items.some(student => student._id === uid)`, scanning in order; `None`
      when the scan reaches an undefined entry before a match, where reading
      `_id` throws. */
  function SomeMatches(items: seq<RosterItem>, uid: Option<Id>): (r: Option<bool>)
    ensures r == Some(true) <==>
      exists k :: 0 <= k < |items| && EntryMatches(items[k], uid) && forall j :: 0 <= j < k ==> items[j] != Undefined
    ensures r.None? <==>
      exists k :: 0 <= k < |items| && items[k] == Undefined && forall j :: 0 <= j < k ==> !EntryMatches(items[j], uid)
  {
    if items == [] then Some(false)
    else if items[0] == Undefined then None
    else if EntryMatches(items[0], uid) then Some(true)
    else
      var r := SomeMatches(items[1..], uid);
      assert forall k :: 1 <= k < |items| ==> items[k] == items[1..][k - 1];
      r
  }

  /** Appending an entry only matters when the scan got through the old entries
      without a match. */
  lemma {:induction false} SomeMatchesAppend(items: seq<RosterItem>, x: RosterItem, uid: Option<Id>)
    ensures SomeMatches(items + [x], uid) ==
      if SomeMatches(items, uid) == Some(false) then SomeMatches([x], uid) else SomeMatches(items, uid)
  {
    if items != [] {
      assert (items + [x])[1..] == items[1..] + [x];
      SomeMatchesAppend(items[1..], x, uid);
    }
  }

  /** `isEnrolled` (line 307): `Some(b)` is the badge's value, `None` a render
      that throws. Without a user or a roster the course is not enrolled;
      otherwise the first entry that matches the user (`EntryMatches`) or is
      undefined decides. */
  function IsEnrolled(user: Option<PageUser>, c: PageCourse): (r: Option<bool>)
    ensures r == Some(true) <==>
      && user.Some? && c.roster.Some?
      && exists k :: 0 <= k < |c.roster.value| && EntryMatches(c.roster.value[k], user.value.uid) &&
           forall j :: 0 <= j < k ==> c.roster.value[j] != Undefined
    ensures r.None? <==>
      && user.Some? && c.roster.Some?
      && exists k :: 0 <= k < |c.roster.value| && c.roster.value[k] == Undefined &&
           forall j :: 0 <= j < k ==> !EntryMatches(c.roster.value[j], user.value.uid)
  {
    if user.None? || c.roster.None? then Some(false) else SomeMatches(c.roster.value, user.value.uid)
  }

  /** A user signed in through the login page has no `_id`, so any course whose
      roster starts with a bare id, however it got there, shows as enrolled. */
  lemma BareIdShowsEnrolled(c: PageCourse, other: Id)
    requires c.roster == Some([IdString(other)])
    ensures IsEnrolled(Some(PageUser(None)), c) == Some(true)
  {
    assert EntryMatches(c.roster.value[0], None);
  }

  // ------------------------------------------- after a verified payment

  /** `user._id` as a roster entry: the id, or undefined. */
  function Appended(uid: Option<Id>): (x: RosterItem)
    ensures x == Undefined <==> uid.None?
    ensures uid.Some? ==> x == IdString(uid.value)
  {
    if uid.Some? then IdString(uid.value) else Undefined
  }

  /** Lines 148-156: the selected course's roster gains `user._id` at its end
      (an absent roster counts as empty); no other course changes. */
  function AfterPayment(courses: seq<PageCourse>, selectedId: Id, user: PageUser): (r: seq<PageCourse>)
    ensures |r| == |courses|
    ensures forall k :: 0 <= k < |courses| && courses[k].id != selectedId ==> r[k] == courses[k]
    ensures forall k :: 0 <= k < |courses| && courses[k].id == selectedId ==>
              r[k] == courses[k].(roster := Some(courses[k].roster.GetOr([]) + [Appended(user.uid)]))
  {
    seq(|courses|, k requires 0 <= k < |courses| =>
      if courses[k].id == selectedId
      then courses[k].(roster := Some(courses[k].roster.GetOr([]) + [Appended(user.uid)]))
      else courses[k])
  }

  /** After a payment, a course the page showed as not enrolled stays so when
      the user has an `_id`, and makes the next render throw when the user has
      none (the entry appended is undefined); every other course renders as
      before. */
  lemma AfterPaymentEnrolled(courses: seq<PageCourse>, selectedId: Id, user: PageUser, k: nat)
    requires k < |courses|
    ensures IsEnrolled(Some(user), AfterPayment(courses, selectedId, user)[k]) ==
      if courses[k].id == selectedId && IsEnrolled(Some(user), courses[k]) == Some(false)
      then (if user.uid.None? then None else Some(false))
      else IsEnrolled(Some(user), courses[k])
  {
    var c := courses[k];
    if c.id == selectedId {
      var x := Appended(user.uid);
      var old_ := c.roster.GetOr([]);
      SomeMatchesAppend(old_, x, user.uid);
      assert SomeMatches([x], user.uid) == (if user.uid.None? then None else Some(false)) by {
        assert [x][1..] == [];
      }
    }
  }

  // ------------------------------------------------------------- ratings

  /** `userRatings[courseId]?.rating || 0`. */
  function OldRating(ratings: map<Id, UserRating>, courseId: Id): int {
    if courseId in ratings then ratings[courseId].rating else 0
  }

  /** The new average after replacing the user's old rating: `(avg × n +
      (new − old)) / n`, not a number when `n` is 0 or the average is unknown. */
  function Reaveraged(avg: Option<real>, n: nat, diff: int): (r: Option<real>)
    ensures r.Some? <==> avg.Some? && n > 0
    ensures r.Some? ==> r.value * (n as real) == avg.value * (n as real) + diff as real
  {
    if avg.None? || n == 0 then None else Some((avg.value * (n as real) + diff as real) / (n as real))
  }

  /** `handleRatingSubmit`: the user's rating map gets the new entry, and the
      rated course's average moves by the change in the user's rating spread
      over its roster; no other course changes. A rated course without a roster
      makes the update throw (`None`). */
  function HandleRatingSubmit(courses: seq<PageCourse>, ratings: map<Id, UserRating>, courseId: Id, newRating: UserRating)
    : (r: (Option<seq<PageCourse>>, map<Id, UserRating>))
    ensures r.1 == ratings[courseId := newRating]
    ensures r.0.None? <==> exists k :: 0 <= k < |courses| && courses[k].id == courseId && courses[k].roster.None?
    ensures r.0.Some? ==>
      && |r.0.value| == |courses|
      && (forall k :: 0 <= k < |courses| && courses[k].id != courseId ==> r.0.value[k] == courses[k])
      && (forall k :: 0 <= k < |courses| && courses[k].id == courseId ==>
            r.0.value[k] == courses[k].(averageRating := r.0.value[k].averageRating) &&
            r.0.value[k].averageRating ==
              Reaveraged(courses[k].averageRating, |courses[k].roster.value|, newRating.rating - OldRating(ratings, courseId)))
  {
    var diff := newRating.rating - OldRating(ratings, courseId);
    var updated :=
      if exists k :: 0 <= k < |courses| && courses[k].id == courseId && courses[k].roster.None? then None
      else Some(seq(|courses|, k requires 0 <= k < |courses| =>
        if courses[k].id == courseId
        then courses[k].(averageRating := Reaveraged(courses[k].averageRating, |courses[k].roster.value|, diff))
        else courses[k]));
    (updated, ratings[courseId := newRating])
  }

  /** Rating a course again with the same rating leaves its average as it was. */
  lemma SameRatingKeepsAverage(avg: real, n: nat)
    requires n > 0
    ensures Reaveraged(Some(avg), n, 0) == Some(avg)
  {
    var r := Reaveraged(Some(avg), n, 0).value;
    assert r * (n as real) == avg * (n as real);
  }
}
