/** Review submission (server/routes/reviews.js): a presence check on the body,
    then the review schema and its unique (userId, courseId) index decide. */
module Reviews {
  import opened Base
  import opened ReviewModel
  import opened Store

  datatype ReviewBody = ReviewBody(userId: Option<Id>, courseId: Option<Id>,
                                   rating: Option<int>, comment: Option<string>)

  datatype ReviewOutcome = ReviewOutcome(tables: Tables, status: int, review: Option<Review>)

  /** `!userId || !courseId || !rating`: a missing or empty id, or a missing or
      zero rating. */
  predicate MissingField(b: ReviewBody) {
    !TruthyOpt(b.userId) || !TruthyOpt(b.courseId) || !TruthyNum(b.rating)
  }

  /** What `POST /` does: 400 for a missing field; otherwise the review is saved
      (201) unless the schema refuses its rating or the pair already has a
      review (500). */
  function SubmitSpec(t: Tables, b: ReviewBody, now: Time): (r: ReviewOutcome)
    ensures r.status == 201 || r.status == 400 || r.status == 500
    ensures r.status == 400 <==> MissingField(b)
    ensures r.status != 201 ==> r.tables == t && r.review.None?
    ensures r.status == 500 <==>
      !MissingField(b) && (!(1 <= b.rating.value <= 5) || HasReview(t.reviews, b.userId.value, b.courseId.value))
    ensures r.status == 201 ==>
      && r.review == Some(Review(b.userId.value, b.courseId.value, b.rating.value, b.comment, now))
      && r.tables == t.(reviews := t.reviews + [r.review.value])
    ensures ValidTables(t) ==> ValidTables(r.tables)
  {
    if MissingField(b) then ReviewOutcome(t, 400, None)
    else
      var review := Review(b.userId.value, b.courseId.value, b.rating.value, b.comment, now);
      if !ValidReview(review) || HasReview(t.reviews, review.userId, review.courseId) then
        ReviewOutcome(t, 500, None)
      else
        var t1 := t.(reviews := t.reviews + [review]);
        assert ValidTables(t) ==> ValidTables(t1) by {
          if ValidTables(t) {
            UniqueReviewsSnoc(t.reviews, review);
            assert forall k :: 0 <= k < |t.reviews| ==> t1.reviews[k] == t.reviews[k];
          }
        }
        ReviewOutcome(t1, 201, Some(review))
  }

  method Submit(db: Database, b: ReviewBody, now: Time) returns (status: int, review: Option<Review>)
    requires db.Valid()
    modifies db
    ensures db.Valid()
    ensures ReviewOutcome(db.Snapshot(), status, review) == SubmitSpec(old(db.Snapshot()), b, now)
  {
    if MissingField(b) {
      return 400, None;
    }
    var rv := Review(b.userId.value, b.courseId.value, b.rating.value, b.comment, now);
    if !ValidReview(rv) || HasReview(db.reviews, rv.userId, rv.courseId) {
      // `review.save()` throws: schema validation or the unique index
      return 500, None;
    }
    UniqueReviewsSnoc(db.reviews, rv);
    db.reviews := db.reviews + [rv];
    return 201, Some(rv);
  }

  /** A second review of the same course by the same user fails (500) and
      stores nothing, whatever its rating and comment. */
  lemma SubmitTwice(t: Tables, b: ReviewBody, now: Time, b2: ReviewBody, now2: Time)
    requires SubmitSpec(t, b, now).status == 201
    requires b2.userId == b.userId && b2.courseId == b.courseId && TruthyNum(b2.rating)
    ensures var t1 := SubmitSpec(t, b, now).tables;
            && SubmitSpec(t1, b2, now2).status == 500
            && SubmitSpec(t1, b2, now2).tables == t1
  {
    var t1 := SubmitSpec(t, b, now).tables;
    assert t1.reviews[|t.reviews|].userId == b.userId.value;
    assert HasReview(t1.reviews, b.userId.value, b.courseId.value);
  }
}
