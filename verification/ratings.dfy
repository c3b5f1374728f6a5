/** `Review` and `Rating` of `backend/features/parser_ratings/models.py`:
    the field constraints pydantic enforces when either is constructed. The
    `parserId` link to a parser document is reduced to the document's id. */
module Ratings {

  import opened Errors

  datatype Review = Review(comment: string, rating: int)

  datatype Rating = Rating(parserId: string, trust: int, performance: int, reviews: seq<Review>)

  const MinExclusive := 0
  const MaxInclusive := 5

  /** `Field(..., gt=0, le=5)` */
  predicate InRange(v: int) {
    MinExclusive < v <= MaxInclusive
  }

  /** The admissible scores are exactly one to five. */
  lemma InRangeValues(v: int)
    ensures InRange(v) <==> v in {1, 2, 3, 4, 5}
  {
  }

  predicate ValidReview(r: Review) {
    InRange(r.rating)
  }

  predicate ValidRating(r: Rating) {
    InRange(r.trust) && InRange(r.performance)
    && forall i :: 0 <= i < |r.reviews| ==> ValidReview(r.reviews[i])
  }

  /** `Review(comment=..., rating=...)` */
  function NewReview(comment: string, rating: int): (r: Result<Review>)
    ensures r.Ok? <==> 0 < rating <= 5
    ensures r.Ok? ==> r.value == Review(comment, rating) && ValidReview(r.value)
    ensures r.Err? ==> r.error == ValidationError("rating")
  {
    if InRange(rating) then Ok(Review(comment, rating)) else Err(ValidationError("rating"))
  }

  /** The index of the first review whose rating is out of range, or
      `|reviews|` when there is none. */
  function FirstInvalidReview(reviews: seq<Review>): (i: nat)
    ensures i <= |reviews|
    ensures forall j :: 0 <= j < i ==> ValidReview(reviews[j])
    ensures i < |reviews| ==> !ValidReview(reviews[i])
  {
    if |reviews| == 0 then 0
    else if !ValidReview(reviews[0]) then 0
    else 1 + FirstInvalidReview(reviews[1..])
  }

  /** `Rating(parserId=..., trust=..., performance=..., reviews=[...])`, with
      the review data validated element by element. The error names the
      first field that failed, in declaration order. */
  function NewRating(parserId: string, trust: int, performance: int, reviews: seq<Review>): (r: Result<Rating>)
    ensures r.Ok? <==>
      0 < trust <= 5 && 0 < performance <= 5
      && forall i :: 0 <= i < |reviews| ==> 0 < reviews[i].rating <= 5
    ensures r.Ok? ==> r.value == Rating(parserId, trust, performance, reviews) && ValidRating(r.value)
    ensures !InRange(trust) ==> r == Err(ValidationError("trust"))
    ensures InRange(trust) && !InRange(performance) ==> r == Err(ValidationError("performance"))
  {
    if !InRange(trust) then Err(ValidationError("trust"))
    else if !InRange(performance) then Err(ValidationError("performance"))
    else
      var i := FirstInvalidReview(reviews);
      if i < |reviews| then Err(ValidationError("reviews"))
      else Ok(Rating(parserId, trust, performance, reviews))
  }

  /** One review out of range spoils the whole rating, wherever it sits. */
  lemma OneBadReviewRejects(parserId: string, trust: int, performance: int,
                              before: seq<Review>, bad: Review, after: seq<Review>)
    requires !ValidReview(bad)
    ensures NewRating(parserId, trust, performance, before + [bad] + after).Err?
  {
    var reviews := before + [bad] + after;
    assert reviews[|before|] == bad;
  }

  /** Reviews that passed their own construction always make up a valid
      rating's review list. */
  lemma ConstructedReviewsAccepted(parserId: string, trust: int, performance: int, reviews: seq<Review>)
    requires InRange(trust) && InRange(performance)
    requires forall i :: 0 <= i < |reviews| ==> NewReview(reviews[i].comment, reviews[i].rating).Ok?
    ensures NewRating(parserId, trust, performance, reviews) == Ok(Rating(parserId, trust, performance, reviews))
  {
  }
}
