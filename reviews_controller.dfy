/** Reviews: a receiver rates the donor of an approved request once, and the
    donor's rating is recounted over all of the donor's reviews
    (Backend/controllers/review.js). */
module ReviewsController {
  import opened Common
  import opened FoodModel
  import opened RequestModel
  import opened ReviewModel
  import opened UserModel
  import opened Store
  import Ratings

  const RatingOutOfRange := "Rating must be between 1 and 5"
  const MustBeApproved := "Request must be approved to review"
  /** The error the unique index on `request` raises on a second review. */
  const DuplicateKey := "duplicate key error: request"

  /** createReview's guards in order, and the review to insert. The rating is
      checked before any lookup. The handler's `reviewed` check reads a path
      the Request schema does not declare, so it never fires on a stored
      request; a second review is refused by the unique index instead, with a
      server error. */
  function ReviewDecision(foods: map<Id, Food>, requests: map<Id, Request>, reviews: seq<Review>,
                          callerId: Id, requestId: Id, rating: Option<int>, id: Id, now: int): (r: Result<Review>)
    requires FoodsResolve(requests, foods)
    ensures (rating.None? || rating.value < 1 || rating.value > 5) ==> r == Err(BadRequest(RatingOutOfRange))
    ensures (rating.Some? && 1 <= rating.value <= 5 && requestId !in requests) ==> r == Err(NotFound(RequestNotFound))
    ensures (rating.Some? && 1 <= rating.value <= 5 && requestId in requests
             && requests[requestId].requester != callerId) ==> r == Err(Forbidden(NotAuthorized))
    ensures (rating.Some? && 1 <= rating.value <= 5 && requestId in requests
             && requests[requestId].requester == callerId
             && requests[requestId].status != Approved) ==> r == Err(BadRequest(MustBeApproved))
    ensures (rating.Some? && 1 <= rating.value <= 5 && requestId in requests
             && requests[requestId].requester == callerId && requests[requestId].status == Approved
             && Reviewed(reviews, requestId)) ==> r == Err(ServerError(DuplicateKey))
    ensures r.Ok? <==>
      && rating.Some? && 1 <= rating.value <= 5
      && requestId in requests && requests[requestId].requester == callerId
      && requests[requestId].status == Approved && !Reviewed(reviews, requestId)
    ensures r.Ok? ==>
      && r.value == Review(id, foods[requests[requestId].food].author, callerId, requestId, rating.value, now, now)
      && ReviewModel.WellFormed(r.value)
  {
    if rating.None? || rating.value < 1 || rating.value > 5 then Err(BadRequest(RatingOutOfRange))
    else if requestId !in requests then Err(NotFound(RequestNotFound))
    else
      var request := requests[requestId];
      if request.requester != callerId then Err(Forbidden(NotAuthorized))
      else if request.status != Approved then Err(BadRequest(MustBeApproved))
      else if Reviewed(reviews, requestId) then Err(ServerError(DuplicateKey))
      else Ok(Review(id, foods[request.food].author, callerId, requestId, rating.value, now, now))
  }

  /** A donor's reviews with their number. */
  datatype ReviewList = ReviewList(count: nat, data: seq<Review>)

  /** getReviewsForDonor: exactly the reviews naming the user as donor, each
      as often as stored, in stored order (Ratings.DonorReviewsConcat). */
  function GetReviewsForDonor(reviews: seq<Review>, userId: Id): (r: ReviewList)
    ensures r.count == |r.data| <= |reviews|
    ensures forall x :: x in r.data <==> x in reviews && x.donor == userId
    ensures forall x :: multiset(r.data)[x] == if x.donor == userId then multiset(reviews)[x] else 0
  {
    Ratings.DonorReviewsMultiset(reviews, userId);
    var mine := Ratings.DonorReviews(reviews, userId);
    ReviewList(|mine|, mine)
  }

  /** Appending a valid review and recounting its donor keeps the reviews and
      every user's rating consistent. */
  lemma AppendReview(users: map<Id, User>, reviews: seq<Review>, n: Id, rv: Review)
    requires UsersValid(users, n) && ReviewsValid(reviews, users, n) && RatingsConsistent(users, reviews)
    requires rv.id < n && ReviewModel.WellFormed(rv) && rv.donor in users && rv.receiver in users
    requires !Reviewed(reviews, rv.request)
    ensures
      var users' := users[rv.donor := users[rv.donor].(rating := Ratings.RatingOf(reviews + [rv], rv.donor))];
      && UsersValid(users', n) && ReviewsValid(reviews + [rv], users', n)
      && RatingsConsistent(users', reviews + [rv])
  {
    var reviews' := reviews + [rv];
    var users' := users[rv.donor := users[rv.donor].(rating := Ratings.RatingOf(reviews', rv.donor))];
    AppendKeepsUnique(reviews, rv);
    forall id | id in users'
      ensures users'[id].rating == Ratings.RatingOf(reviews', id)
    {
      Ratings.RecountAfterAppend(reviews, rv, id);
    }
    assert forall i :: 0 <= i < |reviews| ==> reviews'[i] == reviews[i];
  }

  /** The whole store stays valid when a review is inserted under the next
      id and its donor's rating is recounted. */
  lemma ReviewKeepsValid(users: map<Id, User>, foods: map<Id, Food>, requests: map<Id, Request>,
                         reviews: seq<Review>, n: Id, rv: Review)
    requires UsersValid(users, n) && FoodsValid(foods, users, n) && RequestsValid(requests, foods, users, n)
    requires ReviewsValid(reviews, users, n) && RatingsConsistent(users, reviews)
    requires rv.id == n && ReviewModel.WellFormed(rv) && rv.donor in users && rv.receiver in users
    requires !Reviewed(reviews, rv.request)
    ensures
      var users' := users[rv.donor := users[rv.donor].(rating := Ratings.RatingOf(reviews + [rv], rv.donor))];
      && UsersValid(users', n + 1) && FoodsValid(foods, users', n + 1) && RequestsValid(requests, foods, users', n + 1)
      && ReviewsValid(reviews + [rv], users', n + 1) && RatingsConsistent(users', reviews + [rv])
  {
    CounterBump(users, foods, requests, reviews, n, n + 1);
    AppendReview(users, reviews, n + 1, rv);
    RatingChange(users, foods, requests, n + 1, rv.donor, Ratings.RatingOf(reviews + [rv], rv.donor));
  }

  /** createReview: on success one review is inserted and the donor's rating
      becomes the recount over all of the donor's reviews (see
      DonorRatingAfterReview for its count and range); on any error nothing
      changes. */
  method CreateReview(db: Db, callerId: Id, requestId: Id, rating: Option<int>, now: int) returns (r: Result<Review>)
    requires db.Valid()
    modifies db
    ensures db.Valid()
    ensures r == ReviewDecision(old(db.foods), old(db.requests), old(db.reviews), callerId, requestId, rating, old(db.nextId), now)
    ensures r.Err? ==> unchanged(db)
    ensures r.Ok? ==>
      var donor := r.value.donor;
      && donor in old(db.users)
      && db.reviews == old(db.reviews) + [r.value]
      && db.nextId == old(db.nextId) + 1
      && db.users == old(db.users)[donor := old(db.users)[donor].(rating := Ratings.RatingOf(db.reviews, donor))]
      && db.foods == old(db.foods) && db.requests == old(db.requests)
      && db.destroyedImages == old(db.destroyedImages)
  {
    r := ReviewDecision(db.foods, db.requests, db.reviews, callerId, requestId, rating, db.nextId, now);
    if r.Ok? {
      var review := r.value;
      var reviews := db.reviews + [review];
      var donor := db.users[review.donor];
      var users := db.users[review.donor := donor.(rating := Ratings.RatingOf(reviews, review.donor))];
      ReviewKeepsValid(db.users, db.foods, db.requests, db.reviews, db.nextId, review);
      db.reviews, db.users, db.nextId := reviews, users, db.nextId + 1;
    }
  }

  /** After a review the donor's count is the number of the donor's reviews,
      one more than before, and the average lies between 1.00 and 5.00. */
  lemma DonorRatingAfterReview(reviews: seq<Review>, rv: Review)
    requires Ratings.AllWellFormed(reviews) && ReviewModel.WellFormed(rv)
    ensures
      var rating := Ratings.RatingOf(reviews + [rv], rv.donor);
      && rating.count == |Ratings.DonorReviews(reviews, rv.donor)| + 1
      && 100 <= rating.average <= 500
  {
    Ratings.DonorReviewsAppend(reviews, rv, rv.donor);
    assert Ratings.AllWellFormed(reviews + [rv]);
    Ratings.RatingInRange(reviews + [rv], rv.donor);
  }

  /** The handler's own `reviewed` flag is never stored, but a second review
      of the same request is still refused: the unique index on `request`
      rejects the insert with a server error. */
  lemma SecondReviewRefused(foods: map<Id, Food>, requests: map<Id, Request>, reviews: seq<Review>,
                            callerId: Id, requestId: Id, rating: Option<int>, id: Id, now: int,
                            rating': Option<int>, id': Id, now': int)
    requires FoodsResolve(requests, foods)
    requires ReviewDecision(foods, requests, reviews, callerId, requestId, rating, id, now).Ok?
    requires rating'.Some? && 1 <= rating'.value <= 5
    ensures var first := ReviewDecision(foods, requests, reviews, callerId, requestId, rating, id, now).value;
      ReviewDecision(foods, requests, reviews + [first], callerId, requestId, rating', id', now')
        == Err(ServerError(DuplicateKey))
  {
    var first := ReviewDecision(foods, requests, reviews, callerId, requestId, rating, id, now).value;
    assert (reviews + [first])[|reviews|] == first;
  }
}
