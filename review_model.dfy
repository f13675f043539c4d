/** The Review document a receiver leaves on an approved request
    (Backend/models/review.js). */
module ReviewModel {
  import opened Common

  datatype Review = Review(
    id: Id,
    donor: Id,
    receiver: Id,
    request: Id,
    rating: int,
    createdAt: int,
    updatedAt: int)

  /** The schema bounds: a rating from 1 to 5. */
  predicate WellFormed(r: Review)
  {
    1 <= r.rating <= 5
  }

  /** The unique index on `request`: no two reviews resolve the same request. */
  predicate UniqueRequests(reviews: seq<Review>)
  {
    forall i, j :: 0 <= i < j < |reviews| ==> reviews[i].request != reviews[j].request
  }

  /** Whether some stored review already resolves `request`. */
  predicate Reviewed(reviews: seq<Review>, request: Id)
  {
    exists i :: 0 <= i < |reviews| && reviews[i].request == request
  }

  /** Appending a review for a request that has none keeps the index unique,
      and appending one for a request that has one would break it. */
  lemma AppendKeepsUnique(reviews: seq<Review>, r: Review)
    requires UniqueRequests(reviews)
    ensures UniqueRequests(reviews + [r]) <==> !Reviewed(reviews, r.request)
  {
    var s := reviews + [r];
    if Reviewed(reviews, r.request) {
      var i :| 0 <= i < |reviews| && reviews[i].request == r.request;
      assert s[i].request == s[|reviews|].request;
    }
  }
}
