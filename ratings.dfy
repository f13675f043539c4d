/** The donor rating aggregation: after each review the donor's
    `{count, average}` is recomputed from all of that donor's reviews
    (Backend/controllers/review.js). */
module Ratings {
  import opened Common
  import opened ReviewModel
  import opened UserModel

  /** `Review.find({ donor })`: the donor's reviews in stored order. */
  function DonorReviews(reviews: seq<Review>, donor: Id): (r: seq<Review>)
    ensures |r| <= |reviews|
    ensures forall x :: x in r <==> x in reviews && x.donor == donor
  {
    if reviews == [] then []
    else
      var last := reviews[|reviews| - 1];
      DonorReviews(reviews[..|reviews| - 1], donor) + (if last.donor == donor then [last] else [])
  }

  /** Each of the donor's reviews appears exactly as often as it is stored,
      so the recount's `count` is the number of the donor's reviews. */
  lemma {:induction false} DonorReviewsMultiset(reviews: seq<Review>, donor: Id)
    ensures forall x :: multiset(DonorReviews(reviews, donor))[x] == (if x.donor == donor then multiset(reviews)[x] else 0)
  {
    if reviews != [] {
      var init, last := reviews[..|reviews| - 1], reviews[|reviews| - 1];
      DonorReviewsMultiset(init, donor);
      assert reviews == init + [last];
    }
  }

  /** The filter keeps stored order: the donor's reviews among a
      concatenation are those of each part, one after the other. */
  lemma {:induction false} DonorReviewsConcat(a: seq<Review>, b: seq<Review>, donor: Id)
    ensures DonorReviews(a + b, donor) == DonorReviews(a, donor) + DonorReviews(b, donor)
  {
    if b != [] {
      var init, last := b[..|b| - 1], b[|b| - 1];
      DonorReviewsConcat(a, init, donor);
      assert a + b == (a + init) + [last];
      assert (a + b)[..|a + b| - 1] == a + init;
    } else {
      assert a + b == a;
    }
  }

  /** The `reduce` that sums the ratings. */
  function Total(rs: seq<Review>): int
  {
    if rs == [] then 0 else Total(rs[..|rs| - 1]) + rs[|rs| - 1].rating
  }

  /** `Number((total / count).toFixed(2))` in hundredths: the nearest
      hundredth of the exact quotient, a tie rounding up. */
  function Average(total: int, count: nat): (r: int)
    requires count > 0
    ensures 200 * total - count < 2 * count * r <= 200 * total + count
  {
    (200 * total + count) / (2 * count)
  }

  /** The rating a user holds: the default until the first review, then the
      count and average over all reviews naming the user as donor. */
  function RatingOf(reviews: seq<Review>, donor: Id): (r: Rating)
    ensures r.count == |DonorReviews(reviews, donor)|
    ensures r.count == 0 ==> r == DefaultRating
  {
    var mine := DonorReviews(reviews, donor);
    if |mine| == 0 then DefaultRating else Rating(Average(Total(mine), |mine|), |mine|)
  }

  predicate AllWellFormed(rs: seq<Review>)
  {
    forall i :: 0 <= i < |rs| ==> ReviewModel.WellFormed(rs[i])
  }

  /** With every rating between 1 and 5, the sum lies between one and five
      times the number of reviews. */
  lemma {:induction false} TotalBounds(rs: seq<Review>)
    requires AllWellFormed(rs)
    ensures |rs| <= Total(rs) <= 5 * |rs|
  {
    if rs != [] {
      TotalBounds(rs[..|rs| - 1]);
    }
  }

  /** The donor's reviews are well formed when all reviews are. */
  lemma {:induction false} DonorReviewsWellFormed(reviews: seq<Review>, donor: Id)
    requires AllWellFormed(reviews)
    ensures AllWellFormed(DonorReviews(reviews, donor))
  {
    var mine := DonorReviews(reviews, donor);
    forall i | 0 <= i < |mine| ensures ReviewModel.WellFormed(mine[i]) {
      assert mine[i] in reviews;
    }
  }

  /** Multiplying by a non-negative factor keeps an order. */
  lemma MulMonotone(a: int, x: int, y: int)
    requires a >= 0 && x <= y
    ensures a * x <= a * y
  {
    assert a * y - a * x == a * (y - x);
  }

  /** An average of ratings from 1 to 5 lies between 1.00 and 5.00. */
  lemma AverageBounds(total: int, count: nat)
    requires count > 0 && count <= total <= 5 * count
    ensures 100 <= Average(total, count) <= 500
  {
    var r := Average(total, count);
    if r < 100 {
      MulMonotone(2 * count, r, 99);
      assert false;
    }
    if r > 500 {
      MulMonotone(2 * count, 501, r);
      assert false;
    }
  }

  /** A user with at least one review has an average between 1.00 and 5.00. */
  lemma RatingInRange(reviews: seq<Review>, donor: Id)
    requires AllWellFormed(reviews)
    ensures RatingOf(reviews, donor).count > 0 ==> 100 <= RatingOf(reviews, donor).average <= 500
  {
    var mine := DonorReviews(reviews, donor);
    if |mine| > 0 {
      DonorReviewsWellFormed(reviews, donor);
      TotalBounds(mine);
      AverageBounds(Total(mine), |mine|);
    }
  }

  /** Appending a review extends its donor's list and no other. */
  lemma DonorReviewsAppend(reviews: seq<Review>, rv: Review, user: Id)
    ensures DonorReviews(reviews + [rv], user) ==
      DonorReviews(reviews, user) + (if rv.donor == user then [rv] else [])
  {
    assert (reviews + [rv])[..|reviews|] == reviews;
  }

  /** A new review changes the rating of its donor only, and that donor's
      count grows by exactly one: the recount agrees with an increment. */
  lemma RecountAfterAppend(reviews: seq<Review>, rv: Review, user: Id)
    ensures rv.donor != user ==> RatingOf(reviews + [rv], user) == RatingOf(reviews, user)
    ensures rv.donor == user ==> RatingOf(reviews + [rv], user).count == RatingOf(reviews, user).count + 1
  {
    DonorReviewsAppend(reviews, rv, user);
    var before, after := DonorReviews(reviews, user), DonorReviews(reviews + [rv], user);
    if rv.donor != user {
      assert after == before;
    } else {
      assert |after| == |before| + 1;
    }
  }

  /** Two reviews of 4 and 5 stars give a donor the rating {count 2, average 4.50}. */
  lemma TwoReviewsExample(a: Review, b: Review)
    requires a.donor == b.donor && a.rating == 4 && b.rating == 5
    ensures RatingOf([a, b], a.donor) == Rating(450, 2)
  {
    DonorReviewsAppend([], a, a.donor);
    DonorReviewsAppend([a], b, a.donor);
    assert [a] + [b] == [a, b];
    assert Total([a]) == 4 by { assert [a][..0] == []; }
    assert Total([a, b]) == 9 by { assert [a, b][..1] == [a]; }
    assert Average(9, 2) == 450;
  }
}
