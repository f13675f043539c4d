/** The document database the handlers read and write: one collection per
    model, keyed by id, with the integrity every handler preserves. */
module Store {
  import opened Common
  import opened FoodModel
  import opened RequestModel
  import opened ReviewModel
  import opened UserModel
  import Ratings

  /** Users: stored under their own id, below the id counter, well formed,
      and the unique index on the (lower-cased) email. */
  ghost predicate UsersValid(users: map<Id, User>, nextId: Id)
  {
    && (forall id :: id in users ==> id < nextId && users[id].id == id && UserModel.WellFormed(users[id]))
    && (forall a, b :: a in users && b in users && users[a].email == users[b].email ==> a == b)
  }

  /** Foods: stored under their own id, below the counter, well formed, and
      authored by an existing user. */
  ghost predicate FoodsValid(foods: map<Id, Food>, users: map<Id, User>, nextId: Id)
  {
    forall id :: id in foods ==>
      id < nextId && foods[id].id == id && FoodModel.WellFormed(foods[id]) && foods[id].author in users
  }

  /** At most one pending request per listing and requester: the duplicate
      guard of createRequest refuses a second one. */
  predicate PendingUnique(requests: map<Id, Request>)
  {
    forall a, b ::
      (a in requests && b in requests && requests[a].status == Pending && requests[b].status == Pending
       && requests[a].food == requests[b].food && requests[a].requester == requests[b].requester) ==> a == b
  }

  /** What the stored requests guarantee to the handlers: `populate('food')`
      finds every request's food, and every requested quantity is at least 1. */
  predicate FoodsResolve(requests: map<Id, Request>, foods: map<Id, Food>)
  {
    forall id :: id in requests ==> requests[id].food in foods && RequestModel.WellFormed(requests[id])
  }

  /** Requests: stored under their own id, below the counter, well formed,
      referring to an existing food and an existing requester, and at most
      one pending per listing and requester. */
  ghost predicate RequestsValid(requests: map<Id, Request>, foods: map<Id, Food>, users: map<Id, User>, nextId: Id)
  {
    && (forall id :: id in requests ==>
          && id < nextId && requests[id].id == id && RequestModel.WellFormed(requests[id])
          && requests[id].food in foods && requests[id].requester in users)
    && PendingUnique(requests)
  }

  /** Reviews: ratings within the schema bounds, donor and receiver existing
      users, ids below the counter, and at most one review per request. */
  ghost predicate ReviewsValid(reviews: seq<Review>, users: map<Id, User>, nextId: Id)
  {
    && Ratings.AllWellFormed(reviews)
    && (forall i :: 0 <= i < |reviews| ==>
          reviews[i].id < nextId && reviews[i].donor in users && reviews[i].receiver in users)
    && UniqueRequests(reviews)
  }

  /** Every user's stored rating is the recount over all reviews naming the
      user as donor. */
  ghost predicate RatingsConsistent(users: map<Id, User>, reviews: seq<Review>)
  {
    forall id {:trigger Ratings.RatingOf(reviews, id)} :: id in users ==> users[id].rating == Ratings.RatingOf(reviews, id)
  }

  class Db {
    var users: map<Id, User>
    var foods: map<Id, Food>
    var requests: map<Id, Request>
    var reviews: seq<Review>
    /** The next fresh document id. */
    var nextId: Id
    /** The filenames passed to the image host's destroy call, in call order. */
    ghost var destroyedImages: seq<string>

    ghost predicate Valid()
      reads this
    {
      && UsersValid(users, nextId)
      && FoodsValid(foods, users, nextId)
      && RequestsValid(requests, foods, users, nextId)
      && ReviewsValid(reviews, users, nextId)
      && RatingsConsistent(users, reviews)
    }

    constructor ()
      ensures Valid()
      ensures users == map[] && foods == map[] && requests == map[] && reviews == []
      ensures nextId == 0 && destroyedImages == []
    {
      users, foods, requests, reviews := map[], map[], map[], [];
      nextId := 0;
      destroyedImages := [];
    }
  }

  /** Raising the id counter keeps every collection valid. */
  lemma CounterBump(users: map<Id, User>, foods: map<Id, Food>, requests: map<Id, Request>,
                    reviews: seq<Review>, n: Id, m: Id)
    requires n <= m
    requires UsersValid(users, n) && FoodsValid(foods, users, n)
    requires RequestsValid(requests, foods, users, n) && ReviewsValid(reviews, users, n)
    ensures UsersValid(users, m) && FoodsValid(foods, users, m)
    ensures RequestsValid(requests, foods, users, m) && ReviewsValid(reviews, users, m)
  {
  }

  /** Changing one user's rating leaves the listings and requests valid:
      they refer to users by key only. */
  lemma RatingChange(users: map<Id, User>, foods: map<Id, Food>, requests: map<Id, Request>,
                     n: Id, u: Id, rating: Rating)
    requires u in users && FoodsValid(foods, users, n) && RequestsValid(requests, foods, users, n)
    ensures FoodsValid(foods, users[u := users[u].(rating := rating)], n)
    ensures RequestsValid(requests, foods, users[u := users[u].(rating := rating)], n)
  {
  }

  /** Storing a well-formed request on an existing food by an existing user,
      under a key below the counter, keeps the requests valid, provided a
      pending one is the only pending request of its requester on its food. */
  lemma StoreRequest(requests: map<Id, Request>, foods: map<Id, Food>, users: map<Id, User>, n: Id, r: Request)
    requires RequestsValid(requests, foods, users, n)
    requires r.id < n && RequestModel.WellFormed(r) && r.food in foods && r.requester in users
    requires r.status == Pending ==>
      forall id :: (id in requests && id != r.id && requests[id].status == Pending) ==>
        requests[id].food != r.food || requests[id].requester != r.requester
    ensures RequestsValid(requests[r.id := r], foods, users, n)
  {
  }

  /** Replacing a food by one with the same id, author and required fields
      keeps foods and requests valid. */
  lemma StoreFood(requests: map<Id, Request>, foods: map<Id, Food>, users: map<Id, User>, n: Id, f: Food)
    requires FoodsValid(foods, users, n) && RequestsValid(requests, foods, users, n)
    requires f.id < n && FoodModel.WellFormed(f) && f.author in users
    ensures FoodsValid(foods[f.id := f], users, n)
    ensures RequestsValid(requests, foods[f.id := f], users, n)
  {
  }
}
