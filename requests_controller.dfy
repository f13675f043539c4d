/** The request lifecycle of the backend: a receiver requests part of an
    available listing, and the listing's author approves the request (which
    takes the quantity off the listing) or rejects it
    (Backend/controllers/requests.js). */
module RequestsController {
  import opened Common
  import opened FoodModel
  import opened RequestModel
  import opened UserModel
  import opened Store

  const OwnListing := "You cannot request your own food listing"
  const InvalidQuantity := "Invalid quantity"
  const ExceedsQuantity := "Requested quantity exceeds available quantity"
  const AlreadyProcessed := "Request already processed"
  const InsufficientQuantity := "Insufficient food quantity"

  /** The duplicate query: a *pending* request by `requester` on `food`. */
  predicate HasPendingRequest(requests: map<Id, Request>, food: Id, requester: Id)
  {
    exists id :: id in requests && requests[id].food == food && requests[id].requester == requester
      && requests[id].status == Pending
  }

  /** createRequest's guards, each checked only when all earlier ones
      passed; on success the request to insert, under the fresh id `id`. */
  function CreateRequestDecision(foods: map<Id, Food>, requests: map<Id, Request>, caller: User,
                                 foodId: Id, quantity: Option<int>, id: Id, now: int): (r: Result<Request>)
    ensures r.Ok? <==>
      && foodId in foods
      && foods[foodId].status == Available
      && caller.role == Receiver
      && foods[foodId].author != caller.id
      && quantity.Some? && 0 < quantity.value <= foods[foodId].quantity
      && !HasPendingRequest(requests, foodId, caller.id)
    ensures r.Ok? ==> r.value == NewRequest(id, foodId, caller.id, quantity.value, now)
    ensures foodId !in foods ==> r == Err(NotFound(FoodNotFound))
    ensures foodId in foods && foods[foodId].status != Available ==> r == Err(BadRequest(FoodNotAvailable))
    ensures foodId in foods && foods[foodId].status == Available && caller.role != Receiver ==>
      r == Err(Forbidden(OnlyReceivers))
    ensures (foodId in foods && foods[foodId].status == Available && caller.role == Receiver
             && foods[foodId].author == caller.id) ==> r == Err(BadRequest(OwnListing))
    ensures (foodId in foods && foods[foodId].status == Available && caller.role == Receiver
             && foods[foodId].author != caller.id && (quantity.None? || quantity.value <= 0)) ==>
      r == Err(BadRequest(InvalidQuantity))
    ensures (foodId in foods && foods[foodId].status == Available && caller.role == Receiver
             && foods[foodId].author != caller.id && quantity.Some?
             && 0 < quantity.value && quantity.value > foods[foodId].quantity) ==>
      r == Err(BadRequest(ExceedsQuantity))
    ensures r.Err? && r.error == BadRequest(AlreadySent) <==>
      && foodId in foods && foods[foodId].status == Available && caller.role == Receiver
      && foods[foodId].author != caller.id && quantity.Some? && 0 < quantity.value <= foods[foodId].quantity
      && HasPendingRequest(requests, foodId, caller.id)
  {
    if foodId !in foods then Err(NotFound(FoodNotFound))
    else
      var food := foods[foodId];
      if food.status != Available then Err(BadRequest(FoodNotAvailable))
      else if caller.role != Receiver then Err(Forbidden(OnlyReceivers))
      else if food.author == caller.id then Err(BadRequest(OwnListing))
      else if quantity.None? || quantity.value <= 0 then Err(BadRequest(InvalidQuantity))
      else if quantity.value > food.quantity then Err(BadRequest(ExceedsQuantity))
      else if HasPendingRequest(requests, foodId, caller.id) then Err(BadRequest(AlreadySent))
      else Ok(NewRequest(id, foodId, caller.id, quantity.value, now))
  }

  /** A request with the listing it populates. */
  datatype Approval = Approval(food: Food, request: Request)

  /** The listing after `quantity` is taken off it: picked at exactly zero,
      available otherwise. */
  function TakeQuantity(food: Food, quantity: int, now: int): (f: Food)
    ensures f.quantity == food.quantity - quantity
    ensures f.status == (if f.quantity == 0 then Picked else Available)
    ensures f == food.(quantity := f.quantity, status := f.status, updatedAt := now)
  {
    var left := food.quantity - quantity;
    food.(quantity := left, status := if left == 0 then Picked else Available, updatedAt := now)
  }

  /** approveRequest's guards in order; on success the listing with the
      requested quantity taken off and the request approved. */
  function ApproveDecision(foods: map<Id, Food>, requests: map<Id, Request>, callerId: Id,
                           requestId: Id, now: int): (r: Result<Approval>)
    requires FoodsResolve(requests, foods)
    ensures requestId !in requests ==> r == Err(NotFound(RequestNotFound))
    ensures requestId in requests && foods[requests[requestId].food].author != callerId ==>
      r == Err(Forbidden(NotAuthorized))
    ensures (requestId in requests && foods[requests[requestId].food].author == callerId
             && requests[requestId].status != Pending) ==> r == Err(BadRequest(AlreadyProcessed))
    ensures (requestId in requests && foods[requests[requestId].food].author == callerId
             && requests[requestId].status == Pending
             && requests[requestId].requestedQuantity > foods[requests[requestId].food].quantity) ==>
      r == Err(BadRequest(InsufficientQuantity))
    ensures r.Ok? <==>
      && requestId in requests
      && foods[requests[requestId].food].author == callerId
      && requests[requestId].status == Pending
      && requests[requestId].requestedQuantity <= foods[requests[requestId].food].quantity
    ensures r.Ok? ==>
      var food := foods[requests[requestId].food];
      && r.value.food == TakeQuantity(food, requests[requestId].requestedQuantity, now)
      && 0 <= r.value.food.quantity < food.quantity
      && r.value.request == requests[requestId].(status := Approved)
  {
    if requestId !in requests then Err(NotFound(RequestNotFound))
    else
      var request := requests[requestId];
      var food := foods[request.food];
      if food.author != callerId then Err(Forbidden(NotAuthorized))
      else if request.status != Pending then Err(BadRequest(AlreadyProcessed))
      else if food.quantity - request.requestedQuantity < 0 then Err(BadRequest(InsufficientQuantity))
      else Ok(Approval(TakeQuantity(food, request.requestedQuantity, now), request.(status := Approved)))
  }

  /** rejectRequest checks existence and authorship only: no pending check,
      and the listing is not touched. */
  function RejectDecision(foods: map<Id, Food>, requests: map<Id, Request>, callerId: Id,
                          requestId: Id): (r: Result<Request>)
    requires FoodsResolve(requests, foods)
    ensures requestId !in requests ==> r == Err(NotFound(RequestNotFound))
    ensures requestId in requests && foods[requests[requestId].food].author != callerId ==>
      r == Err(Forbidden(NotAuthorized))
    ensures r.Ok? <==> requestId in requests && foods[requests[requestId].food].author == callerId
    ensures r.Ok? ==> r.value == requests[requestId].(status := Rejected)
  {
    if requestId !in requests then Err(NotFound(RequestNotFound))
    else if foods[requests[requestId].food].author != callerId then Err(Forbidden(NotAuthorized))
    else Ok(requests[requestId].(status := Rejected))
  }

  /** myRequests: exactly the caller's requests. */
  function MyRequests(requests: map<Id, Request>, callerId: Id): (r: Listing<Request>)
    ensures r.count == |r.data|
    ensures forall id :: id in r.data <==> id in requests && requests[id].requester == callerId
    ensures forall id :: id in r.data ==> r.data[id] == requests[id]
  {
    var mine := map id | id in requests && requests[id].requester == callerId :: requests[id];
    Listing(|mine|, mine)
  }

  /** createRequest: the guards, then one insert; the listing is unchanged. */
  method CreateRequest(db: Db, callerId: Id, foodId: Id, quantity: Option<int>, now: int) returns (r: Result<Request>)
    requires db.Valid() && callerId in db.users
    modifies db
    ensures db.Valid()
    ensures r == CreateRequestDecision(old(db.foods), old(db.requests), old(db.users[callerId]), foodId, quantity, old(db.nextId), now)
    ensures r.Err? ==> unchanged(db)
    ensures r.Ok? ==>
      && db.requests == old(db.requests)[r.value.id := r.value] && r.value.id !in old(db.requests)
      && db.nextId == old(db.nextId) + 1
      && db.foods == old(db.foods) && db.users == old(db.users) && db.reviews == old(db.reviews)
      && db.destroyedImages == old(db.destroyedImages)
  {
    r := CreateRequestDecision(db.foods, db.requests, db.users[callerId], foodId, quantity, db.nextId, now);
    if r.Ok? {
      var request := r.value;
      CounterBump(db.users, db.foods, db.requests, db.reviews, db.nextId, db.nextId + 1);
      StoreRequest(db.requests, db.foods, db.users, db.nextId + 1, request);
      db.requests := db.requests[request.id := request];
      db.nextId := db.nextId + 1;
    }
  }

  /** approveRequest: the guards, then the listing loses the requested
      quantity and the request is approved; on any error nothing changes. */
  method ApproveRequest(db: Db, callerId: Id, requestId: Id, now: int) returns (r: Result<Approval>)
    requires db.Valid()
    modifies db
    ensures db.Valid()
    ensures r == ApproveDecision(old(db.foods), old(db.requests), callerId, requestId, now)
    ensures r.Err? ==> unchanged(db)
    ensures r.Ok? ==>
      && db.foods == old(db.foods)[r.value.food.id := r.value.food]
      && db.requests == old(db.requests)[requestId := r.value.request]
      && db.users == old(db.users) && db.reviews == old(db.reviews) && db.nextId == old(db.nextId)
      && db.destroyedImages == old(db.destroyedImages)
  {
    r := ApproveDecision(db.foods, db.requests, callerId, requestId, now);
    if r.Ok? {
      var food, request := r.value.food, r.value.request;
      StoreFood(db.requests, db.foods, db.users, db.nextId, food);
      StoreRequest(db.requests, db.foods[food.id := food], db.users, db.nextId, request);
      db.foods := db.foods[food.id := food];
      db.requests := db.requests[requestId := request];
    }
  }

  /** rejectRequest: sets the status to rejected, whatever it was. */
  method RejectRequest(db: Db, callerId: Id, requestId: Id) returns (r: Result<Request>)
    requires db.Valid()
    modifies db
    ensures db.Valid()
    ensures r == RejectDecision(old(db.foods), old(db.requests), callerId, requestId)
    ensures r.Err? ==> unchanged(db)
    ensures r.Ok? ==>
      && db.requests == old(db.requests)[requestId := r.value]
      && db.foods == old(db.foods) && db.users == old(db.users) && db.reviews == old(db.reviews)
      && db.nextId == old(db.nextId) && db.destroyedImages == old(db.destroyedImages)
  {
    r := RejectDecision(db.foods, db.requests, callerId, requestId);
    if r.Ok? {
      StoreRequest(db.requests, db.foods, db.users, db.nextId, r.value);
      db.requests := db.requests[requestId := r.value];
    }
  }

  /** Once an approval takes a listing to exactly zero, the listing is picked
      and every later request on it fails the availability guard. */
  lemma ApprovalToZeroClosesListing(foods: map<Id, Food>, requests: map<Id, Request>, callerId: Id,
                                    requestId: Id, now: int, caller: User, quantity: Option<int>, id: Id)
    requires FoodsResolve(requests, foods)
    requires ApproveDecision(foods, requests, callerId, requestId, now).Ok?
    requires ApproveDecision(foods, requests, callerId, requestId, now).value.food.quantity == 0
    ensures
      var a := ApproveDecision(foods, requests, callerId, requestId, now).value;
      && a.food.status == Picked
      && CreateRequestDecision(foods[a.food.id := a.food], requests[requestId := a.request], caller,
                               a.food.id, quantity, id, now) == Err(BadRequest(FoodNotAvailable))
  {
  }

  /** The duplicate guard counts pending requests only: in a valid store,
      while the receiver's request on a listing is pending a second one is
      refused, and once it is approved or rejected the receiver may request
      that listing again. */
  lemma DecidedRequestAllowsAnother(requests: map<Id, Request>, requestId: Id, status: RequestStatus)
    requires PendingUnique(requests)
    requires requestId in requests && requests[requestId].status == Pending && status != Pending
    ensures HasPendingRequest(requests, requests[requestId].food, requests[requestId].requester)
    ensures !HasPendingRequest(requests[requestId := requests[requestId].(status := status)],
                               requests[requestId].food, requests[requestId].requester)
    ensures PendingUnique(requests[requestId := requests[requestId].(status := status)])
  {
    var r := requests[requestId];
    forall other | other in requests && other != requestId && requests[other].food == r.food
                   && requests[other].requester == r.requester
      ensures requests[other].status != Pending
    {
    }
  }

  /** Approval is refused whenever the caller is not the listing's author,
      whatever the request's state or quantity. */
  lemma OnlyAuthorApproves(foods: map<Id, Food>, requests: map<Id, Request>, callerId: Id, requestId: Id, now: int)
    requires FoodsResolve(requests, foods)
    requires ApproveDecision(foods, requests, callerId, requestId, now).Ok? ||
             RejectDecision(foods, requests, callerId, requestId).Ok?
    ensures requestId in requests && foods[requests[requestId].food].author == callerId
  {
  }

  /** Ten kilograms listed, requests for 4 and 7 pending: approving the first
      leaves 6 available, and approving the second then fails for lack of
      quantity, with nothing changed. */
  lemma PartialApprovalScenario(f: Food, a: Request, b: Request, now: int)
    requires f.quantity == 10 && f.status == Available
    requires a.id == 1 && b.id == 2 && a.food == f.id && b.food == f.id
    requires a.requestedQuantity == 4 && b.requestedQuantity == 7
    requires a.status == Pending && b.status == Pending
    ensures
      var foods, requests := map[f.id := f], map[1 := a, 2 := b];
      var first := ApproveDecision(foods, requests, f.author, 1, now);
      && first.Ok? && first.value.food.quantity == 6 && first.value.food.status == Available
      && ApproveDecision(foods[f.id := first.value.food], requests[1 := first.value.request], f.author, 2, now)
         == Err(BadRequest(InsufficientQuantity))
  {
  }
}
