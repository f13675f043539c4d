/** The older request lifecycle kept at the repository root
    (controllers/requests.js): a request carries no quantity, creating one
    marks the whole listing requested, and approval and rejection check only
    that the caller owns the listing. The root models are not part of this
    model; the listing and user records are the backend's. */
module LegacyRequests {
  import opened Common
  import opened FoodModel
  import opened UserModel
  import opened RequestModel

  /** The TypeError raised when `populate('food')` finds no listing and the
      handler reads its author. */
  const NullFood := "Cannot read properties of null (reading 'author')"

  /** A legacy request: who asked for which listing, and its state. */
  datatype LegacyRequest = LegacyRequest(id: Id, food: Id, requester: Id, status: RequestStatus)

  /** The duplicate query: any request by `requester` on `food`, whatever
      its status. */
  predicate HasRequest(requests: map<Id, LegacyRequest>, food: Id, requester: Id)
  {
    exists id :: id in requests && requests[id].food == food && requests[id].requester == requester
  }

  /** createRequest's guards in order; on success the request to insert and
      the listing marked requested. */
  datatype Created = Created(request: LegacyRequest, food: Food)

  function CreateDecision(foods: map<Id, Food>, requests: map<Id, LegacyRequest>, caller: User,
                          foodId: Id, id: Id): (r: Result<Created>)
    ensures foodId !in foods ==> r == Err(NotFound(FoodNotFound))
    ensures foodId in foods && foods[foodId].status != Available ==> r == Err(BadRequest(FoodNotAvailable))
    ensures foodId in foods && foods[foodId].status == Available && caller.role != Receiver ==>
      r == Err(Forbidden(OnlyReceivers))
    ensures r.Ok? <==>
      foodId in foods && foods[foodId].status == Available && caller.role == Receiver
      && !HasRequest(requests, foodId, caller.id)
    ensures r.Err? && r.error == BadRequest(AlreadySent) <==>
      foodId in foods && foods[foodId].status == Available && caller.role == Receiver
      && HasRequest(requests, foodId, caller.id)
    ensures r.Ok? ==>
      && r.value.request == LegacyRequest(id, foodId, caller.id, Pending)
      && r.value.food == foods[foodId].(status := Requested)
  {
    if foodId !in foods then Err(NotFound(FoodNotFound))
    else if foods[foodId].status != Available then Err(BadRequest(FoodNotAvailable))
    else if caller.role != Receiver then Err(Forbidden(OnlyReceivers))
    else if HasRequest(requests, foodId, caller.id) then Err(BadRequest(AlreadySent))
    else Ok(Created(LegacyRequest(id, foodId, caller.id, Pending), foods[foodId].(status := Requested)))
  }

  /** approveRequest and rejectRequest share their guards: the request must
      exist and the caller must author its listing. A request whose listing
      is gone fails with a server error. */
  function OwnerCheck(foods: map<Id, Food>, requests: map<Id, LegacyRequest>, callerId: Id,
                      requestId: Id): (r: Result<Food>)
    ensures requestId !in requests ==> r == Err(NotFound(RequestNotFound))
    ensures requestId in requests && requests[requestId].food !in foods ==> r == Err(ServerError(NullFood))
    ensures r.Ok? <==>
      requestId in requests && requests[requestId].food in foods && foods[requests[requestId].food].author == callerId
    ensures r.Err? && r.error == Forbidden(NotAuthorized) <==>
      requestId in requests && requests[requestId].food in foods && foods[requests[requestId].food].author != callerId
    ensures r.Ok? ==> r.value == foods[requests[requestId].food]
  {
    if requestId !in requests then Err(NotFound(RequestNotFound))
    else if requests[requestId].food !in foods then Err(ServerError(NullFood))
    else if foods[requests[requestId].food].author != callerId then Err(Forbidden(NotAuthorized))
    else Ok(foods[requests[requestId].food])
  }

  /** myRequests: exactly the caller's requests. */
  function MyRequests(requests: map<Id, LegacyRequest>, callerId: Id): (r: Listing<LegacyRequest>)
    ensures r.count == |r.data|
    ensures forall id :: id in r.data <==> id in requests && requests[id].requester == callerId
    ensures forall id :: id in r.data ==> r.data[id] == requests[id]
  {
    var mine := map id | id in requests && requests[id].requester == callerId :: requests[id];
    Listing(|mine|, mine)
  }

  /** The legacy collections. Listings may be deleted without their
      requests, so a request's listing need not exist. */
  class LegacyDb {
    var users: map<Id, User>
    var foods: map<Id, Food>
    var requests: map<Id, LegacyRequest>
    var nextId: Id

    ghost predicate Valid()
      reads this
    {
      && (forall id :: id in users ==> id < nextId && users[id].id == id)
      && (forall id :: id in foods ==> id < nextId && foods[id].id == id)
      && (forall id :: id in requests ==> id < nextId && requests[id].id == id)
    }

    constructor ()
      ensures Valid()
      ensures users == map[] && foods == map[] && requests == map[] && nextId == 0
    {
      users, foods, requests := map[], map[], map[];
      nextId := 0;
    }

    /** createRequest: the guards, then the insert and the listing marked
        requested. */
    method CreateRequest(callerId: Id, foodId: Id) returns (r: Result<LegacyRequest>)
      requires Valid() && callerId in users
      modifies this
      ensures Valid()
      ensures var d := CreateDecision(old(foods), old(requests), old(users[callerId]), foodId, old(nextId));
        d.Err? ==> r == Err(d.error) && unchanged(this)
      ensures var d := CreateDecision(old(foods), old(requests), old(users[callerId]), foodId, old(nextId));
        d.Ok? ==>
          && r == Ok(d.value.request)
          && requests == old(requests)[d.value.request.id := d.value.request]
          && foods == old(foods)[foodId := d.value.food]
          && nextId == old(nextId) + 1 && users == old(users)
    {
      var d := CreateDecision(foods, requests, users[callerId], foodId, nextId);
      if d.Err? {
        r := Err(d.error);
      } else {
        requests := requests[nextId := d.value.request];
        foods := foods[foodId := d.value.food];
        nextId := nextId + 1;
        r := Ok(d.value.request);
      }
    }

    /** approveRequest: no pending check; the request becomes approved and
        the listing is (again) marked requested. */
    method ApproveRequest(callerId: Id, requestId: Id) returns (r: Result<LegacyRequest>)
      requires Valid()
      modifies this
      ensures Valid()
      ensures var c := OwnerCheck(old(foods), old(requests), callerId, requestId);
        c.Err? ==> r == Err(c.error) && unchanged(this)
      ensures var c := OwnerCheck(old(foods), old(requests), callerId, requestId);
        c.Ok? ==>
          && r == Ok(old(requests)[requestId].(status := Approved))
          && requests == old(requests)[requestId := r.value]
          && foods == old(foods)[c.value.id := c.value.(status := Requested)]
          && users == old(users) && nextId == old(nextId)
    {
      var c := OwnerCheck(foods, requests, callerId, requestId);
      if c.Err? {
        r := Err(c.error);
      } else {
        var request := requests[requestId].(status := Approved);
        foods := foods[c.value.id := c.value.(status := Requested)];
        requests := requests[requestId := request];
        r := Ok(request);
      }
    }

    /** rejectRequest: the request becomes rejected; the listing is not
        touched and so stays requested. */
    method RejectRequest(callerId: Id, requestId: Id) returns (r: Result<LegacyRequest>)
      requires Valid()
      modifies this
      ensures Valid()
      ensures var c := OwnerCheck(old(foods), old(requests), callerId, requestId);
        c.Err? ==> r == Err(c.error) && unchanged(this)
      ensures var c := OwnerCheck(old(foods), old(requests), callerId, requestId);
        c.Ok? ==>
          && r == Ok(old(requests)[requestId].(status := Rejected))
          && requests == old(requests)[requestId := r.value]
          && foods == old(foods)
          && users == old(users) && nextId == old(nextId)
    {
      var c := OwnerCheck(foods, requests, callerId, requestId);
      if c.Err? {
        r := Err(c.error);
      } else {
        var request := requests[requestId].(status := Rejected);
        requests := requests[requestId := request];
        r := Ok(request);
      }
    }
  }

  /** One request closes the listing: after a successful create, every
      later create on that listing fails the availability guard, whoever
      asks. */
  lemma CreateClosesListing(foods: map<Id, Food>, requests: map<Id, LegacyRequest>, caller: User,
                            other: User, foodId: Id, id: Id, id': Id)
    requires CreateDecision(foods, requests, caller, foodId, id).Ok?
    ensures var c := CreateDecision(foods, requests, caller, foodId, id).value;
      CreateDecision(foods[foodId := c.food], requests[id := c.request], other, foodId, id')
        == Err(BadRequest(FoodNotAvailable))
  {
  }

  /** Rejecting does not reopen the listing: after a create and its
      rejection, the listing is still requested and new creates still fail. */
  lemma RejectKeepsListingClosed(foods: map<Id, Food>, requests: map<Id, LegacyRequest>, caller: User,
                                 other: User, foodId: Id, id: Id, id': Id)
    requires CreateDecision(foods, requests, caller, foodId, id).Ok?
    requires OwnerCheck(foods[foodId := CreateDecision(foods, requests, caller, foodId, id).value.food],
                        requests[id := CreateDecision(foods, requests, caller, foodId, id).value.request],
                        foods[foodId].author, id).Ok?
    ensures var c := CreateDecision(foods, requests, caller, foodId, id).value;
      && c.food.status == Requested
      && CreateDecision(foods[foodId := c.food], requests[id := c.request.(status := Rejected)], other, foodId, id')
         == Err(BadRequest(FoodNotAvailable))
  {
  }

  /** The duplicate guard ignores status: a receiver whose request was
      rejected still cannot ask for the same listing again, even if it is
      available. */
  lemma RejectedStillDuplicate(foods: map<Id, Food>, requests: map<Id, LegacyRequest>, caller: User,
                               foodId: Id, requestId: Id, id: Id)
    requires requestId in requests && requests[requestId].food == foodId
    requires requests[requestId].requester == caller.id && requests[requestId].status == Rejected
    requires foodId in foods && foods[foodId].status == Available && caller.role == Receiver
    ensures CreateDecision(foods, requests, caller, foodId, id) == Err(BadRequest(AlreadySent))
  {
    assert HasRequest(requests, foodId, caller.id);
  }
}
