/** The Request document: a receiver's claim on part of a listing
    (Backend/models/request.js). */
module RequestModel {
  import opened Common

  datatype RequestStatus = Pending | Approved | Rejected

  /** A request. The schema declares no `reviewed` or `review` path, so those
      are not fields: values assigned to them are never persisted. */
  datatype Request = Request(
    id: Id,
    food: Id,
    requester: Id,
    requestedQuantity: int,
    requesterCoordinates: seq<real>,
    status: RequestStatus,
    donorSeen: bool,
    receiverSeen: bool,
    createdAt: int)

  /** The schema bound on a stored request. */
  predicate WellFormed(r: Request)
  {
    r.requestedQuantity >= 1
  }

  /** `Request.create({food, requester, requestedQuantity})`: every other
      field takes its schema default. The requester's location is never
      supplied, so its coordinates keep the empty-array default, which the
      `required` validator of an array accepts. */
  function NewRequest(id: Id, food: Id, requester: Id, quantity: int, now: int): (r: Request)
    requires quantity >= 1
    ensures WellFormed(r)
    ensures r.id == id && r.food == food && r.requester == requester && r.requestedQuantity == quantity
    ensures r.status == Pending && !r.donorSeen && r.receiverSeen
    ensures r.requesterCoordinates == [] && r.createdAt == now
  {
    Request(id, food, requester, quantity, [], Pending, false, true, now)
  }
}
