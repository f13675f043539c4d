/** The daily staleness sweep: every edible, still available listing created
    at least three days before the run becomes compost and is marked picked,
    in one bulk update (Backend/utils/foodLifecycleJob.js). The scheduler and
    the clock are outside the model: the run time is a parameter. */
module FoodLifecycleJob {
  import opened Common
  import opened FoodModel
  import opened Store
  import FoodsController
  import RequestsController

  /** How long an edible listing may stay available. */
  const RetentionMs := 3 * DayMs

  /** The filter's bound: three days before the run. */
  function Cutoff(now: int): (c: int)
    ensures c < now && now - c == RetentionMs
  {
    now - RetentionMs
  }

  /** The filter: edible, available, and created at or before the cutoff. */
  predicate Stale(f: Food, cutoff: int)
  {
    f.foodType == Edible && f.status == Available && f.createdAt <= cutoff
  }

  /** The `$set` applied to a selected listing; the timestamps option also
      stamps updatedAt. */
  function Composted(f: Food, now: int): (g: Food)
    ensures g.foodType == Compost && g.status == Picked && g.updatedAt == now
    ensures g == f.(foodType := Compost, status := Picked, updatedAt := now)
  {
    f.(foodType := Compost, status := Picked, updatedAt := now)
  }

  /** The listings the filter selects. */
  function Selected(foods: map<Id, Food>, cutoff: int): (s: set<Id>)
    ensures forall id :: id in s <==> id in foods && Stale(foods[id], cutoff)
  {
    set id | id in foods && Stale(foods[id], cutoff)
  }

  /** The collection after the bulk update. */
  function Swept(foods: map<Id, Food>, cutoff: int, now: int): (r: map<Id, Food>)
    ensures r.Keys == foods.Keys
    ensures forall id :: id in foods && Stale(foods[id], cutoff) ==> r[id] == Composted(foods[id], now)
    ensures forall id :: id in foods && !Stale(foods[id], cutoff) ==> r[id] == foods[id]
  {
    map id | id in foods :: if Stale(foods[id], cutoff) then Composted(foods[id], now) else foods[id]
  }

  /** After a run nothing is left for the filter, and a second run with the
      same bound changes nothing: it selects no listing. */
  lemma SweepIdempotent(foods: map<Id, Food>, cutoff: int, now: int)
    ensures Selected(Swept(foods, cutoff, now), cutoff) == {}
    ensures Swept(Swept(foods, cutoff, now), cutoff, now) == Swept(foods, cutoff, now)
  {
    var once := Swept(foods, cutoff, now);
    assert forall id :: id in once ==> !Stale(once[id], cutoff);
  }

  /** The sweep only removes listings from the public index, and removes
      exactly the selected ones. */
  lemma SweepLeavesIndex(foods: map<Id, Food>, cutoff: int, now: int)
    ensures forall id :: id in FoodsController.Index(Swept(foods, cutoff, now)).data <==>
      id in FoodsController.Index(foods).data && id !in Selected(foods, cutoff)
  {
  }

  /** The sweep does not look at requests: a request still pending on a
      swept listing can be approved, and when quantity remains the listing
      goes back to available (while staying compost). */
  lemma ApprovalAfterSweep(foods: map<Id, Food>, requests: map<Id, RequestModel.Request>, callerId: Id,
                           requestId: Id, cutoff: int, now: int)
    requires FoodsResolve(requests, foods)
    requires requestId in requests && requests[requestId].food in foods
    requires Stale(foods[requests[requestId].food], cutoff)
    requires foods[requests[requestId].food].author == callerId
    requires requests[requestId].status == RequestModel.Pending
    requires requests[requestId].requestedQuantity < foods[requests[requestId].food].quantity
    ensures var swept := Swept(foods, cutoff, now);
      && FoodsResolve(requests, swept)
      && var a := RequestsController.ApproveDecision(swept, requests, callerId, requestId, now);
      && a.Ok? && a.value.food.status == Available && a.value.food.foodType == Compost
  {
  }

  /** The sweep keeps the listings well formed and with their authors and
      ids, so the collections stay valid. */
  lemma SweepKeepsValid(db: Db, now: int)
    requires db.Valid()
    ensures FoodsValid(Swept(db.foods, Cutoff(now), now), db.users, db.nextId)
    ensures RequestsValid(db.requests, Swept(db.foods, Cutoff(now), now), db.users, db.nextId)
  {
  }

  /** The collection part-way through a run: the keys in `pending` are not
      yet reached. */
  function PartlySwept(before: map<Id, Food>, pending: set<Id>, cutoff: int, now: int): (r: map<Id, Food>)
    ensures r.Keys == before.Keys
  {
    map id | id in before :: if id !in pending && Stale(before[id], cutoff) then Composted(before[id], now) else before[id]
  }

  /** Reaching one more key converts that listing exactly when it is
      selected, and leaves the rest as they were. */
  lemma SweepStep(before: map<Id, Food>, pending: set<Id>, cutoff: int, now: int, id: Id)
    requires id in pending && id in before
    ensures Stale(before[id], cutoff) ==>
      PartlySwept(before, pending - {id}, cutoff, now) == PartlySwept(before, pending, cutoff, now)[id := Composted(before[id], now)]
    ensures !Stale(before[id], cutoff) ==>
      PartlySwept(before, pending - {id}, cutoff, now) == PartlySwept(before, pending, cutoff, now)
  {
  }

  /** Taking a key out of the pending set adds one to the number of
      selected keys already handled exactly when the key is selected. */
  lemma CountStep(selected: set<Id>, pending: set<Id>, id: Id)
    requires id in pending
    ensures |selected - (pending - {id})| == |selected - pending| + (if id in selected then 1 else 0)
  {
    if id in selected {
      assert selected - (pending - {id}) == (selected - pending) + {id};
    } else {
      assert selected - (pending - {id}) == selected - pending;
    }
  }

  /** The bulk update over one collection: each listing the filter selects
      is converted, and the number converted is reported. */
  method SweepFoods(before: map<Id, Food>, cutoff: int, now: int) returns (foods: map<Id, Food>, modifiedCount: nat)
    ensures foods == Swept(before, cutoff, now)
    ensures modifiedCount == |Selected(before, cutoff)|
  {
    ghost var selected := Selected(before, cutoff);
    foods := before;
    var pending := before.Keys;
    modifiedCount := 0;
    assert foods == PartlySwept(before, pending, cutoff, now);
    while pending != {}
      invariant pending <= before.Keys
      invariant foods == PartlySwept(before, pending, cutoff, now)
      invariant modifiedCount == |selected - pending|
      decreases pending
    {
      var id :| id in pending;
      CountStep(selected, pending, id);
      SweepStep(before, pending, cutoff, now, id);
      if Stale(before[id], cutoff) {
        foods := foods[id := Composted(before[id], now)];
        modifiedCount := modifiedCount + 1;
      }
      pending := pending - {id};
    }
    assert selected - pending == selected;
    assert PartlySwept(before, {}, cutoff, now) == Swept(before, cutoff, now);
  }

  /** One run of the job against the store, three days back from `now`. */
  method RunJob(db: Db, now: int) returns (modifiedCount: nat)
    requires db.Valid()
    modifies db
    ensures db.Valid()
    ensures db.foods == Swept(old(db.foods), Cutoff(now), now)
    ensures modifiedCount == |Selected(old(db.foods), Cutoff(now))|
    ensures db.users == old(db.users) && db.requests == old(db.requests) && db.reviews == old(db.reviews)
    ensures db.nextId == old(db.nextId) && db.destroyedImages == old(db.destroyedImages)
  {
    var foods;
    foods, modifiedCount := SweepFoods(db.foods, Cutoff(now), now);
    SweepKeepsValid(db, now);
    db.foods := foods;
  }
}
