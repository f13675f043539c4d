/** The listing handlers of the backend: public and per-author queries,
    creation with uploaded images, update with image synchronisation, and
    deletion cascading to the listing's requests
    (Backend/controllers/foods.js). */
module FoodsController {
  import opened Common
  import opened FoodModel
  import opened RequestModel
  import opened UserModel
  import opened Store

  const OnlyAvailableDeleted := "Only available food listings can be deleted"

  /** A file the upload middleware stored on the image host. */
  datatype UploadedFile = UploadedFile(path: string, filename: string)

  /** `existingImages` as the form sends it: absent, one string, or a list. */
  datatype ExistingImages = Absent | One(filename: string) | Many(filenames: seq<string>)

  /** The body of an update. A missing required string is ""; a missing
      number or enum is None. */
  datatype UpdateBody = UpdateBody(
    title: string,
    quantity: Option<int>,
    quantityUnit: Option<string>,
    foodType: Option<string>,
    address: string,
    longitude: real,
    latitude: real,
    existingImages: ExistingImages)

  /** index: the edible listings not yet picked. */
  function Index(foods: map<Id, Food>): (r: Listing<Food>)
    ensures r.count == |r.data|
    ensures forall id :: id in r.data <==> id in foods && foods[id].foodType == Edible && foods[id].status != Picked
    ensures forall id :: id in r.data ==> r.data[id] == foods[id]
  {
    var listed := map id | id in foods && foods[id].foodType == Edible && foods[id].status != Picked :: foods[id];
    Listing(|listed|, listed)
  }

  /** show: the listing with that id, or 404. */
  function Show(foods: map<Id, Food>, id: Id): (r: Result<Food>)
    ensures r.Ok? <==> id in foods
    ensures r.Ok? ==> r.value == foods[id]
    ensures r.Err? ==> r.error == NotFound(FoodNotFound)
  {
    if id in foods then Ok(foods[id]) else Err(NotFound(FoodNotFound))
  }

  /** myFoods: exactly the caller's listings. */
  function MyFoods(foods: map<Id, Food>, callerId: Id): (r: Listing<Food>)
    ensures r.count == |r.data|
    ensures forall id :: id in r.data <==> id in foods && foods[id].author == callerId
    ensures forall id :: id in r.data ==> r.data[id] == foods[id]
  {
    var mine := map id | id in foods && foods[id].author == callerId :: foods[id];
    Listing(|mine|, mine)
  }

  /** A listing with the requests made on it. */
  datatype FoodWithRequests = FoodWithRequests(food: Food, requests: map<Id, Request>)

  /** getFoodWithRequests: only the author may look, with no admin
      override, and sees every request referring to the listing. */
  function GetFoodWithRequests(foods: map<Id, Food>, requests: map<Id, Request>, callerId: Id, foodId: Id): (r: Result<FoodWithRequests>)
    ensures foodId !in foods ==> r == Err(NotFound(FoodNotFound))
    ensures foodId in foods && foods[foodId].author != callerId ==> r == Err(Forbidden(NotAuthorized))
    ensures r.Ok? <==> foodId in foods && foods[foodId].author == callerId
    ensures r.Ok? ==> r.value.food == foods[foodId]
    ensures r.Ok? ==> forall id :: id in r.value.requests <==> id in requests && requests[id].food == foodId
    ensures r.Ok? ==> forall id :: id in r.value.requests ==> r.value.requests[id] == requests[id]
  {
    if foodId !in foods then Err(NotFound(FoodNotFound))
    else if foods[foodId].author != callerId then Err(Forbidden(NotAuthorized))
    else Ok(FoodWithRequests(foods[foodId], map id | id in requests && requests[id].food == foodId :: requests[id]))
  }

  /** The image entries of the uploaded files, in upload order. */
  function ImagesOf(files: seq<UploadedFile>): (r: seq<Image>)
    ensures |r| == |files|
    ensures forall i :: 0 <= i < |files| ==> r[i] == Image(files[i].path, files[i].filename)
  {
    seq(|files|, i requires 0 <= i < |files| => Image(files[i].path, files[i].filename))
  }

  function Filenames(images: seq<Image>): (r: seq<string>)
    ensures |r| == |images|
    ensures forall i :: 0 <= i < |images| ==> r[i] == images[i].filename
  {
    seq(|images|, i requires 0 <= i < |images| => images[i].filename)
  }

  /** `existingImages || []`, with a single string wrapped in a list. An
      empty string is falsy, so it counts as absent; an array, even an empty
      one, is truthy and kept. */
  function RemainingNames(e: ExistingImages): (r: seq<string>)
    ensures e.One? ==> r == (if e.filename == "" then [] else [e.filename])
    ensures e.Absent? ==> r == []
    ensures e.Many? ==> r == e.filenames
  {
    match e
    case Absent => []
    case One(f) => if f == "" then [] else [f]
    case Many(fs) => fs
  }

  /** The stored images whose filename is listed, in stored order. */
  function Kept(images: seq<Image>, names: seq<string>): (r: seq<Image>)
    ensures |r| <= |images|
  {
    if images == [] then []
    else Kept(images[..|images| - 1], names) + (if images[|images| - 1].filename in names then [images[|images| - 1]] else [])
  }

  /** The stored images whose filename is not listed: those to delete. */
  function Dropped(images: seq<Image>, names: seq<string>): (r: seq<Image>)
    ensures |r| <= |images|
  {
    if images == [] then []
    else Dropped(images[..|images| - 1], names) + (if images[|images| - 1].filename !in names then [images[|images| - 1]] else [])
  }

  /** Kept and dropped images partition the stored list: together they are
      its elements, each exactly once. */
  lemma {:induction false} KeptDroppedPartition(images: seq<Image>, names: seq<string>)
    ensures multiset(Kept(images, names)) + multiset(Dropped(images, names)) == multiset(images)
    ensures |Kept(images, names)| + |Dropped(images, names)| == |images|
  {
    if images != [] {
      var init, last := images[..|images| - 1], images[|images| - 1];
      KeptDroppedPartition(init, names);
      assert images == init + [last];
    }
  }

  /** A kept image is exactly a stored one whose filename is listed, so a
      listed filename that names no stored image adds nothing; a dropped
      image is exactly a stored one whose filename is not listed. */
  lemma {:induction false} KeptDroppedMembers(images: seq<Image>, names: seq<string>, img: Image)
    ensures img in Kept(images, names) <==> img in images && img.filename in names
    ensures img in Dropped(images, names) <==> img in images && img.filename !in names
  {
    if images != [] {
      var init, last := images[..|images| - 1], images[|images| - 1];
      KeptDroppedMembers(init, names, img);
      assert images == init + [last];
      assert img in images <==> img in init || img == last;
    }
  }

  /** The filter keeps stored order: filtering a concatenation filters each
      part and concatenates the results. */
  lemma {:induction false} KeptPreservesOrder(a: seq<Image>, b: seq<Image>, names: seq<string>)
    ensures Kept(a + b, names) == Kept(a, names) + Kept(b, names)
  {
    if b != [] {
      var init, last := b[..|b| - 1], b[|b| - 1];
      KeptPreservesOrder(a, init, names);
      assert a + b == (a + init) + [last];
      assert (a + b)[..|a + b| - 1] == a + init;
    } else {
      assert a + b == a;
    }
  }

  /** Keeping every stored filename keeps the whole list and drops nothing. */
  lemma {:induction false} KeepAll(images: seq<Image>, names: seq<string>)
    requires forall img :: img in images ==> img.filename in names
    ensures Kept(images, names) == images && Dropped(images, names) == []
  {
    if images != [] {
      var init := images[..|images| - 1];
      KeepAll(init, names);
      assert images == init + [images[|images| - 1]];
    }
  }

  /** Listing none of the stored filenames keeps nothing and drops every
      image. */
  lemma {:induction false} DropAll(images: seq<Image>, names: seq<string>)
    requires forall img :: img in images ==> img.filename !in names
    ensures Kept(images, names) == [] && Dropped(images, names) == images
  {
    if images != [] {
      var init := images[..|images| - 1];
      assert images == init + [images[|images| - 1]];
      DropAll(init, names);
    }
  }

  /** An empty `existingImages` string is falsy, so every stored image is
      deleted, an image whose filename is empty included. */
  lemma EmptyExistingDropsAll(images: seq<Image>)
    ensures Kept(images, RemainingNames(One(""))) == []
    ensures Dropped(images, RemainingNames(One(""))) == images
  {
    DropAll(images, []);
  }

  /** Owner or admin: who may update or delete a listing. */
  predicate MayModify(food: Food, caller: User)
  {
    food.author == caller.id || caller.role == Admin
  }

  /** update's field assignments and image sync applied to a stored listing,
      then the schema validation of `save()` and the geo index. Status,
      author, description, pickup window and creation time are not touched.
      An omitted unit is unset, and reads back as the default plates. */
  function Updated(food: Food, body: UpdateBody, files: seq<UploadedFile>, now: int): (r: Result<Food>)
    ensures r.Ok? <==>
      && Present(body.title) && Present(body.address) && body.quantity.Some?
      && body.foodType.Some? && ParseFoodType(body.foodType.value).Some?
      && OptionalUnitValid(body.quantityUnit)
      && ValidPoint([body.longitude, body.latitude])
    ensures r.Err? ==> r.error == ServerError(ValidationFailed) || r.error == ServerError(GeoKeysError)
    ensures r.Err? && r.error == ServerError(GeoKeysError) <==>
      && Present(body.title) && Present(body.address) && body.quantity.Some?
      && body.foodType.Some? && ParseFoodType(body.foodType.value).Some?
      && OptionalUnitValid(body.quantityUnit)
      && !ValidPoint([body.longitude, body.latitude])
    ensures r.Ok? ==>
      && r.value == food.(title := body.title, quantity := body.quantity.value,
                          quantityUnit := r.value.quantityUnit, foodType := r.value.foodType,
                          address := body.address, coordinates := [body.longitude, body.latitude],
                          images := r.value.images, updatedAt := now)
      && FoodTypeName(r.value.foodType) == body.foodType.value
      && (body.quantityUnit.None? ==> r.value.quantityUnit == Plates)
      && (body.quantityUnit.Some? ==> QuantityUnitName(r.value.quantityUnit) == body.quantityUnit.value)
      && r.value.images == Kept(food.images, RemainingNames(body.existingImages)) + ImagesOf(files)
  {
    if !Present(body.title) || !Present(body.address) || body.quantity.None? || body.foodType.None? then
      Err(ServerError(ValidationFailed))
    else
      var foodType := ParseFoodType(body.foodType.value);
      var unit := if body.quantityUnit.None? then Some(Plates) else ParseQuantityUnit(body.quantityUnit.value);
      if foodType.None? || unit.None? then Err(ServerError(ValidationFailed))
      else if !ValidPoint([body.longitude, body.latitude]) then Err(ServerError(GeoKeysError))
      else
        Ok(food.(title := body.title, quantity := body.quantity.value, quantityUnit := unit.value,
                 foodType := foodType.value, address := body.address,
                 coordinates := [body.longitude, body.latitude],
                 images := Kept(food.images, RemainingNames(body.existingImages)) + ImagesOf(files),
                 updatedAt := now))
  }

  /** `Request.deleteMany({ food })`: the requests left after removing
      every request on the listing. */
  function DeleteRequestsOf(requests: map<Id, Request>, foodId: Id): (r: map<Id, Request>)
    ensures forall id :: id in r <==> id in requests && requests[id].food != foodId
    ensures forall id :: id in r ==> r[id] == requests[id]
  {
    map id | id in requests && requests[id].food != foodId :: requests[id]
  }

  /** Inserting a well-formed listing by an existing user under the counter's
      id, and raising the counter, keeps the store valid. */
  lemma InsertFood(users: map<Id, User>, foods: map<Id, Food>, requests: map<Id, Request>,
                   reviews: seq<ReviewModel.Review>, n: Id, f: Food)
    requires UsersValid(users, n) && FoodsValid(foods, users, n)
    requires RequestsValid(requests, foods, users, n) && ReviewsValid(reviews, users, n)
    requires f.id == n && FoodModel.WellFormed(f) && f.author in users
    ensures UsersValid(users, n + 1) && FoodsValid(foods[n := f], users, n + 1)
    ensures RequestsValid(requests, foods[n := f], users, n + 1) && ReviewsValid(reviews, users, n + 1)
  {
    CounterBump(users, foods, requests, reviews, n, n + 1);
  }

  /** Removing a listing together with every request on it keeps the
      requests referring to existing listings. */
  lemma RemoveFood(users: map<Id, User>, foods: map<Id, Food>, requests: map<Id, Request>, n: Id, foodId: Id)
    requires FoodsValid(foods, users, n) && RequestsValid(requests, foods, users, n)
    ensures FoodsValid(foods - {foodId}, users, n)
    ensures RequestsValid(DeleteRequestsOf(requests, foodId), foods - {foodId}, users, n)
  {
  }

  /** The image-host `destroy` call for each image in turn, recorded in the
      store's deletion log; nothing else changes. */
  method DestroyImages(db: Db, images: seq<Image>)
    modifies db
    ensures db.destroyedImages == old(db.destroyedImages) + Filenames(images)
    ensures db.users == old(db.users) && db.foods == old(db.foods) && db.requests == old(db.requests)
    ensures db.reviews == old(db.reviews) && db.nextId == old(db.nextId)
  {
    for i := 0 to |images|
      invariant db.destroyedImages == old(db.destroyedImages) + Filenames(images[..i])
      invariant db.users == old(db.users) && db.foods == old(db.foods) && db.requests == old(db.requests)
      invariant db.reviews == old(db.reviews) && db.nextId == old(db.nextId)
    {
      assert Filenames(images[..i + 1]) == Filenames(images[..i]) + [images[i].filename];
      db.destroyedImages := db.destroyedImages + [images[i].filename];
    }
    assert images[..|images|] == images;
  }

  /** create: the caller becomes the author whatever the body says, and the
      uploaded files become the images in upload order. */
  method CreateFood(db: Db, callerId: Id, body: FoodBody, files: seq<UploadedFile>, now: int) returns (r: Result<Food>)
    requires db.Valid() && callerId in db.users
    modifies db
    ensures db.Valid()
    ensures r == BuildFood(old(db.nextId), body, callerId, ImagesOf(files), now)
    ensures r.Err? ==> unchanged(db)
    ensures r.Ok? ==>
      && db.foods == old(db.foods)[r.value.id := r.value] && r.value.id !in old(db.foods)
      && db.nextId == old(db.nextId) + 1
      && db.users == old(db.users) && db.requests == old(db.requests) && db.reviews == old(db.reviews)
      && db.destroyedImages == old(db.destroyedImages)
  {
    var images := [];
    if |files| > 0 {
      images := ImagesOf(files);
    }
    r := BuildFood(db.nextId, body, callerId, images, now);
    if r.Ok? {
      InsertFood(db.users, db.foods, db.requests, db.reviews, db.nextId, r.value);
      db.foods := db.foods[db.nextId := r.value];
      db.nextId := db.nextId + 1;
    }
  }

  /** update: 404, then 403 unless owner or admin; then the images no longer
      listed are deleted on the image host, and the listing is saved if it
      passes validation. The host deletions happen even when the save then
      fails. */
  method UpdateFood(db: Db, callerId: Id, foodId: Id, body: UpdateBody, files: seq<UploadedFile>, now: int)
    returns (r: Result<Food>)
    requires db.Valid() && callerId in db.users
    modifies db
    ensures db.Valid()
    ensures foodId !in old(db.foods) ==> r == Err(NotFound(FoodNotFound)) && unchanged(db)
    ensures foodId in old(db.foods) && !MayModify(old(db.foods[foodId]), old(db.users[callerId])) ==>
      r == Err(Forbidden(NotAuthorized)) && unchanged(db)
    ensures foodId in old(db.foods) && MayModify(old(db.foods[foodId]), old(db.users[callerId])) ==>
      && r == Updated(old(db.foods[foodId]), body, files, now)
      && db.destroyedImages == old(db.destroyedImages)
           + Filenames(Dropped(old(db.foods[foodId]).images, RemainingNames(body.existingImages)))
      && db.foods == (if r.Ok? then old(db.foods)[foodId := r.value] else old(db.foods))
      && db.users == old(db.users) && db.requests == old(db.requests) && db.reviews == old(db.reviews)
      && db.nextId == old(db.nextId)
  {
    if foodId !in db.foods {
      return Err(NotFound(FoodNotFound));
    }
    var food := db.foods[foodId];
    if !MayModify(food, db.users[callerId]) {
      return Err(Forbidden(NotAuthorized));
    }
    var remaining := RemainingNames(body.existingImages);
    DestroyImages(db, Dropped(food.images, remaining));
    r := Updated(food, body, files, now);
    if r.Ok? {
      StoreFood(db.requests, db.foods, db.users, db.nextId, r.value);
      db.foods := db.foods[foodId := r.value];
    }
  }

  /** destroy: 404, then 403 unless owner or admin, then 400 unless the
      listing is available; then its images are deleted on the image host
      and the listing and every request on it are removed. */
  method DestroyFood(db: Db, callerId: Id, foodId: Id) returns (r: Result<Food>)
    requires db.Valid() && callerId in db.users
    modifies db
    ensures db.Valid()
    ensures foodId !in old(db.foods) ==> r == Err(NotFound(FoodNotFound))
    ensures foodId in old(db.foods) && !MayModify(old(db.foods[foodId]), old(db.users[callerId])) ==>
      r == Err(Forbidden(NotAuthorized))
    ensures (foodId in old(db.foods) && MayModify(old(db.foods[foodId]), old(db.users[callerId]))
             && old(db.foods[foodId]).status != Available) ==> r == Err(BadRequest(OnlyAvailableDeleted))
    ensures r.Ok? <==>
      foodId in old(db.foods) && MayModify(old(db.foods[foodId]), old(db.users[callerId]))
      && old(db.foods[foodId]).status == Available
    ensures r.Err? ==> unchanged(db)
    ensures r.Ok? ==>
      && r.value == old(db.foods[foodId])
      && db.foods == old(db.foods) - {foodId}
      && db.requests == DeleteRequestsOf(old(db.requests), foodId)
      && db.destroyedImages == old(db.destroyedImages) + Filenames(r.value.images)
      && db.users == old(db.users) && db.reviews == old(db.reviews) && db.nextId == old(db.nextId)
  {
    if foodId !in db.foods {
      return Err(NotFound(FoodNotFound));
    }
    var food := db.foods[foodId];
    if !MayModify(food, db.users[callerId]) {
      return Err(Forbidden(NotAuthorized));
    }
    if food.status != Available {
      return Err(BadRequest(OnlyAvailableDeleted));
    }
    DestroyImages(db, food.images);
    RemoveFood(db.users, db.foods, db.requests, db.nextId, foodId);
    db.requests := DeleteRequestsOf(db.requests, foodId);
    db.foods := db.foods - {foodId};
    r := Ok(food);
  }
}
