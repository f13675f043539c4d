/** The Food document: its enums, defaults and required fields, and how a new
    listing is built from a submitted body (Backend/models/food.js). */
module FoodModel {
  import opened Common

  datatype QuantityUnit = Plates | Kg | Packets
  datatype FoodType = Edible | Compost
  datatype FoodStatus = Available | Requested | Picked

  /** An uploaded image: the image host's URL and the filename it deletes by. */
  datatype Image = Image(url: string, filename: string)

  /** Times are milliseconds since the epoch. */
  datatype PickupWindow = PickupWindow(from: int, to: int)

  /** A listing as the handlers read it back. Mongoose fills a missing
      `quantityUnit` with its default on every load, so a stored listing
      always shows a unit. */
  datatype Food = Food(
    id: Id,
    title: string,
    description: string,
    quantity: int,
    quantityUnit: QuantityUnit,
    foodType: FoodType,
    images: seq<Image>,
    pickupWindow: PickupWindow,
    status: FoodStatus,
    address: string,
    coordinates: seq<real>,
    author: Id,
    createdAt: int,
    updatedAt: int)

  const DayMs := 86400000

  /** The default of pickupWindow.to: two days after the document is built. */
  const PickupSpanMs := 2 * DayMs

  function QuantityUnitName(u: QuantityUnit): string
  {
    match u
    case Plates => "plates"
    case Kg => "kg"
    case Packets => "packets"
  }

  /** The enum validator of quantityUnit: exactly the three names pass. */
  function ParseQuantityUnit(s: string): (r: Option<QuantityUnit>)
    ensures r.Some? ==> QuantityUnitName(r.value) == s
  {
    if s == "plates" then Some(Plates)
    else if s == "kg" then Some(Kg)
    else if s == "packets" then Some(Packets)
    else None
  }

  function FoodTypeName(t: FoodType): string
  {
    match t
    case Edible => "edible"
    case Compost => "compost"
  }

  function ParseFoodType(s: string): (r: Option<FoodType>)
    ensures r.Some? ==> FoodTypeName(r.value) == s
  {
    if s == "edible" then Some(Edible)
    else if s == "compost" then Some(Compost)
    else None
  }

  function FoodStatusName(st: FoodStatus): string
  {
    match st
    case Available => "available"
    case Requested => "requested"
    case Picked => "picked"
  }

  function ParseFoodStatus(s: string): (r: Option<FoodStatus>)
    ensures r.Some? ==> FoodStatusName(r.value) == s
  {
    if s == "available" then Some(Available)
    else if s == "requested" then Some(Requested)
    else if s == "picked" then Some(Picked)
    else None
  }

  /** Every name of an enum parses back to its value: the validators accept
      exactly the declared names. */
  lemma EnumNamesRoundTrip(u: QuantityUnit, t: FoodType, st: FoodStatus)
    ensures ParseQuantityUnit(QuantityUnitName(u)) == Some(u)
    ensures ParseFoodType(FoodTypeName(t)) == Some(t)
    ensures ParseFoodStatus(FoodStatusName(st)) == Some(st)
  {
  }

  /** The schema's required-string check: Mongoose rejects a missing value and
      the empty string alike, so both are the empty string here. */
  predicate Present(s: string)
  {
    s != ""
  }

  /** What the `2dsphere` index accepts as a listing's location: a
      longitude and a latitude within range, as the first two positions;
      further positions (an altitude) are stored and ignored. An array with
      fewer than two positions is refused when the document is written. */
  predicate ValidPoint(c: seq<real>)
  {
    |c| >= 2 && -180.0 <= c[0] <= 180.0 && -90.0 <= c[1] <= 90.0
  }

  /** The error the geo index raises for a location it cannot index. */
  const GeoKeysError := "Can't extract geo keys"

  /** What a stored Food satisfies beyond its types: the required strings and
      an indexable location. */
  predicate WellFormed(f: Food)
  {
    Present(f.title) && Present(f.address) && ValidPoint(f.coordinates)
  }

  /** The submitted body of a new listing. A missing optional string is None;
      a missing required string is "". */
  datatype FoodBody = FoodBody(
    title: string,
    description: string,
    quantity: Option<int>,
    quantityUnit: Option<string>,
    foodType: Option<string>,
    status: Option<string>,
    address: string,
    coordinates: seq<real>)

  /** An optional enum field passes when it is absent or names a member. */
  predicate OptionalUnitValid(s: Option<string>)
  {
    s.None? || ParseQuantityUnit(s.value).Some?
  }

  /** `new Food(body)` followed by `save()`: the defaults are filled in, the
      author and images are the ones given, and validation fails with a
      server error when a required field is missing or an enum value is not
      a member. A document that validates is then refused by the geo index
      when its location cannot be indexed. */
  function BuildFood(id: Id, body: FoodBody, author: Id, images: seq<Image>, now: int): (r: Result<Food>)
    ensures r.Ok? <==>
      && Present(body.title) && Present(body.address)
      && body.quantity.Some?
      && body.foodType.Some? && ParseFoodType(body.foodType.value).Some?
      && OptionalUnitValid(body.quantityUnit)
      && (body.status.None? || ParseFoodStatus(body.status.value).Some?)
      && ValidPoint(body.coordinates)
    ensures r.Err? ==> r.error == ServerError(ValidationFailed) || r.error == ServerError(GeoKeysError)
    ensures r.Err? && r.error == ServerError(GeoKeysError) <==>
      && Present(body.title) && Present(body.address)
      && body.quantity.Some?
      && body.foodType.Some? && ParseFoodType(body.foodType.value).Some?
      && OptionalUnitValid(body.quantityUnit)
      && (body.status.None? || ParseFoodStatus(body.status.value).Some?)
      && !ValidPoint(body.coordinates)
    ensures r.Ok? ==> WellFormed(r.value)
    ensures r.Ok? ==>
      && r.value.id == id && r.value.author == author && r.value.images == images
      && r.value.quantity == body.quantity.value
      && FoodTypeName(r.value.foodType) == body.foodType.value
      && r.value.quantityUnit == (if body.quantityUnit.None? then Plates else ParseQuantityUnit(body.quantityUnit.value).value)
      && r.value.coordinates == body.coordinates
      && r.value.status == (if body.status.None? then Available else ParseFoodStatus(body.status.value).value)
      && r.value.pickupWindow == PickupWindow(now, now + PickupSpanMs)
      && r.value.createdAt == now && r.value.updatedAt == now
  {
    if !Present(body.title) || !Present(body.address) || body.quantity.None? || body.foodType.None? then
      Err(ServerError(ValidationFailed))
    else
      var foodType := ParseFoodType(body.foodType.value);
      var unit := if body.quantityUnit.None? then Some(Plates) else ParseQuantityUnit(body.quantityUnit.value);
      var status := if body.status.None? then Some(Available) else ParseFoodStatus(body.status.value);
      if foodType.None? || unit.None? || status.None? then
        Err(ServerError(ValidationFailed))
      else if !ValidPoint(body.coordinates) then
        Err(ServerError(GeoKeysError))
      else
        Ok(Food(id, body.title, body.description, body.quantity.value, unit.value, foodType.value, images,
                PickupWindow(now, now + PickupSpanMs), status.value, body.address, body.coordinates,
                author, now, now))
  }

  /** The schema puts no lower bound on quantity: a listing offering a
      negative quantity is stored as given. */
  lemma NegativeQuantityAccepted(id: Id, body: FoodBody, author: Id, now: int)
    requires Present(body.title) && Present(body.address)
    requires body.foodType == Some("edible") && body.quantityUnit.None? && body.status.None?
    requires body.quantity == Some(-5) && body.coordinates == [77.2, 28.6]
    ensures BuildFood(id, body, author, [], now).Ok?
    ensures BuildFood(id, body, author, [], now).value.quantity == -5
  {
  }

  /** A position with an altitude after longitude and latitude is indexed
      and stored as given; one with a single position is refused. */
  lemma PointWithAltitudeAccepted(id: Id, body: FoodBody, author: Id, now: int)
    requires Present(body.title) && Present(body.address)
    requires body.foodType == Some("edible") && body.quantityUnit.None? && body.status.None?
    requires body.quantity == Some(3)
    ensures body.coordinates == [77.2, 28.6, 100.0] ==>
      BuildFood(id, body, author, [], now).Ok? && BuildFood(id, body, author, [], now).value.coordinates == [77.2, 28.6, 100.0]
    ensures body.coordinates == [77.2] ==> BuildFood(id, body, author, [], now) == Err(ServerError(GeoKeysError))
  {
  }
}
