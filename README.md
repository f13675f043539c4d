# Food surplus marketplace: request, listing and review lifecycle

This project models the server core of a neighbourhood food-surplus
marketplace. Donors list surplus food. Receivers request part of a listing,
and the donor approves or rejects each request. After an approved request
the receiver rates the donor, and a daily job turns stale edible listings
into compost. It also models the relative timestamps the web client shows,
and the older request handlers kept at the repository root.

The model is written in Dafny.

- **Data.** One datatype per stored record (`FoodModel.Food`,
  `RequestModel.Request`, `ReviewModel.Review`, `UserModel.User`) carries the
  schemas' enums, defaults and bounds.
- **Store.** The database is the class `Store.Db`. It holds one map per
  collection, keyed by document id, the review list, an id counter, and a
  ghost log of the filenames passed to the image host's delete call.
- **Store invariant.** `Db.Valid()` states the integrity every handler keeps:
  - referential integrity;
  - the unique e-mail index;
  - the unique per-request review index;
  - each user's rating equals the recount over that user's reviews.
- **Handlers.** Each handler is a pure decision function followed by a
  method:
  - The decision function checks the guards in the handler's order and
    states which error each guard gives, plus exactly when the call succeeds.
  - The method on `Db` applies that decision. It states the whole new store
    and keeps `Valid()`.
- **Loops.** The job's bulk update and the per-image delete calls are
  methods with loops, proved against the functions that specify them.

Points where the code behaves in a way a reader might not expect, and
which the model follows:

- rejectRequest (Backend/controllers/requests.js:111-122) does not check
  that the request is pending: an approved request can be rejected, and the
  listing keeps the quantity the approval took.
- createReview (Backend/controllers/review.js:43-45) sets `request.reviewed`
  and `request.review`, but the Request schema (Backend/models/request.js)
  declares neither path, so saving the request stores nothing. The
  "Already reviewed" guard (Backend/controllers/review.js:30-32) therefore
  never fires on a stored request. A second review of the same request is
  refused by the unique index on `Review.request`, as a server error (500).
- The lifecycle job's `updateMany` (Backend/utils/foodLifecycleJob.js:15-27)
  runs on a schema with timestamps (Backend/models/food.js:56), so it also
  stamps `updatedAt`.
- The legacy createRequest (controllers/requests.js:37-39) marks the whole
  listing `requested` on the first request, and the legacy rejectRequest
  (controllers/requests.js:89-90) never reopens it.

## Model

| member | source | states |
|---|---|---|
| FoodModel.ParseQuantityUnit | Backend/models/food.js:8-12 | a unit is accepted only under its own schema name |
| FoodModel.ParseFoodType | Backend/models/food.js:13-17 | a food type is accepted only under its own schema name |
| FoodModel.ParseFoodStatus | Backend/models/food.js:33-37 | a status is accepted only under its own schema name |
| FoodModel.EnumNamesRoundTrip | Backend/models/food.js:8-37 | every enum member's name is accepted and parses back to that member |
| FoodModel.BuildFood | Backend/models/food.js:3-59 | a new listing saves iff title, address, quantity and a valid foodType are present, the unit and status, when given, are enum members, and the location is a valid longitude/latitude point; a validation failure gives a validation error, and a valid document with a bad point gives the geo index's server error; defaults are plates, available, pickup window from now to now plus two days, both timestamps now |
| FoodModel.ValidPoint | Backend/models/food.js:45-59 | a point the 2dsphere index accepts: at least two positions, the first a longitude in -180..180 and the second a latitude in -90..90; further positions such as an altitude are allowed |
| FoodModel.PointWithAltitudeAccepted | Backend/models/food.js:45-59 | a location with an altitude after longitude and latitude is stored as given, and a single position is refused with the geo index's error |
| FoodModel.NegativeQuantityAccepted | Backend/models/food.js:7 | quantity has no lower bound in the schema: a negative quantity is stored as given |
| RequestModel.NewRequest | Backend/models/request.js:14-46 | a new request is pending, unseen by the donor, seen by the receiver, with empty requester coordinates, and carries the requested quantity |
| ReviewModel.AppendKeepsUnique | Backend/models/review.js:14-19 | appending a review keeps one review per request iff the request had none |
| UserModel.ParseRole | Backend/models/user.js:21-25 | a role is accepted only under its own schema name |
| UserModel.RoleNameRoundTrip | Backend/models/user.js:21-25 | every role's name, admin included, is accepted and parses back to that role |
| UserModel.Lower | Backend/models/user.js:8-13 | the lowercase setter keeps the length and lower-cases each letter |
| UserModel.LowerIdempotent | Backend/models/user.js:8-13 | lower-casing a stored e-mail again changes nothing, so lookups by it succeed |
| Ratings.DonorReviews | Backend/controllers/review.js:49 | the donor's reviews are exactly the stored reviews naming that donor, never more than are stored |
| Ratings.DonorReviewsMultiset | Backend/controllers/review.js:49-54 | each review naming the donor appears as often as it is stored and no other review appears, so the count is exact |
| Ratings.DonorReviewsConcat | Backend/controllers/review.js:49 | the filter keeps stored order: filtering two runs of reviews gives the two filtered runs in order |
| Ratings.Total | Backend/controllers/review.js:51 | the sum of the ratings; its bounds are stated by Ratings.TotalBounds |
| Ratings.RatingOf | Backend/controllers/review.js:48-56 | a user's rating counts exactly the reviews naming the user as donor, and is the default rating while there are none |
| Ratings.Average | Backend/controllers/review.js:55 | the average in hundredths is the nearest hundredth of total/count, ties rounding up |
| Ratings.TotalBounds | Backend/controllers/review.js:51 | with ratings from 1 to 5 the sum lies between count and 5 times count |
| Ratings.DonorReviewsWellFormed | Backend/controllers/review.js:49 | the donor's reviews keep the schema's 1 to 5 rating bound |
| Ratings.AverageBounds | Backend/controllers/review.js:51-55 | an average of ratings between 1 and 5 lies between 1.00 and 5.00 |
| Ratings.RatingInRange | Backend/controllers/review.js:48-56 | a donor with at least one review has an average between 1.00 and 5.00 |
| Ratings.DonorReviewsAppend | Backend/controllers/review.js:49 | a new review extends the list of its own donor and no other |
| Ratings.RecountAfterAppend | Backend/controllers/review.js:48-56 | after a review only its donor's rating changes, and that donor's count grows by one |
| Ratings.TwoReviewsExample | Backend/controllers/review.js:51-56 | reviews of 4 and 5 give the donor count 2 and average 4.50 |
| RequestsController.CreateRequestDecision | Backend/controllers/requests.js:9-52 | guards in order: 404 missing listing, 400 not available, 403 not a receiver, 400 own listing, 400 missing or non-positive quantity, 400 quantity above the listing's, 400 a pending request by the caller on the listing; success iff all pass, and the new request is pending with the requested quantity |
| RequestsController.TakeQuantity | Backend/controllers/requests.js:81-92 | the listing loses exactly the quantity and is picked iff none is left, otherwise available |
| RequestsController.ApproveDecision | Backend/controllers/requests.js:66-94 | guards in order: 404, 403 not the author, 400 not pending, 400 insufficient quantity; success iff all pass; then the quantity drops by the requested amount and stays at least 0, and the request is approved |
| RequestsController.RejectDecision | Backend/controllers/requests.js:111-121 | only 404 and 403; success iff the caller authors the listing, whatever the request's status, and the request becomes rejected |
| RequestsController.MyRequests | Backend/controllers/requests.js:133-140 | exactly the caller's requests, with count their number |
| RequestsController.CreateRequest | Backend/controllers/requests.js:9-52 | on success exactly one request is inserted under a fresh id and the listing is unchanged; on error nothing changes |
| RequestsController.ApproveRequest | Backend/controllers/requests.js:66-97 | on success the listing and the request are replaced by the approved pair; on any error, insufficient quantity included, nothing is saved |
| RequestsController.RejectRequest | Backend/controllers/requests.js:111-122 | on success only the request's status changes; the listing is untouched |
| RequestsController.ApprovalToZeroClosesListing | Backend/controllers/requests.js:81-92 | an approval that takes the quantity to 0 picks the listing, and every later request on it fails the availability guard |
| RequestsController.HasPendingRequest | Backend/controllers/requests.js:38-42 | the duplicate query: some stored request by the caller on the listing is pending |
| RequestsController.DecidedRequestAllowsAnother | Backend/controllers/requests.js:38-46 | in a store with at most one pending request per listing and receiver, a pending request blocks a duplicate; once it is approved or rejected none is pending for that pair, so the receiver may request again, and the store keeps at most one pending per pair |
| Store.PendingUnique | Backend/controllers/requests.js:38-46 | at most one pending request per listing and receiver, which the duplicate guard maintains |
| Store.FoodsResolve | Backend/models/request.js:14-46 | every stored request names an existing listing and is well formed, so populating its listing finds one |
| Store.Db.Valid | Backend/models/user.js:8-13 | the store invariant: references resolve, e-mails are unique and lower-case, one review per request, at most one pending request per listing and receiver, and every rating is the recount of its reviews |
| RequestsController.OnlyAuthorApproves | Backend/controllers/requests.js:72-74 | an approval or rejection succeeds only for the listing's author |
| RequestsController.PartialApprovalScenario | Backend/controllers/requests.js:81-92 | with 10 kg listed and requests for 4 and 7, approving the first leaves 6 available and the second then fails for insufficient quantity |
| FoodsController.Index | Backend/controllers/foods.js:8-13 | exactly the edible listings not yet picked, with count their number |
| FoodsController.Show | Backend/controllers/foods.js:26-33 | the listing iff it exists, otherwise 404 |
| FoodsController.MyFoods | Backend/controllers/foods.js:231-236 | exactly the caller's listings, with count their number |
| FoodsController.GetFoodWithRequests | Backend/controllers/foods.js:248-265 | 404, then 403 for anyone but the author (no admin override); on success every request referring to the listing |
| FoodsController.ImagesOf | Backend/controllers/foods.js:61-66 | one image entry per uploaded file, path and filename, in upload order |
| FoodsController.RemainingNames | Backend/controllers/foods.js:127-132 | an absent list or an empty string (falsy) is empty, any other single string becomes a one-element list, and an array is kept as sent |
| FoodsController.EmptyExistingDropsAll | Backend/controllers/foods.js:127-141 | an empty `existingImages` string keeps no image and deletes every stored image |
| FoodsController.Kept | Backend/controllers/foods.js:144-146 | the stored images whose filename is listed, in stored order, never more than are stored |
| FoodsController.Dropped | Backend/controllers/foods.js:135-141 | the stored images whose filename is not listed, never more than are stored |
| FoodsController.KeptDroppedPartition | Backend/controllers/foods.js:135-146 | the images deleted and the images kept together are the stored images, each exactly once |
| FoodsController.KeptDroppedMembers | Backend/controllers/foods.js:135-146 | an image is kept iff stored and listed, deleted iff stored and not listed, so listed names of absent images add nothing |
| FoodsController.KeptPreservesOrder | Backend/controllers/foods.js:144-146 | the kept images keep their stored order |
| FoodsController.DropAll | Backend/controllers/foods.js:135-146 | listing none of the stored filenames keeps nothing and deletes every image |
| FoodsController.KeepAll | Backend/controllers/foods.js:144-146 | listing every stored filename keeps all images and deletes none |
| FoodsController.Updated | Backend/controllers/foods.js:108-158 | the update saves iff the required fields and enums validate and [longitude, latitude] is a valid point, a bad point giving the geo index's server error; it sets the basic fields, the location, kept images followed by the uploads, an omitted unit reading back as plates, and never status, author or creation time |
| FoodsController.MayModify | Backend/controllers/foods.js:94-98 | the owner-or-admin test that update and delete apply |
| FoodsController.DeleteRequestsOf | Backend/controllers/foods.js:211 | exactly the requests on other listings remain |
| FoodsController.RemoveFood | Backend/controllers/foods.js:211-214 | deleting a listing with its requests keeps every remaining request's listing present |
| FoodsController.DestroyImages | Backend/controllers/foods.js:139-141 | one delete call per image, in order, and no other change |
| FoodsController.CreateFood | Backend/controllers/foods.js:55-68 | the author is the caller whatever the body says, the images are the uploads, and the store gains exactly that listing |
| FoodsController.UpdateFood | Backend/controllers/foods.js:85-160 | 404, then 403 unless author or admin; then the unlisted images are deleted on the host, even when validation then fails, and the listing is replaced iff it validates |
| FoodsController.DestroyFood | Backend/controllers/foods.js:178-214 | 404, 403 unless author or admin, 400 unless available; on success the images are deleted and the listing is removed with every request on it |
| ReviewsController.ReviewDecision | Backend/controllers/review.js:9-40 | rating outside 1 to 5 or missing gives 400 before any lookup, then 404, 403 not the requester, 400 not approved, 500 a duplicate for the same request; success iff all pass, and the review names the listing's author as donor and the caller as receiver |
| ReviewsController.GetReviewsForDonor | Backend/controllers/review.js:71-78 | exactly the reviews naming the user as donor, each as often as it is stored, with count their number; the filter keeps stored order by Ratings.DonorReviewsConcat |
| ReviewsController.AppendReview | Backend/controllers/review.js:48-58 | inserting a review and recounting its donor keeps every user's rating equal to that user's recount |
| ReviewsController.ReviewKeepsValid | Backend/controllers/review.js:35-58 | inserting a review under the next id and recounting its donor keeps the whole store invariant |
| ReviewsController.CreateReview | Backend/controllers/review.js:9-58 | on success the review is appended and the donor's rating becomes the recount over all of the donor's reviews; the request is stored unchanged; on error nothing changes |
| ReviewsController.DonorRatingAfterReview | Backend/controllers/review.js:48-56 | after a review the donor's count is the number of the donor's reviews, one more than before, and the average lies in 1.00 to 5.00 |
| ReviewsController.SecondReviewRefused | Backend/controllers/review.js:30-45 | a second review of the same request fails with the unique index's server error |
| UsersController.ResponseOf | Backend/controllers/users.js:30-36 | the response carries the user's id and a token for that id, and no password |
| UsersController.RegisterDecision | Backend/controllers/users.js:11-27 | a taken e-mail gives 400; otherwise the user is created iff a password, name, e-mail and a schema role are given, with the hashed password, lower-cased e-mail, role defaulting to donor and default rating |
| UsersController.RegisterRoles | Backend/controllers/users.js:26 | no role gives a donor, and a supplied admin role is accepted |
| UsersController.Register | Backend/controllers/users.js:11-36 | the store gains exactly the new user under a fresh id; on error nothing changes |
| UsersController.NewUserKeepsValid | Backend/controllers/users.js:22-27 | a fresh user with an unused e-mail and the default rating keeps the store valid |
| UsersController.EmailTaken | Backend/controllers/users.js:11 | the e-mail lookup: some stored user has the lower-cased e-mail |
| UsersController.Login | Backend/controllers/users.js:51-73 | success iff a password is given, a stored user has the lower-cased e-mail and the password matches; an unknown e-mail and a wrong password give the same 401, and a missing password for a known e-mail gives a server error |
| UsersController.ChangeRoleDecision | Backend/controllers/users.js:87-89 | donor and receiver are accepted and nothing else; admin is never granted |
| UsersController.ChangeRole | Backend/controllers/users.js:87-97 | on success only the caller's role changes, to the requested one, which is returned; otherwise 400 and nothing changes |
| FoodLifecycleJob.Cutoff | Backend/utils/foodLifecycleJob.js:12-13 | the cutoff is exactly three days before the run |
| FoodLifecycleJob.Stale | Backend/utils/foodLifecycleJob.js:16-20 | the job's filter: edible, available and created at or before the cutoff |
| FoodLifecycleJob.Composted | Backend/utils/foodLifecycleJob.js:22-25 | a converted listing is compost and picked, and only those fields and updatedAt change |
| FoodLifecycleJob.Selected | Backend/utils/foodLifecycleJob.js:16-20 | a listing is selected iff edible, available and created at or before the cutoff |
| FoodLifecycleJob.Swept | Backend/utils/foodLifecycleJob.js:15-27 | selected listings are converted and every other listing is left exactly as it was |
| FoodLifecycleJob.SweepIdempotent | Backend/utils/foodLifecycleJob.js:16-25 | after a run nothing is selected, and a second run with the same cutoff changes nothing |
| FoodLifecycleJob.SweepLeavesIndex | Backend/utils/foodLifecycleJob.js:22-25 | the public index loses exactly the selected listings |
| FoodLifecycleJob.ApprovalAfterSweep | Backend/utils/foodLifecycleJob.js:22-25 | a pending request on a swept listing can still be approved, which makes it available again while it stays compost |
| FoodLifecycleJob.SweepKeepsValid | Backend/utils/foodLifecycleJob.js:15-27 | the sweep keeps the store's listings and requests valid |
| FoodLifecycleJob.SweepFoods | Backend/utils/foodLifecycleJob.js:15-31 | the loop's result is the swept collection, and its count is the number of selected listings |
| FoodLifecycleJob.RunJob | Backend/utils/foodLifecycleJob.js:12-31 | the store's listings become the swept collection, nothing else changes, and modifiedCount is the number selected |
| TimeAgo.DiffSeconds | Frontend/src/utils/time.js:12 | the elapsed whole seconds are the floor of the millisecond difference over 1000, negative for a future instant |
| TimeAgo.Classify | Frontend/src/utils/time.js:14-19 | the five buckets are selected by exactly their bounds; minutes in 1..59, hours in 1..23, days in 1..6, each the floor of the elapsed time |
| TimeAgo.ClassifyMonotone | Frontend/src/utils/time.js:14-19 | a longer elapsed time never gets a label that reads as more recent |
| TimeAgo.DigitsOf | Frontend/src/utils/time.js:15-17 | a count prints as a non-empty string of decimal digits |
| TimeAgo.DigitsRoundTrip | Frontend/src/utils/time.js:15-17 | the printed digits read back as the count |
| TimeAgo.Render | Frontend/src/utils/time.js:14-19 | the text of each bucket: "Just now", "N min ago", "N hours ago", "N days ago", or the formatted date |
| TimeAgo.TimeAgo | Frontend/src/utils/time.js:9-20 | under a minute, a future instant included, reads "Just now"; a week or more reads as the formatted date |
| TimeAgo.Examples | Frontend/src/utils/time.js:12-17 | 90 s reads "1 min ago", one hour "1 hours ago", a future instant "Just now" |
| LegacyRequests.CreateDecision | controllers/requests.js:9-39 | guards in order: 404, 400 not available, 403 not a receiver, 400 any earlier request by the caller on the listing whatever its status; success iff all pass, with a quantity-less pending request and the listing marked requested |
| LegacyRequests.HasRequest | controllers/requests.js:23-26 | the legacy duplicate query: any stored request by the caller on the listing, whatever its status |
| LegacyRequests.OwnerCheck | controllers/requests.js:53-62 | 404 for a missing request, a server error when its listing is gone, 403 unless the caller authors the listing |
| LegacyRequests.MyRequests | controllers/requests.js:101-108 | exactly the caller's requests, with count their number |
| LegacyRequests.LegacyDb.CreateRequest | controllers/requests.js:7-44 | on success the request is inserted and the listing becomes requested; on error nothing changes |
| LegacyRequests.LegacyDb.ApproveRequest | controllers/requests.js:53-70 | with no pending check, the request becomes approved and the listing requested |
| LegacyRequests.LegacyDb.RejectRequest | controllers/requests.js:79-92 | the request becomes rejected and the listing is untouched |
| LegacyRequests.CreateClosesListing | controllers/requests.js:13-39 | after one successful request every later request on the listing fails the availability guard |
| LegacyRequests.RejectKeepsListingClosed | controllers/requests.js:79-90 | rejecting the request leaves the listing requested, so it stays closed to new requests |
| LegacyRequests.RejectedStillDuplicate | controllers/requests.js:23-30 | a receiver whose request was rejected is still refused as a duplicate on an available listing |

## Left out

- Authentication middleware, JWT signing and bcrypt are foreign code. The caller is an id present in the store, the hash and the password comparison are function parameters, and a token is the id it is issued for.
- Image host (Cloudinary) uploads and deletions: a file is its path and filename, and each delete call is one entry in the ghost `destroyedImages` log.
- Ratings.Average: the average is held as an integer number of hundredths, rounded half up from the exact quotient. `toFixed(2)` on a binary double can round a tie differently, and floating point is left out.
- Ratings and quantities are integers. JavaScript coercion of form strings (`Number(...)`, `JSON.parse` of the location, truthiness of `quantity` and `rating`) is not modelled. Coordinates are reals taken as already parsed, so a `NaN` from `Number(...)` is not modelled.
- FoodModel.BuildFood: fields a client adds to the create body besides those in `FoodBody` (images, pickup window, timestamps, author) are not modelled. Images given in the body when no file is uploaded are dropped.
- UserModel.Lower: lower-cases ASCII letters only; JavaScript's full Unicode case mapping is not modelled.
- Calendar arithmetic: "three days ago" and "two days later" are fixed millisecond spans, so daylight-saving shifts are ignored. The cron schedule and the locale date formatting (`formatDate`) are outside the model; the formatted date is a parameter of `TimeAgo.TimeAgo`.
- Concurrency: the handlers run one at a time. Two approvals racing on one listing, and the non-atomic pair of saves in approveRequest, are not modelled.
- Failures of the database or the network, which the handlers turn into a 500, are not modelled. Validation failures are modelled, as a server error with a fixed message.
- `requesterLocation` is never set by createRequest. The model keeps the schema default (empty coordinates, which a required array accepts) and checks no location.
- The populated author and requester fields (name and e-mail joined into responses) are not modelled: responses carry ids.
- LegacyRequests: the root-level models are not part of this model; the legacy handlers use the backend's listing and user records. The model does not stamp `updatedAt` when a legacy handler saves a listing. The root `controllers/foods.js` and `controllers/users.js` are not modelled either.
- FoodsController.Updated: the listing stores no unit when the update body has none, and later reads show plates. The update's own response, which is the document just saved, is not modelled separately and would omit the unit.
- The React pages, the map view, the notification API client and the Express routing are not modelled.
