/** Registration, login and role change (Backend/controllers/users.js).
    Password hashing and comparison and token signing are foreign
    libraries: the hash and the comparison are parameters, and a token is
    represented by the id it is signed for. */
module UsersController {
  import opened Common
  import opened UserModel
  import opened Store

  const UserExists := "User already exists"
  const InvalidCredentials := "Invalid email or password"
  const InvalidRole := "Invalid role"
  /** What the hashing library throws for a missing password. */
  const IllegalArguments := "Illegal arguments"

  /** A signed token naming the user it was issued for. */
  datatype Token = Token(subject: Id)

  /** The register and login response: no password field exists. */
  datatype AuthResponse = AuthResponse(id: Id, name: string, email: string, role: Role, token: Token)

  function ResponseOf(u: User): (r: AuthResponse)
    ensures r.id == u.id && r.token == Token(u.id)
  {
    AuthResponse(u.id, u.name, u.email, u.role, Token(u.id))
  }

  /** `User.findOne({ email })`: the lowercase setter applies to the query. */
  predicate EmailTaken(users: map<Id, User>, email: string)
  {
    exists id :: id in users && users[id].email == Lower(email)
  }

  /** `role || 'donor'`: an absent (empty) role defaults to donor. */
  function RequestedRole(role: string): string
  {
    if role == "" then "donor" else role
  }

  /** register: 400 if the email is taken; then the password is hashed (the
      library throws on a missing one) and the user is created, failing
      validation when the name or email is missing or the role is not one of
      the schema's three. A supplied role, admin included, is kept. */
  function RegisterDecision(users: map<Id, User>, name: string, email: string, password: Option<string>,
                            role: string, hash: string -> string, id: Id, now: int): (r: Result<User>)
    ensures EmailTaken(users, email) ==> r == Err(BadRequest(UserExists))
    ensures !EmailTaken(users, email) && password.None? ==> r == Err(ServerError(IllegalArguments))
    ensures r.Ok? <==>
      !EmailTaken(users, email) && password.Some? && name != "" && email != ""
      && ParseRole(RequestedRole(role)).Some?
    ensures r.Ok? ==>
      && r.value.id == id && r.value.name == name && r.value.email == Lower(email)
      && r.value.password == hash(password.value)
      && RoleName(r.value.role) == RequestedRole(role)
      && r.value.rating == DefaultRating && r.value.phone.None? && r.value.createdAt == now
      && WellFormed(r.value)
  {
    if EmailTaken(users, email) then Err(BadRequest(UserExists))
    else if password.None? then Err(ServerError(IllegalArguments))
    else
      var parsed := ParseRole(RequestedRole(role));
      if name == "" || email == "" || parsed.None? then Err(ServerError(ValidationFailed))
      else
        LowerIdempotent(email);
        Ok(User(id, name, Lower(email), None, hash(password.value), parsed.value, DefaultRating, now))
  }

  /** With no role supplied a new user is a donor; a supplied "admin" is
      accepted, since only the schema enum constrains it. */
  lemma RegisterRoles(users: map<Id, User>, name: string, email: string, password: string,
                      hash: string -> string, id: Id, now: int)
    requires !EmailTaken(users, email) && name != "" && email != ""
    ensures RegisterDecision(users, name, email, Some(password), "", hash, id, now).Ok?
    ensures RegisterDecision(users, name, email, Some(password), "", hash, id, now).value.role == Donor
    ensures RegisterDecision(users, name, email, Some(password), "admin", hash, id, now).Ok?
    ensures RegisterDecision(users, name, email, Some(password), "admin", hash, id, now).value.role == Admin
  {
    RoleNameRoundTrip(Donor);
    RoleNameRoundTrip(Admin);
  }

  /** changeRole's whitelist: donor or receiver, never admin. */
  function ChangeRoleDecision(role: string): (r: Result<Role>)
    ensures r.Ok? <==> role == "donor" || role == "receiver"
    ensures r.Ok? ==> RoleName(r.value) == role && r.value != Admin
    ensures r.Err? ==> r.error == BadRequest(InvalidRole)
  {
    if role == "donor" then Ok(Donor)
    else if role == "receiver" then Ok(Receiver)
    else Err(BadRequest(InvalidRole))
  }

  /** register: the store gains exactly the new user, under a fresh id. */
  method Register(db: Db, name: string, email: string, password: Option<string>, role: string,
                  hash: string -> string, now: int) returns (r: Result<AuthResponse>)
    requires db.Valid()
    modifies db
    ensures db.Valid()
    ensures var d := RegisterDecision(old(db.users), name, email, password, role, hash, old(db.nextId), now);
      && (d.Err? ==> r == Err(d.error) && unchanged(db))
      && (d.Ok? ==> r == Ok(ResponseOf(d.value))
                    && db.users == old(db.users)[d.value.id := d.value] && d.value.id !in old(db.users)
                    && db.nextId == old(db.nextId) + 1
                    && db.foods == old(db.foods) && db.requests == old(db.requests)
                    && db.reviews == old(db.reviews) && db.destroyedImages == old(db.destroyedImages))
  {
    var d := RegisterDecision(db.users, name, email, password, role, hash, db.nextId, now);
    if d.Err? {
      return Err(d.error);
    }
    var user := d.value;
    NewUserKeepsValid(db.users, db.foods, db.requests, db.reviews, db.nextId, user);
    db.users := db.users[user.id := user];
    db.nextId := db.nextId + 1;
    r := Ok(ResponseOf(user));
  }

  /** A fresh, well-formed user with an unused email and the default rating
      keeps the store valid: no review names the fresh id as donor. */
  lemma NewUserKeepsValid(users: map<Id, User>, foods: map<Id, FoodModel.Food>, requests: map<Id, RequestModel.Request>,
                          reviews: seq<ReviewModel.Review>, n: Id, u: User)
    requires UsersValid(users, n) && FoodsValid(foods, users, n)
    requires RequestsValid(requests, foods, users, n) && ReviewsValid(reviews, users, n)
    requires RatingsConsistent(users, reviews)
    requires u.id == n && WellFormed(u) && u.rating == DefaultRating
    requires forall id :: id in users ==> users[id].email != u.email
    ensures var users' := users[n := u];
      && UsersValid(users', n + 1) && FoodsValid(foods, users', n + 1)
      && RequestsValid(requests, foods, users', n + 1) && ReviewsValid(reviews, users', n + 1)
      && RatingsConsistent(users', reviews)
  {
    var users' := users[n := u];
    assert Ratings.RatingOf(reviews, n) == DefaultRating;
  }

  /** login: 401 for an unknown e-mail; for a known one the comparison
      library throws on a missing password (a server error), and a wrong
      password gives the same 401 as an unknown e-mail. */
  method Login(db: Db, email: string, password: Option<string>, compare: (string, string) -> bool)
    returns (r: Result<AuthResponse>)
    requires db.Valid()
    ensures !EmailTaken(db.users, email) ==> r == Err(Unauthorized(InvalidCredentials))
    ensures EmailTaken(db.users, email) && password.None? ==> r == Err(ServerError(IllegalArguments))
    ensures r.Ok? <==> password.Some? && exists id :: id in db.users && db.users[id].email == Lower(email)
                                                       && compare(password.value, db.users[id].password)
    ensures r.Err? ==> r.error == Unauthorized(InvalidCredentials) || r.error == ServerError(IllegalArguments)
    ensures r.Ok? ==> r.value.id in db.users && r.value == ResponseOf(db.users[r.value.id])
                      && db.users[r.value.id].email == Lower(email)
  {
    if !EmailTaken(db.users, email) {
      return Err(Unauthorized(InvalidCredentials));
    }
    var id :| id in db.users && db.users[id].email == Lower(email);
    var user := db.users[id];
    if password.None? {
      return Err(ServerError(IllegalArguments));
    }
    if !compare(password.value, user.password) {
      return Err(Unauthorized(InvalidCredentials));
    }
    r := Ok(ResponseOf(user));
  }

  /** changeRole: the caller's role becomes the requested one and is
      returned; anything but donor or receiver leaves it unchanged. */
  method ChangeRole(db: Db, callerId: Id, role: string) returns (r: Result<Role>)
    requires db.Valid() && callerId in db.users
    modifies db
    ensures db.Valid()
    ensures r == ChangeRoleDecision(role)
    ensures r.Err? ==> unchanged(db)
    ensures r.Ok? ==>
      && db.users == old(db.users)[callerId := old(db.users[callerId]).(role := r.value)]
      && db.foods == old(db.foods) && db.requests == old(db.requests) && db.reviews == old(db.reviews)
      && db.nextId == old(db.nextId) && db.destroyedImages == old(db.destroyedImages)
  {
    r := ChangeRoleDecision(role);
    if r.Ok? {
      var user := db.users[callerId].(role := r.value);
      assert Ratings.RatingOf(db.reviews, callerId) == user.rating;
      db.users := db.users[callerId := user];
    }
  }
}
