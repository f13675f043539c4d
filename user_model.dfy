/** The User document: role, credentials and the aggregated donor rating
    (Backend/models/user.js). */
module UserModel {
  import opened Common

  datatype Role = Donor | Receiver | Admin

  /** `rating.average` is kept in hundredths (4.5 is 450), `rating.count` is
      the number of reviews it aggregates. */
  datatype Rating = Rating(average: int, count: nat)

  const DefaultRating := Rating(0, 0)

  datatype User = User(
    id: Id,
    name: string,
    email: string,
    phone: Option<string>,
    password: string,
    role: Role,
    rating: Rating,
    createdAt: int)

  function RoleName(r: Role): string
  {
    match r
    case Donor => "donor"
    case Receiver => "receiver"
    case Admin => "admin"
  }

  /** The enum validator of `role`. */
  function ParseRole(s: string): (r: Option<Role>)
    ensures r.Some? ==> RoleName(r.value) == s
  {
    if s == "donor" then Some(Donor)
    else if s == "receiver" then Some(Receiver)
    else if s == "admin" then Some(Admin)
    else None
  }

  lemma RoleNameRoundTrip(r: Role)
    ensures ParseRole(RoleName(r)) == Some(r)
  {
  }

  function LowerChar(c: char): char
  {
    if 'A' <= c <= 'Z' then (c as int + 32) as char else c
  }

  /** The `lowercase` setter of `email`, on ASCII letters. */
  function Lower(s: string): (r: string)
    ensures |r| == |s|
    ensures forall i :: 0 <= i < |s| ==> r[i] == LowerChar(s[i])
  {
    seq(|s|, i requires 0 <= i < |s| => LowerChar(s[i]))
  }

  /** Lower-casing twice is lower-casing once, so a stored email is its own
      lower-cased form and a lookup by it finds it. */
  lemma LowerIdempotent(s: string)
    ensures Lower(Lower(s)) == Lower(s)
  {
    assert forall i :: 0 <= i < |s| ==> LowerChar(LowerChar(s[i])) == LowerChar(s[i]);
  }

  /** The required fields of a stored user, and the setter's effect on email. */
  predicate WellFormed(u: User)
  {
    u.name != "" && u.email != "" && Lower(u.email) == u.email
  }
}
