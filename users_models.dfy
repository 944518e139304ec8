/**
 * The user record: an email that no other user shares, and one of three
 * roles, stored as the strings ADMIN, EVENT_CREATOR and REGULAR_USER.
 */
module UserModels {
  import opened Wrappers

  type UserId = nat

  datatype Role = Admin | EventCreator | RegularUser

  /** A new user is a regular user unless given another role. */
  const DefaultRole: Role := RegularUser

  /** The value stored in the role column for each choice. */
  function RoleValue(r: Role): string {
    match r
    case Admin => "ADMIN"
    case EventCreator => "EVENT_CREATOR"
    case RegularUser => "REGULAR_USER"
  }

  /** Reads a role column value back; a value outside the three choices is rejected. */
  function ParseRole(v: string): (r: Option<Role>)
    ensures r.Some? ==> RoleValue(r.value) == v
  {
    if v == "ADMIN" then Some(Admin)
    else if v == "EVENT_CREATOR" then Some(EventCreator)
    else if v == "REGULAR_USER" then Some(RegularUser)
    else None
  }

  lemma RoleValueRoundTrip(r: Role)
    ensures ParseRole(RoleValue(r)) == Some(r)
  {}

  /** The lower-case words some permission code compares against are not role values. */
  lemma LowerCaseWordsAreNotRoles()
    ensures ParseRole("admin") == None && ParseRole("creator") == None
    ensures forall r: Role :: RoleValue(r) != "admin" && RoleValue(r) != "creator"
  {
    forall r: Role ensures RoleValue(r) != "admin" && RoleValue(r) != "creator" {
      assert RoleValue(r)[0] != 'a' && RoleValue(r)[0] != 'c';
    }
  }

  datatype User = User(id: UserId, email: string, role: Role)

  predicate IsAdmin(u: User) {
    u.role == Admin
  }

  predicate IsEventCreator(u: User) {
    u.role == EventCreator
  }

  predicate IsRegularUser(u: User) {
    u.role == RegularUser
  }

  /** Every user satisfies exactly one of the three role predicates. */
  lemma ExactlyOneRole(u: User)
    ensures IsAdmin(u) || IsEventCreator(u) || IsRegularUser(u)
    ensures !(IsAdmin(u) && IsEventCreator(u))
    ensures !(IsAdmin(u) && IsRegularUser(u))
    ensures !(IsEventCreator(u) && IsRegularUser(u))
  {}

  /** A user given no role is a regular user. */
  lemma DefaultRoleIsRegular(u: User)
    requires u.role == DefaultRole
    ensures IsRegularUser(u) && !IsAdmin(u) && !IsEventCreator(u)
  {}

  /** The author of a request: an anonymous visitor or a signed-in user. */
  datatype Actor = Anonymous | Authenticated(user: User)

  /** No two users share an email address. */
  predicate EmailsUnique(users: seq<User>) {
    forall i, j :: 0 <= i < j < |users| ==> users[i].email != users[j].email
  }

  /**
   * Stores a new user row. The unique constraint on email refuses a row
   * whose email is already taken.
   */
  function AddUser(users: seq<User>, u: User): (r: Option<seq<User>>)
    ensures r.None? <==> exists v :: v in users && v.email == u.email
    ensures r.Some? ==> r.value == users + [u]
    ensures EmailsUnique(users) && r.Some? ==> EmailsUnique(r.value)
  {
    if exists v :: v in users && v.email == u.email then None
    else
      assert forall i :: 0 <= i < |users| ==> users[i] in users;
      Some(users + [u])
  }
}
