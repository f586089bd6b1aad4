/** The `User` schema (backend/models/User.js) and the user collection, whose
    unique indexes on the document id and on `email` reject a conflicting save. */
module UserModel {
  import opened Common

  /** The `role` enum. */
  datatype Role = Admin | Member | Client

  function RoleName(r: Role): string {
    match r
    case Admin => "admin"
    case Member => "member"
    case Client => "client"
  }

  /** The enum check on `role`: only the three names are accepted. */
  function ParseRole(s: string): (r: Option<Role>)
    ensures r.Some? <==> s == "admin" || s == "member" || s == "client"
    ensures r.Some? ==> RoleName(r.value) == s
  {
    if s == "admin" then Some(Admin)
    else if s == "member" then Some(Member)
    else if s == "client" then Some(Client)
    else None
  }

  /** One entry of `bmiHistory`: `id` is the millisecond clock when it was
      recorded, `date` and `time` the locale renderings of that moment. */
  datatype BmiEntry = BmiEntry(
    id: int,
    date: string,
    time: string,
    height: real,
    weight: real,
    bmi: real,
    category: string)

  const DefaultAvatar: string :=
    "https://images.unsplash.com/photo-1539571696357-5a69c17a67c6?q=80&w=2662&auto-format&fit=crop"
  const DefaultGoal: string := "No goal set"

  /** One user document; dates are day numbers. `role` is optional because a
      document may lack it, which the login route allows for. */
  datatype User = User(
    id: string,
    name: string,
    email: string,
    password: string,
    phone: Option<string>,
    dob: Option<int>,
    avatar: string,
    goal: string,
    bmiHistory: seq<BmiEntry>,
    role: Option<Role>,
    verificationCode: Option<string>,
    verificationCodeExpires: Option<int>,
    isVerified: bool,
    resetPasswordCode: Option<string>,
    resetPasswordExpires: Option<int>)

  /** The required strings `name`, `email` and `password` are non-empty. */
  predicate ValidUser(u: User) {
    u.name != "" && u.email != "" && u.password != ""
  }

  ghost predicate EmailsUnique(users: seq<User>) {
    forall i, j :: 0 <= i < j < |users| ==> users[i].email != users[j].email
  }

  ghost predicate IdsUnique(users: seq<User>) {
    forall i, j :: 0 <= i < j < |users| ==> users[i].id != users[j].id
  }

  /** `new User({ name, email, password, role })` with the schema defaults:
      `role` defaults to member and must be one of the enum names, `goal`,
      `avatar`, `bmiHistory` and `isVerified` take their defaults, and the
      optional fields start absent. `None` is validation failing. */
  function NewUser(id: string, name: string, email: string, password: string, role: Option<string>)
    : (r: Option<User>)
    ensures r.Some? <==>
      name != "" && email != "" && password != "" && (role.None? || ParseRole(role.value).Some?)
    ensures r.Some? ==> ValidUser(r.value)
    ensures r.Some? ==>
      r.value.id == id && r.value.name == name && r.value.email == email && r.value.password == password
    ensures r.Some? ==> r.value.role == (if role.None? then Some(Member) else ParseRole(role.value))
    ensures r.Some? ==>
      r.value.goal == DefaultGoal && r.value.avatar == DefaultAvatar && r.value.bmiHistory == []
      && !r.value.isVerified && r.value.phone.None? && r.value.dob.None?
      && r.value.verificationCode.None? && r.value.resetPasswordCode.None?
  {
    if name == "" || email == "" || password == "" then None
    else
      var parsed := if role.None? then Some(Member) else ParseRole(role.value);
      if parsed.None? then None
      else Some(User(id, name, email, password, None, None, DefaultAvatar, DefaultGoal, [],
                     parsed, None, None, false, None, None))
  }

  /** `User.findById(id)`: the position of the user with that id. */
  function FindById(users: seq<User>, id: string): (r: Option<nat>)
    ensures r.Some? ==> r.value < |users| && users[r.value].id == id
    ensures r.None? ==> forall j :: 0 <= j < |users| ==> users[j].id != id
  {
    if users == [] then None
    else if users[0].id == id then Some(0)
    else
      match FindById(users[1..], id)
      case Some(k) => Some(k + 1)
      case None => None
  }

  /** `User.findOne({ email })`: the position of the first user with that email. */
  function FindByEmail(users: seq<User>, email: string): (r: Option<nat>)
    ensures r.Some? ==> r.value < |users| && users[r.value].email == email
    ensures r.None? ==> forall j :: 0 <= j < |users| ==> users[j].email != email
  {
    if users == [] then None
    else if users[0].email == email then Some(0)
    else
      match FindByEmail(users[1..], email)
      case Some(k) => Some(k + 1)
      case None => None
  }

  /** The user collection, in insertion order. */
  class UserTable {
    var users: seq<User>

    ghost predicate Valid()
      reads this
    {
      && EmailsUnique(users)
      && IdsUnique(users)
      && forall i :: 0 <= i < |users| ==> ValidUser(users[i])
    }

    constructor ()
      ensures users == [] && Valid()
    {
      users := [];
    }

    /** `save()` of a new document: it fails validation, or it breaks a unique
        index, or it is appended. */
    method Insert(u: User) returns (ok: bool)
      modifies this
      ensures ok <==>
        ValidUser(u) && FindByEmail(old(users), u.email).None? && FindById(old(users), u.id).None?
      ensures users == if ok then old(users) + [u] else old(users)
      ensures old(Valid()) ==> Valid()
    {
      ok := ValidUser(u) && FindByEmail(users, u.email).None? && FindById(users, u.id).None?;
      if ok {
        users := users + [u];
      }
    }

    /** `save()` of the document at position `k`, changed in memory: it fails
        validation, or its email belongs to another user, or it replaces the
        stored document. */
    method Save(k: nat, u: User) returns (ok: bool)
      requires k < |users| && u.id == users[k].id
      modifies this
      ensures ok <==>
        ValidUser(u) && forall j :: 0 <= j < |old(users)| && j != k ==> old(users)[j].email != u.email
      ensures users == if ok then old(users)[k := u] else old(users)
      ensures old(Valid()) ==> Valid()
    {
      ok := ValidUser(u);
      var j := 0;
      while j < |users| && ok
        invariant 0 <= j <= |users|
        invariant ok ==> forall i :: 0 <= i < j && i != k ==> users[i].email != u.email
        invariant ok ==> ValidUser(u)
        invariant !ok ==> !ValidUser(u) || exists i :: 0 <= i < |users| && i != k && users[i].email == u.email
      {
        if j != k && users[j].email == u.email {
          ok := false;
        }
        j := j + 1;
      }
      if ok {
        users := users[k := u];
      }
    }
  }
}
