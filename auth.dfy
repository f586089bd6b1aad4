/** The authentication routes (backend/routes/auth.js): signup, login and
    admin creation over the user collection. Password hashing and comparison
    (`bcrypt`) and token signing (`jwt.sign`) are the parameters `hash`,
    `compare` and `sign`; the id a new document receives is `newId`. */
module Auth {
  import opened Common
  import opened UserModel
  import opened AuthMiddleware

  /** The document `POST /signup` builds: the password is stored hashed and
      an empty role becomes `"member"`. An absent password makes the hashing
      throw, so no document is built. */
  function SignupDocument(newId: string, name: string, email: string, password: Option<string>, role: string,
                          hash: string -> string): (r: Option<User>)
    ensures password.None? ==> r.None?
    ensures r.Some? ==> r.value.id == newId && r.value.email == email && r.value.password == hash(password.value)
    ensures r.Some? ==> r.value.role == (if role == "" then Some(Member) else ParseRole(role))
    ensures password.Some? && name != "" && email != "" && hash(password.value) != "" ==>
      (r.Some? <==> role == "" || ParseRole(role).Some?)
  {
    if password.None? then None
    else NewUser(newId, name, email, hash(password.value), Some(if role == "" then "member" else role))
  }

  /** The document `POST /create-admin` builds: role admin, and an empty name
      becomes `"Admin User"`. */
  function AdminDocument(newId: string, name: string, email: string, password: Option<string>,
                         hash: string -> string): (r: Option<User>)
    ensures r.Some? <==> password.Some? && email != "" && hash(password.value) != ""
    ensures r.Some? ==>
      r.value.role == Some(Admin) && r.value.email == email && r.value.password == hash(password.value)
      && r.value.name == (if name == "" then "Admin User" else name)
  {
    if password.None? then None
    else NewUser(newId, if name == "" then "Admin User" else name, email, hash(password.value), Some("admin"))
  }

  /** `User.findOne({ email })` finds a user. Mongoose drops a filter key
      whose value is `undefined`, so a body without `email` (`None`) queries
      `findOne({})`, which finds a user whenever there is one. */
  function EmailTaken(users: seq<User>, email: Option<string>): (b: bool)
    ensures email.Some? ==> (b <==> exists j :: 0 <= j < |users| && users[j].email == email.value)
    ensures email.None? ==> (b <==> users != [])
  {
    if email.None? then users != [] else FindByEmail(users, email.value).Some?
  }

  /** `POST /signup`: 400 when the lookup by email finds a user; otherwise
      the document is saved (201), or building or saving it fails (500). An
      absent email is stored as no email, which validation refuses. */
  method Signup(table: UserTable, newId: string, name: string, email: Option<string>, password: Option<string>,
                role: string, hash: string -> string) returns (reply: Reply<string>)
    modifies table
    ensures EmailTaken(old(table.users), email) ==>
      reply == Fail(400, "User already exists") && table.users == old(table.users)
    ensures !EmailTaken(old(table.users), email) ==>
      var doc := SignupDocument(newId, name, email.GetOr(""), password, role, hash);
      (reply.Ok? <==> doc.Some? && FindById(old(table.users), newId).None?)
      && (reply.Ok? ==> reply == Ok(201, "User created successfully") && table.users == old(table.users) + [doc.value])
      && (reply.Fail? ==> reply == Fail(500, "Server error") && table.users == old(table.users))
    ensures old(table.Valid()) ==> table.Valid()
  {
    if EmailTaken(table.users, email) {
      reply := Fail(400, "User already exists");
      return;
    }
    if password.None? {
      reply := Fail(500, "Server error");
      return;
    }
    var hashed := hash(password.value);
    var doc := NewUser(newId, name, email.GetOr(""), hashed, Some(if role == "" then "member" else role));
    if doc.None? {
      reply := Fail(500, "Server error");
      return;
    }
    var ok := table.Insert(doc.value);
    if !ok {
      reply := Fail(500, "Server error");
      return;
    }
    reply := Ok(201, "User created successfully");
  }

  /** The body of a successful `POST /create-admin`. */
  datatype AdminCreated = AdminCreated(message: string, email: string, role: Role)

  /** `POST /create-admin`: like signup, with role admin and its own message
      for a taken email. */
  method CreateAdmin(table: UserTable, newId: string, name: string, email: Option<string>, password: Option<string>,
                     hash: string -> string) returns (reply: Reply<AdminCreated>)
    modifies table
    ensures EmailTaken(old(table.users), email) ==>
      reply == Fail(400, "User with this email already exists") && table.users == old(table.users)
    ensures !EmailTaken(old(table.users), email) ==>
      var doc := AdminDocument(newId, name, email.GetOr(""), password, hash);
      (reply.Ok? <==> doc.Some? && FindById(old(table.users), newId).None?)
      && (reply.Ok? ==>
            reply == Ok(201, AdminCreated("Admin user created successfully", email.GetOr(""), Admin))
            && table.users == old(table.users) + [doc.value])
      && (reply.Fail? ==> reply == Fail(500, "Server error") && table.users == old(table.users))
    ensures old(table.Valid()) ==> table.Valid()
  {
    if EmailTaken(table.users, email) {
      reply := Fail(400, "User with this email already exists");
      return;
    }
    if password.None? {
      reply := Fail(500, "Server error");
      return;
    }
    var hashed := hash(password.value);
    var doc := NewUser(newId, if name == "" then "Admin User" else name, email.GetOr(""), hashed, Some("admin"));
    if doc.None? {
      reply := Fail(500, "Server error");
      return;
    }
    var ok := table.Insert(doc.value);
    if !ok {
      reply := Fail(500, "Server error");
      return;
    }
    reply := Ok(201, AdminCreated("Admin user created successfully", doc.value.email, Admin));
  }

  /** `userData` of the login reply. */
  datatype UserData = UserData(
    id: string,
    name: string,
    email: string,
    role: Role,
    phone: Option<string>,
    dob: Option<int>,
    goal: string,
    avatar: string)

  /** The body of a successful `POST /login`. */
  datatype LoginBody = LoginBody(message: string, token: string, role: Role, user: UserData)

  /** `POST /login`: both fields are required; an unknown email and a wrong
      password get the same answer; otherwise the reply carries a token
      signed over exactly the id and role, and the user's data with the
      role, goal and avatar defaults filled in. */
  function Login(users: seq<User>, email: string, password: string, compare: (string, string) -> bool,
                 sign: (Claims, string) -> string, secretEnv: string): (r: Reply<LoginBody>)
    ensures email == "" || password == "" ==> r == Fail(400, "Email and password are required")
    ensures r.Ok? <==>
      email != "" && password != "" && FindByEmail(users, email).Some?
      && compare(password, users[FindByEmail(users, email).value].password)
    ensures r.Fail? && email != "" && password != "" ==> r == Fail(400, "Invalid credentials")
    ensures r.Ok? ==>
      var u := users[FindByEmail(users, email).value];
      && r.status == 200
      && r.body.token == sign(Claims(u.id, u.role), JwtSecret(secretEnv))
      && r.body.role == (if u.role.Some? then u.role.value else Member)
      && r.body.user.role == r.body.role
      && r.body.user.id == u.id && r.body.user.email == email && r.body.user.name == u.name
      && r.body.user.goal == (if u.goal == "" then DefaultGoal else u.goal)
      && r.body.user.avatar == (if u.avatar == "" then DefaultAvatar else u.avatar)
  {
    if email == "" || password == "" then Fail(400, "Email and password are required")
    else
      match FindByEmail(users, email)
      case None => Fail(400, "Invalid credentials")
      case Some(k) =>
        var u := users[k];
        if !compare(password, u.password) then Fail(400, "Invalid credentials")
        else
          var token := sign(Claims(u.id, u.role), JwtSecret(secretEnv));
          var role := u.role.GetOr(Member);
          var data := UserData(u.id, u.name, u.email, role, u.phone, u.dob,
                               if u.goal == "" then DefaultGoal else u.goal,
                               if u.avatar == "" then DefaultAvatar else u.avatar);
          Ok(200, LoginBody("Login successful", token, role, data))
  }

  /** Signing up and then logging in with the same email and password
      succeeds, and reports the role chosen at signup, provided the password
      check accepts a password against its own hash. */
  lemma LoginAfterSignup(users: seq<User>, newId: string, name: string, email: string, password: string,
                         role: string, hash: string -> string, compare: (string, string) -> bool,
                         sign: (Claims, string) -> string, secretEnv: string)
    requires FindByEmail(users, email).None?
    requires SignupDocument(newId, name, email, Some(password), role, hash).Some?
    requires password != ""
    requires compare(password, hash(password))
    ensures var r := Login(users + [SignupDocument(newId, name, email, Some(password), role, hash).value],
                           email, password, compare, sign, secretEnv);
      r.Ok? && r.body.role == (if role == "" then Member else ParseRole(role).value)
  {
    var u := SignupDocument(newId, name, email, Some(password), role, hash).value;
    var all := users + [u];
    assert all[|users|] == u;
    assert forall j :: 0 <= j < |users| ==> all[j].email != email by {
      forall j | 0 <= j < |users| ensures all[j].email != email {
        assert all[j] == users[j];
      }
    }
    assert FindByEmail(all, email) == Some(|users|) by {
      FindByEmailFirst(all, email, |users|);
    }
  }

  lemma FindByEmailFirst(users: seq<User>, email: string, k: nat)
    requires k < |users| && users[k].email == email
    requires forall j :: 0 <= j < k ==> users[j].email != email
    ensures FindByEmail(users, email) == Some(k)
  {
    if k > 0 {
      FindByEmailFirst(users[1..], email, k - 1);
    }
  }

  /** A token issued at login is accepted by the middleware, which then sees
      the id and role of the user who logged in, provided a signed token is a
      non-empty string without spaces that verifies, under the same secret,
      to the claims it was signed over. */
  lemma LoginTokenAuthenticates(users: seq<User>, email: string, password: string,
                                compare: (string, string) -> bool, sign: (Claims, string) -> string,
                                verify: (string, string) -> Option<Claims>, secretEnv: string)
    requires Login(users, email, password, compare, sign, secretEnv).Ok?
    requires forall c, s :: verify(sign(c, s), s) == Some(c)
    requires forall c, s :: sign(c, s) != "" && ' ' !in sign(c, s)
    ensures var r := Login(users, email, password, compare, sign, secretEnv);
      var u := users[FindByEmail(users, email).value];
      Authenticate(Some("Bearer " + r.body.token), verify, secretEnv) == Authenticated(ReqUser(u.id, u.role))
  {
    var r := Login(users, email, password, compare, sign, secretEnv);
    var u := users[FindByEmail(users, email).value];
    assert r.body.token == sign(Claims(u.id, u.role), JwtSecret(secretEnv));
    BearerTokenRoundTrip("Bearer", r.body.token);
    assert "Bearer " + r.body.token == "Bearer" + " " + r.body.token;
    assert verify(r.body.token, JwtSecret(secretEnv)) == Some(Claims(u.id, u.role));
  }
}
