/** The user routes (backend/routes/userRoutes.js): profile read and update,
    the leaderboard, the user directory, and the BMI history with its
    one-entry-per-day rule, its 50-entry cap and the admin-only deletions.
    Every protected route receives `me`, the `req.user` the middleware set. */
module UserRoutes {
  import opened Common
  import opened Text
  import opened UserModel
  import opened AuthMiddleware

  /** The most entries a BMI history keeps. */
  const MaxBmiEntries: nat := 50
  /** The most users the leaderboard returns. */
  const LeaderboardSize: nat := 50

  /** A user document under `.select('-password')`. */
  datatype PublicUser = PublicUser(
    id: string,
    name: string,
    email: string,
    phone: Option<string>,
    dob: Option<int>,
    avatar: string,
    goal: string,
    bmiHistory: seq<BmiEntry>,
    role: Option<Role>,
    verificationCode: Option<string>,
    verificationCodeExpires: Option<int>,
    isVerified: bool,
    resetPasswordCode: Option<string>,
    resetPasswordExpires: Option<int>)

  function Public(u: User): PublicUser {
    PublicUser(u.id, u.name, u.email, u.phone, u.dob, u.avatar, u.goal, u.bmiHistory, u.role,
               u.verificationCode, u.verificationCodeExpires, u.isVerified,
               u.resetPasswordCode, u.resetPasswordExpires)
  }

  /** `.select('-password')` hides the password and nothing else: two users
      look the same exactly when they differ at most in their passwords. */
  lemma PublicHidesOnlyPassword(u: User, v: User)
    ensures Public(u) == Public(v) <==> u.(password := v.password) == v
  {
  }

  /** `GET /profile`: the caller's own document without the password. */
  function GetProfile(users: seq<User>, me: ReqUser): (r: Reply<PublicUser>)
    ensures r.Ok? <==> exists j :: 0 <= j < |users| && users[j].id == me.id
    ensures r.Ok? ==> r.status == 200 && r.body.id == me.id && Public(users[FindById(users, me.id).value]) == r.body
    ensures r.Fail? ==> r == Fail(404, "User not found")
  {
    match FindById(users, me.id)
    case Some(k) => Ok(200, Public(users[k]))
    case None => Fail(404, "User not found")
  }

  /** The fields of a `PUT /profile` body; an empty string or `None` is a
      falsy (or absent) value. */
  datatype ProfileRequest = ProfileRequest(
    name: string,
    email: string,
    phone: string,
    dob: Option<int>,
    goal: string,
    avatar: string)

  /** The merge `user.f = f || user.f`: a truthy field of the request
      replaces the stored one, a falsy one leaves it; no other field changes,
      and a valid user stays valid. */
  function MergeProfile(u: User, req: ProfileRequest): (r: User)
    ensures r.name == (if req.name != "" then req.name else u.name)
    ensures r.email == (if req.email != "" then req.email else u.email)
    ensures r.phone == (if req.phone != "" then Some(req.phone) else u.phone)
    ensures r.dob == (if req.dob.Some? then req.dob else u.dob)
    ensures r.goal == (if req.goal != "" then req.goal else u.goal)
    ensures r.avatar == (if req.avatar != "" then req.avatar else u.avatar)
    ensures r.(name := u.name, email := u.email, phone := u.phone, dob := u.dob, goal := u.goal,
               avatar := u.avatar) == u
    ensures ValidUser(u) ==> ValidUser(r)
  {
    u.(name := if req.name != "" then req.name else u.name,
       email := if req.email != "" then req.email else u.email,
       phone := if req.phone != "" then Some(req.phone) else u.phone,
       dob := if req.dob.Some? then req.dob else u.dob,
       goal := if req.goal != "" then req.goal else u.goal,
       avatar := if req.avatar != "" then req.avatar else u.avatar)
  }

  /** Sending the same profile update twice has the effect of sending it once. */
  lemma MergeProfileIdempotent(u: User, req: ProfileRequest)
    ensures MergeProfile(MergeProfile(u, req), req) == MergeProfile(u, req)
  {
  }

  /** An update with every field falsy changes nothing. */
  lemma EmptyProfileRequestKeepsUser(u: User)
    ensures MergeProfile(u, ProfileRequest("", "", "", None, "", "")) == u
  {
  }

  /** `PUT /profile`: merges the request into the caller's document field by
      field and saves it; 404 for an unknown caller, 500 when the save is
      refused (the new email belongs to another user). */
  method UpdateProfile(table: UserTable, me: ReqUser, req: ProfileRequest) returns (reply: Reply<PublicUser>)
    modifies table
    ensures FindById(old(table.users), me.id).None? ==>
      reply == Fail(404, "User not found") && table.users == old(table.users)
    ensures FindById(old(table.users), me.id).Some? ==>
      var k := FindById(old(table.users), me.id).value;
      var merged := MergeProfile(old(table.users)[k], req);
      && (reply.Ok? <==>
            ValidUser(merged)
            && forall j :: 0 <= j < |old(table.users)| && j != k ==> old(table.users)[j].email != merged.email)
      && (reply.Ok? ==> reply == Ok(200, Public(merged)) && table.users == old(table.users)[k := merged])
      && (reply.Fail? ==> reply == Fail(500, "Server error") && table.users == old(table.users))
    ensures old(table.Valid()) ==> table.Valid()
  {
    var found := FindById(table.users, me.id);
    if found.None? {
      reply := Fail(404, "User not found");
      return;
    }
    var k := found.value;
    var user := MergeProfile(table.users[k], req);
    var ok := table.Save(k, user);
    if !ok {
      reply := Fail(500, "Server error");
      return;
    }
    reply := Ok(200, Public(user));
  }

  /** `User.find({ _id: { $ne: id } })`: every other user, in collection order. */
  function OtherUsers(users: seq<User>, id: string): (r: seq<User>)
    ensures |r| <= |users|
    ensures forall i :: 0 <= i < |r| ==> r[i].id != id && r[i] in users
    ensures forall u :: u in users && u.id != id ==> u in r
  {
    if users == [] then []
    else (if users[0].id != id then [users[0]] else []) + OtherUsers(users[1..], id)
  }

  /** The filter keeps collection order: it distributes over concatenation. */
  lemma {:induction false} OtherUsersAppend(a: seq<User>, b: seq<User>, id: string)
    ensures OtherUsers(a + b, id) == OtherUsers(a, id) + OtherUsers(b, id)
    decreases |a|
  {
    if a == [] {
      assert a + b == b;
    } else {
      assert (a + b)[0] == a[0];
      assert (a + b)[1..] == a[1..] + b;
      OtherUsersAppend(a[1..], b, id);
    }
  }

  /** `GET /leaderboard`: the first fifty other users without passwords; the
      caller never appears. */
  function Leaderboard(users: seq<User>, me: ReqUser): (r: seq<PublicUser>)
    ensures |r| == (if |OtherUsers(users, me.id)| < LeaderboardSize then |OtherUsers(users, me.id)| else LeaderboardSize)
    ensures forall i :: 0 <= i < |r| ==> r[i] == Public(OtherUsers(users, me.id)[i]) && r[i].id != me.id
  {
    var others := OtherUsers(users, me.id);
    var shown := if |others| > LeaderboardSize then others[..LeaderboardSize] else others;
    seq(|shown|, i requires 0 <= i < |shown| => Public(shown[i]))
  }

  /** A user under `.select('name email')`. */
  datatype NameEmail = NameEmail(id: string, name: string, email: string)

  /** `GET /`: the id, name and email of every user, in collection order. */
  function Directory(users: seq<User>): (r: seq<NameEmail>)
    ensures |r| == |users|
    ensures forall i :: 0 <= i < |r| ==>
      r[i].id == users[i].id && r[i].name == users[i].name && r[i].email == users[i].email
  {
    seq(|users|, i requires 0 <= i < |users| => NameEmail(users[i].id, users[i].name, users[i].email))
  }

  /** The history after recording `entry` on its day (`POST /bmi`): refused
      when the newest entry is already from that day, otherwise the entry
      goes first and the oldest entries beyond fifty are dropped. */
  function RecordBmi(history: seq<BmiEntry>, entry: BmiEntry): (r: Option<seq<BmiEntry>>)
    ensures r.None? <==> |history| > 0 && history[0].date == entry.date
    ensures r.Some? ==>
      |r.value| == (if |history| + 1 < MaxBmiEntries then |history| + 1 else MaxBmiEntries)
    ensures r.Some? ==> r.value[0] == entry && r.value[1..] == history[..|r.value| - 1]
  {
    if |history| > 0 && history[0].date == entry.date then None
    else
      var h := [entry] + history;
      Some(if |h| > MaxBmiEntries then h[..MaxBmiEntries] else h)
  }

  /** A second recording on the same day is refused. */
  lemma RecordBmiOncePerDay(history: seq<BmiEntry>, first: BmiEntry, second: BmiEntry)
    requires RecordBmi(history, first).Some?
    requires second.date == first.date
    ensures RecordBmi(RecordBmi(history, first).value, second).None?
  {
  }

  /** A history kept newest first (by the clock reading that is each entry's
      id) stays newest first when a later reading is recorded. */
  lemma RecordBmiKeepsNewestFirst(history: seq<BmiEntry>, entry: BmiEntry)
    requires forall i, j :: 0 <= i < j < |history| ==> history[i].id > history[j].id
    requires history != [] ==> entry.id > history[0].id
    requires RecordBmi(history, entry).Some?
    ensures var h := RecordBmi(history, entry).value;
      forall i, j :: 0 <= i < j < |h| ==> h[i].id > h[j].id
  {
    var h := RecordBmi(history, entry).value;
    forall i, j | 0 <= i < j < |h| ensures h[i].id > h[j].id {
      assert h[j] == history[j - 1];
      if i > 0 {
        assert h[i] == history[i - 1];
      } else {
        assert history[0].id >= history[j - 1].id;
      }
    }
  }

  /** Recording does not let a history grow past the cap. */
  lemma RecordBmiBounded(history: seq<BmiEntry>, entry: BmiEntry)
    requires |history| <= MaxBmiEntries
    requires RecordBmi(history, entry).Some?
    ensures |RecordBmi(history, entry).value| <= MaxBmiEntries
    ensures |history| < MaxBmiEntries ==> RecordBmi(history, entry).value[1..] == history
  {
  }

  /** `POST /bmi`: the entry stamped with the clock reading `clock` and with
      the day `today` and time `time` rendered from it is recorded at the
      front of the caller's history. */
  method AddBmi(table: UserTable, me: ReqUser, height: real, weight: real, bmi: real, category: string,
                clock: int, today: string, time: string) returns (reply: Reply<seq<BmiEntry>>)
    modifies table
    ensures FindById(old(table.users), me.id).None? ==>
      reply == Fail(404, "User not found") && table.users == old(table.users)
    ensures FindById(old(table.users), me.id).Some? ==>
      var k := FindById(old(table.users), me.id).value;
      var u := old(table.users)[k];
      var recorded := RecordBmi(u.bmiHistory, BmiEntry(clock, today, time, height, weight, bmi, category));
      && (recorded.None? ==>
            reply == Fail(400, "BMI already recorded for today") && table.users == old(table.users))
      && (recorded.Some? && reply.Ok? ==>
            reply == Ok(200, recorded.value)
            && table.users == old(table.users)[k := u.(bmiHistory := recorded.value)])
      && (recorded.Some? && old(table.Valid()) ==> reply.Ok?)
    ensures reply.Fail? && reply.status == 500 ==> table.users == old(table.users)
    ensures old(table.Valid()) ==> table.Valid()
  {
    var found := FindById(table.users, me.id);
    if found.None? {
      reply := Fail(404, "User not found");
      return;
    }
    var k := found.value;
    var user := table.users[k];
    var history := user.bmiHistory;
    if |history| > 0 && history[0].date == today {
      reply := Fail(400, "BMI already recorded for today");
      return;
    }
    var entry := BmiEntry(clock, today, time, height, weight, bmi, category);
    history := [entry] + history;
    if |history| > MaxBmiEntries {
      history := history[..MaxBmiEntries];
    }
    if table.Valid() {
      SameCredentialsSave(table.users, k, user.(bmiHistory := history));
    }
    var ok := table.Save(k, user.(bmiHistory := history));
    if !ok {
      reply := Fail(500, "Server error");
      return;
    }
    reply := Ok(200, history);
  }

  /** Under the collection's invariant a document whose name, email and
      password are unchanged is always accepted by `save()`, so the 500
      paths of the BMI routes are reached only from a collection that breaks
      the invariant. */
  lemma SameCredentialsSave(users: seq<User>, k: nat, u: User)
    requires EmailsUnique(users) && forall i :: 0 <= i < |users| ==> ValidUser(users[i])
    requires k < |users|
    requires u.name == users[k].name && u.email == users[k].email && u.password == users[k].password
    ensures ValidUser(u)
    ensures forall j :: 0 <= j < |users| && j != k ==> users[j].email != u.email
  {
    assert ValidUser(users[k]);
    forall j | 0 <= j < |users| && j != k ensures users[j].email != u.email {
      if j < k {
        assert users[j].email != users[k].email;
      } else {
        assert users[k].email != users[j].email;
      }
    }
  }

  /** `e => String(e.id) !== String(entryId)`: the history without the
      entries whose id renders as `entryId`, in the same order. */
  function WithoutEntry(history: seq<BmiEntry>, entryId: string): (r: seq<BmiEntry>)
    ensures |r| <= |history|
    ensures forall e :: e in r <==> e in history && IntToString(e.id) != entryId
  {
    if history == [] then []
    else
      (if IntToString(history[0].id) != entryId then [history[0]] else [])
      + WithoutEntry(history[1..], entryId)
  }

  /** Filtering distributes over concatenation, so the kept entries keep
      their relative order. */
  lemma {:induction false} WithoutEntryAppend(a: seq<BmiEntry>, b: seq<BmiEntry>, entryId: string)
    ensures WithoutEntry(a + b, entryId) == WithoutEntry(a, entryId) + WithoutEntry(b, entryId)
    decreases |a|
  {
    if a == [] {
      assert a + b == b;
    } else {
      var head := if IntToString(a[0].id) != entryId then [a[0]] else [];
      AppendTail(a, b);
      WithoutEntryStep(a + b, entryId);
      WithoutEntryStep(a, entryId);
      WithoutEntryAppend(a[1..], b, entryId);
      AppendAssociates(head, WithoutEntry(a[1..], entryId), WithoutEntry(b, entryId));
    }
  }

  /** One step of the filter: the head is kept or dropped, then the rest is filtered. */
  lemma WithoutEntryStep(history: seq<BmiEntry>, entryId: string)
    requires history != []
    ensures WithoutEntry(history, entryId)
         == (if IntToString(history[0].id) != entryId then [history[0]] else []) + WithoutEntry(history[1..], entryId)
  {
  }

  /** Dropping the head of a concatenation drops the head of its left part. */
  lemma AppendTail<T>(a: seq<T>, b: seq<T>)
    requires a != []
    ensures (a + b)[0] == a[0] && (a + b)[1..] == a[1..] + b
  {
  }

  /** Concatenation is associative. */
  lemma AppendAssociates<T>(x: seq<T>, y: seq<T>, z: seq<T>)
    ensures x + (y + z) == (x + y) + z
  {
  }

  /** An id no entry has removes nothing. */
  lemma {:induction false} WithoutAbsentEntry(history: seq<BmiEntry>, entryId: string)
    requires forall i :: 0 <= i < |history| ==> IntToString(history[i].id) != entryId
    ensures WithoutEntry(history, entryId) == history
    decreases |history|
  {
    if history != [] {
      WithoutAbsentEntry(history[1..], entryId);
    }
  }

  /** Deleting by the rendering of a numeric id removes exactly the entries
      with that id, because distinct integers render differently. */
  lemma WithoutEntryById(history: seq<BmiEntry>, id: int)
    ensures forall e :: e in WithoutEntry(history, IntToString(id)) <==> e in history && e.id != id
  {
    forall e | e in history
      ensures IntToString(e.id) != IntToString(id) <==> e.id != id
    {
      if IntToString(e.id) == IntToString(id) {
        ParseIntOfIntToString(e.id);
        ParseIntOfIntToString(id);
      }
    }
  }

  /** How many entries have an id that renders as `entryId`. */
  function CountEntry(history: seq<BmiEntry>, entryId: string): nat {
    if history == [] then 0
    else (if IntToString(history[0].id) == entryId then 1 else 0) + CountEntry(history[1..], entryId)
  }

  /** The `removed` count of the reply is the number of matching entries. */
  lemma {:induction false} WithoutEntryCount(history: seq<BmiEntry>, entryId: string)
    ensures |history| - |WithoutEntry(history, entryId)| == CountEntry(history, entryId)
    decreases |history|
  {
    if history != [] {
      WithoutEntryCount(history[1..], entryId);
    }
  }

  /** The body of a successful BMI deletion. */
  datatype BmiDeletion = BmiDeletion(removed: int, bmiHistory: seq<BmiEntry>)

  function IsAdmin(me: ReqUser): bool {
    me.role == Some(Admin)
  }

  /** `DELETE /bmi/:userId/:entryId` (admins only): removes the entries of
      that user whose id renders as `entryId` and reports how many went. */
  method DeleteBmiEntry(table: UserTable, me: ReqUser, userId: string, entryId: string)
    returns (reply: Reply<BmiDeletion>)
    modifies table
    ensures !IsAdmin(me) ==> reply == Fail(403, "Forbidden") && table.users == old(table.users)
    ensures IsAdmin(me) && FindById(old(table.users), userId).None? ==>
      reply == Fail(404, "User not found") && table.users == old(table.users)
    ensures IsAdmin(me) && FindById(old(table.users), userId).Some? ==>
      var k := FindById(old(table.users), userId).value;
      var u := old(table.users)[k];
      var kept := WithoutEntry(u.bmiHistory, entryId);
      && (reply.Ok? ==>
            reply == Ok(200, BmiDeletion(CountEntry(u.bmiHistory, entryId), kept))
            && table.users == old(table.users)[k := u.(bmiHistory := kept)])
      && (old(table.Valid()) ==> reply.Ok?)
    ensures reply.Fail? && reply.status == 500 ==> table.users == old(table.users)
    ensures old(table.Valid()) ==> table.Valid()
  {
    if !IsAdmin(me) {
      reply := Fail(403, "Forbidden");
      return;
    }
    var found := FindById(table.users, userId);
    if found.None? {
      reply := Fail(404, "User not found");
      return;
    }
    var k := found.value;
    var user := table.users[k];
    var before := |user.bmiHistory|;
    var kept := WithoutEntry(user.bmiHistory, entryId);
    var after := |kept|;
    WithoutEntryCount(user.bmiHistory, entryId);
    if table.Valid() {
      SameCredentialsSave(table.users, k, user.(bmiHistory := kept));
    }
    var ok := table.Save(k, user.(bmiHistory := kept));
    if !ok {
      reply := Fail(500, "Server error");
      return;
    }
    reply := Ok(200, BmiDeletion(before - after, kept));
  }

  /** `DELETE /bmi/:userId` (admins only): empties that user's history. */
  method ClearBmi(table: UserTable, me: ReqUser, userId: string) returns (reply: Reply<seq<BmiEntry>>)
    modifies table
    ensures !IsAdmin(me) ==> reply == Fail(403, "Forbidden") && table.users == old(table.users)
    ensures IsAdmin(me) && FindById(old(table.users), userId).None? ==>
      reply == Fail(404, "User not found") && table.users == old(table.users)
    ensures IsAdmin(me) && FindById(old(table.users), userId).Some? ==>
      var k := FindById(old(table.users), userId).value;
      && (reply.Ok? ==>
            reply == Ok(200, []) && table.users == old(table.users)[k := old(table.users)[k].(bmiHistory := [])])
      && (old(table.Valid()) ==> reply.Ok?)
    ensures reply.Fail? && reply.status == 500 ==> table.users == old(table.users)
    ensures old(table.Valid()) ==> table.Valid()
  {
    if !IsAdmin(me) {
      reply := Fail(403, "Forbidden");
      return;
    }
    var found := FindById(table.users, userId);
    if found.None? {
      reply := Fail(404, "User not found");
      return;
    }
    var k := found.value;
    var user := table.users[k];
    if table.Valid() {
      SameCredentialsSave(table.users, k, user.(bmiHistory := []));
    }
    var ok := table.Save(k, user.(bmiHistory := []));
    if !ok {
      reply := Fail(500, "Server error");
      return;
    }
    reply := Ok(200, []);
  }
}
