/** The renewals report (backend/routes/analyticsRoutes.js, `GET /renewals`):
    the latest membership of each user, its expiry, and the users whose
    membership runs out within the next thirty days or ran out within the
    last thirty. The memberships arrive in the order the query sorts them
    (by user, newest start first); `now` is the current day. */
module Renewals {
  import opened Common
  import opened Text
  import opened Sorting
  import opened PlanModel
  import opened MembershipModel
  import opened UserModel
  import opened Analytics

  /** `new Map(xs.map(x => [key(x), x])).get(k)`: a later entry overwrites an
      earlier one with the same key, so the lookup finds the last element
      with the key. */
  function LastBy<T, K(==)>(xs: seq<T>, key: T -> K, k: K): (r: Option<T>)
    ensures r.Some? ==> r.value in xs && key(r.value) == k
    ensures r.Some? ==>
      exists j :: 0 <= j < |xs| && xs[j] == r.value && forall j' :: j < j' < |xs| ==> key(xs[j']) != k
    ensures r.None? ==> forall j :: 0 <= j < |xs| ==> key(xs[j]) != k
  {
    if xs == [] then None
    else if key(xs[|xs| - 1]) == k then Some(xs[|xs| - 1])
    else
      var init := xs[..|xs| - 1];
      var r := LastBy(init, key, k);
      assert forall j :: 0 <= j < |init| ==> init[j] == xs[j];
      r
  }

  function PlanKey(p: Plan): int {
    p.id
  }

  function UserIdKey(u: User): string {
    u.id
  }

  function UserNameKey(u: User): string {
    u.name
  }

  /** `planIdToPlan.get(id)`: the last plan with the id. */
  function LastPlan(plans: seq<Plan>, id: int): Option<Plan> {
    LastBy(plans, PlanKey, id)
  }

  /** With unique ids the first plan with an id is the one at any index
      holding that id. */
  lemma {:induction false} FirstPlanAt(plans: seq<Plan>, k: nat)
    requires PlanModel.IdsUnique(plans) && k < |plans|
    ensures FirstPlan(plans, plans[k].id) == Some(plans[k])
    decreases |plans|
  {
    if k > 0 {
      assert plans[0].id != plans[k].id;
      var rest := plans[1..];
      assert PlanModel.IdsUnique(rest) && rest[k - 1] == plans[k];
      FirstPlanAt(rest, k - 1);
    }
  }

  /** With unique ids the last plan with an id is the one at any index
      holding that id. */
  lemma {:induction false} LastPlanAt(plans: seq<Plan>, k: nat)
    requires PlanModel.IdsUnique(plans) && k < |plans|
    ensures LastPlan(plans, plans[k].id) == Some(plans[k])
    decreases |plans|
  {
    if k < |plans| - 1 {
      assert plans[k].id != plans[|plans| - 1].id;
      var init := plans[..|plans| - 1];
      assert PlanModel.IdsUnique(init) && init[k] == plans[k];
      LastPlanAt(init, k);
    }
  }

  /** The summary looks plans up with `find` (the first with the id), the
      report through a map (the last with the id); with unique ids they agree. */
  lemma FirstAndLastPlanAgree(plans: seq<Plan>, id: int)
    requires PlanModel.IdsUnique(plans)
    ensures LastPlan(plans, id) == FirstPlan(plans, id)
  {
    if k :| 0 <= k < |plans| && plans[k].id == id {
      FirstPlanAt(plans, k);
      LastPlanAt(plans, k);
    }
  }

  /** Each user's records are newest first, as `sort({ userId: 1, startDate: -1 })`
      delivers them. */
  ghost predicate NewestFirstPerUser(ms: seq<Membership>) {
    forall i, j :: 0 <= i < j < |ms| && ms[i].userId == ms[j].userId ==> ms[i].startDate >= ms[j].startDate
  }

  /** `ms[k]` is the first record of its user in `ms`. */
  ghost predicate FirstOfUser(ms: seq<Membership>, k: int) {
    0 <= k < |ms| && forall k' :: 0 <= k' < k ==> ms[k'].userId != ms[k].userId
  }

  /** The `latestByUser` loop: the first record of each user in the given
      order, users in order of first appearance. Every user with a record
      appears once; when each user's records come newest first, the record
      kept is the user's newest. */
  method LatestByUser(ms: seq<Membership>) returns (latest: seq<Membership>)
    ensures forall i, j :: 0 <= i < j < |latest| ==> latest[i].userId != latest[j].userId
    ensures forall m :: m in latest ==> exists k :: FirstOfUser(ms, k) && ms[k] == m
    ensures forall m :: m in ms ==> exists r :: r in latest && r.userId == m.userId
    ensures NewestFirstPerUser(ms) ==>
      forall r, m :: r in latest && m in ms && m.userId == r.userId ==> m.startDate <= r.startDate
  {
    latest := [];
    var seen: set<string> := {};
    ghost var at: seq<nat> := [];
    ghost var pos: map<string, nat> := map[];
    for j := 0 to |ms|
      invariant |at| == |latest|
      invariant forall i :: 0 <= i < |latest| ==> latest[i].userId in seen
      invariant forall u :: u in seen ==> u in pos && pos[u] < |latest| && latest[pos[u]].userId == u
      invariant forall i, i' :: 0 <= i < i' < |latest| ==> latest[i].userId != latest[i'].userId
      invariant forall i :: 0 <= i < |latest| ==>
        at[i] < j && ms[at[i]] == latest[i] && forall k' :: 0 <= k' < at[i] ==> ms[k'].userId != latest[i].userId
      invariant forall k :: 0 <= k < j ==> ms[k].userId in seen
    {
      var m := ms[j];
      if m.userId !in seen {
        pos := pos[m.userId := |latest|];
        latest := latest + [m];
        at := at + [j];
        seen := seen + {m.userId};
      }
    }
    LatestAreFirst(ms, latest, at);
    LatestCoversUsers(ms, latest, seen, pos);
    if NewestFirstPerUser(ms) {
      LatestAreNewest(ms, latest, at);
    }
  }

  /** Each record the `latestByUser` loop kept is the first record of its user. */
  lemma LatestAreFirst(ms: seq<Membership>, latest: seq<Membership>, at: seq<nat>)
    requires |at| == |latest|
    requires forall i :: 0 <= i < |latest| ==>
      at[i] < |ms| && ms[at[i]] == latest[i] && forall k' :: 0 <= k' < at[i] ==> ms[k'].userId != latest[i].userId
    ensures forall m :: m in latest ==> exists k :: FirstOfUser(ms, k) && ms[k] == m
  {
    forall m | m in latest
      ensures exists k :: FirstOfUser(ms, k) && ms[k] == m
    {
      var i :| 0 <= i < |latest| && latest[i] == m;
      assert FirstOfUser(ms, at[i]) && ms[at[i]] == latest[i];
    }
  }

  /** Every user seen by the `latestByUser` loop has a record kept. */
  lemma LatestCoversUsers(ms: seq<Membership>, latest: seq<Membership>, seen: set<string>, pos: map<string, nat>)
    requires forall u :: u in seen ==> u in pos && pos[u] < |latest| && latest[pos[u]].userId == u
    requires forall k :: 0 <= k < |ms| ==> ms[k].userId in seen
    ensures forall m :: m in ms ==> exists r :: r in latest && r.userId == m.userId
  {
    forall m | m in ms
      ensures exists r :: r in latest && r.userId == m.userId
    {
      assert latest[pos[m.userId]] in latest;
    }
  }

  /** With each user's records newest first, the first record is the newest. */
  lemma LatestAreNewest(ms: seq<Membership>, latest: seq<Membership>, at: seq<nat>)
    requires NewestFirstPerUser(ms)
    requires |at| == |latest|
    requires forall i :: 0 <= i < |latest| ==>
      at[i] < |ms| && ms[at[i]] == latest[i] && forall k' :: 0 <= k' < at[i] ==> ms[k'].userId != latest[i].userId
    ensures forall r, m :: r in latest && m in ms && m.userId == r.userId ==> m.startDate <= r.startDate
  {
    forall r, m | r in latest && m in ms && m.userId == r.userId
      ensures m.startDate <= r.startDate
    {
      var i :| 0 <= i < |latest| && latest[i] == r;
      var k :| 0 <= k < |ms| && ms[k] == m;
      assert ms[at[i]] == latest[i] && at[i] <= k;
    }
  }

  /** One row of `dueNext30` or `lapsed30`. */
  datatype RenewalRow = RenewalRow(
    userId: string,
    name: string,
    email: string,
    planName: string,
    availingDate: int,
    expiry: int)

  /** `byId.get(uid) || byName.get(uid)`: a membership's user id is looked up
      as a user id, then as a user name. */
  function ResolveUser(users: seq<User>, uid: string): (r: Option<User>)
    ensures r.Some? ==> r.value in users && (r.value.id == uid || r.value.name == uid)
    ensures (exists j :: 0 <= j < |users| && users[j].id == uid) ==>
      r.Some? && r.value.id == uid && r == LastBy(users, UserIdKey, uid)
    ensures (forall j :: 0 <= j < |users| ==> users[j].id != uid) ==> r == LastBy(users, UserNameKey, uid)
    ensures (forall j :: 0 <= j < |users| ==> users[j].id != uid) &&
            (exists j :: 0 <= j < |users| && users[j].name == uid)
      ==> r.Some? && r.value.name == uid
  {
    var byId := LastBy(users, UserIdKey, uid);
    if byId.Some? then byId else LastBy(users, UserNameKey, uid)
  }

  /** The `base` row of a latest record: the user's name (or the raw id) and
      email (or empty), the plan's name (or `Plan <id>`), and the expiry. */
  function RowFor(m: Membership, plans: seq<Plan>, users: seq<User>): (r: RenewalRow)
    ensures r.userId == m.userId && r.availingDate == m.startDate
    ensures r.expiry == ExpiryDay(m, LastPlan(plans, m.planId))
    ensures LastPlan(plans, m.planId).None? ==> r.planName == "Plan " + IntToString(m.planId)
    ensures ResolveUser(users, m.userId).None? ==> r.name == m.userId && r.email == ""
    ensures ResolveUser(users, m.userId).Some? && ResolveUser(users, m.userId).value.name != "" ==>
      r.name == ResolveUser(users, m.userId).value.name
    ensures ResolveUser(users, m.userId).Some? && ResolveUser(users, m.userId).value.email != "" ==>
      r.email == ResolveUser(users, m.userId).value.email
    ensures LastPlan(plans, m.planId).Some? && LastPlan(plans, m.planId).value.name != "" ==>
      r.planName == LastPlan(plans, m.planId).value.name
  {
    var plan := LastPlan(plans, m.planId);
    var user := ResolveUser(users, m.userId);
    RenewalRow(
      m.userId,
      if user.Some? && user.value.name != "" then user.value.name else m.userId,
      if user.Some? && user.value.email != "" then user.value.email else "",
      if plan.Some? && plan.value.name != "" then plan.value.name else "Plan " + IntToString(m.planId),
      m.startDate,
      ExpiryDay(m, plan))
  }

  /** The two windows of the report: due within the next thirty days
      (`now <= expiry <= in30`) and lapsed within the last thirty
      (`thirtyAgo <= expiry < now`). */
  datatype Window = Due | Lapsed

  predicate InWindow(w: Window, expiry: int, now: int) {
    match w
    case Due => now <= expiry <= now + 30
    case Lapsed => now - 30 <= expiry < now
  }

  /** The rows pushed onto `dueNext30` or `lapsed30`, in the order of the
      latest records. */
  function WindowRows(latest: seq<Membership>, plans: seq<Plan>, users: seq<User>, w: Window, now: int)
    : (r: seq<RenewalRow>)
    ensures forall x :: x in r ==> InWindow(w, x.expiry, now)
  {
    if latest == [] then []
    else
      var row := RowFor(latest[|latest| - 1], plans, users);
      WindowRows(latest[..|latest| - 1], plans, users, w, now) + (if InWindow(w, row.expiry, now) then [row] else [])
  }

  /** No two rows belong to the same user. */
  ghost predicate DistinctUsers(rows: seq<RenewalRow>) {
    forall i, j :: 0 <= i < j < |rows| ==> rows[i].userId != rows[j].userId
  }

  /** Latest records of distinct users give rows of distinct users. */
  lemma {:induction false} WindowRowsDistinct(latest: seq<Membership>, plans: seq<Plan>, users: seq<User>,
                                              w: Window, now: int)
    requires forall i, j :: 0 <= i < j < |latest| ==> latest[i].userId != latest[j].userId
    ensures DistinctUsers(WindowRows(latest, plans, users, w, now))
    decreases |latest|
  {
    if latest != [] {
      var init := latest[..|latest| - 1];
      WindowRowsDistinct(init, plans, users, w, now);
      var row := RowFor(latest[|latest| - 1], plans, users);
      var prev := WindowRows(init, plans, users, w, now);
      if InWindow(w, row.expiry, now) {
        forall x | x in prev ensures x.userId != row.userId {
          WindowRowsSource(init, plans, users, w, now, x);
          var i :| 0 <= i < |init| && x == RowFor(init[i], plans, users);
          assert init[i] == latest[i];
        }
        var r := prev + [row];
        forall i, j | 0 <= i < j < |r| ensures r[i].userId != r[j].userId {
          if j == |prev| {
            assert r[i] in prev;
          } else {
            assert r[i] == prev[i] && r[j] == prev[j];
          }
        }
      } else {
        assert WindowRows(latest, plans, users, w, now) == prev;
      }
    }
  }

  /** A value at two positions occurs at least twice in the multiset. */
  lemma TwoOccurrences<T>(s: seq<T>, i: nat, j: nat)
    requires i < j < |s| && s[i] == s[j]
    ensures multiset(s)[s[i]] >= 2
  {
    assert s == s[..j] + [s[j]] + s[j + 1..];
    assert s[..j][i] == s[i];
  }

  /** Rows of distinct users hold each row at most once. */
  lemma {:induction false} DistinctUsersOnce(rows: seq<RenewalRow>, x: RenewalRow)
    requires DistinctUsers(rows)
    ensures multiset(rows)[x] <= 1
    decreases |rows|
  {
    if rows != [] {
      var rest := rows[1..];
      assert rows == [rows[0]] + rest;
      assert DistinctUsers(rest) by {
        forall i, j | 0 <= i < j < |rest| ensures rest[i].userId != rest[j].userId {
          assert rest[i] == rows[i + 1] && rest[j] == rows[j + 1];
        }
      }
      DistinctUsersOnce(rest, x);
      if rows[0] == x {
        forall k | 0 <= k < |rest| ensures rest[k] != x {
          assert rest[k] == rows[k + 1];
        }
        assert x !in rest;
      }
    }
  }

  /** Reordering keeps the users distinct. */
  lemma DistinctUsersPermutation(rows: seq<RenewalRow>, sorted: seq<RenewalRow>)
    requires multiset(sorted) == multiset(rows) && DistinctUsers(rows)
    ensures DistinctUsers(sorted)
  {
    forall i, j | 0 <= i < j < |sorted| ensures sorted[i].userId != sorted[j].userId {
      var x, y := sorted[i], sorted[j];
      if x == y {
        TwoOccurrences(sorted, i, j);
        DistinctUsersOnce(rows, x);
      } else {
        assert x in multiset(rows) && y in multiset(rows);
        var p :| 0 <= p < |rows| && rows[p] == x;
        var q :| 0 <= q < |rows| && rows[q] == y;
        assert p != q;
      }
    }
  }

  /** Every row comes from one of the latest records. */
  lemma {:induction false} WindowRowsSource(latest: seq<Membership>, plans: seq<Plan>, users: seq<User>, w: Window,
                                            now: int, x: RenewalRow)
    requires x in WindowRows(latest, plans, users, w, now)
    ensures exists i :: 0 <= i < |latest| && x == RowFor(latest[i], plans, users)
    decreases |latest|
  {
    var init := latest[..|latest| - 1];
    if x in WindowRows(init, plans, users, w, now) {
      WindowRowsSource(init, plans, users, w, now, x);
      var i :| 0 <= i < |init| && x == RowFor(init[i], plans, users);
      assert init[i] == latest[i];
    } else {
      assert x == RowFor(latest[|latest| - 1], plans, users);
    }
  }

  /** Every latest record whose expiry is in the window has its row there. */
  lemma {:induction false} WindowRowsComplete(latest: seq<Membership>, plans: seq<Plan>, users: seq<User>, w: Window,
                                              now: int, i: nat)
    requires i < |latest| && InWindow(w, RowFor(latest[i], plans, users).expiry, now)
    ensures RowFor(latest[i], plans, users) in WindowRows(latest, plans, users, w, now)
    decreases |latest|
  {
    var init := latest[..|latest| - 1];
    if i < |latest| - 1 {
      assert init[i] == latest[i];
      WindowRowsComplete(init, plans, users, w, now, i);
    }
  }

  /** Extending the latest records by one adds at most that record's row. */
  lemma WindowRowsSnoc(latest: seq<Membership>, plans: seq<Plan>, users: seq<User>, w: Window, now: int, i: nat)
    requires i < |latest|
    ensures var row := RowFor(latest[i], plans, users);
      WindowRows(latest[..i + 1], plans, users, w, now)
      == WindowRows(latest[..i], plans, users, w, now) + (if InWindow(w, row.expiry, now) then [row] else [])
  {
    assert latest[..i + 1][..i] == latest[..i];
    assert latest[..i + 1][i] == latest[i];
  }

  function RowExpiry(r: RenewalRow): int {
    r.expiry
  }

  function NegatedRowExpiry(r: RenewalRow): int {
    -r.expiry
  }

  /** The classification loop and the two sorts: due rows by ascending
      expiry, lapsed rows by descending expiry; a row is never in both. */
  method Classify(latest: seq<Membership>, plans: seq<Plan>, users: seq<User>, now: int)
    returns (due: seq<RenewalRow>, lapsed: seq<RenewalRow>)
    ensures SortedBy(due, RowExpiry) && multiset(due) == multiset(WindowRows(latest, plans, users, Due, now))
    ensures SortedBy(lapsed, NegatedRowExpiry)
    ensures multiset(lapsed) == multiset(WindowRows(latest, plans, users, Lapsed, now))
    ensures forall x :: x in due ==> now <= x.expiry <= now + 30
    ensures forall x :: x in lapsed ==> now - 30 <= x.expiry < now
  {
    var dueNext30: seq<RenewalRow> := [];
    var lapsed30: seq<RenewalRow> := [];
    for i := 0 to |latest|
      invariant dueNext30 == WindowRows(latest[..i], plans, users, Due, now)
      invariant lapsed30 == WindowRows(latest[..i], plans, users, Lapsed, now)
    {
      WindowRowsSnoc(latest, plans, users, Due, now, i);
      WindowRowsSnoc(latest, plans, users, Lapsed, now, i);
      var row := RowFor(latest[i], plans, users);
      if row.expiry >= now && row.expiry <= now + 30 {
        dueNext30 := dueNext30 + [row];
      } else if row.expiry < now {
        if row.expiry >= now - 30 {
          lapsed30 := lapsed30 + [row];
        }
      }
    }
    assert latest[..|latest|] == latest;
    due := SortBy(dueNext30, RowExpiry);
    lapsed := SortBy(lapsed30, NegatedRowExpiry);
    SortedRowsInWindow(dueNext30, due, Due, now);
    SortedRowsInWindow(lapsed30, lapsed, Lapsed, now);
  }

  /** Reordering rows keeps them in their window. */
  lemma SortedRowsInWindow(rows: seq<RenewalRow>, sorted: seq<RenewalRow>, w: Window, now: int)
    requires multiset(sorted) == multiset(rows)
    requires forall x :: x in rows ==> InWindow(w, x.expiry, now)
    ensures forall x :: x in sorted ==> InWindow(w, x.expiry, now)
  {
    forall x | x in sorted ensures InWindow(w, x.expiry, now) {
      assert x in multiset(rows);
    }
  }

  /** `GET /renewals`: the latest record of each user, classified; every row
      is the row of a user's first record in the given order, every such
      record whose expiry lies in a window has its row in that window's
      list, each user appears at most once in a list, and no row is both
      due and lapsed. */
  method RenewalsReport(ms: seq<Membership>, plans: seq<Plan>, users: seq<User>, now: int)
    returns (due: seq<RenewalRow>, lapsed: seq<RenewalRow>)
    ensures SortedBy(due, RowExpiry) && SortedBy(lapsed, NegatedRowExpiry)
    ensures forall x :: x in due ==> now <= x.expiry <= now + 30
    ensures forall x :: x in lapsed ==> now - 30 <= x.expiry < now
    ensures forall x :: x in due ==> x !in lapsed
    ensures forall x :: x in due || x in lapsed ==>
      exists k :: FirstOfUser(ms, k) && x == RowFor(ms[k], plans, users)
    ensures forall k :: FirstOfUser(ms, k) && InWindow(Due, RowFor(ms[k], plans, users).expiry, now) ==>
      RowFor(ms[k], plans, users) in due
    ensures forall k :: FirstOfUser(ms, k) && InWindow(Lapsed, RowFor(ms[k], plans, users).expiry, now) ==>
      RowFor(ms[k], plans, users) in lapsed
    ensures forall i, j :: 0 <= i < j < |due| ==> due[i].userId != due[j].userId
    ensures forall i, j :: 0 <= i < j < |lapsed| ==> lapsed[i].userId != lapsed[j].userId
  {
    var latest := LatestByUser(ms);
    due, lapsed := Classify(latest, plans, users, now);
    WindowRowsDistinct(latest, plans, users, Due, now);
    WindowRowsDistinct(latest, plans, users, Lapsed, now);
    DistinctUsersPermutation(WindowRows(latest, plans, users, Due, now), due);
    DistinctUsersPermutation(WindowRows(latest, plans, users, Lapsed, now), lapsed);
    ReportComplete(ms, latest, plans, users, Due, now, due);
    ReportComplete(ms, latest, plans, users, Lapsed, now, lapsed);
    forall x | x in due || x in lapsed
      ensures exists k :: FirstOfUser(ms, k) && x == RowFor(ms[k], plans, users)
    {
      var w := if x in due then Due else Lapsed;
      assert x in multiset(WindowRows(latest, plans, users, w, now));
      WindowRowsSource(latest, plans, users, w, now, x);
      var i :| 0 <= i < |latest| && x == RowFor(latest[i], plans, users);
      assert latest[i] in latest;
      var k :| FirstOfUser(ms, k) && ms[k] == latest[i];
    }
  }

  /** The first record of every user is among the latest records, so its row
      is in the list of each window its expiry lies in. */
  lemma ReportComplete(ms: seq<Membership>, latest: seq<Membership>, plans: seq<Plan>, users: seq<User>,
                       w: Window, now: int, rows: seq<RenewalRow>)
    requires forall m :: m in latest ==> exists k :: FirstOfUser(ms, k) && ms[k] == m
    requires forall m :: m in ms ==> exists r :: r in latest && r.userId == m.userId
    requires multiset(rows) == multiset(WindowRows(latest, plans, users, w, now))
    ensures forall k :: FirstOfUser(ms, k) && InWindow(w, RowFor(ms[k], plans, users).expiry, now) ==>
      RowFor(ms[k], plans, users) in rows
  {
    forall k | FirstOfUser(ms, k) && InWindow(w, RowFor(ms[k], plans, users).expiry, now)
      ensures RowFor(ms[k], plans, users) in rows
    {
      assert ms[k] in ms;
      var r :| r in latest && r.userId == ms[k].userId;
      var k' :| FirstOfUser(ms, k') && ms[k'] == r;
      assert k' == k;
      var i :| 0 <= i < |latest| && latest[i] == ms[k];
      WindowRowsComplete(latest, plans, users, w, now, i);
      assert RowFor(ms[k], plans, users) in multiset(rows);
    }
  }
}
