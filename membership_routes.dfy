/** The membership routes (backend/routes/membershipRoutes.js): looking up a
    user's active plan and activating a new plan, over the membership
    collection held in memory as a sequence in insertion order. */
module MembershipRoutes {
  import opened Common
  import opened MembershipModel

  predicate IsActiveFor(m: Membership, userId: string) {
    m.userId == userId && m.status == Active
  }

  /** `Membership.findOne({ userId, status: 'active' })`: the position of the
      first active record of the user, in collection order. */
  function FindActive(records: seq<Membership>, userId: string): (r: Option<nat>)
    ensures r.Some? ==> r.value < |records| && IsActiveFor(records[r.value], userId)
    ensures r.Some? ==> forall j :: 0 <= j < r.value ==> !IsActiveFor(records[j], userId)
    ensures r.None? ==> forall j :: 0 <= j < |records| ==> !IsActiveFor(records[j], userId)
  {
    if records == [] then None
    else if IsActiveFor(records[0], userId) then Some(0)
    else
      match FindActive(records[1..], userId)
      case Some(k) => Some(k + 1)
      case None => None
  }

  /** How many records of the user are active. */
  function CountActive(records: seq<Membership>, userId: string): nat {
    if records == [] then 0
    else
      CountActive(records[..|records| - 1], userId)
      + (if IsActiveFor(records[|records| - 1], userId) then 1 else 0)
  }

  /** The central invariant: no two active records belong to the same user. */
  ghost predicate AtMostOneActivePerUser(records: seq<Membership>) {
    forall i, j :: 0 <= i < j < |records| && records[i].status == Active && records[j].status == Active
      ==> records[i].userId != records[j].userId
  }

  /** Body of `GET /active/:name`: the plan of the active record, or a null
      plan with a message (status 200 either way). */
  datatype ActiveLookup = ActivePlan(planId: int, planName: string) | NoActivePlan(message: string)

  function LookupActive(records: seq<Membership>, name: string): (r: ActiveLookup)
    ensures r.NoActivePlan? <==> forall j :: 0 <= j < |records| ==> !IsActiveFor(records[j], name)
    ensures r.NoActivePlan? ==> r.message == "No active plan"
    ensures r.ActivePlan? ==>
      (exists j :: 0 <= j < |records| && IsActiveFor(records[j], name)
                   && records[j].planId == r.planId && records[j].planName == r.planName)
  {
    match FindActive(records, name)
    case Some(k) => ActivePlan(records[k].planId, records[k].planName)
    case None => NoActivePlan("No active plan")
  }

  /** Reply of `POST /activate`: the created record, or the 500 message. */
  datatype ActivateReply = Activated(membership: Membership) | ActivationFailed(message: string)

  /** The collection after the user's current active record, if there is one,
      has been set to `expired` and saved. */
  function ExpireCurrent(records: seq<Membership>, userId: string): (r: seq<Membership>)
    ensures |r| == |records|
    ensures forall i :: 0 <= i < |r| ==>
      r[i] == records[i] || (IsActiveFor(records[i], userId) && r[i] == records[i].(status := Expired))
    ensures forall i :: 0 <= i < |r| && FindActive(records, userId) != Some(i) ==> r[i] == records[i]
    ensures FindActive(records, userId).Some? ==> FindActive(r, userId) != FindActive(records, userId)
  {
    match FindActive(records, userId)
    case Some(k) => records[k := records[k].(status := Expired)]
    case None => records
  }

  /** The whole `POST /activate` step for a body that carries a `userId`:
      expire the current active record, then create and save the new active
      one. When the new record fails validation the expiry has already been
      saved. */
  function Activation(records: seq<Membership>, userId: string, planId: Option<int>,
                      planName: string, now: int): (r: (seq<Membership>, ActivateReply))
    ensures r.1.Activated? <==> userId != "" && planId.Some? && planName != ""
    ensures r.1.Activated? ==>
      && r.1.membership == Membership(userId, planId.value, planName, now, Active)
      && r.0 == ExpireCurrent(records, userId) + [r.1.membership]
    ensures r.1.ActivationFailed? ==>
      r.1.message == "Error activating membership" && r.0 == ExpireCurrent(records, userId)
  {
    var expired := ExpireCurrent(records, userId);
    match NewMembership(userId, planId, planName, Some(now), Some("active"), now)
    case Some(m) => (expired + [m], Activated(m))
    case None => (expired, ActivationFailed("Error activating membership"))
  }

  /** `Membership.findOne({ status: 'active' })`: the position of the first
      active record of any user. */
  function FindAnyActive(records: seq<Membership>): (r: Option<nat>)
    ensures r.Some? ==> r.value < |records| && records[r.value].status == Active
    ensures r.Some? ==> forall j :: 0 <= j < r.value ==> records[j].status != Active
    ensures r.None? ==> forall j :: 0 <= j < |records| ==> records[j].status != Active
  {
    if records == [] then None
    else if records[0].status == Active then Some(0)
    else
      match FindAnyActive(records[1..])
      case Some(k) => Some(k + 1)
      case None => None
  }

  /** `POST /activate` as written, for a body that may lack `userId`
      (`None`). Mongoose drops a filter key whose value is `undefined`, so
      without a user id the lookup is `findOne({ status: 'active' })`: the
      first active record of any user is expired and saved, and only then
      does the new record fail validation. */
  function ActivationAsWritten(records: seq<Membership>, userId: Option<string>, planId: Option<int>,
                               planName: string, now: int): (r: (seq<Membership>, ActivateReply))
    ensures userId.Some? ==> r == Activation(records, userId.value, planId, planName, now)
    ensures userId.None? ==> r.1 == ActivationFailed("Error activating membership") && |r.0| == |records|
    ensures userId.None? && FindAnyActive(records).Some? ==>
      var k := FindAnyActive(records).value;
      r.0 == records[k := records[k].(status := Expired)]
    ensures userId.None? && FindAnyActive(records).None? ==> r.0 == records
  {
    if userId.Some? then Activation(records, userId.value, planId, planName, now)
    else
      match FindAnyActive(records)
      case Some(k) => (records[k := records[k].(status := Expired)], ActivationFailed("Error activating membership"))
      case None => (records, ActivationFailed("Error activating membership"))
  }

  /** A body without `userId` expires another user's plan: alice's active
      membership is expired by a request that then fails. */
  lemma AbsentUserIdExpiresAnother()
    ensures var records := [Membership("alice", 2, "Monthly Plan", 0, Active)];
      var (after, reply) := ActivationAsWritten(records, None, Some(1), "Day Pass", 5);
      && reply.ActivationFailed?
      && after == [Membership("alice", 2, "Monthly Plan", 0, Expired)]
      && LookupActive(records, "alice") == ActivePlan(2, "Monthly Plan")
      && LookupActive(after, "alice").NoActivePlan?
  {
    var records := [Membership("alice", 2, "Monthly Plan", 0, Active)];
    assert FindAnyActive(records) == Some(0);
    assert FindActive(records, "alice") == Some(0);
  }

  /** `POST /activate` as evidently intended: a body without `userId` is
      refused before anything is looked up or saved; with a user id it is
      the step above. */
  function ActivationChecked(records: seq<Membership>, userId: Option<string>, planId: Option<int>,
                             planName: string, now: int): (r: (seq<Membership>, ActivateReply))
    ensures userId.Some? ==> r == Activation(records, userId.value, planId, planName, now)
    ensures userId.None? ==> r == (records, ActivationFailed("Error activating membership"))
  {
    if userId.None? then (records, ActivationFailed("Error activating membership"))
    else Activation(records, userId.value, planId, planName, now)
  }

  /** With the check, an activation never touches another user's records,
      whatever the body carries. */
  lemma ActivationCheckedLeavesOthers(records: seq<Membership>, userId: Option<string>, planId: Option<int>,
                                      planName: string, now: int)
    ensures var after := ActivationChecked(records, userId, planId, planName, now).0;
      && |after| >= |records|
      && forall i :: 0 <= i < |records| && (userId.None? || records[i].userId != userId.value) ==>
           after[i] == records[i]
  {
    if userId.Some? {
      ActivationLeavesOthers(records, userId.value, planId, planName, now);
    }
  }

  class MembershipCollection {
    var records: seq<Membership>

    ghost predicate Valid()
      reads this
    {
      AtMostOneActivePerUser(records) && forall i :: 0 <= i < |records| ==> MembershipModel.Valid(records[i])
    }

    constructor ()
      ensures records == [] && Valid()
    {
      records := [];
    }

    /** `POST /activate` in its corrected form (`ActivationChecked`): a body
        without `userId` is refused with no change, where the route as written
        expires the first active record of any user (`ActivationAsWritten`);
        with a user id it flips the user's active record to `expired`, saves
        it, then inserts a fresh active record. */
    method Activate(userId: Option<string>, planId: Option<int>, planName: string, now: int)
      returns (reply: ActivateReply)
      modifies this
      ensures (records, reply) == ActivationChecked(old(records), userId, planId, planName, now)
      ensures old(Valid()) ==> Valid()
    {
      if userId.None? {
        reply := ActivationFailed("Error activating membership");
        return;
      }
      var existing := FindActive(records, userId.value);
      if existing.Some? {
        var k := existing.value;
        records := records[k := records[k].(status := Expired)];
      }
      var m := NewMembership(userId.value, planId, planName, Some(now), Some("active"), now);
      if m.Some? {
        records := records + [m.value];
        reply := Activated(m.value);
      } else {
        reply := ActivationFailed("Error activating membership");
      }
      ghost var before := old(records);
      if old(Valid()) {
        ActivationKeepsAtMostOne(before, userId.value, planId, planName, now);
        forall i | 0 <= i < |records| ensures MembershipModel.Valid(records[i]) {
          if i < |before| {
            assert records[i].userId == before[i].userId && records[i].planName == before[i].planName;
          }
        }
      }
    }
  }

  // ---- Properties of the activation step -------------------------------------

  lemma {:induction false} CountActiveZero(records: seq<Membership>, userId: string)
    ensures CountActive(records, userId) == 0 <==>
      forall j :: 0 <= j < |records| ==> !IsActiveFor(records[j], userId)
    decreases |records|
  {
    if records != [] {
      var init := records[..|records| - 1];
      CountActiveZero(init, userId);
      assert forall j :: 0 <= j < |init| ==> init[j] == records[j];
    }
  }

  lemma CountActiveAppend(records: seq<Membership>, m: Membership, userId: string)
    ensures CountActive(records + [m], userId)
      == CountActive(records, userId) + (if IsActiveFor(m, userId) then 1 else 0)
  {
    assert (records + [m])[..|records|] == records;
  }

  /** Under the invariant, a user has exactly one active record, or none. */
  lemma {:induction false} AtMostOneActiveCount(records: seq<Membership>, userId: string)
    requires AtMostOneActivePerUser(records)
    ensures CountActive(records, userId) <= 1
    decreases |records|
  {
    if records != [] {
      var n := |records| - 1;
      var init := records[..n];
      assert AtMostOneActivePerUser(init);
      AtMostOneActiveCount(init, userId);
      if IsActiveFor(records[n], userId) {
        assert forall j :: 0 <= j < |init| ==> !IsActiveFor(init[j], userId) by {
          forall j | 0 <= j < |init| ensures !IsActiveFor(init[j], userId) {
            assert init[j] == records[j];
          }
        }
        CountActiveZero(init, userId);
      }
    }
  }

  /** Expiring the user's current record leaves the user with no active
      record, provided the invariant held. */
  lemma ExpireCurrentClearsUser(records: seq<Membership>, userId: string)
    requires AtMostOneActivePerUser(records)
    ensures var expired := ExpireCurrent(records, userId);
      forall j :: 0 <= j < |expired| ==> !IsActiveFor(expired[j], userId)
  {
    var expired := ExpireCurrent(records, userId);
    match FindActive(records, userId)
    case None =>
    case Some(k) =>
      forall j | 0 <= j < |expired| ensures !IsActiveFor(expired[j], userId) {
        if j != k && records[j].status == Active && records[j].userId == userId {
          assert false;
        }
      }
  }

  /** Each activation preserves "at most one active membership per user". */
  lemma ActivationKeepsAtMostOne(records: seq<Membership>, userId: string, planId: Option<int>,
                                 planName: string, now: int)
    requires AtMostOneActivePerUser(records)
    ensures AtMostOneActivePerUser(Activation(records, userId, planId, planName, now).0)
  {
    var expired := ExpireCurrent(records, userId);
    ExpireCurrentClearsUser(records, userId);
    assert AtMostOneActivePerUser(expired);
    match NewMembership(userId, planId, planName, Some(now), Some("active"), now)
    case None =>
    case Some(m) =>
      var after := expired + [m];
      forall i, j | 0 <= i < j < |after| && after[i].status == Active && after[j].status == Active
        ensures after[i].userId != after[j].userId
      {
        if j == |expired| {
          assert !IsActiveFor(expired[i], userId);
        } else {
          assert after[i] == expired[i] && after[j] == expired[j];
        }
      }
  }

  /** After a successful activation the user has exactly one active record,
      it is the new one, and the active lookup reports the requested plan. */
  lemma ActivationLeavesExactlyOne(records: seq<Membership>, userId: string, planId: Option<int>,
                                   planName: string, now: int)
    requires AtMostOneActivePerUser(records)
    requires Activation(records, userId, planId, planName, now).1.Activated?
    ensures var after := Activation(records, userId, planId, planName, now).0;
      && |after| == |records| + 1
      && after[|records|] == Membership(userId, planId.value, planName, now, Active)
      && CountActive(after, userId) == 1
      && LookupActive(after, userId) == ActivePlan(planId.value, planName)
  {
    var expired := ExpireCurrent(records, userId);
    var after := Activation(records, userId, planId, planName, now).0;
    var m := after[|records|];
    assert after == expired + [m];
    ExpireCurrentClearsUser(records, userId);
    CountActiveZero(expired, userId);
    CountActiveAppend(expired, m, userId);
    assert FindActive(after, userId) == Some(|records|);
  }

  /** The previously active record is kept, only its status becoming
      `expired`; every other earlier record is unchanged, and nothing is deleted. */
  lemma ActivationKeepsHistory(records: seq<Membership>, userId: string, planId: Option<int>,
                               planName: string, now: int)
    ensures var (after, reply) := Activation(records, userId, planId, planName, now);
      && |after| == |records| + (if reply.Activated? then 1 else 0)
      && (forall i :: 0 <= i < |records| && FindActive(records, userId) != Some(i) ==> after[i] == records[i])
      && (FindActive(records, userId).Some? ==>
            var k := FindActive(records, userId).value;
            after[k] == records[k].(status := Expired))
  {
  }

  /** Records of other users are untouched by an activation. */
  lemma ActivationLeavesOthers(records: seq<Membership>, userId: string, planId: Option<int>,
                               planName: string, now: int)
    ensures var after := Activation(records, userId, planId, planName, now).0;
      forall i :: 0 <= i < |records| && records[i].userId != userId ==> after[i] == records[i]
  {
  }

  /** With no active record for the user, nothing is expired: the collection
      only grows by the new active record. */
  lemma ActivationWithoutPrior(records: seq<Membership>, userId: string, planId: Option<int>,
                               planName: string, now: int)
    requires forall j :: 0 <= j < |records| ==> !IsActiveFor(records[j], userId)
    requires userId != "" && planId.Some? && planName != ""
    ensures Activation(records, userId, planId, planName, now).0
      == records + [Membership(userId, planId.value, planName, now, Active)]
  {
  }

  /** Activating the same plan twice is not a no-op: two records are added,
      the first of them is expired by the second activation, and exactly one
      active record remains. */
  lemma {:induction false} RepeatedActivation(records: seq<Membership>, userId: string, planId: int,
                                              planName: string, day1: int, day2: int)
    requires AtMostOneActivePerUser(records)
    requires userId != "" && planName != ""
    ensures var once := Activation(records, userId, Some(planId), planName, day1).0;
      var twice := Activation(once, userId, Some(planId), planName, day2).0;
      && |twice| == |records| + 2
      && twice[|records|] == Membership(userId, planId, planName, day1, Expired)
      && twice[|records| + 1] == Membership(userId, planId, planName, day2, Active)
      && CountActive(twice, userId) == 1
  {
    var once := Activation(records, userId, Some(planId), planName, day1).0;
    ActivationLeavesExactlyOne(records, userId, Some(planId), planName, day1);
    ActivationKeepsAtMostOne(records, userId, Some(planId), planName, day1);
    assert FindActive(once, userId) == Some(|records|);
    ActivationLeavesExactlyOne(once, userId, Some(planId), planName, day2);
  }

  /** A request that fails validation (say, without a plan name) still leaves
      the user's previous active record expired: the user ends with no active
      membership, because the expiry is saved before the new record is validated. */
  lemma FailedActivationStillExpires(records: seq<Membership>, userId: string, planId: Option<int>, now: int)
    requires AtMostOneActivePerUser(records)
    ensures var (after, reply) := Activation(records, userId, planId, "", now);
      && reply.ActivationFailed?
      && |after| == |records|
      && CountActive(after, userId) == 0
  {
    var after := Activation(records, userId, planId, "", now).0;
    ExpireCurrentClearsUser(records, userId);
    CountActiveZero(after, userId);
  }
}
