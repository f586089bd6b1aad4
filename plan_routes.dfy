/** The plan routes (backend/routes/planRoutes.js): a table of plans keyed by
    a numeric id, with fresh-id allocation, listing, lookup, update and delete. */
module PlanRoutes {
  import opened Common
  import opened PlanModel
  import Sorting

  function PlanId(p: Plan): int {
    p.id
  }

  /** The largest id in a non-empty table. */
  function MaxId(plans: seq<Plan>): (m: int)
    requires plans != []
    ensures forall i :: 0 <= i < |plans| ==> plans[i].id <= m
    ensures exists i :: 0 <= i < |plans| && plans[i].id == m
  {
    if |plans| == 1 then plans[0].id
    else
      var rest := MaxId(plans[1..]);
      assert exists i :: 1 <= i < |plans| && plans[i].id == rest by {
        var j :| 0 <= j < |plans[1..]| && plans[1..][j].id == rest;
        assert plans[j + 1].id == rest;
      }
      if plans[0].id >= rest then plans[0].id else rest
  }

  /** `getNextPlanId`: one more than the id of the first plan under
      `sort({ id: -1 })`, that is the largest id, or 1 for an empty table. */
  function NextPlanId(plans: seq<Plan>): (r: int)
    ensures plans == [] ==> r == 1
    ensures forall i :: 0 <= i < |plans| ==> plans[i].id < r
    ensures plans != [] ==> exists i :: 0 <= i < |plans| && plans[i].id == r - 1
  {
    if plans == [] then 1 else MaxId(plans) + 1
  }

  /** `GET /`: every plan, by ascending id. */
  function ListPlans(plans: seq<Plan>): (r: seq<Plan>)
    ensures Sorting.SortedBy(r, PlanId)
    ensures multiset(r) == multiset(plans)
  {
    Sorting.SortBy(plans, PlanId)
  }

  /** `Plan.findOne({ id })`: the position of the first plan with that id. */
  function FindPlan(plans: seq<Plan>, id: int): (r: Option<nat>)
    ensures r.Some? ==> r.value < |plans| && plans[r.value].id == id
    ensures r.Some? ==> forall j :: 0 <= j < r.value ==> plans[j].id != id
    ensures r.None? ==> forall j :: 0 <= j < |plans| ==> plans[j].id != id
  {
    if plans == [] then None
    else if plans[0].id == id then Some(0)
    else
      match FindPlan(plans[1..], id)
      case Some(k) => Some(k + 1)
      case None => None
  }

  /** `GET /:id`. The id is `Number(req.params.id)`; `None` stands for a
      parameter that does not convert, which makes the query throw. */
  function GetPlan(plans: seq<Plan>, id: Option<int>): (r: Reply<Plan>)
    ensures r.Ok? <==> id.Some? && exists j :: 0 <= j < |plans| && plans[j].id == id.value
    ensures r.Ok? ==> r.status == 200 && r.body in plans && r.body.id == id.value
    ensures r.Fail? && id.Some? ==> r == Fail(404, "Plan not found")
    ensures id.None? ==> r == Fail(500, "Failed to fetch plan")
  {
    if id.None? then Fail(500, "Failed to fetch plan")
    else
      match FindPlan(plans, id.value)
      case Some(k) => Ok(200, plans[k])
      case None => Fail(404, "Plan not found")
  }

  /** The update document `{ name, price, duration, features }`: a field that
      is absent from the request is left as it was; `id` and the timestamps
      are not touched (the update bypasses the save hook). */
  function Patched(p: Plan, name: Option<string>, price: Option<int>, duration: Option<string>,
                   features: Option<seq<string>>): (r: Plan)
    ensures r.id == p.id && r.createdAt == p.createdAt && r.updatedAt == p.updatedAt
    ensures r.name == (if name.Some? then name.value else p.name)
    ensures r.price == (if price.Some? then price.value else p.price)
    ensures r.duration == (if duration.Some? then duration.value else p.duration)
    ensures r.features == (if features.Some? then features.value else p.features)
  {
    p.(name := name.GetOr(p.name), price := price.GetOr(p.price),
       duration := duration.GetOr(p.duration), features := features.GetOr(p.features))
  }

  /** The table after `findOneAndDelete({ id })`. */
  function WithoutPlan(plans: seq<Plan>, id: int): (r: seq<Plan>)
    ensures FindPlan(plans, id).None? ==> r == plans
    ensures FindPlan(plans, id).Some? ==>
      var k := FindPlan(plans, id).value;
      && |r| == |plans| - 1
      && (forall j :: 0 <= j < k ==> r[j] == plans[j])
      && (forall j :: k <= j < |r| ==> r[j] == plans[j + 1])
  {
    match FindPlan(plans, id)
    case Some(k) => plans[..k] + plans[k + 1..]
    case None => plans
  }

  class PlanTable {
    var plans: seq<Plan>

    ghost predicate Valid()
      reads this
    {
      IdsUnique(plans)
    }

    constructor ()
      ensures plans == [] && Valid()
    {
      plans := [];
    }

    /** `POST /`: the new plan takes the next id and is saved through the
        `pre('save')` hook; a request missing a required field gets 400. */
    method Create(name: string, price: Option<int>, duration: string, features: Option<seq<string>>,
                  now: int) returns (reply: Reply<Plan>)
      modifies this
      ensures reply.Ok? <==> name != "" && price.Some? && duration != ""
      ensures reply.Ok? ==> reply.status == 201 && plans == old(plans) + [reply.body]
      ensures reply.Ok? ==>
        reply.body == Plan(NextPlanId(old(plans)), name, price.value, duration, features.GetOr([]), now, now)
      ensures reply.Fail? ==> reply == Fail(400, "Failed to create plan") && plans == old(plans)
      ensures old(Valid()) ==> Valid()
    {
      var id := NextPlanId(plans);
      var created := NewPlan(Some(id), name, price, duration, features, now);
      if created.None? {
        reply := Fail(400, "Failed to create plan");
        return;
      }
      var saved := PreSave(created.value, now);
      plans := plans + [saved];
      reply := Ok(201, saved);
    }

    /** `PUT /:id`: overwrites the given fields of the plan with that id and
        replies with the updated plan; no other plan changes. */
    method Update(id: Option<int>, name: Option<string>, price: Option<int>, duration: Option<string>,
                  features: Option<seq<string>>) returns (reply: Reply<Plan>)
      modifies this
      ensures id.None? ==> reply == Fail(400, "Failed to update plan") && plans == old(plans)
      ensures id.Some? && FindPlan(old(plans), id.value).None? ==>
        reply == Fail(404, "Plan not found") && plans == old(plans)
      ensures id.Some? && FindPlan(old(plans), id.value).Some? ==>
        var k := FindPlan(old(plans), id.value).value;
        && plans == old(plans)[k := Patched(old(plans)[k], name, price, duration, features)]
        && reply == Ok(200, plans[k])
      ensures old(Valid()) ==> Valid()
    {
      if id.None? {
        reply := Fail(400, "Failed to update plan");
        return;
      }
      var found := FindPlan(plans, id.value);
      if found.None? {
        reply := Fail(404, "Plan not found");
        return;
      }
      var k := found.value;
      plans := plans[k := Patched(plans[k], name, price, duration, features)];
      reply := Ok(200, plans[k]);
    }

    /** `DELETE /:id`: removes the plan with that id. */
    method Delete(id: Option<int>) returns (reply: Reply<bool>)
      modifies this
      ensures id.None? ==> reply == Fail(400, "Failed to delete plan") && plans == old(plans)
      ensures id.Some? && FindPlan(old(plans), id.value).None? ==>
        reply == Fail(404, "Plan not found") && plans == old(plans)
      ensures id.Some? && FindPlan(old(plans), id.value).Some? ==>
        reply == Ok(200, true) && plans == WithoutPlan(old(plans), id.value)
      ensures old(Valid()) ==> Valid()
    {
      if id.None? {
        reply := Fail(400, "Failed to delete plan");
        return;
      }
      var found := FindPlan(plans, id.value);
      if found.None? {
        reply := Fail(404, "Plan not found");
        return;
      }
      ghost var before := plans;
      var k := found.value;
      plans := plans[..k] + plans[k + 1..];
      reply := Ok(200, true);
      if old(Valid()) {
        DeleteRemovesExactlyOne(before, id.value);
      }
    }
  }

  /** A created plan's id differs from every id already in the table, so the
      unique index is never violated by `POST /`. */
  lemma NextPlanIdIsFresh(plans: seq<Plan>, p: Plan)
    requires IdsUnique(plans)
    requires p.id == NextPlanId(plans)
    ensures IdsUnique(plans + [p])
    ensures GetPlan(plans + [p], Some(p.id)) == Ok(200, p)
  {
    assert FindPlan(plans + [p], p.id) == Some(|plans|) by {
      var q := plans + [p];
      forall j | 0 <= j < |plans| ensures q[j].id != p.id {
        assert q[j] == plans[j];
      }
      assert q[|plans|].id == p.id;
    }
  }

  /** Deleting by id removes exactly the plan with that id: it is no longer
      found, and every other plan is still there, unchanged and in order. */
  lemma DeleteRemovesExactlyOne(plans: seq<Plan>, id: int)
    requires IdsUnique(plans)
    ensures var after := WithoutPlan(plans, id);
      && IdsUnique(after)
      && (forall j :: 0 <= j < |after| ==> after[j].id != id)
      && (forall p :: p in plans && p.id != id ==> p in after)
      && (forall p :: p in after ==> p in plans)
      && |after| == |plans| - (if FindPlan(plans, id).Some? then 1 else 0)
  {
    match FindPlan(plans, id)
    case None =>
    case Some(k) =>
      RemoveAtIds(plans, k);
      RemoveAtMembers(plans, k);
  }

  /** Removing the plan at `k` from a table with unique ids leaves unique ids,
      none of them the removed plan's. */
  lemma RemoveAtIds(plans: seq<Plan>, k: nat)
    requires IdsUnique(plans) && k < |plans|
    ensures var after := plans[..k] + plans[k + 1..];
      IdsUnique(after) && forall j :: 0 <= j < |after| ==> after[j].id != plans[k].id
  {
    var after := plans[..k] + plans[k + 1..];
    forall i, j | 0 <= i < j < |after| ensures after[i].id != after[j].id {
      assert after[i] == plans[if i < k then i else i + 1];
      assert after[j] == plans[if j < k then j else j + 1];
    }
    forall j | 0 <= j < |after| ensures after[j].id != plans[k].id {
      assert after[j] == plans[if j < k then j else j + 1];
    }
  }

  /** Removing the plan at `k` keeps every other plan and adds none. */
  lemma RemoveAtMembers(plans: seq<Plan>, k: nat)
    requires k < |plans|
    ensures var after := plans[..k] + plans[k + 1..];
      && (forall p :: p in plans && p.id != plans[k].id ==> p in after)
      && (forall p :: p in after ==> p in plans)
  {
    var after := plans[..k] + plans[k + 1..];
    forall p | p in plans && p.id != plans[k].id ensures p in after {
      var i :| 0 <= i < |plans| && plans[i] == p;
      assert after[if i < k then i else i - 1] == p;
    }
    forall p | p in after ensures p in plans {
      var j :| 0 <= j < |after| && after[j] == p;
      assert after[j] == plans[if j < k then j else j + 1];
    }
  }

  /** An absent id leaves the table as it was, and the lookup answers 404. */
  lemma AbsentPlanIdNotFound(plans: seq<Plan>, id: int)
    requires forall j :: 0 <= j < |plans| ==> plans[j].id != id
    ensures GetPlan(plans, Some(id)) == Fail(404, "Plan not found")
    ensures WithoutPlan(plans, id) == plans
  {
  }
}
