/** The `Plan` schema (backend/models/Plan.js): a membership plan with a
    numeric id that the plan routes allocate. */
module PlanModel {
  import opened Common

  /** One plan document; `createdAt` and `updatedAt` are day numbers. */
  datatype Plan = Plan(
    id: int,
    name: string,
    price: int,
    duration: string,
    features: seq<string>,
    createdAt: int,
    updatedAt: int)

  /** The required strings of a stored plan are non-empty. */
  predicate Valid(p: Plan) {
    p.name != "" && p.duration != ""
  }

  /** The unique index on `id`. */
  ghost predicate IdsUnique(plans: seq<Plan>) {
    forall i, j :: 0 <= i < j < |plans| ==> plans[i].id != plans[j].id
  }

  /** `new Plan({...})`: `id`, `name`, `price` and `duration` are required,
      `features` defaults to the empty list and both timestamps to the
      current day; `None` is validation failing. */
  function NewPlan(id: Option<int>, name: string, price: Option<int>, duration: string,
                   features: Option<seq<string>>, now: int): (r: Option<Plan>)
    ensures r.Some? <==> id.Some? && name != "" && price.Some? && duration != ""
    ensures r.Some? ==> Valid(r.value)
    ensures r.Some? ==>
      r.value.id == id.value && r.value.name == name && r.value.price == price.value && r.value.duration == duration
    ensures r.Some? ==> r.value.features == (if features.Some? then features.value else [])
    ensures r.Some? ==> r.value.createdAt == now && r.value.updatedAt == now
  {
    if id.None? || name == "" || price.None? || duration == "" then None
    else Some(Plan(id.value, name, price.value, duration, features.GetOr([]), now, now))
  }

  /** The `pre('save')` hook: every save stamps `updatedAt` with the current
      day and touches nothing else. */
  function PreSave(p: Plan, now: int): (r: Plan)
    ensures r.updatedAt == now
    ensures r.(updatedAt := p.updatedAt) == p
  {
    p.(updatedAt := now)
  }
}
