/** The `Membership` schema (backend/models/Membership.js): one document per
    plan a user has availed, kept for history once it is no longer active. */
module MembershipModel {
  import opened Common

  /** The `status` enum: `'active'` or `'expired'`. */
  datatype Status = Active | Expired

  /** One document of the membership collection; `startDate` is a day number. */
  datatype Membership = Membership(
    userId: string,
    planId: int,
    planName: string,
    startDate: int,
    status: Status)

  /** The enum check on `status`. */
  function ParseStatus(s: string): (r: Option<Status>)
    ensures r == Some(Active) <==> s == "active"
    ensures r == Some(Expired) <==> s == "expired"
    ensures r.None? <==> s != "active" && s != "expired"
  {
    if s == "active" then Some(Active)
    else if s == "expired" then Some(Expired)
    else None
  }

  /** A stored membership has its required strings (a required string must be non-empty). */
  predicate Valid(m: Membership) {
    m.userId != "" && m.planName != ""
  }

  /** `new Membership({...})` followed by `save()`: the required fields must be
      present, `status` must be one of the enum values, and the absent
      `startDate` and `status` take their defaults (the current day, `'active'`).
      An empty string stands for an absent string field; `None` is `save()`
      failing validation. */
  function NewMembership(userId: string, planId: Option<int>, planName: string,
                         startDate: Option<int>, status: Option<string>, now: int): (r: Option<Membership>)
    ensures r.Some? <==>
      userId != "" && planId.Some? && planName != "" && (status.None? || ParseStatus(status.value).Some?)
    ensures r.Some? ==> Valid(r.value)
    ensures r.Some? ==>
      r.value.userId == userId && r.value.planId == planId.value && r.value.planName == planName
    ensures r.Some? ==> r.value.startDate == (if startDate.Some? then startDate.value else now)
    ensures r.Some? && status.None? ==> r.value.status == Active
    ensures r.Some? && status.Some? ==> Some(r.value.status) == ParseStatus(status.value)
  {
    if userId == "" || planId.None? || planName == "" then None
    else
      var st := if status.None? then Some(Active) else ParseStatus(status.value);
      if st.None? then None
      else Some(Membership(userId, planId.value, planName, startDate.GetOr(now), st.value))
  }
}
