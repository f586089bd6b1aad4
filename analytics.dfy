/** The summary analytics (backend/routes/analyticsRoutes.js, `GET /summary`):
    revenue through a plan-price map, the seven-day revenue series and its
    growth rate, the non-admin user count, the renewals due within thirty
    days and the distribution of plans availed in the last thirty days.
    Dates are day numbers; `today` is the current day. */
module Analytics {
  import opened Common
  import opened Text
  import opened PlanModel
  import opened MembershipModel
  import opened UserModel

  // ---- Plan durations ---------------------------------------------------------

  /** `durationToDays`: an absent or empty duration is 30 days; otherwise,
      after lowercasing, `"day"` is 1, `"month"` 30, and then the first of
      "contains 3", "contains 6", "contains 12" gives 90, 180 or 365 days;
      anything else is 30. */
  function DurationToDays(duration: Option<string>): (days: nat)
    ensures days == 1 || days == 30 || days == 90 || days == 180 || days == 365
    ensures duration.None? || duration.value == "" ==> days == 30
    ensures days == 1 <==> duration.Some? && ToLower(duration.value) == "day"
    ensures days == 90 ==> Contains(ToLower(duration.value), "3")
    ensures days == 180 ==> Contains(ToLower(duration.value), "6") && !Contains(ToLower(duration.value), "3")
    ensures days == 365 ==>
      && Contains(ToLower(duration.value), "12")
      && !Contains(ToLower(duration.value), "3") && !Contains(ToLower(duration.value), "6")
    ensures duration.Some? && ToLower(duration.value) == "month" ==> days == 30
    ensures duration.Some? && Contains(ToLower(duration.value), "3") ==> days == 90
    ensures duration.Some? && Contains(ToLower(duration.value), "6") && !Contains(ToLower(duration.value), "3")
      ==> days == 180
    ensures duration.Some? && Contains(ToLower(duration.value), "12")
      && !Contains(ToLower(duration.value), "3") && !Contains(ToLower(duration.value), "6")
      ==> days == 365
    ensures duration.Some? && ToLower(duration.value) != "day" && !Contains(ToLower(duration.value), "3")
      && !Contains(ToLower(duration.value), "6") && !Contains(ToLower(duration.value), "12")
      ==> days == 30
  {
    if duration.None? || duration.value == "" then 30
    else
      var d := ToLower(duration.value);
      MissingCharNotContained("day", "3", '3');
      MissingCharNotContained("day", "6", '6');
      MissingCharNotContained("month", "3", '3');
      MissingCharNotContained("month", "6", '6');
      MissingCharNotContained("day", "12", '1');
      MissingCharNotContained("month", "12", '1');
      if d == "day" then 1
      else if d == "month" then 30
      else if Contains(d, "3") then 90
      else if Contains(d, "6") then 180
      else if Contains(d, "12") then 365
      else 30
  }

  /** The match ignores case: `"Day"` is one day. */
  lemma DurationOfDay()
    ensures DurationToDays(Some("Day")) == 1
  {
    assert ToLower("Day") == "day";
  }

  /** `"12 months"` has no `3` and no `6`, so it is a year. */
  lemma DurationOfTwelveMonths()
    ensures DurationToDays(Some("12 months")) == 365
  {
    var d := "12 months";
    assert ToLower(d) == d by { LowerOfLower(d); }
    assert Contains(d, "12") by { assert d[..2] == "12"; }
    assert !Contains(d, "3") by { MissingCharNotContained(d, "3", '3'); }
    assert !Contains(d, "6") by { MissingCharNotContained(d, "6", '6'); }
  }

  /** A duration naming none of the cases, such as `"1 year"`, is 30 days. */
  lemma DurationOfOneYear()
    ensures DurationToDays(Some("1 year")) == 30
  {
    var d := "1 year";
    assert ToLower(d) == d by { LowerOfLower(d); }
    assert !Contains(d, "3") by { MissingCharNotContained(d, "3", '3'); }
    assert !Contains(d, "6") by { MissingCharNotContained(d, "6", '6'); }
    assert !Contains(d, "12") by { MissingCharNotContained(d, "12", '2'); }
  }

  /** Any `3` decides: `"13 weeks"` is 90 days. */
  lemma DurationOfThirteenWeeks()
    ensures DurationToDays(Some("13 weeks")) == 90
  {
    var d := "13 weeks";
    LowerOfLower(d);
    assert Contains(d[1..], "3");
  }

  /** `plans.find(p => p.id === id)`: the first plan with that id. */
  function FirstPlan(plans: seq<Plan>, id: int): (r: Option<Plan>)
    ensures r.Some? ==> r.value in plans && r.value.id == id
    ensures r.None? ==> forall j :: 0 <= j < |plans| ==> plans[j].id != id
  {
    if plans == [] then None
    else if plans[0].id == id then Some(plans[0])
    else FirstPlan(plans[1..], id)
  }

  /** `plan?.duration`: the duration of a found plan. */
  function PlanDuration(plan: Option<Plan>): Option<string> {
    if plan.Some? then Some(plan.value.duration) else None
  }

  /** The day a membership runs out: its start plus its plan's duration. */
  function ExpiryDay(m: Membership, plan: Option<Plan>): int {
    m.startDate + DurationToDays(PlanDuration(plan))
  }

  // ---- Revenue ---------------------------------------------------------------

  /** `new Map(plans.map(p => [p.id, price]))`: a later plan with the same id
      overwrites an earlier one. */
  function PriceTable(plans: seq<Plan>): (t: map<int, int>)
    ensures forall id :: id in t <==> exists j :: 0 <= j < |plans| && plans[j].id == id
  {
    if plans == [] then map[]
    else
      var last := plans[|plans| - 1];
      var init := PriceTable(plans[..|plans| - 1]);
      assert forall j :: 0 <= j < |plans| - 1 ==> plans[..|plans| - 1][j] == plans[j];
      init[last.id := last.price]
  }

  /** With unique plan ids every plan's price is found under its id. */
  lemma {:induction false} PriceTableLookup(plans: seq<Plan>, k: nat)
    requires PlanModel.IdsUnique(plans)
    requires k < |plans|
    ensures PriceTable(plans)[plans[k].id] == plans[k].price
    decreases |plans|
  {
    var init := plans[..|plans| - 1];
    if k < |plans| - 1 {
      assert PlanModel.IdsUnique(init);
      assert init[k] == plans[k];
      PriceTableLookup(init, k);
    }
  }

  /** `planIdToPrice.get(id) || 0`: an unknown plan contributes nothing. */
  function PriceOf(prices: map<int, int>, planId: int): int {
    if planId in prices then prices[planId] else 0
  }

  /** The revenue `reduce`: each membership adds its plan's price. */
  function Revenue(ms: seq<Membership>, prices: map<int, int>): (r: int)
    ensures (forall id :: id in prices ==> prices[id] >= 0) ==> r >= 0
  {
    if ms == [] then 0
    else Revenue(ms[..|ms| - 1], prices) + PriceOf(prices, ms[|ms| - 1].planId)
  }

  /** Revenue is additive over the membership list. */
  lemma {:induction false} RevenueAppend(a: seq<Membership>, b: seq<Membership>, prices: map<int, int>)
    ensures Revenue(a + b, prices) == Revenue(a, prices) + Revenue(b, prices)
    decreases |b|
  {
    if b == [] {
      assert a + b == a;
    } else {
      var init := b[..|b| - 1];
      RevenueAppend(a, init, prices);
      assert (a + b)[..|a + b| - 1] == a + init;
      assert (a + b)[|a + b| - 1] == b[|b| - 1];
    }
  }

  /** Memberships whose plan has no price contribute nothing at all. */
  lemma {:induction false} RevenueOfUnknownPlans(ms: seq<Membership>, prices: map<int, int>)
    requires forall i :: 0 <= i < |ms| ==> ms[i].planId !in prices
    ensures Revenue(ms, prices) == 0
    decreases |ms|
  {
    if ms != [] {
      RevenueOfUnknownPlans(ms[..|ms| - 1], prices);
    }
  }

  /** `computeRevenueForRange(lo, hi)` and the per-day queries: the revenue
      of the memberships that started on a day in `[lo, hi)`. */
  function RangeRevenue(ms: seq<Membership>, prices: map<int, int>, lo: int, hi: int): int {
    if ms == [] then 0
    else
      var m := ms[|ms| - 1];
      RangeRevenue(ms[..|ms| - 1], prices, lo, hi) + (if lo <= m.startDate < hi then PriceOf(prices, m.planId) else 0)
  }

  /** With no negative price, the revenue of a date range lies between 0 and
      the total revenue; a range in which no membership starts earns 0. */
  lemma {:induction false} RangeRevenueBounded(ms: seq<Membership>, prices: map<int, int>, lo: int, hi: int)
    ensures (forall id :: id in prices ==> prices[id] >= 0) ==>
      0 <= RangeRevenue(ms, prices, lo, hi) <= Revenue(ms, prices)
    ensures (forall i :: 0 <= i < |ms| ==> !(lo <= ms[i].startDate < hi)) ==> RangeRevenue(ms, prices, lo, hi) == 0
    decreases |ms|
  {
    if ms != [] {
      var init := ms[..|ms| - 1];
      RangeRevenueBounded(init, prices, lo, hi);
      assert forall i :: 0 <= i < |init| ==> init[i] == ms[i];
    }
  }

  /** Adjacent ranges add up. */
  lemma {:induction false} RangeRevenueSplit(ms: seq<Membership>, prices: map<int, int>, lo: int, mid: int, hi: int)
    requires lo <= mid <= hi
    ensures RangeRevenue(ms, prices, lo, hi) == RangeRevenue(ms, prices, lo, mid) + RangeRevenue(ms, prices, mid, hi)
    decreases |ms|
  {
    if ms != [] {
      RangeRevenueSplit(ms[..|ms| - 1], prices, lo, mid, hi);
    }
  }

  /** An empty range has no revenue. */
  lemma {:induction false} RangeRevenueEmpty(ms: seq<Membership>, prices: map<int, int>, lo: int)
    ensures RangeRevenue(ms, prices, lo, lo) == 0
    decreases |ms|
  {
    if ms != [] {
      RangeRevenueEmpty(ms[..|ms| - 1], prices, lo);
    }
  }

  /** A range covering every start day is the total revenue. */
  lemma {:induction false} RangeRevenueCoversAll(ms: seq<Membership>, prices: map<int, int>, lo: int, hi: int)
    requires forall i :: 0 <= i < |ms| ==> lo <= ms[i].startDate < hi
    ensures RangeRevenue(ms, prices, lo, hi) == Revenue(ms, prices)
    decreases |ms|
  {
    if ms != [] {
      RangeRevenueCoversAll(ms[..|ms| - 1], prices, lo, hi);
    }
  }

  /** One element of `weeklyRevenue`. */
  datatype DailyAmount = DailyAmount(day: int, amount: int)

  /** `dailyAmounts.reduce((s, d) => s + d.amount, 0)`. */
  function SumAmounts(daily: seq<DailyAmount>): int {
    if daily == [] then 0 else SumAmounts(daily[..|daily| - 1]) + daily[|daily| - 1].amount
  }

  /** The loop over the last seven days, oldest first: each day's revenue,
      and together they are the revenue of the week ending today. */
  method WeeklyRevenue(ms: seq<Membership>, prices: map<int, int>, today: int) returns (daily: seq<DailyAmount>)
    ensures |daily| == 7
    ensures forall j :: 0 <= j < 7 ==>
      daily[j] == DailyAmount(today - 6 + j, RangeRevenue(ms, prices, today - 6 + j, today - 5 + j))
    ensures SumAmounts(daily) == RangeRevenue(ms, prices, today - 6, today + 1)
  {
    daily := [];
    var i := 6;
    RangeRevenueEmpty(ms, prices, today - 6);
    while i >= 0
      invariant -1 <= i <= 6
      invariant |daily| == 6 - i
      invariant forall j :: 0 <= j < |daily| ==>
        daily[j] == DailyAmount(today - 6 + j, RangeRevenue(ms, prices, today - 6 + j, today - 5 + j))
      invariant SumAmounts(daily) == RangeRevenue(ms, prices, today - 6, today - i)
    {
      var dayStart := today - i;
      var amount := RangeRevenue(ms, prices, dayStart, dayStart + 1);
      RangeRevenueSplit(ms, prices, today - 6, dayStart, dayStart + 1);
      var next := daily + [DailyAmount(dayStart, amount)];
      assert next[..|next| - 1] == daily;
      daily := next;
      i := i - 1;
    }
  }

  /** The growth rate in percent of this week's revenue over last week's;
      without revenue last week it is 100 when there is revenue now, else 0. */
  function GrowthRate(last7: int, prev7: int): (r: real)
    ensures prev7 == 0 ==> (r == 100.0 <==> last7 > 0) && (r == 0.0 <==> last7 <= 0)
    ensures prev7 != 0 ==> r * prev7 as real == (last7 - prev7) as real * 100.0
    ensures prev7 > 0 ==> (r > 0.0 <==> last7 > prev7) && (r == 0.0 <==> last7 == prev7)
  {
    if prev7 == 0 then (if last7 > 0 then 100.0 else 0.0)
    else ((last7 - prev7) as real / prev7 as real) * 100.0
  }

  // ---- Users and renewals ------------------------------------------------------

  /** `User.countDocuments({ role: { $ne: "admin" } })`: users without a role
      are counted. */
  function UsersCount(users: seq<User>): (n: nat)
    ensures n <= |users|
    ensures n == |users| <==> forall i :: 0 <= i < |users| ==> users[i].role != Some(Admin)
  {
    if users == [] then 0
    else UsersCount(users[..|users| - 1]) + (if users[|users| - 1].role != Some(Admin) then 1 else 0)
  }

  /** An active membership whose expiry falls in `[today, today + 30]`. */
  predicate DueSoon(m: Membership, plans: seq<Plan>, today: int) {
    m.status == Active && today <= ExpiryDay(m, FirstPlan(plans, m.planId)) <= today + 30
  }

  function CountDue(ms: seq<Membership>, plans: seq<Plan>, today: int): (n: nat)
    ensures n <= |ms|
  {
    if ms == [] then 0
    else CountDue(ms[..|ms| - 1], plans, today) + (if DueSoon(ms[|ms| - 1], plans, today) then 1 else 0)
  }

  /** The `renewalsDue` loop over the active memberships. */
  method RenewalsDue(ms: seq<Membership>, plans: seq<Plan>, today: int) returns (count: nat)
    ensures count == CountDue(ms, plans, today)
  {
    count := 0;
    var j := 0;
    while j < |ms|
      invariant 0 <= j <= |ms|
      invariant count == CountDue(ms[..j], plans, today)
    {
      var m := ms[j];
      if m.status == Active {
        var days := DurationToDays(PlanDuration(FirstPlan(plans, m.planId)));
        var expiry := m.startDate + days;
        if expiry >= today && expiry <= today + 30 {
          count := count + 1;
        }
      }
      assert ms[..j + 1][..j] == ms[..j];
      j := j + 1;
    }
    assert ms[..|ms|] == ms;
  }

  /** An expired record is never a renewal due, and a plan without a
      duration counts as thirty days. */
  lemma {:induction false} OnlyActiveAreDue(ms: seq<Membership>, plans: seq<Plan>, today: int)
    requires forall i :: 0 <= i < |ms| ==> ms[i].status == Expired
    ensures CountDue(ms, plans, today) == 0
    decreases |ms|
  {
    if ms != [] {
      OnlyActiveAreDue(ms[..|ms| - 1], plans, today);
    }
  }

  // ---- Plan distribution -------------------------------------------------------

  /** `plan?.name || \`Plan ${id}\``: the label a membership is counted under. */
  function PlanLabel(plans: seq<Plan>, planId: int): (tag: string)
    ensures FirstPlan(plans, planId).None? ==> tag == "Plan " + IntToString(planId)
    ensures FirstPlan(plans, planId).Some? && FirstPlan(plans, planId).value.name != "" ==>
      tag == FirstPlan(plans, planId).value.name
    ensures tag != ""
  {
    match FirstPlan(plans, planId)
    case Some(p) => if p.name != "" then p.name else "Plan " + IntToString(planId)
    case None => "Plan " + IntToString(planId)
  }

  /** How many memberships started on or after `since`. */
  function CountSince(ms: seq<Membership>, since: int): nat {
    if ms == [] then 0
    else CountSince(ms[..|ms| - 1], since) + (if ms[|ms| - 1].startDate >= since then 1 else 0)
  }

  /** How many memberships started on or after `since` carry the label. */
  function CountLabel(ms: seq<Membership>, plans: seq<Plan>, since: int, tag: string): nat {
    if ms == [] then 0
    else
      var m := ms[|ms| - 1];
      CountLabel(ms[..|ms| - 1], plans, since, tag)
      + (if m.startDate >= since && PlanLabel(plans, m.planId) == tag then 1 else 0)
  }

  /** The sum of the counts of a distribution. */
  ghost function Total(d: map<string, nat>): nat
    decreases |d|
  {
    if d == map[] then 0
    else
      var k :| k in d;
      d[k] + Total(d - {k})
  }

  /** The sum does not depend on which key is taken first. */
  lemma {:induction false} TotalRemove(d: map<string, nat>, k: string)
    requires k in d
    ensures Total(d) == d[k] + Total(d - {k})
    decreases |d|
  {
    var j :| j in d && Total(d) == d[j] + Total(d - {j});
    if j != k {
      var dj := d - {j};
      var dk := d - {k};
      assert k in dj && j in dk;
      TotalRemove(dj, k);
      TotalRemove(dk, j);
      assert dj - {k} == dk - {j};
    }
  }

  /** Adding one to a count adds one to the sum. */
  lemma TotalIncrement(d: map<string, nat>, k: string)
    ensures Total(d[k := if k in d then d[k] + 1 else 1]) == Total(d) + 1
  {
    var e := d[k := if k in d then d[k] + 1 else 1];
    TotalRemove(e, k);
    assert e - {k} == d - {k};
    if k in d {
      TotalRemove(d, k);
    } else {
      assert d - {k} == d;
    }
  }

  /** The `planDistribution` loop over the memberships since `since`: every
      label's count is the number of such memberships with that label, the
      counts sum to the number of such memberships, and only labels that
      occur are keys. */
  method PlanDistribution(ms: seq<Membership>, plans: seq<Plan>, since: int) returns (dist: map<string, nat>)
    ensures Total(dist) == CountSince(ms, since)
    ensures forall tag :: tag in dist ==> dist[tag] == CountLabel(ms, plans, since, tag) && dist[tag] > 0
    ensures forall tag :: tag !in dist ==> CountLabel(ms, plans, since, tag) == 0
  {
    dist := map[];
    var j := 0;
    while j < |ms|
      invariant 0 <= j <= |ms|
      invariant Total(dist) == CountSince(ms[..j], since)
      invariant forall tag :: tag in dist ==> dist[tag] == CountLabel(ms[..j], plans, since, tag) && dist[tag] > 0
      invariant forall tag :: tag !in dist ==> CountLabel(ms[..j], plans, since, tag) == 0
    {
      var m := ms[j];
      assert ms[..j + 1][..j] == ms[..j];
      if m.startDate >= since {
        var name := PlanLabel(plans, m.planId);
        TotalIncrement(dist, name);
        dist := dist[name := if name in dist then dist[name] + 1 else 1];
      }
      j := j + 1;
    }
    assert ms[..|ms|] == ms;
  }

  // ---- The summary -------------------------------------------------------------

  /** The body of `GET /summary` without the month-by-month series. */
  datatype Summary = Summary(
    totalRevenue: int,
    usersCount: nat,
    revenueLast7: int,
    revenuePrev7: int,
    growthRate: real,
    weeklyRevenue: seq<DailyAmount>,
    renewalsDue: nat,
    plansAvailed30d: map<string, nat>)

  /** `GET /summary`. */
  method ComputeSummary(ms: seq<Membership>, plans: seq<Plan>, users: seq<User>, today: int) returns (s: Summary)
    ensures s.totalRevenue == Revenue(ms, PriceTable(plans))
    ensures s.usersCount == UsersCount(users)
    ensures s.revenueLast7 == RangeRevenue(ms, PriceTable(plans), today - 6, today + 1)
    ensures s.revenuePrev7 == RangeRevenue(ms, PriceTable(plans), today - 14, today - 7)
    ensures s.growthRate == GrowthRate(s.revenueLast7, s.revenuePrev7)
    ensures |s.weeklyRevenue| == 7 && SumAmounts(s.weeklyRevenue) == s.revenueLast7
    ensures forall j :: 0 <= j < 7 ==>
      s.weeklyRevenue[j] == DailyAmount(today - 6 + j, RangeRevenue(ms, PriceTable(plans), today - 6 + j, today - 5 + j))
    ensures s.renewalsDue == CountDue(ms, plans, today)
    ensures Total(s.plansAvailed30d) == CountSince(ms, today - 30)
    ensures forall tag :: tag in s.plansAvailed30d ==>
      s.plansAvailed30d[tag] == CountLabel(ms, plans, today - 30, tag) && s.plansAvailed30d[tag] > 0
    ensures forall tag :: tag !in s.plansAvailed30d ==> CountLabel(ms, plans, today - 30, tag) == 0
  {
    var prices := PriceTable(plans);
    var total := Revenue(ms, prices);
    var daily := WeeklyRevenue(ms, prices, today);
    var last7 := SumAmounts(daily);
    var prev7 := RangeRevenue(ms, prices, today - 14, today - 7);
    var due := RenewalsDue(ms, plans, today);
    var dist := PlanDistribution(ms, plans, today - 30);
    s := Summary(total, UsersCount(users), last7, prev7, GrowthRate(last7, prev7), daily, due, dist);
  }
}
