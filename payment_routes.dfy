/** The payment routes (backend/routes/paymentRoutes.js): the redirect after a
    paid checkout, which activates the paid plan through the membership
    route, and the construction of a checkout session request. The HTTP
    calls are parameters: `activate` answers whether the activation request
    succeeded, `paymongo` whether the payment provider created a session. */
module PaymentRoutes {
  import opened Common
  import opened Text
  import MembershipModel
  import MembershipRoutes

  /** One entry of the fixed plan list of the success route. */
  datatype PaidPlan = PaidPlan(id: int, name: string)

  const PaidPlans: seq<PaidPlan> :=
    [PaidPlan(1, "Day Pass"), PaidPlan(2, "Monthly Plan"), PaidPlan(3, "Quarterly Plan")]

  const HomeUrl: string := "http://localhost:3000/home"
  const ActivationFailedUrl: string := "http://localhost:3000/membership?error=activation-failed"

  /** `plans.find(p => p.id === parseInt(planId))`: an absent parameter or
      one that does not parse (`NaN`) matches nothing. */
  function FindPaidPlan(planId: Option<string>): (r: Option<PaidPlan>)
    ensures r.Some? <==>
      planId.Some? && ParseInt(planId.value).Some? && 1 <= ParseInt(planId.value).value <= 3
    ensures r.Some? ==> r.value in PaidPlans && r.value.id == ParseInt(planId.value).value
  {
    if planId.None? then None
    else
      match ParseInt(planId.value)
      case None => None
      case Some(n) =>
        if n == 1 then Some(PaidPlans[0])
        else if n == 2 then Some(PaidPlans[1])
        else if n == 3 then Some(PaidPlans[2])
        else None
  }

  /** The body posted to the activation route. */
  datatype ActivationRequest = ActivationRequest(userId: Option<string>, planId: int, planName: string)

  /** What `GET /success` does: the activation request it sends, if any, and
      the page it redirects to. */
  datatype SuccessOutcome = SuccessOutcome(request: Option<ActivationRequest>, redirect: string)

  /** `GET /success`: an unknown plan sends nothing and redirects to the
      error page; a known plan sends the activation request and redirects
      home when it succeeds, to the error page when it fails. */
  function PaymentSuccess(planId: Option<string>, userId: Option<string>,
                          activate: ActivationRequest -> bool): (r: SuccessOutcome)
    ensures r.request.None? <==> FindPaidPlan(planId).None?
    ensures r.request.None? ==> r.redirect == ActivationFailedUrl
    ensures r.request.Some? ==>
      var p := FindPaidPlan(planId).value;
      && r.request.value == ActivationRequest(userId, p.id, p.name)
      && r.redirect == (if activate(r.request.value) then HomeUrl else ActivationFailedUrl)
  {
    match FindPaidPlan(planId)
    case None => SuccessOutcome(None, ActivationFailedUrl)
    case Some(p) =>
      var request := ActivationRequest(userId, p.id, p.name);
      SuccessOutcome(Some(request), if activate(request) then HomeUrl else ActivationFailedUrl)
  }

  /** The plan the success route finds for the decimal rendering of `n`:
      plans 1 to 3, and nothing for any other number. */
  lemma PaidPlanFor(n: int)
    ensures FindPaidPlan(Some(IntToString(n))) == if 1 <= n <= 3 then Some(PaidPlans[n - 1]) else None
  {
    ParseIntOfIntToString(n);
  }

  /** The fixed table: `"1"`, `"2"` and `"3"` name the day pass, the monthly
      and the quarterly plan; `"4"` and an absent id name none. */
  lemma PaidPlanNames()
    ensures FindPaidPlan(Some("1")) == Some(PaidPlan(1, "Day Pass"))
    ensures FindPaidPlan(Some("2")) == Some(PaidPlan(2, "Monthly Plan"))
    ensures FindPaidPlan(Some("3")) == Some(PaidPlan(3, "Quarterly Plan"))
    ensures FindPaidPlan(Some("4")).None? && FindPaidPlan(None).None?
  {
    assert IntToString(1) == "1" && IntToString(2) == "2";
    assert IntToString(3) == "3" && IntToString(4) == "4";
    PaidPlanFor(1);
    PaidPlanFor(2);
    PaidPlanFor(3);
    PaidPlanFor(4);
  }

  /** After a paid checkout for a known plan, carrying a user id, the
      activation route gives the user exactly that active plan and the
      success route redirects home. */
  lemma PaidPlanIsActivated(records: seq<MembershipModel.Membership>, n: int, userId: string, now: int)
    requires MembershipRoutes.AtMostOneActivePerUser(records)
    requires 1 <= n <= 3
    requires userId != ""
    ensures var outcome := PaymentSuccess(Some(IntToString(n)), Some(userId),
                                          (r: ActivationRequest) => MembershipRoutes.ActivationChecked(records, r.userId, Some(r.planId),
                                                                                  r.planName, now).1.Activated?);
      && outcome.redirect == HomeUrl
      && var after := MembershipRoutes.Activation(records, userId, Some(n), PaidPlans[n - 1].name, now).0;
         MembershipRoutes.LookupActive(after, userId) == MembershipRoutes.ActivePlan(n, PaidPlans[n - 1].name)
  {
    var p := PaidPlans[n - 1];
    PaidPlanFor(n);
    var request := ActivationRequest(Some(userId), p.id, p.name);
    assert request.userId == Some(userId) && p.id == n;
    MembershipRoutes.ActivationLeavesExactlyOne(records, userId, Some(n), p.name, now);
  }

  /** A checkout line item. */
  datatype LineItem = LineItem(name: string, amount: int, currency: string, quantity: nat)

  /** The body and authorization of the checkout session request. */
  datatype CheckoutSession = CheckoutSession(
    lineItems: seq<LineItem>,
    paymentMethodTypes: seq<string>,
    successUrl: string,
    cancelUrl: string,
    description: string,
    authorization: string)

  /** `Math.round(x)`: the nearest integer, halves rounded up. */
  function RoundHalfUp(x: real): (n: int)
    ensures x - 0.5 < n as real <= x + 0.5
  {
    (x + 0.5).Floor
  }

  /** A template literal renders an absent value as `undefined`. */
  function Render(s: Option<string>): string {
    if s.Some? then s.value else "undefined"
  }

  function RenderNumber(n: Option<int>): string {
    if n.Some? then IntToString(n.value) else "undefined"
  }

  /** The session request `POST /create-checkout` sends: one line item for
      the amount in centavos, named by the description or the default
      name, and a success URL that carries the plan and user. */
  function CheckoutSessionFor(secret: string, amount: real, description: Option<string>, planId: Option<int>,
                              userId: Option<string>, encode: string -> string, base64: string -> string)
    : (s: CheckoutSession)
    ensures |s.lineItems| == 1
    ensures s.lineItems[0].currency == "PHP" && s.lineItems[0].quantity == 1
    ensures s.lineItems[0].name ==
      (if description.None? || description.value == "" then "MuscleHub Membership" else description.value)
    ensures s.lineItems[0].amount == RoundHalfUp(amount * 100.0)
    ensures s.paymentMethodTypes == ["gcash", "grab_pay", "card"]
    ensures s.successUrl ==
      "http://localhost:5000/api/payment/success?planId=" + RenderNumber(planId)
      + "&userId=" + encode(Render(userId))
    ensures s.cancelUrl == "http://localhost:3000/membership"
    ensures s.description ==
      (if description.Some? then description.value else "undefined") + " - User: "
      + (if userId.Some? then userId.value else "undefined")
    ensures s.authorization == "Basic " + base64(secret + ":")
  {
    var name := if description.None? || description.value == "" then "MuscleHub Membership" else description.value;
    CheckoutSession(
      [LineItem(name, RoundHalfUp(amount * 100.0), "PHP", 1)],
      ["gcash", "grab_pay", "card"],
      "http://localhost:5000/api/payment/success?planId=" + RenderNumber(planId) + "&userId=" + encode(Render(userId)),
      "http://localhost:3000/membership",
      Render(description) + " - User: " + Render(userId),
      "Basic " + base64(secret + ":"))
  }

  /** The payment provider's answer: the checkout URL, or an error text. */
  datatype ProviderAnswer = SessionCreated(checkoutUrl: string) | ProviderError(error: string)

  /** What `POST /create-checkout` does: the session request it sends, if
      any, and its reply. */
  datatype CheckoutOutcome = CheckoutOutcome(session: Option<CheckoutSession>, reply: Reply<string>)

  /** `POST /create-checkout`: without a secret key it answers 500 before any
      request; otherwise it sends the session request and answers with the
      checkout URL, or 500 with the provider's error (`"Payment failed"`
      when that is empty). The secret is `""` when unset. */
  function CreateCheckout(secret: string, amount: real, description: Option<string>, planId: Option<int>,
                          userId: Option<string>, encode: string -> string, base64: string -> string,
                          paymongo: CheckoutSession -> ProviderAnswer): (r: CheckoutOutcome)
    ensures secret == "" <==> r.session.None?
    ensures secret == "" ==> r.reply == Fail(500, "Server misconfiguration")
    ensures r.session.Some? ==>
      r.session.value == CheckoutSessionFor(secret, amount, description, planId, userId, encode, base64)
    ensures r.session.Some? ==>
      match paymongo(r.session.value)
      case SessionCreated(url) => r.reply == Ok(200, url)
      case ProviderError(e) => r.reply == Fail(500, if e == "" then "Payment failed" else e)
  {
    if secret == "" then CheckoutOutcome(None, Fail(500, "Server misconfiguration"))
    else
      var session := CheckoutSessionFor(secret, amount, description, planId, userId, encode, base64);
      match paymongo(session)
      case SessionCreated(url) => CheckoutOutcome(Some(session), Ok(200, url))
      case ProviderError(e) => CheckoutOutcome(Some(session), Fail(500, if e == "" then "Payment failed" else e))
  }

  /** The plan a checkout writes into its success URL is the plan the
      success route activates: `parseInt` reads back the rendered id. */
  lemma CheckoutPlanRoundTrip(planId: int, userId: Option<string>, activate: ActivationRequest -> bool)
    requires 1 <= planId <= 3
    ensures var r := PaymentSuccess(Some(RenderNumber(Some(planId))), userId, activate);
      r.request.Some? && r.request.value.planId == planId && r.request.value.userId == userId
  {
    ParseIntOfIntToString(planId);
  }

  /** A checkout without a plan id writes `undefined` into its success URL,
      which does not parse, so the success route activates nothing. */
  lemma MissingPlanIdActivatesNothing(userId: Option<string>, activate: ActivationRequest -> bool)
    ensures var r := PaymentSuccess(Some(RenderNumber(None)), userId, activate);
      r.request.None? && r.redirect == ActivationFailedUrl
  {
    var u := "undefined";
    assert !IsJsSpace(u[0]) && TrimStart(u) == u;
    assert DigitValue(u[0]) == 30;
    assert LeadingDigits(u, 10) == 0;
  }
}
