# MuscleHub backend — a Dafny model

MuscleHub is a gym-membership backend: an Express REST API over three
MongoDB collections (users, plans, memberships). This project models the
decision and update logic of its route handlers, middleware and schemas, and
proves properties of that logic.

- **Collections.** Each collection is an in-memory sequence in insertion
  order:
  - the users are `UserModel.UserTable`;
  - the plans are `PlanRoutes.PlanTable`;
  - the memberships are `MembershipRoutes.MembershipCollection`.

  The handlers that change a collection are methods of these classes, or
  methods that take a table. Each states its new state and reply. Each also
  states that it keeps the collection's invariant:
  - at most one active membership per user;
  - unique plan ids;
  - unique user ids and emails, with every required string present.
- **Abstracted libraries.** bcrypt, `jwt.sign`/`jwt.verify`, the axios
  calls, `encodeURIComponent` and base64 are function parameters (`hash`,
  `compare`, `sign`, `verify`, `activate`, `paymongo`, `encode`,
  `base64`).
- **Dates and strings.** Dates are integer day numbers, and the current
  day is a parameter. An empty string stands for an absent or falsy
  string field of a request; `Option` is used for absent numbers and for
  absent optional document fields.

## Modules

- `Common`: `Option` and the `Reply` of a route, a status code with a body or
  a message.
- `Text`: the JavaScript string operations the routes use:
  - `toLowerCase` on ASCII, `includes`, and `split(' ')`;
  - `String(n)`;
  - `parseInt` with its white-space skipping, sign, `0x` prefix and
    longest digit run.
- `Sorting`: `Array.prototype.sort` with a numeric comparator, modelled as a
  stable insertion sort.
- `MembershipModel`, `PlanModel`, `UserModel`: the three schemas, with their
  required fields, enums, defaults, the unique indexes and the plan
  `pre('save')` hook.
- `MembershipRoutes`: `GET /active/:name` and `POST /activate`.
- `PlanRoutes`: `getNextPlanId` and plan list, get, create, update and delete.
- `AuthMiddleware`: bearer-token extraction and the accept/reject decision.
- `Auth`: signup, login and create-admin.
- `UserRoutes`: the profile, the leaderboard, the user directory, and the
  BMI history:
  - one entry per day, newest first, capped at 50;
  - deletion by entry id and clearing, both for admins only.
- `PaymentRoutes`: the success redirect, which triggers activation, and the
  checkout-session request.
- `Analytics`: `GET /summary`:
  - `durationToDays`;
  - revenue through the price map, and the seven-day series with its growth
    rate;
  - the non-admin user count;
  - the renewals due and the thirty-day plan distribution.
- `Renewals`: `GET /renewals`:
  - the latest membership per user;
  - its expiry, its user and plan labels;
  - the due and lapsed windows and their sorts.

## Activation follows the code

`POST /activate` always expires the user's current active record and then
inserts a new active record (backend/routes/membershipRoutes.js:45-64). A
user who is already active is not skipped, and the expiry is saved before
the new record is validated. For a body that carries a `userId` the model
follows the code:

- `MembershipRoutes.RepeatedActivation` shows that activating the same plan
  twice adds two records and expires the first of them;
- `MembershipRoutes.FailedActivationStillExpires` shows that a request that
  fails validation still leaves the expiry saved, so the user ends with no
  active plan.

A request without a `userId` is the subject of the finding below. The pure
functions model both halves of it: `ActivationAsWritten` is the route as
written, and `ActivationChecked` the corrected route. The state-changing
`MembershipCollection.Activate` implements the corrected route.

## Model

| member | source | states |
|---|---|---|
| MembershipModel.ParseStatus | backend/models/Membership.js:20-24 | only `'active'` and `'expired'` are accepted, each mapped to its own status |
| MembershipModel.NewMembership | backend/models/Membership.js:3-25 | a document is created exactly when userId, planId and planName are present and the status is one of the enum values; it carries the given fields, startDate defaults to the current day and status to active |
| MembershipRoutes.FindActive | backend/routes/membershipRoutes.js:12-15 | the result is the first record of the user with status active, and none exists when there is no result |
| MembershipRoutes.LookupActive | backend/routes/membershipRoutes.js:19-32 | the reply is "no active plan" with its message exactly when the user has no active record; otherwise it carries the planId and planName of an active record of that user |
| MembershipRoutes.ExpireCurrent | backend/routes/membershipRoutes.js:45-53 | the length is kept, and the only record that changes is the user's first active one, which becomes expired |
| MembershipRoutes.Activation | backend/routes/membershipRoutes.js:45-69 | the activation succeeds exactly when userId, planId and planName are present; on success the reply carries the new active record of the requested plan started today, appended after the expiry; on failure the reply is "Error activating membership" and the expiry stays saved |
| MembershipRoutes.FindAnyActive | backend/routes/membershipRoutes.js:45-48 | with the userId key dropped from the filter, the result is the first active record of any user, and none exists when there is no result |
| MembershipRoutes.ActivationAsWritten | backend/routes/membershipRoutes.js:42-69 | with a userId it is the activation above; without one it expires the first active record of any user, or changes nothing when no record is active, and fails with "Error activating membership" |
| MembershipRoutes.AbsentUserIdExpiresAnother | backend/routes/membershipRoutes.js:45-53 | a request without a userId expires alice's active monthly plan, after which her lookup reports no active plan |
| MembershipRoutes.ActivationChecked | backend/routes/membershipRoutes.js:42-69 | without a userId the request fails and the collection is unchanged; with one it is the activation above |
| MembershipRoutes.ActivationCheckedLeavesOthers | backend/routes/membershipRoutes.js:45-64 | the collection never shrinks, and every record of a user other than the requester is unchanged, also when the userId is absent |
| MembershipRoutes.MembershipCollection.Activate | backend/routes/membershipRoutes.js:40-70 | the new collection and the reply are those of the checked activation: refused without a userId, expire-then-insert otherwise; at most one active record per user is kept |
| MembershipRoutes.AtMostOneActiveCount | backend/routes/membershipRoutes.js:45-53 | under the invariant a user has at most one active record, so the one `findOne` finds is the only one |
| MembershipRoutes.ExpireCurrentClearsUser | backend/routes/membershipRoutes.js:45-53 | after the expiry, under the invariant, the user has no active record |
| MembershipRoutes.ActivationKeepsAtMostOne | backend/routes/membershipRoutes.js:44-64 | each activation preserves "at most one active membership per user" |
| MembershipRoutes.ActivationLeavesExactlyOne | backend/routes/membershipRoutes.js:45-64 | after a successful activation the collection has one more record, the new one is active with the requested plan, the user has exactly one active record, and the lookup reports the requested plan |
| MembershipRoutes.ActivationKeepsHistory | backend/routes/membershipRoutes.js:50-64 | nothing is deleted: the collection grows by one on success; the previous active record stays, with status expired; every other record is unchanged |
| MembershipRoutes.ActivationLeavesOthers | backend/routes/membershipRoutes.js:45-48 | records of other users are unchanged |
| MembershipRoutes.ActivationWithoutPrior | backend/routes/membershipRoutes.js:50-64 | with no active record for the user, the collection only gains the new active record |
| MembershipRoutes.RepeatedActivation | backend/routes/membershipRoutes.js:45-64 | activating the same plan twice adds two records, the first expired and the second active, and one active record remains |
| MembershipRoutes.FailedActivationStillExpires | backend/routes/membershipRoutes.js:50-69 | a request without a plan name fails, adds nothing, and still leaves the user with no active record |
| PlanModel.NewPlan | backend/models/Plan.js:3-11 | a plan is created exactly when id, name, price and duration are present; features default to the empty list, both timestamps to the current day |
| PlanModel.PreSave | backend/models/Plan.js:14-17 | a save stamps `updatedAt` with the current day and changes nothing else |
| PlanRoutes.MaxId | backend/routes/planRoutes.js:8 | the largest id of a non-empty table is some plan's id and bounds every id |
| PlanRoutes.NextPlanId | backend/routes/planRoutes.js:7-10 | 1 for an empty table, otherwise one more than an existing id and larger than every id |
| PlanRoutes.ListPlans | backend/routes/planRoutes.js:13-20 | the listing is sorted by ascending id and is a permutation of the table |
| PlanRoutes.FindPlan | backend/routes/planRoutes.js:25 | the result is the first plan with the id, and none has it when there is no result |
| PlanRoutes.GetPlan | backend/routes/planRoutes.js:23-31 | 200 with a plan carrying the id exactly when one exists, 404 "Plan not found" otherwise, 500 for an id that does not convert |
| PlanRoutes.Patched | backend/routes/planRoutes.js:49-54 | each given field replaces the stored one, absent fields and the id and timestamps are kept |
| PlanRoutes.PlanTable.Create | backend/routes/planRoutes.js:34-44 | a plan with all required fields is appended with the next id, features defaulted, stamped timestamps and 201; otherwise 400 and no change; ids stay unique |
| PlanRoutes.PlanTable.Update | backend/routes/planRoutes.js:47-60 | only the plan with the id is patched and returned; an absent id gets 404, an unconvertible one 400, both without change |
| PlanRoutes.PlanTable.Delete | backend/routes/planRoutes.js:63-71 | the plan with the id is removed with `{ success: true }`; an absent id gets 404 and no change |
| PlanRoutes.WithoutPlan | backend/routes/planRoutes.js:65 | an id no plan has changes nothing; otherwise exactly the first plan with the id is removed and the others keep their order |
| PlanRoutes.NextPlanIdIsFresh | backend/routes/planRoutes.js:7-10 | a plan created with the next id keeps ids unique and is then found under its id |
| PlanRoutes.DeleteRemovesExactlyOne | backend/routes/planRoutes.js:65-67 | after a delete no plan has the id, every other plan is still present, nothing is added, ids stay unique and the size drops by one exactly when the id was present |
| PlanRoutes.AbsentPlanIdNotFound | backend/routes/planRoutes.js:25-26 | an absent id is answered 404 and a delete of it changes nothing |
| Sorting.SortBy | backend/routes/planRoutes.js:15 | the result is sorted by the key and is a permutation of the input |
| UserModel.ParseRole | backend/models/User.js:23-27 | exactly `admin`, `member` and `client` are accepted, each named back by its role |
| UserModel.NewUser | backend/models/User.js:3-37 | a user is created exactly when name, email and password are present and the role, if given, is an enum name; role defaults to member, goal to "No goal set", bmiHistory to empty, isVerified to false |
| UserModel.FindById | backend/routes/userRoutes.js:11 | the result holds the id, and no user has it when there is no result |
| UserModel.FindByEmail | backend/routes/auth.js:17 | the result is a user with the email, and no user has it when there is no result |
| UserModel.UserTable.Insert | backend/models/User.js:4-6 | a new document is stored exactly when it has its required fields and its email and id are unused; the invariant is kept |
| UserModel.UserTable.Save | backend/models/User.js:4-6 | a changed document replaces the stored one exactly when it has its required fields and no other user has its email; the invariant is kept |
| AuthMiddleware.JwtSecret | backend/middleware/authMiddleware.js:17 | the secret is the environment value, or `secretkey` when unset |
| AuthMiddleware.ExtractToken | backend/middleware/authMiddleware.js:5-6 | a token exists exactly when the header has a space followed by a non-space character; it is then the whole piece between the first space and the next space or the end |
| AuthMiddleware.SplitSecond | backend/middleware/authMiddleware.js:6 | `split(' ')` has a second piece exactly when the string has a space, and that piece runs from after the first space to the next one |
| AuthMiddleware.Authenticate | backend/middleware/authMiddleware.js:4-27 | 401 "No token" without a token; 401 "Token is not valid" when verification fails; otherwise `req.user` is exactly the id and role of the verified claims |
| AuthMiddleware.BearerTokenRoundTrip | backend/middleware/authMiddleware.js:6 | a header `<scheme> <token>` yields exactly the token |
| AuthMiddleware.NoSpaceNoToken | backend/middleware/authMiddleware.js:6-14 | a header without a space carries no token |
| Auth.SignupDocument | backend/routes/auth.js:22-31 | the stored password is the hash of the given one; an empty role becomes member; an absent password builds nothing |
| Auth.AdminDocument | backend/routes/auth.js:118-127 | the document has role admin, the hashed password, and the name "Admin User" when none is given |
| Auth.EmailTaken | backend/routes/auth.js:17 | with an email, true exactly when some user has it; without one the `email` key drops out of the filter, so true exactly when the collection is non-empty |
| Auth.Signup | backend/routes/auth.js:10-41 | a taken email, or an absent email with any user stored, gets 400 and no change; otherwise the document is appended with 201 exactly when it builds and its id is new, else 500 and no change |
| Auth.CreateAdmin | backend/routes/auth.js:108-141 | a taken email, or an absent email with any user stored, gets 400 and no change; otherwise the admin document is appended with 201 and its email and role, or 500 and no change |
| Auth.Login | backend/routes/auth.js:44-105 | a missing field gets 400 before any lookup; an unknown email and a wrong password get the same 400; success signs exactly the user's id and role and fills in the role, goal and avatar defaults |
| Auth.LoginAfterSignup | backend/routes/auth.js:26-66 | logging in right after a signup succeeds and reports the role chosen at signup |
| Auth.LoginTokenAuthenticates | backend/routes/auth.js:69-76 | a login token sent as a bearer header passes the middleware, which sees the user's id and role |
| UserRoutes.PublicHidesOnlyPassword | backend/routes/userRoutes.js:11 | `select('-password')` hides the password and nothing else: two users look the same exactly when they differ at most in their passwords |
| UserRoutes.GetProfile | backend/routes/userRoutes.js:9-20 | 200 with the caller's document without the password exactly when the caller exists, else 404 |
| UserRoutes.MergeProfile | backend/routes/userRoutes.js:39-44 | each of name, email, phone, dob, goal and avatar is replaced only by a truthy value; no other field changes; a valid user stays valid |
| UserRoutes.MergeProfileIdempotent | backend/routes/userRoutes.js:39-44 | applying the same update twice is the same as once |
| UserRoutes.EmptyProfileRequestKeepsUser | backend/routes/userRoutes.js:39-44 | an update with every field falsy changes nothing |
| UserRoutes.UpdateProfile | backend/routes/userRoutes.js:23-62 | 404 for an unknown caller; otherwise the merged document is saved and returned exactly when its email is not another user's, else 500 and no change |
| UserRoutes.OtherUsers | backend/routes/userRoutes.js:68 | exactly the users other than the caller |
| UserRoutes.OtherUsersAppend | backend/routes/userRoutes.js:68 | the filter distributes over concatenation, so the other users keep collection order |
| UserRoutes.Leaderboard | backend/routes/userRoutes.js:65-77 | at most 50 entries, the first other users in order, without passwords, never the caller |
| UserRoutes.Directory | backend/routes/userRoutes.js:80-88 | the id, name and email of every user, in order |
| UserRoutes.RecordBmi | backend/routes/userRoutes.js:100-129 | refused exactly when the newest entry is from the same day; otherwise the entry is first, followed by the older entries in order, and the length is min(old length + 1, 50) |
| UserRoutes.RecordBmiOncePerDay | backend/routes/userRoutes.js:103-108 | a second recording on the same day is refused |
| UserRoutes.RecordBmiKeepsNewestFirst | backend/routes/userRoutes.js:110-124 | a history ordered newest first by clock reading stays so when a later reading is recorded |
| UserRoutes.RecordBmiBounded | backend/routes/userRoutes.js:126-129 | the history never exceeds 50 entries, and below the cap nothing is dropped |
| UserRoutes.AddBmi | backend/routes/userRoutes.js:91-138 | 404 for an unknown caller; 400 and no change when today is already recorded; otherwise the recorded history is saved and returned, which always succeeds under the invariant |
| UserRoutes.SameCredentialsSave | backend/routes/userRoutes.js:131 | a document whose name, email and password are unchanged is accepted by the save under the invariant |
| UserRoutes.WithoutEntry | backend/routes/userRoutes.js:155 | an entry is kept exactly when its id does not render as `entryId` |
| UserRoutes.WithoutEntryAppend | backend/routes/userRoutes.js:155 | the filter distributes over concatenation, so the kept entries keep their order |
| UserRoutes.WithoutAbsentEntry | backend/routes/userRoutes.js:155 | an id no entry has removes nothing |
| UserRoutes.WithoutEntryById | backend/routes/userRoutes.js:155 | deleting by the rendering of a number removes exactly the entries with that number as id |
| UserRoutes.WithoutEntryCount | backend/routes/userRoutes.js:154-160 | before − after is the number of matching entries |
| UserRoutes.DeleteBmiEntry | backend/routes/userRoutes.js:144-165 | 403 and no change for a non-admin; 404 for an unknown user; otherwise the filtered history is saved, with `removed` the number of matching entries |
| UserRoutes.ClearBmi | backend/routes/userRoutes.js:168-186 | 403 and no change for a non-admin; 404 for an unknown user; otherwise the history becomes empty |
| PaymentRoutes.FindPaidPlan | backend/routes/paymentRoutes.js:16-22 | a plan is found exactly when the parameter parses to 1, 2 or 3, and it is the listed plan with that id |
| PaymentRoutes.PaymentSuccess | backend/routes/paymentRoutes.js:10-45 | an unknown plan sends nothing and redirects to the error page; a known one sends the user id, the integer plan id and its name, then redirects home or to the error page as the activation succeeds or fails |
| PaymentRoutes.PaidPlanFor | backend/routes/paymentRoutes.js:16-22 | the rendering of 1, 2 or 3 finds that plan, any other number none |
| PaymentRoutes.PaidPlanNames | backend/routes/paymentRoutes.js:16-20 | "1", "2" and "3" name the day pass, monthly and quarterly plans; "4" and an absent id name none |
| PaymentRoutes.PaidPlanIsActivated | backend/routes/paymentRoutes.js:22-40 | a paid known plan with a user id is activated through the membership route, leaving that plan as the user's active plan, and redirects home |
| PaymentRoutes.RoundHalfUp | backend/routes/paymentRoutes.js:60 | `Math.round` gives the nearest integer, halves rounded up |
| PaymentRoutes.CheckoutSessionFor | backend/routes/paymentRoutes.js:60-89 | one PHP line item of quantity 1 and the rounded centavo amount, named by the description or "MuscleHub Membership"; the session description is the description and the user id, each `undefined` when absent, joined by " - User: "; the three payment methods; success and cancel URLs; basic authorization from the secret |
| PaymentRoutes.CreateCheckout | backend/routes/paymentRoutes.js:48-104 | no secret: 500 "Server misconfiguration" and no request; otherwise the session request is sent and answered with the checkout URL or 500 with the provider error, "Payment failed" when it is empty |
| PaymentRoutes.CheckoutPlanRoundTrip | backend/routes/paymentRoutes.js:22-35 | the plan id a checkout writes into its success URL is the plan the success route activates, for the same user |
| PaymentRoutes.MissingPlanIdActivatesNothing | backend/routes/paymentRoutes.js:22-26 | a checkout without a plan id writes `undefined`, which activates nothing and redirects to the error page |
| Text.ContainsAt | backend/routes/analyticsRoutes.js:83-85 | `includes` holds exactly when the substring occurs at some position |
| Text.ParseInt | backend/routes/paymentRoutes.js:22 | a blank string parses to nothing, and a negative result needs a leading `-` |
| Text.ToLower | backend/routes/analyticsRoutes.js:80 | same length, each character folded |
| Text.Split | backend/middleware/authMiddleware.js:6 | at least one piece, none holding the separator |
| Text.JoinSplit | backend/middleware/authMiddleware.js:6 | joining the pieces of a split gives back the string |
| Text.SplitJoin | backend/middleware/authMiddleware.js:6 | splitting a join of separator-free pieces gives back the pieces |
| Text.IntToString | backend/routes/userRoutes.js:155 | a rendering is non-empty and starts with `-` exactly for a negative number |
| Text.ParseIntOfIntToString | backend/routes/paymentRoutes.js:22 | `parseInt` reads back what `String` writes |
| Analytics.DurationToDays | backend/routes/analyticsRoutes.js:78-87 | absent or empty is 30; after lowercasing, `day` is 1 and `month` 30; otherwise the first of contains 3, 6, 12 gives 90, 180, 365, else 30; always one of those five values |
| Analytics.DurationOfDay | backend/routes/analyticsRoutes.js:80-81 | `Day` is one day: case is ignored |
| Analytics.DurationOfTwelveMonths | backend/routes/analyticsRoutes.js:83-85 | `12 months` is 365 days |
| Analytics.DurationOfOneYear | backend/routes/analyticsRoutes.js:78-87 | `1 year` names no case and is 30 days |
| Analytics.DurationOfThirteenWeeks | backend/routes/analyticsRoutes.js:83 | any `3` decides: `13 weeks` is 90 days |
| Analytics.FirstPlan | backend/routes/analyticsRoutes.js:95 | the result is a plan with the id, and no plan has it when there is no result |
| Analytics.PriceTable | backend/routes/analyticsRoutes.js:13 | the map's keys are exactly the plan ids |
| Analytics.PriceTableLookup | backend/routes/analyticsRoutes.js:13 | with unique ids each plan's price is found under its id |
| Analytics.Revenue | backend/routes/analyticsRoutes.js:28-29 | with non-negative prices the total revenue is non-negative |
| Analytics.RangeRevenueBounded | backend/routes/analyticsRoutes.js:16-25 | with non-negative prices a range's revenue lies between 0 and the total, and a range holding no start day gives 0 |
| Analytics.RevenueAppend | backend/routes/analyticsRoutes.js:28-29 | revenue adds up over concatenated membership lists |
| Analytics.RevenueOfUnknownPlans | backend/routes/analyticsRoutes.js:24 | memberships of unpriced plans contribute 0 |
| Analytics.RangeRevenueSplit | backend/routes/analyticsRoutes.js:16-25 | adjacent date ranges add up |
| Analytics.RangeRevenueCoversAll | backend/routes/analyticsRoutes.js:16-29 | a range holding every start day gives the total revenue |
| Analytics.WeeklyRevenue | backend/routes/analyticsRoutes.js:37-50 | seven days, oldest first, each with that day's revenue, summing to the revenue of the week ending today |
| Analytics.GrowthRate | backend/routes/analyticsRoutes.js:60-65 | without revenue last week: 100 if there is revenue now, else 0; otherwise rate × previous = (current − previous) × 100, positive exactly when revenue grew |
| Analytics.UsersCount | backend/routes/analyticsRoutes.js:32 | at most the number of users, and all of them exactly when none is an admin |
| Analytics.RenewalsDue | backend/routes/analyticsRoutes.js:90-102 | the count of active memberships whose start plus duration lies in [today, today + 30] |
| Analytics.OnlyActiveAreDue | backend/routes/analyticsRoutes.js:90-102 | expired memberships are never counted as due |
| Analytics.PlanLabel | backend/routes/analyticsRoutes.js:111 | the plan's name, or `Plan <id>` for an unknown plan |
| Analytics.TotalIncrement | backend/routes/analyticsRoutes.js:112 | incrementing one label adds one to the sum of counts |
| Analytics.PlanDistribution | backend/routes/analyticsRoutes.js:104-113 | every label's count is the number of recent memberships with that label, only occurring labels are keys, and the counts sum to the number of recent memberships |
| Analytics.ComputeSummary | backend/routes/analyticsRoutes.js:9-125 | each field of the summary is the corresponding revenue, count, series, growth rate or distribution; day j of the weekly series is the revenue of day today − 6 + j; each label in the distribution maps to its positive count of memberships from the last 30 days, and a label not in it has none |
| Renewals.LastBy | backend/routes/analyticsRoutes.js:138 | a `Map` built from key/value pairs keeps the last element with each key: the entry has the key and no later element has it, and no element has a missing key |
| Renewals.FirstAndLastPlanAgree | backend/routes/analyticsRoutes.js:138 | with unique ids the map lookup and `find` give the same plan |
| Renewals.LatestByUser | backend/routes/analyticsRoutes.js:155-164 | one record per user, each the first of its user in the given order, every user covered; the newest when records come newest first per user |
| Renewals.LatestAreNewest | backend/routes/analyticsRoutes.js:152-164 | under the query's per-user newest-first order, the kept record has the latest start date of its user |
| Renewals.ResolveUser | backend/routes/analyticsRoutes.js:176-180 | the last user with the id when one has it; otherwise the last user with that name, found whenever a user has it; none when neither exists |
| Renewals.RowFor | backend/routes/analyticsRoutes.js:158-188 | the row carries the user id, the start day and the expiry from the plan's duration; a found user's non-empty name and email and a found plan's non-empty name are shown; `Plan <id>` for an unknown plan; the raw id and an empty email for an unknown user |
| Renewals.WindowRows | backend/routes/analyticsRoutes.js:189-198 | every row pushed is inside its window |
| Renewals.WindowRowsSource | backend/routes/analyticsRoutes.js:179-198 | each row comes from one of the latest records |
| Renewals.WindowRowsComplete | backend/routes/analyticsRoutes.js:179-198 | each latest record whose expiry is in the window has its row there |
| Renewals.WindowRowsDistinct | backend/routes/analyticsRoutes.js:155-198 | latest records of distinct users push rows of distinct users |
| Renewals.DistinctUsersPermutation | backend/routes/analyticsRoutes.js:201-202 | sorting a list keeps each user at most once |
| Renewals.Classify | backend/routes/analyticsRoutes.js:170-203 | due rows are the window's rows sorted by ascending expiry within [now, now + 30]; lapsed rows sorted by descending expiry within [now − 30, now) |
| Renewals.RenewalsReport | backend/routes/analyticsRoutes.js:135-213 | both lists sorted and inside their windows, disjoint, every row is that of the first record of its user, every user whose first record expires inside a window has its row in that list, and no user appears twice in a list |
| Renewals.ReportComplete | backend/routes/analyticsRoutes.js:155-198 | a user's first record whose expiry lies in a window has its row among that window's rows |

## Findings

| source | as written | input that shows it | evidently intended | confidence | as-written member | corrected member |
|---|---|---|---|---|---|---|
| backend/routes/membershipRoutes.js:42-53 | an absent `userId` drops out of the `findOne` filter, so the first active membership of any user is expired before the request fails validation | `POST /activate` with `{ planId: 1, planName: "Day Pass" }`, or `GET /payment/success?planId=1` without `userId`, while alice holds an active monthly plan | a request without a user id is refused without touching any record | not executed; relies on Mongoose dropping `undefined` filter keys | MembershipRoutes.AbsentUserIdExpiresAnother | MembershipRoutes.ActivationCheckedLeavesOthers |

## Left out

- Concurrency: the find-then-save sequences of `/activate`, `getNextPlanId`, signup and the BMI routes are each one sequential step, so their races are not modelled.
- Floating point: the growth rate is an exact `real` division; `Math.round(amount * 100)` is rounding of an exact real; prices are integers, so the `Number(p.price) || 0` coercion is not modelled; BMI heights, weights and values are carried as `real` without arithmetic.
- Calendar, clock and locale: dates are day numbers, so `setHours`, `setDate`, time of day, `toISOString` and the locale renderings are not modelled. The BMI day and time strings and the clock reading used as the entry id are parameters. The `membersGrowth6m` month series of `GET /summary` is calendar month arithmetic and is not modelled.
- Mongo query semantics:
  - The `sort({ userId: 1, startDate: -1 })` of `GET /renewals` is not performed. The input order is taken as given, and the newest-record property is stated under the predicate `NewestFirstPerUser`.
  - `select`, `lean` and `limit` are modelled only by what they return.
  - The collection order is insertion order.
  - Database outages are not modelled, so the generic 500 replies they cause are not produced.
- Type casts: an `ObjectId` or `Date` that fails to cast, and a non-string request field, are not modelled.
- Absent request fields: Mongoose drops a filter key whose value is `undefined`. This is modelled where it changes the outcome: the `userId` of `POST /activate` and the `email` of signup and create-admin are `Option`s. Other absent string fields are the empty string or `None`.
- Absent numeric fields: the checkout `amount` and the BMI `height`, `weight` and `bmi` are always-present `real`s. An absent `amount` makes `Math.round(undefined * 100)` NaN, sent to PayMongo as `null`; that request is not modelled, and neither is an absent BMI value.
- Foreign code: bcrypt, jwt, axios, PayMongo, `encodeURIComponent` and base64 are parameters. The 24-hour token expiry is part of `verify`.
- `MembershipRoutes.MembershipCollection.Activate`: models the corrected route (`ActivationChecked`), so a body without `userId` leaves the collection unchanged; the route as written, which expires the first active record of any user, is modelled only by the function `ActivationAsWritten`.
- `Renewals.LatestByUser`: the JavaScript `Map` is modelled as a set of seen ids plus the sequence of kept records in insertion order.
- `Sorting.SortBy`: stability is not stated; only sortedness and permutation are.
- `Text.ToLower`: case folding covers ASCII letters only.
- `Text.ParseInt`: numbers beyond double precision are not modelled.
- `UserRoutes.AddBmi`, `UserRoutes.DeleteBmiEntry`, `UserRoutes.ClearBmi`: these state the 500 reply only from a collection that breaks its invariant, where the save may be refused.
- `UserRoutes.UpdateProfile`: the re-read after saving is the saved document itself.
- `PaymentRoutes.PaymentSuccess`: an activation error and a non-2xx answer are both modelled as `activate` returning false.
- backend/utils/emailService.js (mail transport, random verification codes), backend/utils/resetPassword.js (a one-off script) and backend/server.js (wiring) are not part of this model, and neither is logging.
