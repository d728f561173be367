# Store-rating server: a Dafny model

This project models the server of a small store-rating application: an
Express/Mongoose API in which users register and log in, administrators add
users and stores and change roles, users rate stores from 1 to 5, and a store
owner looks at who rated the store. Every rate upserts one rating document per
(user, store) pair and recomputes the store's `rating` as the mean of that
store's ratings rounded to one decimal.

The repository holds several copies of the same handlers. `server/server.js` is
self-contained, with its own schemas, guard and routes. The controller, route,
middleware and model files form a second set. The model shares one core and
gives each variant its own member, so that each can be read against its file.

Modules, one per component:

- `Models` (`models.dfy`): the User, Store and Rating documents and their schema
  constraints. It also builds a new document from a request body the way
  `save()` validates it, and holds the `findOne` lookups.
- `Validation` (`validation.dfy`): the password pattern, read two ways. The
  literal regular-expression reading is `PatternMatches`; the executable one
  is `PasswordAccepted`. A lemma proves they agree. Also the name, address and
  role checks.
- `Guard` (`guard.dfy`): `protect(roles)` as a decision over the
  `Authorization` header, the token verifier and the role list. There is one
  message set per copy.
- `Ledger` (`ledger.dfy`): the rating collection, the upsert keyed by
  (user, store), the `reduce` and `toFixed(1)` aggregate, and the properties
  of the stored average.
- `Views` (`views.dfy`): the `/stores` listing with `myRating` and the owner
  statistics (lookup by owner, raters newest first, names populated).
- `Auth` (`auth.dfy`): login in both variants, and how a login token then
  passes the guard.
- `Handlers` (`handlers.dfy`): the `Database` class holding the three
  collections. Its methods are the state-changing handlers, per variant. Its
  invariant `Valid()` carries the schema constraints, the unique indexes, and
  "every store's rating is the rounded mean of its ledger rows".
- `Routing` (`routing.dfy`): first-match dispatch of Express. It shows which
  registrations are never reached.
- `Http` (`http.dfy`): status codes and reply bodies.

How the model represents things:

- **Collections.** The three collections are sequences in natural (insertion)
  order, because `findOne` returns the first match and the listing follows
  store order.
- **Average.** The store's average is kept in tenths as an integer (4.3 is
  43). It is the exact mean rounded to the nearest tenth, a tie going away
  from zero.
- **bcrypt and jwt.** These are parameters. `hash` yields a 60-character
  digest. `compare` is a predicate. `sign(claims, seconds)` is a string.
  `verify` yields the claims, or None where `jwt.verify` throws.
- **New ObjectIds.** Each is a `newId` parameter that no stored document
  mentions yet.
- **Clock.** The timestamps' clock is a `now` parameter.

Where the code departs from the application's intended behaviour, the model
follows the code:

- **Password length.** The password rule is meant to be 8 to 16 characters.
  The pattern does not anchor its end, so any longer password passes
  (`Validation.LongPasswordAccepted`). Only the first line is examined
  (`Validation.SecondLineIgnored`).
- **Rating bound.** A rating is meant to lie in 1–5. The upsert bypasses
  schema validation, so the bound is not enforced on a rate. The average is
  proved to stay within the range of the submitted values instead
  (`Ledger.AverageWithinRange`).
- **Store without an owner.** The owner statistics answer 404 when no store
  names the caller as its owner. The second `/api/store/my-stats` handler of
  server.js, which would answer 200 with empty fields, is registered after
  the first and never runs (`Routing.UnsortedStatsUnreachable`).
- **Concurrent rates.** The recompute is not serialised with the upsert; the
  model is sequential and does not capture that race.

## Model

| member | source | states |
|---|---|---|
| `Models.ParseRole` | server/models/User.js:7 | a parsed role prints back as the same string; every other string is refused |
| `Models.ParseRoleName` | server/server.js:20-24 | role names and parsing are inverse |
| `Models.RoleField` | server/server.js:20-24 | an absent role becomes the default `User`; a present one is kept exactly when it is one of the three enum values |
| `Models.NewUser` | server/models/User.js:2-8 | `save()` admits a user draft exactly when name is 20–60 chars, email and password non-empty, address present, non-empty and at most 400 chars, and the role valid; the saved document carries the body's fields |
| `Models.NewStore` | server/server.js:28-37 | `save()` admits a store draft exactly when name 20–60, email non-empty, address non-empty and at most 400; the saved document carries the body's name, email and address, rating 0 and no owner |
| `Models.FirstWithKey` | server/server.js:106 | `findOne` on a key returns a document with that key, the first one in natural order, and none exactly when no document has it |
| `Models.UserWithEmail` | server/server.js:106 | `findOne({email})` returns a user with that email, and returns none exactly when no user has it |
| `Models.UserWithId` | server/server.js:220 | `findById` finds a user with that id, none exactly when no user has it |
| `Models.StoreWithEmail` | server/server.js:173 | the store lookup by email finds a store with that email, none exactly when there is none |
| `Models.FoundAfterAppend` | server/models/User.js:4 | a user inserted with an email nobody else has is what the email lookup then finds |
| `Validation.FirstLine` | server/server.js:86 | the part of the password that `.` can reach: a prefix with no line terminator, ending at the first one |
| `Validation.PasswordAccepted` | server/server.js:86-87 | an accepted password has at least 8 characters; on a single-line password the test is exactly: at least 8 characters, an A–Z and one of `!@#$%^&*` |
| `Validation.PasswordAcceptedIsPattern` | server/server.js:86-87 | the first-line check (an A–Z, one of `!@#$%^&*`, at least 8 characters) decides exactly what the literal lookahead pattern decides |
| `Validation.LongPasswordAccepted` | server/server.js:196-198 | a 17-character password passes: the 16-character maximum is not enforced |
| `Validation.SecondLineIgnored` | server/controllers/authControllers.js:10-11 | a password whose first line has a capital and 8 characters is refused because its only special character follows the line break |
| `Validation.RoleAccepted` | server/server.js:217 | the role-change check accepts exactly the roles the schema's enum admits, and the accepted string is the role's own name |
| `Validation.ChecksMatchUserSchema` | server/controllers/authController.js:10 | the register name check (`!name` or outside 20–60 refused) is the user schema's name rule, and the add-store address check is also the user schema's address rule: with an email, a digest and an enum role the draft saves exactly when both checks pass |
| `Validation.ChecksMatchStoreSchema` | server/server.js:161-170 | `add-store`'s name check and address check (`!address` or over 400 refused) refuse exactly the names and addresses that the store save would refuse |
| `Guard.Split` | server/middleware/authMiddleware.js:5 | `split(" ")` yields at least one piece, exactly one when there is no space, and no piece contains a space |
| `Guard.TokenOf` | server/server.js:63 | no header, or a header without a space, carries no token; a token found is non-empty and holds no space |
| `Guard.Decide` | server/server.js:60-76 | no token gives 401 "No token"; a token that fails verification gives 401; a verified token passes exactly when the list is empty or holds its role, and then carries the decoded claims; otherwise 403 |
| `Guard.SchemeNotChecked` | server/middleware/authMiddleware.js:5 | after a non-empty scheme word without spaces and one space, the token is the first space-separated field of the rest, or none when that field is empty; the scheme word is never checked |
| `Guard.SchemeThenToken` | server/middleware/authMiddleware.js:5 | `<scheme> <token>` yields exactly the token |
| `Guard.ForbiddenIff` | server/middleware/authMiddleware.js:14-16 | with a non-empty list, a verified token gets 403 exactly when its role is not listed |
| `Guard.EmptyListAdmitsVerified` | server/middleware/authMiddleware.js:3-17 | the default empty list admits every verified token with its claims |
| `Guard.WiderListStillAdmits` | server/middleware/authMiddleware.js:14 | adding roles to a non-empty list never turns a pass into a refusal |
| `Guard.EmptyListIsNotNarrowest` | server/server.js:69 | the empty list admits a role that a one-role list refuses |
| `Guard.VariantsAgree` | server/middleware/authMiddleware.js:3-22 | the two guards pass and refuse alike, with the same status codes |
| `Ledger.PairIndex` | server/models/Rating.js:7 | the position of the first row of a (user, store) pair, or the length when there is none |
| `Ledger.Lookup` | server/models/Rating.js:7 | the value held for a pair; none exactly when no row holds the pair |
| `Ledger.FindPair` | server/server.js:262-266 | the scan for the pair's row stops at its first row, or at the end when the pair has no row |
| `Ledger.Upsert` | server/server.js:262-266 | an existing row of the pair gets the new value and `updatedAt`; otherwise one row with both timestamps is appended; every other row is unchanged |
| `Ledger.UpsertStores` | server/controllers/userController.js:31-35 | after the upsert the pair holds the new value |
| `Ledger.UpsertKeepsPairsUnique` | server/models/Rating.js:7 | the upsert keeps at most one row per (user, store) pair |
| `Ledger.UpsertLeavesOneRow` | server/models/Rating.js:7 | after the upsert exactly one row holds the pair |
| `Ledger.UpsertKeepsOtherPairs` | server/server.js:262-266 | the value of every other (user, store) pair is unchanged |
| `Ledger.RowsOfCounts` | server/server.js:268 | `find({store})` keeps each of the store's rows exactly as often as the ledger holds it and no other row, so the mean divides by the store's row count |
| `Ledger.RowsOf` | server/server.js:268 | `find({store})` yields the store's rows and all of them |
| `Ledger.Reduce` | server/controllers/userController.js:39 | the `reduce` loop computes the sum of the rows' values |
| `Ledger.Total` | server/server.js:270 | the `reduce` sum; with every value in 1–5 it lies between the row count and five times the row count |
| `Ledger.RoundTenths` | server/server.js:269-271 | the stored value is the mean rounded to the nearest tenth: within half a tenth, a tie rounded away from zero |
| `Ledger.Aggregate` | server/server.js:268-272 | a store without rows keeps the default 0; otherwise the stored rating lies between ten times the smallest and ten times the largest of its values |
| `Ledger.UnratedStoreHasDefault` | server/models/Store.js:7 | a store without ratings has the default rating 0, which is also its aggregate |
| `Ledger.UpsertChangesTotal` | server/routes/userRoutes.js:34-46 | a rate adds a row to the store's count only for a new pair, and replaces the pair's old value by the new one in the sum |
| `Ledger.UpsertKeepsOtherStores` | server/server.js:268-272 | the rows and the aggregate of every other store are unchanged |
| `Ledger.RatedStoreHasRows` | server/controllers/userController.js:38-40 | after a rate the store has at least one row, so the mean never divides by zero |
| `Ledger.AverageWithinRange` | server/server.js:269-271 | the rounded mean lies between ten times the smallest and ten times the largest value |
| `Ledger.AggregateInSchemaRange` | server/models/Rating.js:5 | when every value is in 1–5, a rated store's rating lies in 1.0–5.0 |
| `Ledger.FirstRatingIsExact` | server/server.js:268-272 | the first rating v of a store sets its rating to exactly v |
| `Ledger.SameSummarySameAggregate` | server/server.js:269-271 | the aggregate depends only on the count and the sum of the store's rows |
| `Ledger.RerateForgetsEarlierValue` | server/controllers/userController.js:31-42 | re-rating by the same user overwrites: the earlier value leaves no trace in the average |
| `Ledger.RatingOrderIrrelevant` | server/routes/userRoutes.js:34-46 | two users' rates of one store give the same average in either order |
| `Views.MyRowsCounts` | server/controllers/userController.js:9 | `find({user})` keeps each of the caller's rows exactly as often as the ledger holds it and no other row |
| `Views.MyRows` | server/controllers/userController.js:9 | only the caller's rows are consulted |
| `Views.FirstForStore` | server/controllers/userController.js:12 | `userRatings.find` gives the caller's first row for that store, and none exactly when the caller has no row for it |
| `Views.MyRating` | server/server.js:232-233 | `myRating` is 0 when the caller has no row for the store, otherwise the value of the caller's first row for it |
| `Views.StoreList` | server/server.js:231-234 | one entry per store, in store order, each the store and its `myRating` |
| `Views.ListingShowsCallersRating` | server/routes/userRoutes.js:15-23 | each entry's `myRating` is the caller's ledger value for that store, or 0 when the caller has not rated it |
| `Views.OwnedStore` | server/controllers/storeController.js:7 | the store found is one owned by the caller; none exactly when the caller owns no store |
| `Views.SortNewestFirst` | server/controllers/storeController.js:14-16 | the raters are a permutation of the store's rows ordered by `createdAt`, newest first |
| `Views.Populate` | server/controllers/storeController.js:15 | each rater keeps its rating, `createdAt` and `updatedAt`; its user is reduced to id and name, or null when the user is gone |
| `Views.OwnerStats` | server/controllers/storeController.js:4-22 | 404 with the given message exactly when the caller owns no store; otherwise the owned store and its rows, newest first, populated |
| `Views.OwnerStatsUnsorted` | server/server.js:282-290 | no store gives `{store: null, raters: []}` with 200; otherwise the store's rows in ledger order |
| `Views.RatersAreTheStoresRows` | server/server.js:249-253 | the raters are exactly the rows of the found store: each is one, all appear |
| `Views.NoOwnerFieldNoStats` | server/models/Store.js:3-8 | stores saved through the schema without `owner` are never found by the owner lookup, so the reply is always 404 |
| `Auth.ClaimsOf` | server/controllers/authController.js:47-51 | the signed payload holds the user's id and a role name that parses back to the role |
| `Auth.LoginApp` | server/server.js:103-120 | 200 exactly when a user has the email and the password matches its digest; the reply holds the one-day token over `{id, role}` and `{name, role}`; otherwise 400 "Invalid email or password" |
| `Auth.LoginController` | server/controllers/authController.js:37-60 | the same acceptance, an unknown email and a wrong password both giving 400 "Invalid credentials"; the reply holds `{id, name, role}`, no password |
| `Auth.LoginFailuresAlike` | server/controllers/authController.js:41-45 | an unknown email and a wrong password produce identical replies |
| `Auth.LoginVariantsAgree` | server/controllers/authController.js:47-51 | both logins accept the same requests and sign the same token |
| `Auth.LoginTokenPassesGuard` | server/controllers/authController.js:47-56 | a login token sent back after any non-empty scheme word passes every guard admitting the user's role, with the user's id and role |
| `Auth.RegisteredUserCanLogIn` | server/controllers/authControllers.js:22-28 | a user just inserted with a matching digest can log in |
| `Handlers.UserSaveError` | server/models/User.js:2-8 | a save fails with a validation error exactly when the draft breaks the schema, and succeeds exactly when it is valid and its email is new |
| `Handlers.RateReply` | server/controllers/userController.js:44 | every rate variant answers 200; only the controller's reply carries `averageRating`, equal to the aggregate |
| `Handlers.RateKeepsStoresValid` | server/server.js:272 | writing the aggregate into the rated store keeps every store's rating equal to the rounded mean of its rows |
| `Handlers.Database.constructor` | server/server.js:13-57 | an empty database satisfies the invariant |
| `Handlers.Database.InsertUser` | server/models/User.js:2-8 | the draft is appended exactly when the schema and the unique email index admit it; the invariant is kept |
| `Handlers.Database.RegisterApp` | server/server.js:81-100 | the policy first (400, table unchanged), then the save: 201 with one user added holding the digest, or 400 carrying the save error |
| `Handlers.Database.RegisterController` | server/controllers/authController.js:5-35 | a missing or wrong-length name is refused before any lookup; an existing email gives 400 "User already exists"; no password policy; otherwise the save: 201 with one user with the body's role added, or 500 with the table unchanged when a schema validator refuses the draft |
| `Handlers.Database.RegisterPolicyFirst` | server/controllers/authControllers.js:5-32 | the policy is checked before the email, so a bad password on a known email reports the password; a duplicate gives 400 "Email already exists"; otherwise the save: 201 with one user added, or 500 with the table unchanged when a schema validator refuses the draft |
| `Handlers.Database.RegisterAppThenLogIn` | server/server.js:81-120 | the registration is `/api/auth/register`: 201 exactly when the policy passes and the save succeeds, with the one user appended, and otherwise no change; stores and ratings untouched; when bcrypt's compare accepts a password against its own digest, a 201 is followed by a 200 from both logins with the same email and password |
| `Handlers.Database.RegisterPolicyFirstThenLogIn` | server/controllers/authControllers.js:5-32 | the registration is `register` of authControllers.js: 201 exactly when the policy passes, the email is new and the schema admits the draft, with the one user appended, and otherwise no change; a 201 is followed by a 200 from either login |
| `Handlers.Database.AddUser` | server/server.js:190-212 | a missing name throws (500), then name length, policy and email are checked in that order, each refusal leaving the table unchanged; otherwise the save: 201 with one user added, or 500 with the table unchanged when a schema validator refuses the draft |
| `Handlers.Database.AddStore` | server/server.js:156-188 | name, then address, then email, each refusal leaving the stores unchanged; on success one store with rating 0 and no owner, 201 |
| `Handlers.Database.ChangeRole` | server/server.js:214-225 | a role outside the enum gives 400 and changes nothing; otherwise the target's role is overwritten and 200 is sent even when no user has that id |
| `Handlers.Database.UpdatePasswordApp` | server/server.js:123-131 | no policy; only the caller's record gets the new digest; 200 |
| `Handlers.Database.UpdatePasswordController` | server/controllers/authController.js:63-82 | the policy first (400, digest unchanged); then only the caller's record is written |
| `Handlers.Database.Rate` | server/server.js:259-278 | the ledger becomes the upsert of the caller's pair, the rated store's rating becomes the rounded mean of its rows, nothing else changes, and the invariant holds |
| `Handlers.Database.RateEndpoint` | server/routes/userRoutes.js:31-52 | a request the guard refuses changes nothing and gets the guard's reply; an admitted one upserts the pair of the caller named in the token, writes the rated store's new average, and leaves users and every other store unchanged |
| `Routing.Dispatch` | server/routes/userRoutes.js:10-54 | the registration chosen is the first whose verb and path match; none exactly when none matches |
| `Routing.ShadowedNeverDispatched` | server/routes/userRoutes.js:53-54 | a registration preceded by one with the same verb and path never runs |
| `Routing.FirstMatchDispatched` | server/server.js:239-290 | the first registration whose verb and path match is the one that handles the request |
| `Routing.ControllerRoutesUnreachable` | server/routes/userRoutes.js:53-54 | `getAllStores` and `submitRating` are never reached; the inline handlers answer |
| `Routing.UnsortedStatsUnreachable` | server/server.js:282-290 | the second owner-statistics route is never reached |
| `Routing.OwnerStatsDispatched` | server/server.js:239 | a GET of `/api/store/my-stats` reaches the first registration |
| `Routing.AdminRoutesAdminOnly` | server/server.js:136-225 | every `/api/admin/` route refuses a verified non-Admin token with 403 |

## Left out

- `login` of `server/controllers/authControllers.js` is an empty stub that
  never responds, so there is nothing to model.
- bcrypt and jwt are parameters, so hashing, salting, signatures and expiry
  are not modelled. `LoginTokenPassesGuard` assumes a token verifies as what
  was signed and contains no space.
- Node strips leading and trailing whitespace from header values; the model
  splits the header as given. So `Guard.SchemeNotChecked` and
  `LoginTokenPassesGuard` require a non-empty scheme word, since a header
  " tok" would yield "tok" here and no token on the server.
- Errors from the database, failed ObjectId casts and non-numeric
  `ratingValue` are not modelled. So the catch branches of the rate handlers
  are unreachable here: 400 in server.js and userRoutes.js, 500 in
  userController.js. Ids are natural numbers and rating values are integers.
- Request bodies without `email`, `password` or `newPassword` are not
  modelled; those fields are strings. Absent `name`, `address` and `role` are
  modelled.
- Whether Mongoose runs validators on `findOneAndUpdate` is library
  behaviour. Validators run on `save()` and not on the update calls, so the
  1–5 bound is not enforced on a rate.
- The unique email index is enforced at `save()`, as a duplicate-key error.
- Handlers.Database.Rate: the average is the exact rational mean rounded to
  tenths. The binary floating point of `toFixed(1)` is not modelled, nor is a
  non-integer rating value.
- Concurrent requests are not modelled, in particular the race between the
  upsert and the recompute. The model is sequential.
- String lengths count code points, while JavaScript counts UTF-16 code
  units. No case folding or normalisation is modelled.
- `/api/admin/stats`, `/api/admin/users` and `/api/admin/stores`
  (server/server.js:136-153) are count and find queries. They appear only as
  routes in `Routing.AppRoutes`.
- Nothing in the code sets a store's `owner`, so the model never assigns one.
- Dispatch matches a request by the route's path pattern. Path parameters are
  not parsed.
- Mongoose's `strictQuery` handling of the filter on `owner`, a path absent
  from the schema in Store.js, is library behaviour. The lookup is modelled
  literally, which is `Views.NoOwnerFieldNoStats`.
- Server start-up, CORS, environment variables, logging and the React client
  are not part of this model.
