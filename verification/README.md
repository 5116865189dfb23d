# User table and access gates of the SPA authentication backend

This project models the core of a small Express backend that authenticates
users and manages their accounts. The backend keeps one table of user
records: id, username, bcrypt password hash, role, email, full name,
creation time and last-login time. Login, register, update and delete read
the whole table, change it in memory and write it back. `GET /users` and
`GET /users/profile` only read it, and `GET /users/records` does not touch
it. The model covers:

- `/login`: validate the fields, find the first record whose username and
  role both match, refuse corrupt records and wrong passwords, stamp the
  last-login time and sign a token with the record's claims.
- `/register`: validate the fields and the closed role set, refuse a taken
  username or email, append a record with id `max + 1` and a hashed password.
- `PUT /users/:id` and `DELETE /users/:id`: find the record by id text,
  overwrite the truthy fields, or splice the record out unless it is the
  last Admin.
- `GET /users`, `GET /users/profile`, `GET /users/records`: the projection
  of the table, the caller's own record, and the fixed list of records for
  a role.
- The `authenticateToken` and `requireAdmin` middlewares.

Modules, one per source file or shared concern:

- `Common` (common.dfy): `Option`, replies and refusals, and JavaScript
  truthiness of a request field (`Given`).
- `Decimal` (decimal.dfy): ids are numbers stored as decimal text. `IdText`
  is `toString` and `ParseDecimal` is `parseInt`. `ParseDecimal`
  reads every `IdText` back as the id it was written from, and `IdText` is
  injective, so comparing id texts compares ids. The converse does not hold:
  `ParseDecimal` also reads non-canonical text such as "01".
- `Crypto` (crypto.dfy): bcrypt and the JSON Web Token (RFC 7519) signer are
  function-valued parameters. The predicates `HasherContract` and
  `SignerContract` state what is assumed of them: a digest matches its
  password, and a token decodes to its claims for 24 hours and not after.
- `UserTable` (user_table.dfy): the record type, the `findIndex` queries,
  the Admin count, `splice`, id allocation, projections, and the class
  `UserStore` whose `users` field the handlers reassign. `UserStore.Valid()`
  says the ids are pairwise distinct, and every handler keeps it.
- `Middleware` (middleware.dfy): `split(' ')`, token extraction,
  `authenticateToken`, `requireAdmin`.
- `AuthRoutes` (auth_routes.dfy): `/login` and `/register`.
- `UsersRoutes` (users_routes.dfy): the `/users` routes.

The store-changing handlers (`Login`, `Register`, `Update`, `Delete`) are
methods with `modifies store`. Their decisions are made by pure functions
(`CheckCredentials`, `RegistrationCheck`, `FindIndex`, `IsLastAdmin`), and
their postconditions state the new table in terms of the old one. The clock
is passed in as parameters: an ISO stamp for stored times and a second
count for tokens. So are bcrypt's random salt and whether writing the table
back succeeded (`writeOk`).

Behaviour of the handlers worth knowing:

- A matched record without a password hash gives 500 "User data corrupted",
  not 401.
- Registering into an empty table stores a record with id text "-Infinity"
  and replies 201 with a null id. The model leaves this case out (see below).
- Only delete protects the last Admin, and only register checks that
  usernames and emails are new. `UpdateCanRemoveLastAdmin` proves that
  update can demote the only Admin. `UpdateCanDuplicateUsername` proves that
  update can make two usernames equal.

## Model

| member | source | states |
|---|---|---|
| `Decimal.IdText` | backend/routes/auth.js:171 | the id text is the canonical decimal form of the id: digits only, with no leading zero except for 0 |
| `Common.Given` | backend/routes/auth.js:15 | definition: a request field counts as given when it is present and not the empty text, JavaScript truthiness of a text value |
| `Decimal.ParseDecimal` | backend/routes/auth.js:110 | `parseInt` of decimal digits; a leading zero does not change the value |
| `Decimal.ParseIdText` | backend/routes/auth.js:167 | `parseInt` of a stored id text gives back the id it was written from |
| `Decimal.IdTextInjective` | backend/routes/users.js:191 | distinct ids have distinct texts, so a match on id text is a match on the id |
| `UserTable.FindIndex` | backend/routes/users.js:232 | `findIndex` returns the first record satisfying the query, and None exactly when no record does |
| `UserTable.AdminCount` | backend/routes/users.js:239 | the number of Admin records is at most the table size, and is zero exactly when no record is an Admin |
| `UserTable.RemoveAt` | backend/routes/users.js:246 | `splice(i, 1)`: the length drops by one, records before `i` stay and later ones shift down in order, and the multiset loses exactly record `i` |
| `UserTable.AdminCountConcat` | backend/routes/users.js:239 | the Admin count of two tables joined is the sum of their counts |
| `UserTable.AdminCountRemoveAt` | backend/routes/users.js:239-246 | splicing out a record lowers the Admin count by one exactly when that record is an Admin |
| `UserTable.IsLastAdmin` | backend/routes/users.js:239-240 | the delete guard holds exactly when the target is an Admin and no other record is one |
| `UserTable.DeleteKeepsAnAdmin` | backend/routes/users.js:238-246 | when the target is not the last Admin, a table with an Admin still has one after the splice |
| `UserTable.RemoveAtDropsId` | backend/routes/users.js:232-246 | with distinct ids, the splice keeps the ids distinct and leaves no record with the deleted id text |
| `UserTable.MaxId` | backend/routes/auth.js:167 | `Math.max` over the ids of a non-empty table is an id of the table and bounds every id |
| `UserTable.NextId` | backend/routes/auth.js:167 | the new id is strictly greater than every existing id, and one more than an existing id |
| `UserTable.FindIndexAppendFresh` | backend/routes/auth.js:48-51 | a record appended when no record matched a query becomes that query's first match |
| `UserTable.AppendFreshIdKeepsIdsUnique` | backend/routes/auth.js:167-181 | appending a record whose id exceeds all others keeps ids unique |
| `UserTable.ReplaceKeepsIdsUnique` | backend/routes/users.js:198-201 | rewriting one record in place without touching its id keeps ids unique |
| `UserTable.Project` | backend/routes/users.js:13-21 | the public view keeps the creation and login times and names the same id, username, role, email and full name as the record's token claims |
| `UserTable.ProjectionDropsOnlyPassword` | backend/routes/users.js:13-21 | two records have the same public view exactly when they differ at most in the password hash |
| `UserTable.ClaimsOf` | backend/routes/auth.js:95-101 | the token claims copy username, role, email and full name; the id claim is the stored id text, which reads back as the record's id |
| `UserTable.Seed` | backend/utils/database.js:17-57 | four accounts with ids 1 to 4, each with its own bcrypt digest and creation time and no last login; the first is the only Admin |
| `UserTable.UserStore.constructor` | backend/utils/database.js:15-60 | a store made from a table with distinct ids is valid and holds that table |
| `UserTable.SeedIsWellFormed` | backend/utils/database.js:17-57 | the four seed accounts have distinct ids, usernames and emails and exactly one Admin |
| `Middleware.Split` | backend/middleware/auth.js:8 | `split(' ')` yields at least one piece, and no piece contains the separator |
| `Middleware.JoinSplit` | backend/middleware/auth.js:8 | joining the pieces with the separator gives the header back |
| `Middleware.SplitWithoutSeparator` | backend/middleware/auth.js:8 | a text without a space splits into itself alone |
| `Middleware.SplitAfterWord` | backend/middleware/auth.js:8 | a first word without a space is the first piece, and the rest splits on its own |
| `Middleware.BearerToken` | backend/middleware/auth.js:7-8 | no header gives no token; otherwise the token is the second piece of `split(' ')` when that piece exists and is non-empty, and none otherwise; a token is non-empty, has no space, and comes from a header that contains a space |
| `Middleware.AnySchemeAccepted` | backend/middleware/auth.js:8 | any first word followed by one space and a token yields that token, because the scheme word is not checked |
| `Middleware.DoubleSpaceHasNoToken` | backend/middleware/auth.js:8-12 | two spaces after the first word leave the token empty, so the header has no token |
| `Middleware.ExtraWordsIgnored` | backend/middleware/auth.js:8 | words after the token are ignored: `scheme token more` yields `token` |
| `Middleware.NoSecondWordHasNoToken` | backend/middleware/auth.js:8-12 | a header of one word, or one word and a trailing space, has no token |
| `Middleware.Authenticate` | backend/middleware/auth.js:6-21 | 401 exactly when there is no token; 403 exactly when the verifier refuses it; a verified token always proceeds, with exactly the decoded claims as the identity |
| `Middleware.RequireAdmin` | backend/middleware/auth.js:24-29 | passes, with the identity unchanged, exactly when the role is the text "Admin"; otherwise 403 |
| `Middleware.AdminGate` | backend/routes/users.js:225 | the `authenticateToken, requireAdmin` chain proceeds exactly when the header's token verifies to claims with role "Admin", and then with those claims; otherwise 401 without a token, 403 "Invalid or expired token" when verification fails, 403 "Admin access required" for another role |
| `Middleware.IssuedTokenAccepted` | backend/middleware/auth.js:14-19 | a `Bearer` header with a token under 24 hours old proceeds with exactly the claims it was signed with |
| `Middleware.ExpiredTokenRefused` | backend/middleware/auth.js:14-17 | the same header from 24 hours after issue on is refused with 403 |
| `Middleware.AdminTokenAccepted` | backend/middleware/auth.js:14-28 | a `Bearer` header with a valid token for role "Admin" passes the admin chain with exactly its claims |
| `Middleware.NonAdminTokenForbidden` | backend/middleware/auth.js:25-27 | a valid token whose role is not "Admin" is refused with 403 by the admin chain |
| `AuthRoutes.CheckCredentials` | backend/routes/auth.js:15-76 | 400 exactly when a field is missing or empty, whatever the table holds; only the first record matching username and role is tried; no such record gives 401; a record with an empty hash gives 500; a first match with a non-empty hash that does not verify gives the same 401 as an unknown user; success exactly when the first match's hash verifies |
| `AuthRoutes.WelcomeMessage` | backend/routes/auth.js:118 | definition: the greeting is "Welcome back, " followed by the full name and "!" |
| `AuthRoutes.Login` | backend/routes/auth.js:9-128 | on success only the matched record's lastLogin changes, and only if the write succeeds; the reply is 200 either way; the token is signed over that record's claims and the reply holds its projection; every refusal leaves the table unchanged |
| `AuthRoutes.LoginTouchesOnlyLastLogin` | backend/routes/auth.js:81-101 | the login stamp changes one record's lastLogin and nothing else, and leaves the record's claims as they were |
| `AuthRoutes.IsKnownRole` | backend/routes/auth.js:141 | definition: the accepted roles are "Admin" and "General User" |
| `AuthRoutes.RegistrationCheck` | backend/routes/auth.js:135-164 | 400 for a missing field or a role other than "Admin" and "General User"; 409 for a taken username, checked before a taken email; no refusal exactly when all fields are given, the role is known and the username and email are both new |
| `AuthRoutes.NewRecord` | backend/routes/auth.js:167-179 | the new record's id is the largest existing id plus one, so it exceeds every existing id; it stores the digest, the creation time, an empty lastLogin and the submitted username, role, email and full name |
| `AuthRoutes.Register` | backend/routes/auth.js:130-202 | a refusal or failed write leaves the table unchanged; success appends one record with the next id, the bcrypt digest, the creation time and an empty lastLogin; ids, usernames and emails stay distinct |
| `AuthRoutes.RegisteredUserCanLogin` | backend/routes/auth.js:167-181 | right after registration, logging in with the same username, password and role selects the new record, whose claims carry the registered fields and an id claim that reads back as the largest earlier id plus one |
| `AuthRoutes.RegisterThenLogin` | backend/routes/auth.js:9-202 | a stored registration followed by a login succeeds, for the new id, with a token over the registered fields |
| `AuthRoutes.SeedExamples` | backend/utils/database.js:17-57 | on the seed table, admin/admin123/Admin logs in; the same credentials with role "General User" get 401; registering "admin" again gets 409 |
| `UsersRoutes.ListAll` | backend/routes/users.js:13-26 | one public projection per record, in table order, and the total equals the table size |
| `UsersRoutes.AdminEntries` | backend/routes/users.js:45-91 | the Admin list has five entries numbered 1 to 5, all stamped with one time `now` |
| `UsersRoutes.GeneralEntries` | backend/routes/users.js:92-129 | the General User list has four entries numbered 1 to 4, all stamped with one time `now` |
| `UsersRoutes.RecordsFor` | backend/routes/users.js:44-140 | an empty role counts as "General User"; Admin gets the Admin list, General User the General User list, any other role an empty list; entries numbered from 1 and stamped with one time `now`; total equals the count |
| `UsersRoutes.Profile` | backend/routes/users.js:156-173 | succeeds exactly when some record's id text equals the caller's id claim, and then returns the first such record's projection; otherwise 404 |
| `UsersRoutes.ApplyUpdate` | backend/routes/users.js:198-201 | each of username, email, fullName and role is overwritten exactly when supplied non-empty; id, hash, createdAt and lastLogin never change |
| `UsersRoutes.ApplyUpdateIdempotent` | backend/routes/users.js:198-201 | applying an update twice equals applying it once, and an update with no truthy field changes nothing |
| `UsersRoutes.UpdateCanRemoveLastAdmin` | backend/routes/users.js:198-201 | update does not protect the last Admin: giving the seed Admin the role "General User" leaves no Admin |
| `UsersRoutes.UpdateCanDuplicateUsername` | backend/routes/users.js:198-201 | update does not check uniqueness: renaming a seed user to "admin" duplicates a username |
| `UsersRoutes.Update` | backend/routes/users.js:183-222 | an unknown id gives 404 and changes nothing; otherwise only the first record with that id text is replaced by its update when the write succeeds, else 500 with nothing changed |
| `UsersRoutes.Delete` | backend/routes/users.js:225-259 | an unknown id gives 404 and changes nothing; 400 and no change exactly when the target is the only Admin; otherwise exactly that record is spliced out when the write succeeds; a table with an Admin always keeps one; no record has the deleted id afterwards |

## Left out

- File I/O is not part of this model: reading and writing the XML file, the xml2js conversion, directory creation and bcrypt seeding in backend/utils/database.js. The seed table is the function `UserTable.Seed`, with the bcrypt digests as parameters.
- A failed read of the store and the malformed-structure check of the login handler (backend/routes/auth.js:26-43) are not modelled. Neither are the catch-all 500 replies for exceptions thrown by records that lack a field. Every record has all eight fields as plain text.
- The single-element arrays of the stored format (`u.id[0]`) are not modelled. Fields are plain values, and a missing field is the empty string.
- Ids are numbers whose stored text is canonical decimal. A hand-edited id text such as "01", which `parseInt` reads as 1, is not modelled.
- Request-body fields are either absent or text. Other JSON values (numbers, objects) are not modelled.
- bcrypt and jsonwebtoken are abstract functions. Salting, the cost factor, the signature algorithm and the signing secret with its insecure fallback are not modelled. Every verification failure (tampering, malformed token, expiry) is one `None`. The decoded payload is the five claims, without `iat` and `exp`.
- The simulated `setTimeout` delays and console logging are left out: neither changes a reply. Express routing and reply plumbing are left out. The `/logout` handler is left out: it only produces a constant reply.
- `UserTable.NextId`: ids are unbounded integers, but JavaScript numbers are doubles. From 2^53 on, `Math.max(...) + 1` can equal the largest id, so the new id would not be fresh. This is not modelled.
- `Decimal.IdText`: from 10^21 on, JavaScript's `toString` writes a number in exponent form ("1e+21"), which `parseInt` reads back as 1. The model writes every id in plain decimal.
- `UsersRoutes.RecordsFor`: the handler reads the clock once per entry, so the nine stamps may differ by moments. The model stamps every entry with one time `now`.
- `AuthRoutes.CheckCredentials`: a digest that bcrypt rejects outright (such as an invalid salt version) makes `bcrypt.compare` throw, which the handler answers with the catch-all 500. The model's `compare` is a boolean, so that case gives 401.
- The read-modify-write race between concurrent requests is left out. The model is sequential.
- `UsersRoutes.RecordsFor`: a role that names an inherited property of JavaScript objects (such as "toString") is not modelled. There, `records[userRole]` yields a function instead of a list.
- `AuthRoutes.Register`: requires a non-empty table, because the handler's `Math.max()` of no ids is `-Infinity`, which would become the id text "-Infinity".
- `AuthRoutes.Register`: states that the stored password is the hasher's digest of it. That the digest differs from the plaintext is bcrypt's promise, not stated here.
