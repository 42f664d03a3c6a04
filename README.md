# Daily-diet API: a verified model of its request handlers

The daily-diet API is a small HTTP service. Users register and log in. With
a bearer token they then keep a list of their meals, each flagged as on or
off their diet. This project models the rules the handlers apply:

- which rows of the `meals` table a caller may see or change;
- how the summaries count those rows;
- how the `ensureAuthenticated` pre-handler decides between a 401 reply and
  attaching an identity to the request body;
- which replies the registration and login handlers send.

Every read, update and delete of a meal is one SQL statement whose `where`
object names the caller's user id. Create inserts a row whose `userId` is
the caller's id. The model keeps the `meals` table as a sequence of rows
in storage order. A `where` object becomes the datatype `Cond`, with the
SQL meaning given by `Holds`. The queries are functions of the table. The
three writes are methods of `MealStore`, a class whose `rows` field they
change. Update works row by row in place. Delete builds the kept rows in a
loop.

The gate and the two user handlers are imperative in the source, so they
are methods. They change a `Request` (its `body`) and a `Reply`. `Reply`
records every `send` together with the status code set at that moment.
Fastify delivers only the first send on a reply. The log keeps the later
ones too, so the missing `return`s in the source show up in the model.

Modules, one per file: `Values` (optional values, request-body values),
`Text` (JavaScript `split(' ')`), `Http` (the reply object), `Meals`,
`Users`, `Auth`.

Foreign calls are inputs. The model does not look inside them:

- jsonwebtoken `verify` is `verify: string -> Option<string>`, where `None`
  means it threw. `sign` is `sign: Claims -> string`.
- bcrypt `hash` and `compare` are function parameters.
- zod's `email()` check is `isEmail: string -> bool`.
- The user lookup in the gate is `lookup: string -> Lookup`:
  `Found(row)`, `Missing`, or `Threw`.
- The value `randomUUID()` returns is a parameter `freshId`. It is required
  to be unused, as a UUID is assumed to be.

## Model

| member | source | states |
|---|---|---|
| `Text.SecondField` | src/middleware/ensureAuthenticated.ts:22 | the token is absent exactly when the header holds no space; a present token holds no space |
| `Text.JoinSplit` | src/middleware/ensureAuthenticated.ts:22 | joining the fields of `split(' ')` gives back the header |
| `Text.SplitJoin` | src/middleware/ensureAuthenticated.ts:22 | splitting a join of space-free fields gives back those fields |
| `Text.SecondFieldOfSchemeAndToken` | src/middleware/ensureAuthenticated.ts:22 | for `<scheme> <token>` the token passed on is exactly the second field; the scheme is ignored |
| `Auth.IdentityOf` | src/middleware/ensureAuthenticated.ts:32-38 | the identity has exactly the keys id, name, email, created_at, updated_at, never password; every value comes from the row (a NULL timestamp as `null`), or all are undefined when no row was found |
| `Auth.WithUser` | src/middleware/ensureAuthenticated.ts:40 | the merged body keeps every earlier property except `user`, which becomes the identity |
| `Auth.EnsureAuthenticated` | src/middleware/ensureAuthenticated.ts:14-44 | a missing or empty header: one 401 'Token missing.', no verify, no lookup, body unchanged; otherwise the second header field is verified; a failed verify or a throwing lookup: one 401 'Invalid token', body unchanged; exactly one lookup, keyed by the subject; unknown subject: 401 'User does not exists' and still the body receives an all-undefined user; found: no reply, body gains the user's identity |
| `Auth.EnsureAuthenticatedFailFast` | src/middleware/ensureAuthenticated.ts:28-30 | corrected gate: missing header: only 401 'Token missing.'; failed verify or throwing lookup: only 401 'Invalid token'; unknown subject: only 401 'User does not exists'; each of these leaves the body unchanged; a found user: no reply and the body gains that user's identity |
| `Auth.UnknownSubjectExample` | src/middleware/ensureAuthenticated.ts:28-40 | with the gate as written, a verified token for an unknown subject gets the 401 and a body whose `user` properties are all undefined |
| `Users.ParseRegistration` | src/routes/users.ts:12-18 | accepted exactly when name, email, password are strings and the email passes the email check; the fields are the body's |
| `Users.ParseLogin` | src/routes/users.ts:32-37 | accepted exactly when email and password are strings and the email passes the email check |
| `Users.FirstByEmail` | src/routes/users.ts:39 | absent exactly when no row has that email; otherwise the first stored row with that email |
| `Users.UserStore.Register` | src/routes/users.ts:11-29 | a refused body changes neither the table nor the reply; otherwise one row is appended with the fresh id, the given name and email, and password `hash(password, 8)`; then 201 with no body; ids stay unique |
| `Users.UserStore.Login` | src/routes/users.ts:31-70 | refused body: nothing sent, nothing signed; no user: the 400 failure is sent twice and no token is signed; empty or rejected password: one 400 failure, then a token with subject = user id and lifetime '2d' is signed and the success payload is sent with status still 400; accepted password: only the success payload `{auth: true, token, user: {name, email}}`; every failure sends the same status and message |
| `Users.UserStore.LoginFailFast` | src/routes/users.ts:41-53 | corrected login: exactly one reply per accepted body; a missing user and a rejected password both send only the 400 failure and sign nothing; an accepted password signs subject = user id, lifetime '2d' and sends the success payload |
| `Users.WrongPasswordExample` | src/routes/users.ts:48-61 | with login as written, a wrong password sends the 400 failure, then the success payload, and signs a token |
| `Meals.CallerId` | src/routes/meals.ts:12-17 | the caller id is present exactly when the body's `user` is an object whose `id` is a string, and it is that string |
| `Meals.ParseMealInput` | src/routes/meals.ts:119-128 | accepted exactly when name, description, date are strings and isDietMeals is a boolean; the fields are the body's |
| `Meals.WhereSelects` | src/routes/meals.ts:17 | a `where` selection holds each row satisfying the condition as often as the table does, and no other row |
| `Meals.Count` | src/routes/meals.ts:50-53 | counting row by row gives the size of the corresponding selection |
| `Meals.List` | src/routes/meals.ts:17 | exactly the caller's rows, with multiplicity, and no row of any other user |
| `Meals.GetById` | src/routes/meals.ts:35 | exactly the rows with that id owned by the caller; another user's row with that id gives an empty result |
| `Meals.GetByIdAtMostOne` | src/routes/meals.ts:35 | with unique ids, get-by-id returns at most one row |
| `Meals.CountMeals` | src/routes/meals.ts:50-53 | the summary count equals the number of rows the list endpoint returns |
| `Meals.CountDiet` | src/routes/meals.ts:68-71 | the diet count equals the number of the caller's rows flagged true |
| `Meals.CountNotDiet` | src/routes/meals.ts:86-89 | the not-diet count equals the number of the caller's rows flagged false |
| `Meals.FlagCountsAddUp` | src/routes/meals.ts:50-89 | flagged-true plus flagged-false plus NULL-flagged caller rows equal the caller's total |
| `Meals.CountsSplit` | src/routes/meals.ts:50-89 | diet plus not-diet never exceeds the total, and equals it when every caller row has a non-NULL flag |
| `Meals.FlagsKept` | src/routes/meals.ts:119-164 | create, update and delete keep every caller row's flag non-NULL, so the split keeps holding |
| `Meals.MaxGroup` | src/routes/meals.ts:107-109 | the result is the count of one candidate's date, and no candidate's date has a larger count |
| `Meals.BestDietCount` | src/routes/meals.ts:104-109 | absent exactly when the caller has no diet meal; otherwise at least 1, equal to the diet count of some date, and no date has more |
| `Meals.UpdatePatches` | src/routes/meals.ts:162-164 | update keeps the length and order; it replaces name, description, date and flag on exactly the rows matching (id, caller) and keeps every other row; ids and owners never change |
| `Meals.UpdateIsolation` | src/routes/meals.ts:162-164 | any other user's list is the same after the caller's update |
| `Meals.UpdateNoMatch` | src/routes/meals.ts:162-166 | when no row matches (id, caller), update leaves the table unchanged |
| `Meals.DeleteRemoves` | src/routes/meals.ts:183 | delete removes every row matching (id, caller), keeps every other row with its multiplicity, adds nothing |
| `Meals.DeleteIsolation` | src/routes/meals.ts:183 | any other user's list is the same after the caller's delete |
| `Meals.DeleteNoMatch` | src/routes/meals.ts:183-185 | when no row matches (id, caller), delete leaves the table unchanged |
| `Meals.DeleteCount` | src/routes/meals.ts:183 | the caller's total drops by exactly the number of rows get-by-id returned |
| `Meals.DeleteKeepsKey` | src/routes/meals.ts:183 | delete keeps ids unique |
| `Meals.CreateIsolation` | src/routes/meals.ts:130-137 | any other user's list is the same after the caller's create |
| `Meals.CreateThenGet` | src/routes/meals.ts:130-137 | after create, get-by-id with the new id returns exactly the row built from the request's fields |
| `Meals.CreateKeepsKey` | src/routes/meals.ts:130-137 | create with an unused id keeps ids unique |
| `Meals.MealStore.Create` | src/routes/meals.ts:115-141 | a refused body or a missing caller id: no write and no reply; otherwise exactly one row appended with the fresh id, the given fields and userId = caller; earlier rows untouched; 201 |
| `Meals.MealStore.Update` | src/routes/meals.ts:143-168 | a refused body or missing caller: no write and no reply; otherwise the table becomes the patched table, and the reply is 204 whether or not a row matched |
| `Meals.MealStore.Delete` | src/routes/meals.ts:170-187 | a missing caller: no write and no reply; otherwise the table becomes the table without the rows matching (id, caller), and the reply is 204 whether or not a row matched |

## Findings

| source | as written | input that shows it | evidently intended | confidence | as-written member | corrected member |
|---|---|---|---|---|---|---|
| src/routes/users.ts:41-61 | the failure branches send a 400 and do not return | an existing email with a wrong password | stop after the first failure: one reply, no token signed | high; not executed | `Users.WrongPasswordExample` | `Users.UserStore.LoginFailFast` |
| src/middleware/ensureAuthenticated.ts:28-40 | the unknown-subject branch sends a 401 and does not return | a valid token whose subject has no row in `users` | stop after the 401 and leave the body alone | high; not executed | `Auth.UnknownSubjectExample` | `Auth.EnsureAuthenticatedFailFast` |

Fastify refuses a second send on a reply. So the client of the login
handler still sees only the first reply. The token is signed all the same.

What the code does, as modelled:

- The best-day query selects only the `count` column, not the date. The
  result is therefore well defined even though the order of tied dates is
  not.
- Registration does not check for an existing email. Any uniqueness comes
  from the `users` table's own constraint, and that migration is not part
  of this model.
- The failure paths fall through, as the findings above record.

## Left out

- HTTP routing, the `preHandler` dispatch and reply serialisation are not modelled. In particular, the model does not capture that Fastify skips the route handler once the gate has sent a reply.
- An exception a handler throws is not modelled. This covers a zod parse failure and a non-string `user.id` in a meal handler. The model returns an error value with no table access and no send. Fastify's error reply is not modelled.
- Meal handlers whose `user.id` is not a string are treated as failing before the statement runs. What knex does with an undefined binding is not part of this model.
- A request body that is not a JSON object (an array or a string spread into the merged body) is not modelled. Neither is a token payload without a `sub` claim; the lookup oracle's `Threw` covers the knex error it would cause.
- The `users` migration and its column defaults are not part of this model. `Users.UserStore.Register` stores a new user's timestamps as `None`; the real values are the `users` table's column defaults, which the model does not know.
- `date` is compared as a string for `groupBy`. The timestamp column type and its conversion are not modelled.
- Meal and user ids are assumed unused when inserted (`randomUUID`). A primary-key clash on insert is not modelled.
- A new row goes at the end of the table. The store's physical row order is not modelled.
- Concurrency between requests is not modelled. Each handler is one statement, and its atomicity is the store's.
- bcrypt, jsonwebtoken (including the 2-day expiry check), zod's email pattern and `randomUUID` are inputs, not models.
- Environment parsing at startup is configuration I/O with no logic to model.
