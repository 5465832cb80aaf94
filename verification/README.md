# Portfolio admin back end: auth gate, resource handlers and admin views

This project models the core of a personal portfolio site built on Next.js.
The site has a public list of projects, skills and certificates, and a
contact form. An admin logs in and receives a 24-hour JWT. Creating a
project, skill or certificate, reading the messages and reading the
dashboard stats go through a gate, `verifyAuth`; the contact form's `POST`
is public and has no gate. The gate accepts a request only when:

- the `Authorization: Bearer <token>` header is present and well formed;
- the token verifies;
- the token names a user who still exists;
- that user's role is `"admin"`.

The model covers:

- the gate and token issue (`lib/auth.js`);
- the login route;
- the `GET`/`POST` handlers of projects, skills, certificates, messages and dashboard stats;
- the certificates page's expiry test, tab filter, grouping by year and year list;
- the admin dashboard's local state transitions, the comma-separated edit
  field round trip, the recent-activity feed and the start-up token check.

Modules follow the program's files:

- `Json`, `Http`: request bodies as JavaScript values, with JavaScript truthiness, `||` and
  property access that throws on `undefined`/`null`.
- `Store`: the database as in-memory tables. It assigns ids and creation times,
  rejects values that do not fit a column (a 500 in every handler),
  enforces the unique skill name (a 400 in the skills route), and may be
  unreachable.
- `Token`: `generateToken` and `jwt.verify`, with the JWS compact form as an abstract
  codec. `Compact` requires that parsing an encoded token gives it back and that
  an encoded token is non-empty and holds no space.
- `Auth`: `verifyAuth`.
- `Login`, `ProjectsRoute`, `SkillsRoute`, `CertificatesRoute`, `MessagesRoute`, `StatsRoute`: the route handlers.
  A `POST` handler is `Create` (the gate, then the body). `Submit` is the
  part after the gate, and `Save` writes the normalised, defaulted row.
- `Text`, `Lexicographic`, `Seqs`, `Sorting`: `trim`, `split`, `join`,
  code-point string order, `filter`, and the store's `orderBy`/`take`.
- `CertificatesPage`, `AdminDashboard`: the two pages.

Parameters stand in for what the code receives from the environment:

- `verify` is `jwt.verify` with the configured secret at the current time;
- `matches` is `bcrypt.compare`;
- `toDate` is `new Date(value)`;
- `yearOf` is `getFullYear`;
- `now` is the clock;
- `fetchStats` is the dashboard's call to the stats route;
- `queriesUp` says whether the queries the stats and message-list routes
  run after the gate reach the store, which can fail after the gate's own
  user lookup has succeeded.

Two details of the code shape the model:

- The stats route returns four counts: projects, skills, messages and
  unread messages. It has no certificate count.
- The gate has a separate 401 "Token missing" case, for a header that is
  exactly `"Bearer "` or has a second space right after it.

## Model

| member | source | states |
|---|---|---|
| Token.Secret | lib/auth.js:6 | The signing key is `JWT_SECRET` when it is set and non-empty, and "your-secret-key" otherwise. It is never empty. Login signs with it and the gate's verifier checks with it. |
| Token.Issue | lib/auth.js:88-98 | `generateToken` signs exactly the userId, username and role it is given, with the key, issued now and expiring 86400 s later. |
| Token.Verify | lib/auth.js:34 | `jwt.verify` returns the token's claims exactly when the token parses, was signed with the key and has not reached its expiry. It reports expired exactly when it parses, has the key and the expiry has been reached. Anything that does not parse is invalid. |
| Token.IssueThenVerify | lib/auth.js:88-98 | A token from `generateToken` verifies under the same key and gives back exactly the userId, username and role it was issued with, until 24 hours (86400 s) after issue. From that moment it is expired. Under any other key it is invalid. |
| Auth.BearerToken | lib/auth.js:22 | `split(" ")[1]` of a "Bearer " header is the text after the prefix, up to the next space. It never holds a space. |
| Auth.EmptyBearerToken | lib/auth.js:22-30 | The extracted token is empty, which gives "Token missing", exactly when nothing or another space follows "Bearer ". |
| Auth.VerifyAuth | lib/auth.js:8-78 | A missing header, or one not starting with "Bearer ", gives 401 "Authorization header missing or invalid". An empty token gives 401 "Token missing". The request is authorized exactly when the header is well formed, the token is non-empty and verifies, and the named user exists with role "admin". The authorized user is the id, username and role of the row found by the token's userId. The reply is 403 "Insufficient permissions" exactly when the user exists but is not an admin. Every refusal is 401 or 403. |
| Auth.BadHeaderConsultsNothing | lib/auth.js:13-30 | A bad header or empty token is refused the same way whatever the verifier and the database say. |
| Auth.TokenAndLookupFailures | lib/auth.js:33-69 | A token that fails verification, and a user lookup that throws, both give 401 "Invalid or expired token". A verified token naming no stored user gives 401 "User not found". |
| Auth.IssuedTokenPassesGate | lib/auth.js:8-98 | An admin's token, sent as "Bearer <token>", passes the gate as that admin within 24 hours of issue. After that it is refused with 401. |
| Login.Login | app/api/auth/login/route.js:5-40 | A failure is 401 "Invalid username or password" or 500. An unreadable body, a user lookup that throws, and a password that is not a string for a stored user all give 500. An unknown username gives 401. For a stored user and a string password, login succeeds exactly when the password matches the stored hash, and fails with 401 otherwise. Success returns that user's public fields and the token signed with `Secret(JWT_SECRET)` at the current time. |
| Login.FailuresIndistinguishable | app/api/auth/login/route.js:14-23 | An unknown username and a wrong password for a known user get the same 401 reply. |
| Login.LoginTokenOpensGate | app/api/auth/login/route.js:26-35 | The token from a successful admin login opens the gate as the returned user for 24 hours, when the gate verifies with the same `JWT_SECRET` setting. |
| Store.FindUserByName | app/api/auth/login/route.js:10-12 | The lookup fails when the store is down or the username is not a string. A found row has exactly that username. Missing means no row has it. |
| Store.FindUserById | lib/auth.js:37-40 | A found row has the id. Missing means no row has it. The lookup fails exactly when the store is down. |
| Store.CreateProject | app/api/projects/route.js:36-46 | The write succeeds exactly when the store is up and every value fits its column. The new row gets the next id and the current time, holds the given values, and is appended to the table. No other table changes. |
| Store.CreateSkill | app/api/skills/route.js:36-50 | The write succeeds exactly when the store is up, the values fit their columns and no skill has that name. It is refused as a unique-index violation exactly when the values fit and the name is taken. A written skill is appended with the next id. |
| Store.CreateCertificate | app/api/certificates/route.js:36-48 | An Invalid Date, or any value of the wrong type, is rejected. A written row holds the given values and is appended to the table. |
| Store.CreateMessage | app/api/messages/route.js:36-43 | A written message holds the given strings and starts unread. |
| ProjectsRoute.List | app/api/projects/route.js:5-18 | Every project is listed (a permutation of the table), newest first. A store that is down gives 500. |
| ProjectsRoute.NormaliseTech | app/api/projects/route.js:40 | A list of tech is kept as it is. A string is split at commas and each piece trimmed. Any other value throws. |
| ProjectsRoute.Submit | app/api/projects/route.js:28-52 | The reply is 400 "Missing required fields" exactly when title, description or tech is falsy. An unreadable body gives 500, and so does every other failure. The project is created exactly when the body is readable, the three required fields are truthy, the store is up and every defaulted value fits its column. On success the row holds the title and description as sent, the normalised tech, links that are null when falsy, and `featured` false when falsy. It is appended with the next id and the current time. Every failure leaves the store unchanged. |
| ProjectsRoute.Save | app/api/projects/route.js:36-46 | The row is written exactly when the store is up and the defaulted values fit. Any failure is a 500 that leaves the store unchanged. A written row holds the body's title and description, the normalised tech, null links when falsy and `featured` false when falsy. |
| ProjectsRoute.Create | app/api/projects/route.js:20-53 | The gate runs first. A refusal is passed on with the gate's status and message and nothing is written. The handler fails closed: the store changes only when the gate admitted an admin and a project was created, and then the only change is that project appended. |
| ProjectsRoute.GateBeforeBody | app/api/projects/route.js:23-28 | A refused request gets the same reply whatever its body, even one that does not parse. |
| SkillsRoute.List | app/api/skills/route.js:5-18 | Every skill is listed, ordered by name in code-point order. |
| SkillsRoute.Submit | app/api/skills/route.js:28-53 | The reply is 400 "Missing required fields" exactly when name or color is falsy. An unreadable body gives 500, and so does every store failure other than a taken name. For a readable body with both present, the values fit and the store up, the skill is created exactly when its name is new, and 400 "Skill already exists" is the reply exactly when it is taken. A falsy level, 0 included, is stored as 1, and a falsy category as null. A new skill gets the next id and the current time, its name is not already in the table, and it is appended. |
| SkillsRoute.Create | app/api/skills/route.js:20-53 | The gate first, then `Submit`. The store changes only when an admin created a skill, which is then appended. "Skill already exists" means the name is taken. |
| SkillsRoute.DuplicateNameRefused | app/api/skills/route.js:36-50 | A well-typed admin request for a name already taken is refused with 400 "Skill already exists" and writes nothing. |
| CertificatesRoute.List | app/api/certificates/route.js:5-18 | Every certificate is listed, most recently issued first. |
| CertificatesRoute.NormaliseSkills | app/api/certificates/route.js:45 | A list of skills is kept as it is. Undefined or null gives []. A string is split and trimmed and always gives at least one piece. Any other value throws. |
| CertificatesRoute.Submit | app/api/certificates/route.js:28-54 | The reply is 400 exactly when title, issuer or issueDate is falsy. An unreadable body gives 500, and so does every other failure. The certificate is created exactly when the body is readable, those three are truthy, the store is up, the values fit, the issue date is a valid date and so is any truthy expiry. On success the issue date is `new Date(issueDate)`. A falsy expiry gives no expiry date, and any other expiry is `new Date(expiryDate)`. The optional text columns are null when falsy. |
| CertificatesRoute.Save | app/api/certificates/route.js:36-48 | The row is written exactly when the store is up, the values fit, the issue date is valid and so is any truthy expiry. Any failure is a 500 that leaves the store unchanged. A success appends a row holding the normalised fields of the body. |
| CertificatesRoute.Create | app/api/certificates/route.js:20-55 | The gate first, then `Submit`. The store changes only when an admin created a certificate, which is then appended. |
| MessagesRoute.List | app/api/messages/route.js:5-24 | The gate first, with its refusal passed on. Then every message (a permutation of the table), newest first, exactly when the gate passes and the query reaches the store. A query that fails after the gate gives 500. |
| MessagesRoute.Create | app/api/messages/route.js:26-50 | There is no gate. The reply is 400 exactly when name, email or message is falsy. The message is stored exactly when the body is readable, those three are truthy strings, the defaulted subject is a string and the store is up. A stored message holds them as sent, has subject "No Subject" when the subject is falsy, and is unread. |
| MessagesRoute.MissingEmailRefused | app/api/messages/route.js:31-33 | A form without an email is refused with 400 and nothing is stored. |
| StatsRoute.RecentProjects | app/api/dashboard/stats/route.js:22-26 | The feed holds min(3, n) projects drawn from the table (a sub-multiset of it), newest first. No project left out is newer than one shown. |
| StatsRoute.RecentMessages | app/api/dashboard/stats/route.js:28-32 | The same, for messages: min(3, n) of them, a sub-multiset of the table, newest first. |
| StatsRoute.UnreadCount | app/api/dashboard/stats/route.js:18 | The unread count is at most the number of messages, and it is zero exactly when every message is read. |
| StatsRoute.Get | app/api/dashboard/stats/route.js:5-50 | The gate first, with its refusal passed on. After a passed gate the reply is 500 exactly when the queries fail. The counts are the table sizes, and the unread count is the number of unread messages, never more than the message count. The two feeds are the summaries of the newest rows. |
| StatsRoute.UnreadAndReadCoverAll | app/api/dashboard/stats/route.js:17-18 | Unread and read messages together account for every message. |
| StatsRoute.CountMatchesList | app/api/dashboard/stats/route.js:17 | The message count equals the length of the admin message list. |
| CertificatesPage.ExpiryIsFinal | app/certificates/page.jsx:73-76 | A certificate without an expiry date never expires. One with an expiry date is expired exactly when that date is before now, and stays expired at every later time. |
| CertificatesPage.Filtered | app/certificates/page.jsx:78-84 | The tab keeps, in list order, exactly the certificates it shows, each as many times as it occurs in the list. |
| CertificatesPage.OtherTabsKeepAll | app/certificates/page.jsx:78-84 | The "all" tab, and any tab the page does not know, show every certificate in order. |
| CertificatesPage.FeaturedTab | app/certificates/page.jsx:80 | The "featured" tab shows exactly the featured certificates, in order, each as many times as it occurs in the list. |
| CertificatesPage.ActiveExpiredPartition | app/certificates/page.jsx:73-84 | Every certificate is under exactly one of "active" and "expired", so the two tab counts add up to the total. An expired certificate has an expiry date before now. |
| CertificatesPage.Group | app/certificates/page.jsx:86-91 | There is a bucket for a year exactly when some certificate was issued in it. |
| CertificatesPage.GroupBuckets | app/certificates/page.jsx:86-91 | Each bucket holds exactly that year's certificates, in list order. |
| CertificatesPage.SortedYears | app/certificates/page.jsx:93 | The years are strictly descending, and they are exactly the bucket keys. |
| CertificatesPage.YearCount | app/certificates/page.jsx:93 | The number of years listed is the number of buckets. |
| CertificatesPage.BucketSizesSum | app/certificates/page.jsx:86-93 | Rendering each year's bucket in turn shows every listed certificate exactly once. |
| AdminDashboard.AddProject | app/admin/dashboard/page.jsx:199-235 | The returned project is appended and the project counter goes up by one. A failed request changes nothing. |
| AdminDashboard.AddSkill | app/admin/dashboard/page.jsx:237-265 | The returned skill is appended and the skill counter goes up by one. Nothing else changes. |
| AdminDashboard.AddCertificate | app/admin/dashboard/page.jsx:393-430 | The returned certificate is appended. No counter changes. |
| AdminDashboard.DeleteProject | app/admin/dashboard/page.jsx:267-286 | Every project with the id goes and the rest stay in order, so the list shrinks by exactly the number of entries carrying the id. The counter drops by one unconditionally. |
| AdminDashboard.DeleteSkill | app/admin/dashboard/page.jsx:288-307 | The same, for skills. |
| AdminDashboard.DeleteMessage | app/admin/dashboard/page.jsx:372-391 | The same, for messages. |
| AdminDashboard.DeleteCertificate | app/admin/dashboard/page.jsx:432-450 | Certificates with the id go, the rest stay in order, and the list shrinks by exactly the number of entries carrying the id. No counter changes. |
| AdminDashboard.UpdateProject | app/admin/dashboard/page.jsx:309-341 | Each project with the returned id is replaced by the returned record. Every other entry, every counter and every other list stays the same. |
| AdminDashboard.UpdateSkill | app/admin/dashboard/page.jsx:343-370 | The same, for skills. |
| AdminDashboard.UpdateCertificate | app/admin/dashboard/page.jsx:452-488 | The same, for certificates. |
| AdminDashboard.WithoutId | app/admin/dashboard/page.jsx:281 | The filter keeps exactly the entries without the id, in order. Its length drops by the number of entries carrying the id. |
| AdminDashboard.ReplaceById | app/admin/dashboard/page.jsx:334 | The list keeps its length. Each entry with the updated record's id becomes that record, and every other entry stays where it was. |
| AdminDashboard.ReplaceIdempotent | app/admin/dashboard/page.jsx:334 | Applying the same update twice is the same as once. |
| AdminDashboard.ReplaceAbsent | app/admin/dashboard/page.jsx:334 | An update for an id the list does not hold changes nothing. |
| AdminDashboard.AddKeepsSync | app/admin/dashboard/page.jsx:221-257 | Adds keep each counter equal to its list's length. |
| AdminDashboard.DeleteSync | app/admin/dashboard/page.jsx:281-282 | After a delete, the project counter still matches the list exactly when exactly one listed project had the id. |
| AdminDashboard.AddThenDelete | app/admin/dashboard/page.jsx:221-282 | Deleting a just-added project with a fresh id restores the dashboard. |
| AdminDashboard.EditRoundTrip | app/admin/dashboard/page.jsx:320-325 | Once the edit field has been typed in, the text it showed (`join(", ")`) is split and trimmed back to the same list, when the items hold no comma and no surrounding white space. A field never typed in sends the list itself. |
| AdminDashboard.Submitted | app/admin/dashboard/page.jsx:320-325 | A list never edited is sent as it is. Edited text is sent as one piece per comma-separated field, each piece being that field trimmed. |
| AdminDashboard.DisplayCommas | app/admin/dashboard/page.jsx:775 | A non-empty list of comma-free items shows with one comma fewer than it has items, and the shown text splits back into as many pieces. |
| AdminDashboard.EmptyListGainsBlankItem | app/admin/dashboard/page.jsx:1294-1298 | An empty skills list shows as "". Once the field has been typed in, that text comes back as one empty item. |
| AdminDashboard.RecentActivity | app/admin/dashboard/page.jsx:594 | The feed is the first five of the projects followed by the messages. Each keeps its own order, and no project comes after a message. |
| AdminDashboard.Start | app/admin/dashboard/page.jsx:86-126 | With no stored token, or an empty one, the page goes to the login page and keeps what is stored. A 401 from the stats route removes the token and goes to the login page. Any other failure keeps the token and shows an error. A successful fetch keeps the token and shows the counts the server sent. |
| AdminDashboard.StartAgainstServer | app/admin/dashboard/page.jsx:86-126 | Against the stats route itself: the page goes to the login page exactly when the token is empty or the gate refuses it with 401. It loads exactly when the token is non-empty, the gate admits it and the queries reach the store, and it then shows the table sizes and the unread count. It shows an error and keeps the token exactly when the gate answers 403 or the queries after the gate fail. |
| Text.Trim | app/api/projects/route.js:40 | The result is a contiguous slice of the input with only white space outside it, and neither starts nor ends with white space. It is the input itself when that is already trimmed. |
| Text.Split | app/api/projects/route.js:40 | There is one piece more than there are separators, no piece holds the separator, and joining the pieces with it gives back the input. |
| Text.SplitJoin | app/admin/dashboard/page.jsx:775 | Splitting a join of separator-free pieces gives the pieces back. |
| Text.SplitTrim | app/api/certificates/route.js:45 | There is one trimmed, comma-free piece per comma-separated field. |
| Lexicographic.LexTotal | app/api/skills/route.js:8-10 | Any two names are ordered one way or the other. |
| Lexicographic.LexTransitive | app/api/skills/route.js:8-10 | The name order is transitive. |
| Lexicographic.LexAntisymmetric | app/api/skills/route.js:8-10 | Only equal names are ordered both ways. |
| Sorting.Sort | app/api/projects/route.js:7-11 | `orderBy` returns a permutation of the table, ordered by the key. |
| Sorting.Top | app/api/dashboard/stats/route.js:22-26 | `take` after `orderBy` returns min(n, size) rows drawn from the table (a sub-multiset of it), in order. Each row returned comes before every row left out. |
| Json.FalsyValues | app/api/projects/route.js:31 | Exactly five values are falsy. Every list and every object, even an empty one, is truthy. A number is falsy exactly when it is 0, a string when it is empty, and a boolean when it is false. |
| Json.Or | app/api/projects/route.js:41-44 | `a || b` is `a` when `a` is truthy and `b` otherwise. It is falsy exactly when both operands are. |
| Seqs.FilterPartition | app/certificates/page.jsx:172-175 | A predicate and its negation split a list: the two filtered lengths add up to the total. |

## Left out

- The per-id routes (`GET`, `PUT` and `DELETE` by id, and the message read toggle) are not part of this model. The dashboard's transitions take the server's reply as a parameter instead.
- Password hashing and the JWT wire format are idealised. `bcrypt.compare` is the `matches` parameter. A signed token is a record of its payload and key, and its compact string form is an abstract codec constrained by `Compact`.
- The JWT library's own checks beyond signature and `exp` (algorithm choice, `nbf`, clock tolerance) are not modelled.
- Auth.VerifyAuth: the outer `catch` that returns 500 is not modelled. Nothing before the inner `try` can throw once the header is a string, so every refusal is 401 or 403.
- JSON numbers are integers. Floating-point values, and `NaN` as a falsy value, are left out.
- The database's collation is not modelled: skills are ordered by code-point comparison of names.
- Prisma's exact validation rules are simplified to one per-column type check. The schema file is not part of this model. Messages are assumed to default to unread.
- Text.Trim removes ECMAScript white space and line terminators, which `IsSpace` lists in full: tab, line feed, vertical tab, form feed, carriage return, space, U+00A0, U+FEFF, the line and paragraph separators, and every `Zs` character.
- Ties in `orderBy` are broken by the insertion sort's order. The database may break ties differently, so only the ordering and the permutation are stated.
- The time zone behind `getFullYear` is the `yearOf` parameter.
- AdminDashboard.Start: only the stats request is modelled. The later fetches of projects, skills, messages and certificates load the lists as sent and are not modelled.
- ProjectsRoute.Create, SkillsRoute.Create, CertificatesRoute.Create: the store is up or down for the whole request, so once the gate's user lookup has succeeded the write cannot fail for an unreachable store. `Submit` on its own states the 500 for an unreachable store.
- Rendering, animation, navigation beyond the start-up check, the forms' local input state, logging, the seed scripts and the public home page are outside the core.
- Concurrency and React's stale-closure behaviour between successive handler calls are not modelled: each handler is one atomic step on the state it is given.
