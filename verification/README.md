# OpsLink CAD backend: a verified Dafny model of the core

This project models the core of the OpsLink CAD backend: an Express + MongoDB service for a
multi-community computer-aided-dispatch product. The model covers:

- **Authentication handlers** (`src/domains/auth.ts`). These are the password policy, the
  failed-attempt lockout, registration, login with device tracking and refresh tokens, TOTP
  verification, logout and `/me`.
- **The authentication gate and permission checks** (`src/middleware/auth.ts`).
- **The origin allow-list** (`src/middleware/strictCors.ts`).
- **The error plumbing** (`src/middleware/errors.ts`).
- **The metrics counters** (`src/lib/log.ts`).
- **The connect-once database handle** (`src/lib/db.ts`).
- **The hash-chained audit log and evidence custody chain** (`src/lib/audit.ts`).
- **The realtime websocket channel** (`src/ws/server.ts`). This covers cookie parsing, the
  upgrade gate, message dispatch, the connection registry and the per-community broadcast.
- **The housekeeping sweep** (`src/jobs/runner.ts`).
- **The start-up migrations** (`src/migrations/run.ts`). These seed the permission catalogue,
  the role templates and the bootstrap community.

## Layout

| file | module | what it holds |
|---|---|---|
| `wrappers.dfy` | `Wrappers` | `Option` and `Result` |
| `text.dfy` | `Text` | the JavaScript string operations the core uses: `includes`, `indexOf`, `split`, `trim`, `slice(0, n)` and `toLowerCase` |
| `json.dfy` | `Json` | JSON values, JavaScript falsiness, `x \|\| null`, and member lookup in a parsed object |
| `errors.dfy` | `Errors` | `httpError`, `notFound`, `errorHandler` |
| `log.dfy` | `Log` | the `Metrics` object and `metricInc` |
| `library.dfy` | `Library` | the environment (`Config`) and the library primitives the core calls, modelled as uninterpreted functions (`Primitives`) |
| `hashchain.dfy` | `HashChain` | the append algorithm shared by both hash chains, as a `Chain` class |
| `audit.dfy` | `Audit` | `auditAppend` and `evidenceChainAppend` |
| `store.dfy` | `Store` | the documents; `findOne` (`First`), `deleteMany` and `countDocuments` (`Filter` and `Count`); the `Db` class, with one `seq` field per collection |
| `connection.dfy` | `Connection` | `getDb` and `connectDb` on a `Connection` class |
| `authmw.dfy` | `AuthMiddleware` | `authRequired`, `requirePerm`, `communityScope` |
| `auth.dfy` | `Auth` | the `/auth` handlers |
| `cors.dfy` | `Cors` | `strictCors`, `wsOriginAllowed` |
| `realtime.dfy` | `Realtime` | `parseCookies`, the upgrade gate, dispatch, the `Registry` class and broadcast |
| `jobs.dfy` | `Jobs` | the sweep `run` |
| `migrations.dfy` | `Migrations` | the permission and role tables, the seeding loops, `runMigrations` |

How the model maps the code:

- **Collections and handlers.** Collections are `seq` fields of `Store.Db`. A handler is a
  method that modifies exactly the collections the handler writes.
- **Decisions.** What a handler decides is stated as a function of the collections it reads
  (`RegisterDecision`, `LoginDecision`, `Authenticate`, `UpgradeGate`). The method's
  postcondition ties each outcome to the resulting writes.
- **Values drawn at random or from the clock.** Fresh `nanoid()` ids, `Math.random()` suffixes,
  bcrypt salts, `new Date()` and `Date.now()` are all method parameters. A handler reads one
  `now` throughout.
- **Cryptography and other libraries.** SHA-256, bcrypt, JWT signing and verification, TOTP
  validation and `decodeURIComponent` are fields of `Library.Primitives`. The model fixes
  nothing about them beyond their types.
- **Mongo query semantics.** These are modelled as follows:
  - `findOne` returns the first match in collection order.
  - `updateOne(..., { upsert: true })` with `$set` replaces the first match, or appends.
  - With `$setOnInsert` it appends only when nothing matches.
  - `deleteMany` keeps what does not match.
  - `updateMany` maps over the collection.
- **Where the code and the written design disagree, the model follows the code:**
  - The access token's expiry is left to JWT verification. `authRequired` itself never looks at
    a session's `expiresAt`, so an expired but unrevoked session still authenticates (see
    `ExpiredSessionAccepted`). In the model only the two-minute sweep removes such sessions. In
    the running system MongoDB's TTL monitor also deletes them, through the `expiresAt` index that
    `ensureCollections` creates; that index is not modelled.
  - Logout clears the cookies but revokes no session and no refresh token.
  - The token `/mfa/verify` issues carries `sub` alone, with no `sid` or `communityId`.
    `authRequired` therefore rejects it (see `MfaTokenNeverAuthenticates`).
  - `/mfa/verify` looks the MFA record up by `userId` alone, in any community.

## Model

| member | source | states |
|---|---|---|
| Text.ContainsIff | src/lib/db.ts:16 | `includes(sub)` holds exactly when `sub` occurs at some index of the string |
| Text.IndexOf | src/ws/server.ts:15 | `indexOf` returns -1 exactly when the character is absent; otherwise it returns an index holding it with no earlier occurrence |
| Text.Split | src/ws/server.ts:14 | `split` yields at least one part, and no part contains the separator |
| Text.SplitAppend | src/ws/server.ts:14 | splitting `a + sep + b` gives the parts of `a` followed by the parts of `b` |
| Text.SplitJoin | src/ws/server.ts:14 | joining the parts of `split` with the separator gives back the original string |
| Text.TrimStart | src/ws/server.ts:14 | removes exactly the leading whitespace: the result is a suffix, starts with a non-space or is empty, and everything dropped is whitespace |
| Text.TrimEnd | src/ws/server.ts:14 | removes exactly the trailing whitespace (the mirror image of `TrimStart`) |
| Text.Trim | src/ws/server.ts:14 | the trimmed string has no whitespace at either end, and it is empty exactly when the input is all whitespace |
| Text.TrimInfix | src/ws/server.ts:14 | `trim` returns a slice of the input, and everything it drops on either side is whitespace |
| Text.Prefix | src/domains/auth.ts:122 | `slice(0, n)` is the prefix of length min(n, length) |
| Text.ToLower | src/domains/auth.ts:78 | `toLowerCase` keeps the length and lowers each character |
| Json.OrNull | src/lib/audit.ts:29-31 | `x \|\| null` is null exactly when `x` is absent or falsy, and is `x` otherwise |
| Json.StringOrNull | src/lib/audit.ts:24-25 | for a string field, `x \|\| null` is null exactly when `x` is absent or empty |
| Json.Get | src/ws/server.ts:61-63 | a member of a parsed object is absent exactly when no field has the key; otherwise it is the value of the last field with the key |
| Errors.HttpError | src/middleware/errors.ts:16-21 | the error carries the status and the message, and carries a code exactly when a non-empty one is given |
| Errors.NotFound | src/middleware/errors.ts:4-6 | the answer is 404 with `{ error: "Not Found", path }` |
| Errors.ErrorResponse | src/middleware/errors.ts:8-14 | the status falls back to 500, the message to "Server Error" and the code to "error" |
| Errors.HttpErrorRoundTrip | src/middleware/errors.ts:8-21 | `errorHandler` answers an `httpError` with its own status and message, and with its code or "error" |
| Log.Inc | src/lib/log.ts:12-13 | increments one counter, starting a missing one from 0, and leaves every other counter unchanged |
| Log.IncComposes | src/lib/log.ts:13 | two increments of one key add up; increments of different keys commute |
| Log.Metrics.MetricInc | src/lib/log.ts:9-14 | creates the metrics object on first use, stamping `startedAt` once, then increments the counter |
| Library.EnvOr | src/middleware/auth.ts:18 | `process.env.X \|\| fallback` is the variable when set and non-empty, and the fallback otherwise |
| HashChain.FindLatest | src/lib/audit.ts:17 | the latest-record query: None exactly when the partition is empty, otherwise a record of the partition with the greatest `ts` |
| HashChain.LastHashOfLast | src/lib/audit.ts:17-18 | the partition's head hash is "" for an empty partition, and otherwise the hash of its last record |
| HashChain.LatestIsLast | src/lib/audit.ts:17 | when times increase, the record with the greatest `ts` in a partition is its last one |
| HashChain.AppendedKeepsChain | src/lib/audit.ts:17-36 | appending at a later time keeps the chain invariant: times increase, each `prevHash` is the partition's previous hash, and each hash is the digest of its payload |
| HashChain.AppendLeavesOtherPartitions | src/lib/audit.ts:17 | an append never changes another partition's head hash |
| HashChain.ChainedLinksPredecessor | src/lib/audit.ts:17-18 | in a chained collection each record's `prevHash` is the hash of the previous record of its partition, which is earlier in time |
| HashChain.ChainedFirstHasEmptyPrev | src/lib/audit.ts:18 | the first record of a partition has `prevHash` "" |
| HashChain.Chain.constructor | src/lib/audit.ts:16 | a new collection is empty and keeps its digest |
| HashChain.Chain.Append | src/lib/audit.ts:15-37 | adds exactly one record, linked to a latest record of its partition (or "") and hashed by the digest; returns its hash; keeps the chain invariant when time moves forward |
| Audit.NormalizeAudit | src/lib/audit.ts:20-33 | action and entity are copied; each optional field is null exactly when it is absent or falsy, and is copied otherwise |
| Audit.NormalizeEvidence | src/lib/audit.ts:53-64 | the same normalisation for custody events |
| Audit.AuditAppend | src/lib/audit.ts:4-37 | appends one normalised event to the community's partition of `audit_events` and returns its hash; the chain invariant is kept |
| Audit.EvidenceChainAppend | src/lib/audit.ts:39-68 | appends one normalised custody event to the (community, evidence item) partition and returns its hash; the chain invariant is kept |
| Store.FirstIndex | src/domains/auth.ts:67 | `findOne`'s position: None exactly when nothing matches, otherwise the first matching index |
| Store.First | src/domains/auth.ts:67 | `findOne`: None exactly when nothing matches, otherwise the first match |
| Store.Filter | src/jobs/runner.ts:10-11 | `deleteMany` keeps exactly the documents that do not match: nothing added, every kept document retained |
| Store.FilterAllKept | src/jobs/runner.ts:10-11 | a delete that matches nothing changes nothing |
| Store.FilterIdempotent | src/jobs/runner.ts:10-11 | deleting twice with the same filter is deleting once |
| Store.FilterSnoc | src/domains/auth.ts:51 | filtering commutes with inserting one document |
| Store.CountSnoc | src/domains/auth.ts:51 | `countDocuments` grows by one exactly when the inserted document matches |
| Store.Db.constructor | src/migrations/run.ts:98-105 | a fresh database has every collection empty |
| Connection.UriAcceptable | src/lib/db.ts:16-18 | the URI is accepted exactly when it contains `tls=true`, `retryWrites=true` and `w=majority` |
| Connection.OptionsSuffice | src/lib/db.ts:16-18 | a URI carrying `tls=true`, `retryWrites=true` and `w=majority`, joined by `&` after any prefix, is accepted |
| Connection.Connection.constructor | src/lib/db.ts:4-5 | no client and no handle yet |
| Connection.Connection.GetDb | src/lib/db.ts:7-10 | fails with "DB not connected" exactly when there is no handle |
| Connection.Connection.ConnectDb | src/lib/db.ts:12-28 | reuses an existing connection; otherwise rejects a missing URI, then one without the options; then creates the client, and on a successful connect caches and returns the handle |
| AuthMiddleware.Token | src/middleware/auth.ts:18-20 | the token is present exactly when the named cookie is set and non-empty |
| AuthMiddleware.ToSessionUser | src/middleware/auth.ts:28 | the session user copies id, community and role; perms default to [] when the user has none |
| AuthMiddleware.Authenticate | src/middleware/auth.ts:17-33 | succeeds exactly when a token is present and verifies, an unrevoked session has its `sid`, and an active user of its community has its `sub`; the result is the first such user; every failure is the same 401 |
| AuthMiddleware.ExpiredSessionAccepted | src/middleware/auth.ts:24 | a session past its `expiresAt` but not revoked still authenticates |
| AuthMiddleware.NoSidRejected | src/middleware/auth.ts:24-25 | a verified token without a `sid` never authenticates |
| AuthMiddleware.RevokedRejected | src/middleware/auth.ts:24-25 | once every session a token names is revoked, the token is rejected |
| AuthMiddleware.Request.constructor | src/middleware/auth.ts:13-14 | a request starts without a user |
| AuthMiddleware.AuthRequired | src/middleware/auth.ts:17-33 | sets `req.user` to the authenticated user on success; on failure passes the 401 on and leaves `req.user` unchanged |
| AuthMiddleware.RequirePerm | src/middleware/auth.ts:35-42 | passes exactly when there is a user holding `*` or `entity:action`; 401 without a user, 403 otherwise |
| AuthMiddleware.WildcardGrantsAll | src/middleware/auth.ts:39 | `*` grants every permission; lacking both `*` and the key gives 403 |
| AuthMiddleware.CommunityScope | src/middleware/auth.ts:44-48 | the header wins, then the user's community; 400 "Community required" exactly when neither is non-empty |
| Auth.AnyChar | src/domains/auth.ts:17 | a one-class regex test holds exactly when some character is in the class |
| Text.Utf16Length | src/domains/auth.ts:17 | `length` counts between one and two code units per character: exactly one each when none lies beyond the Basic Multilingual Plane, exactly two each when all do |
| Text.Utf16LengthAppend | src/domains/auth.ts:17 | the code-unit length of a concatenation is the sum of the lengths |
| Auth.PasswordPolicy | src/domains/auth.ts:17 | the policy holds exactly when the password has at least 12 UTF-16 code units, an upper-case letter, a lower-case letter and a digit |
| Auth.PasswordPolicyCountsCodeUnits | src/domains/auth.ts:17 | "Aa1" followed by five U+1F600 characters is eight characters long and still passes, because `length` counts 13 code units |
| Auth.PasswordPolicyBmp | src/domains/auth.ts:17 | for a password within the Basic Multilingual Plane the length test counts characters |
| Auth.SignAccess | src/domains/auth.ts:24-28 | fails with "JWT_ACCESS_SECRET missing" exactly when the secret is unset or empty; otherwise signs with a 20-minute lifetime |
| Auth.SignRefresh | src/domains/auth.ts:30-34 | fails with "JWT_REFRESH_SECRET missing" exactly when the secret is unset or empty; otherwise signs with a 30-day lifetime |
| Auth.LockoutCheck | src/domains/auth.ts:48-53 | 429 "Too many attempts" exactly when at least 10 failures of the (community, email, ip) triple fall within the last 15 minutes |
| Auth.RecordedAttemptCount | src/domains/auth.ts:36-53 | recording an attempt raises a triple's count by one exactly when it is a recent failure of that triple; successes and other triples never count |
| Auth.FailuresAccumulate | src/domains/auth.ts:36-53 | recent failures of a triple add to its count one by one |
| Auth.TenFailuresLockOut | src/domains/auth.ts:48-53 | ten recent failures lock the triple out, whatever else is on record |
| Auth.RecordAuthAttempt | src/domains/auth.ts:36-46 | inserts exactly one attempt stamped `now` |
| Auth.ClientIp | src/domains/auth.ts:103 | the `x-forwarded-for` header verbatim when non-empty, else the socket address, else "" |
| Auth.DeviceId | src/domains/auth.ts:122 | a prefix of at most 24 characters of the digest of `deviceName:ip:ua`, exactly 24 when the digest is that long |
| Auth.UpsertDevice | src/domains/auth.ts:125 | the first record of the (community, user, deviceId) triple is replaced; with no match the device is appended |
| Auth.UpsertDeviceIdempotent | src/domains/auth.ts:125 | after the upsert the device is on record, and upserting it again changes nothing |
| Auth.RegisterDecision | src/domains/auth.ts:66-71 | the checks in order: password policy, an active community whose `_id` is the request's string (an ObjectId never matches), role of that community; success exactly when all three pass, with the first matching role |
| Auth.NewUser | src/domains/auth.ts:73-86 | the inserted user has a lower-cased email, the role's perms, "active" status and the bcrypt hash |
| Auth.Register | src/domains/auth.ts:55-91 | bumps `auth_register`; a refused registration writes nothing; an accepted one inserts exactly one user and appends exactly one audit event (create / user, by self) |
| Auth.LoginDecision | src/domains/auth.ts:105-117 | the checks in order: lockout, then the first active user with the lower-cased email, then the password, then that user's MFA record in the community |
| Auth.LockoutBeforeCredentials | src/domains/auth.ts:105-111 | a locked-out triple is refused whatever password is given and whatever users exist |
| Auth.NewSession | src/domains/auth.ts:123-124 | the session is unrevoked and expires 20 minutes after `now` |
| Auth.NewRefreshToken | src/domains/auth.ts:128-131 | stores the refresh token's hash, never the token; unrevoked; expires in 30 days |
| Auth.CheckCredentials | src/domains/auth.ts:105-119 | follows the decision of the checks; records a failed attempt for an unknown user or a wrong password, a successful one for a user without MFA, and nothing on lockout or MFA |
| Auth.Login | src/domains/auth.ts:93-138 | bumps `auth_login`; lockout writes nothing; an unknown user or wrong password records one failure; MFA-enabled users get 202 with nothing written; otherwise records a success, inserts the session, upserts the device and, if both tokens sign, stores the refresh token |
| Auth.StartSession | src/domains/auth.ts:121-131 | inserts the session and upserts the device; a signing failure stops before the refresh token is stored |
| Auth.LoginSessionAuthenticates | src/domains/auth.ts:124-127 | the session a login creates authenticates the access token it issues, as long as the user stays the active match |
| Auth.MfaVerify | src/domains/auth.ts:140-153 | 400 "MFA not configured" when the user's first MFA record is missing or disabled; 401 "Invalid code" when TOTP rejects the code; otherwise an access token with `sub` only |
| Auth.MfaTokenNeverAuthenticates | src/domains/auth.ts:148 | the token `/mfa/verify` issues is always refused by `authRequired` |
| Auth.Logout | src/domains/auth.ts:155-164 | behind the gate; on success names both cookies to clear, bumps `auth_logout` and revokes nothing |
| Auth.ProfileOf | src/domains/auth.ts:170 | the profile copies id, email, username and role, each missing when no user was found |
| Auth.Me | src/domains/auth.ts:166-172 | behind the gate; on success answers the profile of the first user with the session user's id |
| Cors.WsOriginAllowed | src/middleware/strictCors.ts:25-29 | only the first value of an array counts; a missing or empty origin is refused; otherwise it is allowed exactly when it is on the list |
| Cors.AllowedOriginsNonEmpty | src/middleware/strictCors.ts:3-6 | every allowed origin is non-empty, so the empty-origin test never decides alone |
| Cors.CorsHeaders | src/middleware/strictCors.ts:15-19 | exactly five headers, echoing the origin, with credentials |
| Cors.StrictCors | src/middleware/strictCors.ts:8-23 | 403 exactly for a non-empty origin off the list; 204 for an OPTIONS request otherwise; headers only when an origin was given |
| Cors.GatesAgree | src/middleware/strictCors.ts:8-29 | for a single origin, the HTTP gate and the websocket gate accept the same origins |
| Realtime.CookiePieces | src/ws/server.ts:14 | the pieces are non-empty and already trimmed |
| Realtime.CookiePiecesMembers | src/ws/server.ts:14 | every piece is the trim of some `;`-part of the header, and every non-empty trim of a part is a piece |
| Store.FilterAppend | src/ws/server.ts:14 | `filter` distributes over concatenation |
| Realtime.MapAllAppend | src/ws/server.ts:14 | `map` distributes over concatenation |
| Realtime.CookiePiecesJoin | src/ws/server.ts:14 | the pieces of `h1 + ";" + h2` are those of `h1` followed by those of `h2` |
| Realtime.CookiePiecesSingle | src/ws/server.ts:14 | a header without `;` yields its trim as the only piece, or nothing when it is blank |
| Realtime.TrimTwice | src/ws/server.ts:14 | trimming is idempotent |
| Realtime.PieceKeyShape | src/ws/server.ts:15-16 | a piece has a key exactly when its first `=` is past index 0; the piece is key, `=`, value |
| Realtime.JarFails | src/ws/server.ts:14-18 | parsing throws exactly when some keyed piece fails to decode |
| Realtime.JarKeys | src/ws/server.ts:14-18 | a successful parse holds exactly the keys that some piece names |
| Realtime.JarLastWins | src/ws/server.ts:16 | each key holds the decoded value of the last piece naming it |
| Realtime.JarFailureSticks | src/ws/server.ts:16 | once a prefix of the header throws, the whole parse throws |
| Realtime.ParseCookies | src/ws/server.ts:11-19 | the jar of the header's pieces, the header read as "" when it is missing |
| Realtime.ForEachPiece | src/ws/server.ts:14-18 | the `forEach` loop builds exactly the specified jar of the pieces, stopping with a failure at the first value that does not decode |
| Realtime.UpgradeGate | src/ws/server.ts:24-49 | 403 when the origin is refused; otherwise accepted exactly when the cookies parse and `Authenticate` succeeds, with the same user; 401 otherwise |
| Realtime.UpgradeMatchesHttpGate | src/ws/server.ts:29-38 | given an allowed origin and parseable cookies, the upgrade admits exactly whom `authRequired` admits |
| Realtime.ConnOf | src/ws/server.ts:53 | the connection copies the session user's community, perms and id |
| Realtime.MessageType | src/ws/server.ts:62-63 | only an object message has a type |
| Realtime.Dispatch | src/ws/server.ts:58-70 | no reply to unparseable or unknown messages; pong to ping; `subscribed` or `Forbidden` depending on `*`/`ws:subscribe` |
| Realtime.Registry.constructor | src/ws/server.ts:9 | the registry starts empty |
| Realtime.Registry.Add | src/ws/server.ts:54 | `Set.add`: the members gain the connection, and re-adding is a no-op |
| Realtime.Registry.Delete | src/ws/server.ts:72 | `Set.delete`: exactly that connection leaves, and order is kept |
| Realtime.Registry.Broadcast | src/ws/server.ts:79-86 | the loop attempts exactly the connections of the community that pass the gate, in order; delivery failures are swallowed |
| Realtime.FilterKeepsDistinct | src/ws/server.ts:9 | filtering a duplicate-free sequence keeps it duplicate-free |
| Realtime.BroadcastAudience | src/ws/server.ts:82-83 | a connection is attempted exactly when it is registered, is in the community, and holds `*` or the gate (or there is no gate) |
| Realtime.OnConnect | src/ws/server.ts:51-56 | registers the connection, bumps `ws_connect` and answers hello with the community |
| Realtime.OnMessage | src/ws/server.ts:58-70 | bumps `ws_in` and answers as `Dispatch` says |
| Realtime.OnClose | src/ws/server.ts:72 | unregisters the connection and bumps `ws_close` |
| Jobs.MarkSent | src/jobs/runner.ts:12 | stamps `sentAt` on exactly the due notifications, leaving no notification due |
| Jobs.MarkSentIdempotent | src/jobs/runner.ts:12 | a second pass at the same time changes nothing |
| Jobs.Run | src/jobs/runner.ts:6-13 | bumps `jobs_tick`, deletes expired sessions and attempts older than 14 days, and marks due notifications sent |
| Jobs.SweepRemovesExactlyTheStale | src/jobs/runner.ts:10-11 | after the sweep a session or attempt remains exactly when it was present and not stale |
| Jobs.SweepIdempotent | src/jobs/runner.ts:10-12 | sweeping twice at the same time leaves what sweeping once leaves |
| Migrations.CatalogueDistinct | src/migrations/run.ts:72-85 | the catalogue holds 23 distinct permissions |
| Migrations.TemplatesNamed | src/migrations/run.ts:87-96 | 8 templates with distinct names; Owner holds `*` alone and Admin the whole catalogue; "Civilian" is a template |
| Migrations.TemplatePermsInCatalogue | src/migrations/run.ts:72-96 | every permission a template names, apart from `*`, is in the catalogue |
| Migrations.Upsert | src/migrations/run.ts:109 | `$setOnInsert` upsert: nothing changes when the key is present, otherwise the item is appended |
| Migrations.SeedAllKeepsExisting | src/migrations/run.ts:107-124 | seeding only appends, and only items |
| Migrations.SeedAllCovers | src/migrations/run.ts:107-124 | after seeding, every item's key is present |
| Migrations.SeedAllNoop | src/migrations/run.ts:107-124 | seeding keys that are all present already changes nothing |
| Migrations.SeedAllTwice | src/migrations/run.ts:107-124 | running the seed again, even with later timestamps, changes nothing |
| Migrations.SeedAllAppend | src/migrations/run.ts:115-123 | seeding `a` then `b` is seeding `a + b` |
| Migrations.SeedAllKeepsKeysDistinct | src/migrations/run.ts:107-124 | seeding never creates a second document with the same key |
| Migrations.PermDocs | src/migrations/run.ts:109 | one permission document per key, stamped `now` |
| Migrations.EnsurePerms | src/migrations/run.ts:107-110 | upserts every catalogue key in order |
| Migrations.UpsertPerms | src/migrations/run.ts:109 | the loop leaves the permissions as the in-order upsert of every key |
| Migrations.EnsurePermsEffect | src/migrations/run.ts:107-110 | afterwards every catalogue key is present, and existing permissions are kept |
| Migrations.TemplateRoles | src/migrations/run.ts:116-121 | one role document per template for the community, with the template's perms |
| Migrations.RoleDocsComplete | src/migrations/run.ts:115-123 | every (community, template) pair has its role document among those the loops upsert |
| Migrations.Ids | src/migrations/run.ts:114 | `String(_id)` of each community, in collection order |
| Migrations.EnsureRoles | src/migrations/run.ts:112-124 | the nested loops upsert every template for every community by (community, name) |
| Migrations.EnsureRolesEffect | src/migrations/run.ts:112-124 | afterwards every community has a role of every template name; existing roles are kept; uniqueness of (community, name) is preserved |
| Migrations.EnsureBootstrapCommunity | src/migrations/run.ts:126-141 | nothing changes if the named community exists; otherwise it is inserted as active under a generated ObjectId, with the `civilianServices` and `webhooks` flags enabled under that id's text; either way it exists afterwards |
| Migrations.BootstrapRegistrationRefused | src/migrations/run.ts:131-138 | the migrated bootstrap community has its "Civilian" role, yet a `/register` naming it by `String(insertedId)` with a valid password gets 400 "Community not found" |
| Migrations.EnsureBootstrapCommunityWithId | src/migrations/run.ts:126-141 | the same bootstrap step with the generated id stored as a string `_id` |
| Migrations.StringIdCommunityRegistrable | src/domains/auth.ts:67-71 | after the migrations, any active community stored under a string `_id` accepts a "Civilian" registration with a valid password |
| Migrations.Seed | src/migrations/run.ts:145-148 | permissions, then the bootstrap community, then the roles: afterwards every permission, the bootstrap community and every template role of every community are present, and nothing present before is lost |
| Migrations.RunMigrations | src/migrations/run.ts:143-150 | stops on a connection failure with nothing seeded; otherwise every permission, the bootstrap community, and every template role for every community, including the bootstrap one, are present |

## Findings

| source | as written | input that shows it | evidently intended | confidence | as-written member | corrected member |
|---|---|---|---|---|---|---|
| src/migrations/run.ts:131-138 with src/domains/auth.ts:67 | the bootstrap community is inserted without an `_id`, so it gets an ObjectId, while `/register` looks up `{ _id: communityId }` with the string from the body; query equality does not convert a string to an ObjectId | a fresh database after the migrations, and `/register` with `communityId` equal to `String(insertedId)`, role "Civilian" and a password that meets the policy | registration into the bootstrap community succeeds, since its roles are seeded under that same text id | not executed | Migrations.EnsureBootstrapCommunity with Migrations.BootstrapRegistrationRefused | Migrations.EnsureBootstrapCommunityWithId with Migrations.StringIdCommunityRegistrable |

The migration model keeps the insert as written, so `Seed` and `RunMigrations` describe what the
code does; `EnsureBootstrapCommunityWithId` is the variant under which the registration path works.

## Left out

- `src/lib/fle.ts` and `ensureKeyVault` are not part of this model. They handle field-level encryption and run inside `ensureCollections`.
- `ensureCollections` (collection and index creation, errors swallowed) is not modelled. Unique and TTL indexes are therefore not enforced on the `seq` collections. In particular the TTL indexes on `expiresAt` of `sessions` and `refresh_tokens` (src/migrations/run.ts:12 and 14), through which MongoDB deletes expired documents on its own schedule, are not modelled: in the model only `Jobs.Run` removes expired sessions, and nothing removes expired refresh tokens. `SeedAllKeepsKeysDistinct` states the seeding half of that uniqueness.
- `src/lib/crypto.ts`, bcrypt, JWT and TOTP are opaque functions in `Library.Primitives`. Token expiry lives inside `jwtVerify`.
- The request body validation (`src/middleware/validate.ts`, zod schemas) is not modelled. The handlers take the validated body, defaults applied ("Civilian" role, "Browser" device).
- Setting and clearing cookies is left out. Cookie options (`cookieOpts`) are left out. JSON response bodies of the handlers are represented by their outcome datatypes.
- Socket writes, `socket.destroy()`, `JSON.stringify` of frames and logging are left out. The upgrade answer and the frames are values.
- The `ws.send` delivery outcome is a parameter (`sends`). Its failures are swallowed, as in the code.
- The cron schedule and the periodic invocation of `run` are left out, as is the rejection logging. `Jobs.Run` is one tick.
- `getDb()` failing inside a handler is not modelled: handlers take a connected `Db`. `Connection.Connection.GetDb` models that failure on its own.
- Concurrency between requests and the `await` interleavings are left out. Each handler runs atomically on the store.
- `src/index.ts`, `src/dist/index.js`, `src/routes.ts` and `src/domains/communities.ts` are not part of this model.
- `Text.ToLower`: only ASCII letters are lowered; JavaScript's full Unicode case mapping is not modelled.
- `Text.Prefix`: lengths count Dafny characters, not UTF-16 code units.
- `Json.Get`: JSON numbers are integers.
- `Realtime.Pong`: `Date.now()` is the handler's `now`.
- `HashChain.Chain.Append`: `JSON.stringify(payload)` is folded into the opaque `digest` of the payload. The digest reads the whole payload, including the key, time and `_id` suffix.
- `Auth.Login`: the metric and the 202 answer are modelled; cookies and the JSON body are not.
- `Auth.Me`: the code answers a profile of undefined fields when the user has vanished between the gate and the lookup. In the model the store does not change in between, so the lookup always finds a user. `Auth.ProfileOf` still models the empty profile.
