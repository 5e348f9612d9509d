# Pull-request reviewer assignment, modelled in Dafny

This project models the core of a small review-assignment service. Teams own
users. Users author pull requests and review them. The storage layer keeps
four tables: teams, users, pull requests, and reviewer assignments. Four
operations (create a team, create, merge and reassign a pull
request) each run in one database transaction. Reading a team and setting a
user's active flag are single statements, and listing a user's reviews runs
two separate reads. The operations are:

- create a team, upserting its members;
- read a team;
- set a user's active flag;
- create a pull request, assigning up to two active teammates of its author;
- merge a pull request;
- reassign a reviewer;
- list a user's review queue.

The HTTP handlers turn each storage outcome into a status code and a JSON
body.

Files:

- `models.dfy` (module `Models`): the domain records, the API error codes,
  and the storage layer's sentinel errors.
- `workflow.dfy` (module `Workflow`): the four tables as a value (`Store`)
  and the integrity invariant `Inv`. It also defines the state each
  successful operation leaves behind (`Apply` of a `Step`) and the lemmas
  about these transitions.
- `storage.dfy` (module `Storage`): class `Database`, whose fields are the
  four tables. It has one method per storage operation, written step by step
  as the source does it: the member upsert loop, the candidate query, the
  assignment insert loop, and the row loops that build result lists. Each
  state-changing method is proved to reach exactly `Apply` of its step on
  success, and to leave every table unchanged on every error. That second
  half models the deferred rollback.
- `http.dfy` (module `Http`): responses and bound request bodies.
- `handlers_teams.dfy`, `handlers_users.dfy`, `handlers_pullrequests.dfy`,
  `handlers_stats.dfy`: one module per handler file, each handler a
  function.

Choosing reviewers is not deterministic in the source: the queries use
`LIMIT` without `ORDER BY`. The methods pick with `:|`. The transition
functions take the chosen reviewers as a parameter, constrained by
`ValidChoice` (creation) or `Candidates` (reassignment). No proof assumes
an order.

The invariant `Inv` holds after any sequence of requests, successful or not
(`RunPreservesInv`). It states:

- the foreign keys hold;
- an author is never a reviewer of their own pull request;
- a pull request has at most two reviewers;
- a merge stamp is present exactly on merged pull requests.

"Reviewers are active teammates of the author" is NOT a global invariant.
It holds when a reviewer is assigned (`CreatePrAssigns`, `ReassignSwaps`).
Afterwards, deactivating a user or moving them to another team through a
team upsert leaves their existing assignments in place, as the source does.

Each storage handler takes the storage call as a function parameter. When
the body fails to bind, or the query parameter is empty, the response does
not depend on that parameter at all: storage is not consulted.

## Model

| member | source | states |
|---|---|---|
| `Models.SentinelCode` | src/internal/storage/postgres.go:14-21 | Each sentinel error has exactly one API error code, and that code has the same wire text as the sentinel (models.go:9-18). Only a driver error has no code. No sentinel maps to INVALID_REQUEST or INTERNAL_ERROR. |
| `Workflow.UpsertMembersSpec` | src/internal/storage/postgres.go:141-151 | After the upsert, every listed user exists, belongs to the new team and carries the username and flag of its LAST entry in the list. A user already in another team is moved. Users not listed are untouched. The user ids are the old ids plus the listed ones. |
| `Workflow.EmptyTeamHasNoMembers` | src/internal/storage/postgres.go:136-180 | A team created with no members has a team row but no member. Reading it therefore reports NOT_FOUND: a missing team and an empty team look the same. |
| `Workflow.CreatePrAssigns` | src/internal/storage/postgres.go:230-267 | A new pull request is stored OPEN with the given author and name. Its reviewers are exactly the chosen ones: min(2, number of eligible) distinct active teammates of the author, never the author. No other pull request's row or reviewers change. |
| `Workflow.ReassignSwaps` | src/internal/storage/postgres.go:365-391 | Reassignment leaves the reviewer set as (old set minus old reviewer) plus new reviewer. The new reviewer is eligible, was not assigned before, and differs from the old one. The reviewer count, the pull request rows, and other pull requests' reviewers are unchanged. |
| `Workflow.MergeIdempotent` | src/internal/storage/postgres.go:305-313 | After a merge the pull request is MERGED with its reviewers unchanged. A second merge finds it merged and changes nothing. |
| `Workflow.CreateTeamPreservesInv` | src/internal/storage/postgres.go:136-151 | Creating a team keeps the invariant: every user's team exists, and no key is lost. |
| `Workflow.CreatePrPreservesInv` | src/internal/storage/postgres.go:230-267 | Creating a pull request keeps the invariant: the new assignment rows reference existing rows, exclude the author, and number at most two. |
| `Workflow.ReassignPreservesInv` | src/internal/storage/postgres.go:365-391 | Reassignment keeps the invariant, including the two-reviewer bound and author exclusion. |
| `Workflow.StepPreservesInv` | src/internal/storage/postgres.go:75-403 | Every successful transition (the five writing operations at lines 120-403) keeps `Inv`: the foreign keys of the schema (lines 82, 90, 97-98; the primary keys at lines 75, 80, 88 and 100 hold by the shape of `Store`), author exclusion, at most two reviewers, and stamp present iff merged. |
| `Workflow.StepFreezesMerged` | src/internal/storage/postgres.go:305-346 | A request, successful or not, leaves every merged pull request present, with the same row and the same reviewers. MERGED is terminal. |
| `Workflow.RunPreservesInv` | src/internal/storage/postgres.go:120-403 | Any sequence of requests, each succeeding as its transition or failing with no effect, keeps `Inv`. In particular, no author ever reviews their own pull request. |
| `Workflow.RunFreezesMerged` | src/internal/storage/postgres.go:289-403 | Over any sequence of requests, a merged pull request keeps its row, its merge stamp and its reviewers. |
| `Storage.Database.constructor` | src/internal/storage/postgres.go:72-118 | Empty tables satisfy the invariant. |
| `Storage.Database.CreateTeam` | src/internal/storage/postgres.go:120-154 | A taken name returns TEAM_EXISTS and leaves the tables unchanged. Otherwise the result is no error and the tables become `Apply` of the team step: team added, members upserted. The invariant is kept. |
| `Storage.Database.GetTeam` | src/internal/storage/postgres.go:156-183 | Returns NOT_FOUND iff no user has this team, even when the team row exists. Otherwise it returns exactly the users of the team, each once, under the requested name. |
| `Storage.Database.SetUserActive` | src/internal/storage/postgres.go:185-202 | An unknown user returns NOT_FOUND, with no change. Otherwise only that user's flag changes, the updated user is returned, and the user's assignments stay. |
| `Storage.Database.CreatePullRequest` | src/internal/storage/postgres.go:204-287 | PR_EXISTS is checked first, even when the author is missing as well. NOT_FOUND follows for a missing author. Both errors leave the tables unchanged. On success, the returned reviewer list is a valid choice and equals the stored assignments. The tables become `Apply` of the creation step, and the result describes the stored pull request (OPEN, no merge stamp). |
| `Storage.Database.PickReviewers` | src/internal/storage/postgres.go:238-257 | The candidate query returns distinct active teammates of the author, other than the author. It returns two of them, or all if there are fewer. |
| `Storage.Database.AssignReviewers` | src/internal/storage/postgres.go:259-267 | Inserts exactly one assignment row per chosen reviewer and changes no other table. |
| `Storage.Database.LoadPullRequest` | src/internal/storage/postgres.go:440-476 | Returns the stored row of the pull request and its assigned reviewers, each once. |
| `Storage.Database.MergePullRequest` | src/internal/storage/postgres.go:289-324 | An unknown id returns NOT_FOUND, with no change. An already merged pull request is returned with the tables unchanged. Otherwise it becomes MERGED with the given stamp. In every case the reviewers are unchanged and the result describes the stored pull request. |
| `Storage.Database.ReassignReviewer` | src/internal/storage/postgres.go:326-403 | Errors come in this order: NOT_FOUND, PR_MERGED, NOT_ASSIGNED, NO_CANDIDATE. Each leaves the tables unchanged. On success the replacement is a candidate (eligible and not yet assigned) and is returned as `replaced_by`. The tables become `Apply` of the swap, and the result describes the updated pull request. |
| `Storage.Database.GetUserPullRequests` | src/internal/storage/postgres.go:405-438 | Returns NOT_FOUND iff the user does not exist. Otherwise it returns exactly the pull requests the user is assigned to review, each once. |
| `TeamHandlers.CreateErrorResponse` | src/internal/api/handlers/teams.go:60-64 | The error body carries exactly the given code and message. |
| `TeamHandlers.AddTeam` | src/internal/api/handlers/teams.go:19-38 | A bind failure gives 400/INVALID_REQUEST with the binder's message. TEAM_EXISTS gives 400, not 409, with code TEAM_EXISTS. Any other error gives 500/INTERNAL_ERROR with the raw text. Success gives 201 echoing the submitted team. Status < 300 iff storage succeeded. |
| `TeamHandlers.GetTeam` | src/internal/api/handlers/teams.go:40-58 | An empty name gives 400/INVALID_REQUEST whatever storage would say. NOT_FOUND gives 404 and other errors 500. Success gives 200 with the team. |
| `UserHandlers.SetIsActive` | src/internal/api/handlers/users.go:19-37 | A bind failure gives 400/INVALID_REQUEST. NOT_FOUND gives 404 and other errors 500 with the raw text. Success gives 200 with the user under `user`. |
| `UserHandlers.GetReview` | src/internal/api/handlers/users.go:39-57 | An empty id gives 400/INVALID_REQUEST whatever storage would say. NOT_FOUND gives 404 and other errors 500. Success gives 200 with the review list. |
| `PullRequestHandlers.CreatePR` | src/internal/api/handlers/pullrequests.go:19-40 | A bind failure gives 400/INVALID_REQUEST. PR_EXISTS gives 409/PR_EXISTS and NOT_FOUND gives 404/NOT_FOUND. Anything else gives 500/INTERNAL_ERROR with the raw text. Success gives 201 with the pull request under `pr`. Every error reported carries its sentinel's code or the raw text. |
| `PullRequestHandlers.MergePR` | src/internal/api/handlers/pullrequests.go:42-60 | A bind failure gives 400. NOT_FOUND gives 404 and any other error 500. The handler never answers 409. Success gives 200 with `pr`. |
| `PullRequestHandlers.Reassign` | src/internal/api/handlers/pullrequests.go:62-90 | A bind failure gives 400. NOT_FOUND gives 404. PR_MERGED, NOT_ASSIGNED and NO_CANDIDATE each give 409 with their own code. Status 500 iff the error is none of these four. Success gives 200 with `pr` and `replaced_by` equal to the id storage returned. |
| `StatsHandlers.EffectiveLimit` | src/internal/api/handlers/stats.go:95-102 | The effective limit always lies in [1, 50]. A missing limit, or one `strconv.Atoi` rejects (non-integer text, or a decimal outside the 64-bit range such as `99999999999999999999`), becomes 10. A parsed limit <= 0 becomes 10, and a parsed one > 50 becomes 50. A limit in 1..50 passes through unchanged. |
| `StatsHandlers.EffectiveLimitIdempotent` | src/internal/api/handlers/stats.go:95-102 | Clamping an already effective limit changes nothing. |
| `StatsHandlers.GetTopReviewers` | src/internal/api/handlers/stats.go:94-115 | Queries with the clamped limit. It forwards the result with 200 and all-zero system counters, or answers 500/INTERNAL_ERROR on a storage error. |
| `StatsHandlers.GetSystemStats` | src/internal/api/handlers/stats.go:26-45 | Always asks for the top reviewers with limit 5. An error from either query gives 500/INTERNAL_ERROR. Otherwise it returns 200 with both payloads. |
| `StatsHandlers.GetUserStats` | src/internal/api/handlers/stats.go:53-65 | Forwards the per-user statistics with 200 and all-zero system counters; a storage error gives 500/INTERNAL_ERROR. |
| `StatsHandlers.GetPRStats` | src/internal/api/handlers/stats.go:73-85 | Forwards the per-pull-request statistics with 200 and all-zero system counters; a storage error gives 500/INTERNAL_ERROR. |

## Left out

- Schema bootstrap (`New`, `shouldResetDB`, `resetDatabase`, `initTables` in src/internal/storage/postgres.go:27-118) is DDL, environment reads and connection setup. Only its constraints enter the model: the primary keys as the shape of `Workflow.Store` (a set of team names, maps keyed by user id and pull-request id, a set of assignment pairs), and the foreign keys as `Workflow.Inv`.
- Transactions and isolation: each operation is one atomic step, including the two reads of `GetUserPullRequests`, which the source runs as separate statements outside a transaction. Races between concurrent requests are a concurrency matter and are not modelled.
- Timestamps: `CURRENT_TIMESTAMP` and the creation time are an opaque `Stamp` passed in as `now`. The merge stamp is an `Option`.
- Reporting SQL (`GetSystemStats`, `GetTopReviewers`, `GetUserStats`, `GetPRStats` in src/internal/storage/postgres.go:478-621): these are SQL aggregates with unspecified tie order. The stats handlers take their results as inputs. The floating-point `AvgReviewsPerPR` is not a field of `Models.SystemStats`.
- JSON binding and rendering and `strconv.Atoi` are library code. A bind failure is the `Malformed` input variant, and the parsed limit is an `Option<int>` whose None covers every `Atoi` failure, out-of-range decimals included. Rendering details such as a nil list becoming JSON `null` are not modelled. The stats body always carries `system_stats` (the Go field has no `omitempty`), so the top-reviewers, users and prs endpoints send it with every counter zero; the model states this as `Models.ZeroSystemStats`.
- Driver errors: the storage methods in the model never fail with a database error (`ErrDriver`). The handlers still map such an error, which reaches them as an input. Ordinary requests do reach this path in the source: a team name, user id, username, pull-request id or pull-request name longer than 255 characters makes the INSERT at src/internal/storage/postgres.go:136, 142-147 or 230-233 fail against the `VARCHAR(255)` columns (lines 75, 80-82, 88-90), and the handler answers 500 where the model succeeds. The one exception is a value whose characters beyond 255 are all spaces: PostgreSQL trims it to 255 characters silently, and the outcome then depends on the field. For a pull-request id the read-back at line 271 looks up the untrimmed id and misses, so even the first creation answers 500 and is rolled back. A pull-request name is stored and comes back trimmed. A team name or user id is stored trimmed, later lookups by the submitted value miss it, and a repeated team creation answers 500 instead of TEAM_EXISTS (the existence check at line 128 compares the untrimmed name, and the INSERT at line 136 hits the primary key). Column widths are not modelled.
- A user with a NULL team cannot arise in the model: users are only created by team creation, which always sets the team. In the source, scanning a NULL team into a string fails at src/internal/storage/postgres.go:222, leaving `authorExists` false, so the test at line 223 answers NOT_FOUND (404); the same holds for every failure of that query, so lines 226-228 never run. The model never reaches that case.
- Storage.Database.LoadPullRequest: requires the row to exist. Its callers call it only after finding the row in the same transaction, so the source's missing-row error path is not modelled.
- Storage.Database.ReassignReviewer: the lookup of the author's team (src/internal/storage/postgres.go:359-363) cannot fail under the foreign-key invariant, so its error branch is not modelled.
- Storage.Database.CreatePullRequest: builds its result from the values it inserted, instead of reading the row back (src/internal/storage/postgres.go:269-279). For ids and names of at most 255 characters the row read back holds the same values; longer ones are covered by the driver-errors line above.
- The order of returned lists (members, reviewers, review queue) is not specified, as in the source. Each contract states which elements are present, each exactly once.
- src/main.go (configuration, connection retry loop, router, CORS) is startup and I/O.
