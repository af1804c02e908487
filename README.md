# score-express-db leaderboard, modelled in Dafny

The service is a small leaderboard. An Express router answers seven routes
over one SQLite table, `users(id TEXT PRIMARY KEY, name TEXT, score INTEGER,
team TEXT)`:

- `POST /signup` registers a user.
- `POST /set-score`, `POST /add-score` and `POST /subtract-score` change one user's score.
- `GET /get-user-score/:id` reads one score.
- `GET /get-team-score/:team` lists a team with its summed score.
- `GET /get-teams` groups every user under their team and ranks the teams by total score, highest first.

The model treats the table as a finite map from `id` to `(name, score, team)`. Because it is a map, no two rows can share an id, which is what the primary key guarantees. Each request runs to completion before the next one starts. The rest of the model is set up as follows:

- **Driver results.** The rows a `db.all` query returns are a `scan: seq<Row>` parameter. `IsScan` constrains it to list every row of the table exactly once. For `/get-teams`, `OrderedByTeamThenId` adds the guarantee of `ORDER BY team, id`, under SQLite's BINARY collation.
- **Driver failures.** Whether the driver reports an error on a request's first or second statement is a `DriverErrors` parameter. A statement that fails changes nothing.
- **Body fields.** They are `Option` values. `Truthy` is JavaScript truthiness for a string field: a missing field and `""` are falsy. For an amount, `None` stands for `undefined`.

Modules:

- `Schema`: the table, rows, member records, statuses, the collation order.
- `Queries`: what `WHERE team = ?` and `SUM(score)` compute over any scan, tied to order-free definitions over the table (`TeamSet`, `TeamTotal`).
- `Handlers`: each route as a function from the table and the request to a status, a reply and the new table. These are the specifications.
- `Teams`: the `/get-teams` algorithm.
  - The `forEach` grouping loop is a method with a loop invariant.
  - The stable descending sort is an insertion sort.
  - The reshaping into `{teamName, totalScore, teamMembers}` follows, as does the grouping loop exactly as written (see Findings).
- `Server`: the class `UserStore`, whose `users` field is the table. Each route is a method proved against its `Handlers` function. `GetTeams` is proved against the table-level `Leaderboard` predicate.

## Model

| member | source | states |
|---|---|---|
| Server.UserStore.constructor | src/DataBase/db.js:5-12 | A freshly created `users` table holds no rows. |
| Handlers.Signup | server.js:19-49 | 400 exactly when `id`, `name` or `team` is falsy or `score` is undefined; a `score` of 0 passes. 500 exactly when the fields pass but the id is already a key or the insert fails. 201 otherwise. On 400 or 500 the table is unchanged; on 201 exactly one row `id -> (name, score, team)` is added and every old row stays as it was. |
| Server.UserStore.Signup | server.js:19-49 | The checks and the insert leave exactly the status and table that `Handlers.Signup` specifies. |
| Handlers.UpdateScore | server.js:52-142 | Holds for all three score routes. 400 exactly when `id` is falsy or the amount is undefined. 404 exactly when the inputs pass, the lookup succeeds and the id is unknown. 500 exactly when the lookup fails, or the update fails for a known id. 200 otherwise. Every status but 200 leaves the table unchanged. 200 changes only that user's score: to `newScore`, to score + `increment`, or to score − `decrement`. Name, team and every other row are kept. |
| Server.UserStore.SetScore | server.js:52-79 | The new table and status are those of `Handlers.UpdateScore` with `Assign`: the score becomes `newScore`. |
| Server.UserStore.AddScore | server.js:82-110 | The new table and status are those of `Handlers.UpdateScore` with `Increase`: the score becomes score + `increment`. |
| Server.UserStore.SubtractScore | server.js:114-142 | The new table and status are those of `Handlers.UpdateScore` with `Decrease`: the score becomes score − `decrement`. |
| Server.UserStore.ChangeScore | server.js:55-71 | The shared sequence of presence check, `SELECT` and `UPDATE` ends in the status and table that `Handlers.UpdateScore` specifies for the given kind of update. |
| Handlers.AddThenSubtractRestores | server.js:99-131 | Adding k to a user and then subtracting k leaves the whole table as it was. This holds for every id, known or not. |
| Handlers.ReplayNet | server.js:82-142 | A serialized sequence of add and subtract requests on a known user sets its score to the initial score plus the increments minus the decrements, and changes nothing else. |
| Handlers.UserScore | server.js:146-158 | 500 exactly on a driver error. 404 exactly for an unknown id. 200 with `{score}` equal to that user's stored score otherwise. A score is returned only with 200. |
| Server.UserStore.GetUserScore | server.js:146-158 | The answer is that of `Handlers.UserScore`. The method has no `modifies` clause, so the table is unchanged. |
| Handlers.SignupThenUserScore | server.js:35-46 | After a signup that answers 201, `GET /get-user-score` for that id answers 200 with the submitted score. |
| Queries.MembersOf | server.js:165-169 | The `WHERE team = ?` listing over a scan never holds more records than the scan has rows. `Queries.InMembersOf` states which records it holds. |
| Queries.Total | server.js:172-176 | `SUM(score)` over a listing whose scores are all non-negative is non-negative. `Queries.ScanTotal` ties the sum to the team's total in the table. |
| Queries.InMembersOf | server.js:165-169 | A member record is in the `WHERE team = ?` listing exactly when some row of that team produced it. |
| Queries.ScanMembers | server.js:165-184 | Over any scan of the table, the team listing holds exactly the team's users (as a set), with no id twice. |
| Queries.ScanTotal | server.js:172-193 | Over any scan of the table, the sum of the listed scores equals the team's total in the table, whatever the scan order. |
| Handlers.TeamScore | server.js:161-197 | 500 exactly when the first query fails, or the team has users and the second query fails. 404 exactly when the first query succeeds and no user has that team. On 200, `users` is exactly the team's users, each once, and `totalScore` is the sum of their scores. Otherwise there is no payload. |
| Server.UserStore.GetTeamScore | server.js:161-197 | The answer is that of `Handlers.TeamScore`. The method has no `modifies` clause, so the table is unchanged. |
| Teams.TeamsOf | server.js:219-225 | The teams the scan meets, with no name twice. A name is listed exactly when some row has that team. |
| Teams.GroupOfStep | server.js:219-233 | Reading one more row adds that row's member to the end of its own team's group and its score to that team's total. Other teams are untouched. |
| Teams.AddRow | server.js:220-233 | One turn of the corrected (own-key) loop. An empty group is created when the team is not yet an own key of the dictionary, the member is pushed, then the score is added, in the source's order. The result equals the step function `OwnStep`. The source tests truthiness of `teams[row.team]` instead, which differs only for the inherited names of the Findings. |
| Teams.OwnStepGroups | server.js:219-233 | One loop turn keeps the dictionary equal to the grouping of the rows read so far: the key order is first-met order, and each group holds its team's members in scan order with their summed score. |
| Teams.GroupByTeam | server.js:217-234 | The keys are added in the order the scan first meets each team. For every team, the final dictionary holds its members in scan order and the sum of their scores. |
| Teams.Entries | server.js:236 | `Object.entries(teams)` has one pair per recorded key, in the order the keys were added. Each pair's value is that key's group. Keys recorded without repetition give pairs with distinct keys. |
| Teams.SortByTotal | server.js:236 | The result is non-increasing in total score and is a permutation of its input. It is stable: the entries that share a total keep their input order. Distinct keys stay distinct. Input keys in ascending order mean ties come out in ascending key order. |
| Teams.Reshape | server.js:236-242 | Each `[key, value]` entry becomes `{teamName: key, totalScore: value.totalScore, teamMembers: value.users}`, position by position. |
| Teams.MembersAscending | server.js:202-206 | Under `ORDER BY team, id`, a team's members are listed in ascending id order. |
| Teams.TeamsOfAscending | server.js:202-206 | Under `ORDER BY team, id`, the scan meets the teams in ascending name order. |
| Teams.RankIsStable | server.js:236-242 | For every total, sorting and reshaping keep the first-met order among the teams that share it. |
| Teams.RowsPlacedOnce | server.js:219-233 | With distinct ids, each row's member record is in its own team's entry and in no other. |
| Teams.GroupAndRank | server.js:217-242 | The grouping, sort and reshape produce one entry per distinct team and no entry without a member. The entries are non-increasing in total. Each entry lists its team's rows in scan order with their summed score. Among equal totals, teams keep first-met order, which is ascending name order under `ORDER BY team, id`. With distinct ids, each row sits in exactly its own team's entry. Members are in ascending id order. |
| Server.RankTeams | server.js:217-242 | Over a scan of the table, the ranked entries form the table's `Leaderboard`. For every total, the teams sharing it appear in first-met order. |
| Server.UserStore.GetTeams | server.js:200-246 | 500 exactly on a driver error. 404 exactly when the table is empty. Otherwise 200 with the table's `Leaderboard`: non-increasing totals, and no team twice. Equal totals are ordered by ascending team name. Every user's team has an entry. Each entry lists exactly its team's users, once each, in ascending id order, with their summed score. The table is unchanged. The grouping is the corrected (own-key) one; see Left out. |
| Server.UserInOneEntry | server.js:217-234 | On the leaderboard, every user's member record appears in exactly one entry: the entry of the user's own team. |
| Server.LeaderboardAgreesWithTeamScore | server.js:178-193 | Each `/get-teams` entry has the same users and the same total that `/get-team-score` answers for that team. |
| Teams.StepAsWrittenOwn | server.js:220-233 | For a team whose name is not an `Object.prototype` property, one turn of the loop exactly as written does what the corrected turn does. |
| Teams.StepAsWritten | server.js:220-233 | One turn of the loop exactly as written throws exactly when the row's team is not an own key and is one of the inherited names. When it does not throw, the dictionary's keys gain the row's team and nothing else. |
| Teams.GroupAsWritten | server.js:219-234 | When the loop exactly as written finishes, no inherited name is an own key of the dictionary it built. |
| Teams.GroupAsWrittenThrows | server.js:219-234 | The loop exactly as written throws exactly when some row's team is named after an `Object.prototype` property. |
| Teams.GroupAsWrittenAgrees | server.js:219-234 | When the loop exactly as written finishes, its dictionary is the grouping of the rows that `GroupByTeam` builds: first-met key order, and each team's members in scan order with their summed score. |
| Teams.ConstructorTeamThrows | server.js:220-227 | With a single user in team `"constructor"`, the loop as written throws. The intended grouping for that input is `{totalScore: 5, users: [that user]}`. |

## Left out

- Express wiring, CORS, JSON body parsing, `GET /` and `app.listen` with its port (server.js:1-16, 249-252). These are HTTP plumbing with no table logic.
- The SQLite driver, and opening and creating the database file (src/DataBase/db.js:1-4, 15). The schema only shapes `User` and the primary-key invariant.
- Asynchronous callbacks and races between concurrent requests for the same id, for example two `/add-score` requests interleaving between `SELECT` and `UPDATE`. Every request is modelled as atomic and sequential.
- Driver failures other than the duplicate key. They appear only as the `DriverErrors` flags, which lead to a 500 with the table unchanged.
- The text of response messages and of `err.message`. Only the status and the data fields (`score`, `users`, `totalScore`, the team entries) are modelled.
- Request fields that are not strings or integers: numeric or object ids, a `null` score (which `=== undefined` lets through), non-integer or non-numeric amounts, and SQLite type affinity. Scores are unbounded `int`, so SQLite's 64-bit overflow and JavaScript's floating-point arithmetic are not modelled.
- The `Object.entries` rule that enumerates integer-like keys, such as a team named `"7"`, before other keys (server.js:236). The model lists teams in first-met order.
- Server.UserStore.GetTeams: the route uses the own-key grouping of `Teams.GroupByTeam`. For a table with a team in `Teams.InheritedNames`, it answers 200 with that team's entry, where the source throws a TypeError and never answers (see `Teams.GroupAsWrittenThrows` and Findings).
- Teams.AddRow: it tests whether the team is an own key of the dictionary, not the truthiness of `teams[row.team]`, for the same reason.
- The row order of `/get-team-score` (server.js:165-169). The query has no `ORDER BY`, so the model allows any scan order. Its contracts speak of the set of users and their total, not their order.

## Findings

| source | as written | input that shows it | evidently intended | confidence | as-written member | corrected member |
|---|---|---|---|---|---|---|
| server.js:220-227 | `if (!teams[row.team])` tests a property of a plain object `{}`. A team named after an inherited `Object.prototype` property (`constructor`, `toString`, `__proto__`, `valueOf`, …) reads as truthy, so no group is created. `teams[row.team].users.push(...)` then throws a TypeError, and `/get-teams` never answers. | The table holds one user `("u1", "Ann", 5)` in team `"constructor"`. `POST /signup` accepts that team name. | Only the dictionary's own keys count, so the team gets the group `{totalScore: 5, users: [u1]}` and the route answers 200. | not executed | Teams.GroupAsWrittenThrows | Teams.GroupByTeam |
