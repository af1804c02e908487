/**
 * What each route of the leaderboard does to the `users` table and what it
 * answers, one request at a time: the specification that the handler
 * methods of `Server.UserStore` are proved against.
 */
module Handlers {
  import opened Schema
  import opened Queries

  /** The status a handler answers with and the table it leaves behind. */
  datatype Outcome = Outcome(status: Status, table: Table)

  /** `t2` is `t` with one new row `id -> u` and every old row as it was. */
  ghost predicate AddsOneRow(t: Table, t2: Table, id: string, u: User) {
    && id !in t
    && t2.Keys == t.Keys + {id}
    && t2[id] == u
    && (forall k :: k in t ==> t2[k] == t[k])
  }

  /** `t2` is `t` with only the score of row `id` replaced by `score`. */
  ghost predicate OnlyScoreChanged(t: Table, t2: Table, id: string, score: int) {
    && id in t
    && t2.Keys == t.Keys
    && t2[id] == User(t[id].name, score, t[id].team)
    && (forall k :: k in t && k != id ==> t2[k] == t[k])
  }

  /** The presence checks of `POST /signup`: only `score` may be falsy, as long as it is not missing. */
  predicate SignupFieldsPresent(id: Option<string>, name: Option<string>, score: Option<int>, team: Option<string>) {
    Truthy(id) && Truthy(name) && score.Some? && Truthy(team)
  }

  /**
   * `POST /signup`: check `id`, `name`, `score`, `team` in that order, then
   * `INSERT` the row, which the primary key refuses for a known id.
   */
  function Signup(t: Table, id: Option<string>, name: Option<string>, score: Option<int>,
                  team: Option<string>, errs: DriverErrors): (o: Outcome)
    ensures o.status == BadRequest <==> !SignupFieldsPresent(id, name, score, team)
    ensures o.status == InternalError <==>
              SignupFieldsPresent(id, name, score, team) && (id.value in t || errs.onFirst)
    ensures o.status == Created <==>
              SignupFieldsPresent(id, name, score, team) && id.value !in t && !errs.onFirst
    ensures o.status != Created ==> o.table == t
    ensures o.status == Created ==>
              AddsOneRow(t, o.table, id.value, User(name.value, score.value, team.value))
  {
    if !Truthy(id) then Outcome(BadRequest, t)
    else if !Truthy(name) then Outcome(BadRequest, t)
    else if score.None? then Outcome(BadRequest, t)
    else if !Truthy(team) then Outcome(BadRequest, t)
    else if id.value in t || errs.onFirst then Outcome(InternalError, t)
    else Outcome(Created, t[id.value := User(name.value, score.value, team.value)])
  }

  /** The three score routes differ only in the `UPDATE` they issue. */
  datatype ScoreUpdate =
    | Assign    // POST /set-score:      SET score = newScore
    | Increase  // POST /add-score:      SET score = score + increment
    | Decrease  // POST /subtract-score: SET score = score - decrement

  function Adjusted(u: ScoreUpdate, current: int, amount: int): int {
    match u
    case Assign => amount
    case Increase => current + amount
    case Decrease => current - amount
  }

  /**
   * `POST /set-score`, `/add-score`, `/subtract-score`: check `id` and the
   * amount, `SELECT` the user, then `UPDATE` its score.
   */
  function UpdateScore(t: Table, u: ScoreUpdate, id: Option<string>, amount: Option<int>,
                       errs: DriverErrors): (o: Outcome)
    ensures o.status == BadRequest <==> !Truthy(id) || amount.None?
    ensures o.status == NotFound <==>
              Truthy(id) && amount.Some? && !errs.onFirst && id.value !in t
    ensures o.status == InternalError <==>
              Truthy(id) && amount.Some? && (errs.onFirst || (id.value in t && errs.onSecond))
    ensures o.status == Ok <==>
              Truthy(id) && amount.Some? && !errs.onFirst && id.value in t && !errs.onSecond
    ensures o.status != Ok ==> o.table == t
    ensures o.status == Ok ==>
              OnlyScoreChanged(t, o.table, id.value, Adjusted(u, t[id.value].score, amount.value))
  {
    if !Truthy(id) || amount.None? then Outcome(BadRequest, t)
    else if errs.onFirst then Outcome(InternalError, t)
    else if id.value !in t then Outcome(NotFound, t)
    else if errs.onSecond then Outcome(InternalError, t)
    else
      var user := t[id.value];
      Outcome(Ok, t[id.value := user.(score := Adjusted(u, user.score, amount.value))])
  }

  /** The answer of `GET /get-user-score/:id`: a status and, on success, `{score}`. */
  datatype ScoreReply = ScoreReply(status: Status, score: Option<int>)

  /** `GET /get-user-score/:id`: `SELECT score` of one user. */
  function UserScore(t: Table, id: string, errs: DriverErrors): (r: ScoreReply)
    ensures r.status == InternalError <==> errs.onFirst
    ensures r.status == NotFound <==> !errs.onFirst && id !in t
    ensures r.status == Ok <==> !errs.onFirst && id in t
    ensures r.score.Some? <==> r.status == Ok
    ensures r.status == Ok ==> r.score.value == t[id].score
  {
    if errs.onFirst then ScoreReply(InternalError, None)
    else if id !in t then ScoreReply(NotFound, None)
    else ScoreReply(Ok, Some(t[id].score))
  }

  /** The answer of `GET /get-team-score/:team`: a status and, on success, `{users, totalScore}`. */
  datatype TeamReply = TeamReply(status: Status, users: seq<Member>, totalScore: Option<int>)

  /**
   * `GET /get-team-score/:team`: the team's rows from `scan` (the table in
   * whatever order the engine reads it), 404 when there are none, then
   * `SUM(score)` of the same rows.
   */
  function TeamScore(t: Table, scan: seq<Row>, team: string, errs: DriverErrors): (r: TeamReply)
    requires IsScan(scan, t)
    ensures r.status == InternalError <==> errs.onFirst || (TeamSet(t, team) != {} && errs.onSecond)
    ensures r.status == NotFound <==> !errs.onFirst && TeamSet(t, team) == {}
    ensures r.status == Ok <==> !errs.onFirst && !errs.onSecond && TeamSet(t, team) != {}
    ensures r.status == Ok ==>
              && (set m | m in r.users) == TeamSet(t, team)
              && DistinctMemberIds(r.users)
              && r.totalScore == Some(TeamTotal(t, team))
    ensures r.status != Ok ==> r.users == [] && r.totalScore == None
  {
    if errs.onFirst then TeamReply(InternalError, [], None)
    else
      var rows := MembersOf(scan, team);
      ScanMembers(scan, t, team);
      if |rows| == 0 then TeamReply(NotFound, [], None)
      else
        assert rows[0] in TeamSet(t, team);
        if errs.onSecond then TeamReply(InternalError, [], None)
        else
          ScanTotal(scan, t, team);
          TeamReply(Ok, rows, Some(Total(rows)))
  }

  /** A successful signup is seen by the next `GET /get-user-score/:id` with the submitted score. */
  lemma SignupThenUserScore(t: Table, id: Option<string>, name: Option<string>, score: Option<int>,
                            team: Option<string>, errs: DriverErrors)
    requires Signup(t, id, name, score, team, errs).status == Created
    ensures UserScore(Signup(t, id, name, score, team, errs).table, id.value, NoErrors)
            == ScoreReply(Ok, score)
  {
  }

  /** Adding `k` and then subtracting `k` from one user leaves the table as it was. */
  lemma AddThenSubtractRestores(t: Table, id: Option<string>, k: int)
    ensures var added := UpdateScore(t, Increase, id, Some(k), NoErrors);
            UpdateScore(added.table, Decrease, id, Some(k), NoErrors).table == t
  {
    if Truthy(id) && id.value in t {
      var added := UpdateScore(t, Increase, id, Some(k), NoErrors).table;
      var back := UpdateScore(added, Decrease, id, Some(k), NoErrors).table;
      assert back[id.value] == t[id.value];
    }
  }

  /** One request to `/add-score` or `/subtract-score`. */
  datatype ScoreRequest = AddRequest(increment: int) | SubtractRequest(decrement: int)

  /** What a request does to a user's score, positive or negative. */
  function Delta(req: ScoreRequest): int {
    match req
    case AddRequest(k) => k
    case SubtractRequest(k) => -k
  }

  /** The sum of the increments minus the sum of the decrements. */
  function Net(reqs: seq<ScoreRequest>): int {
    if reqs == [] then 0 else Delta(reqs[0]) + Net(reqs[1..])
  }

  /** The handler of one request, applied to the table. */
  function Handle(t: Table, id: string, req: ScoreRequest): Table {
    match req
    case AddRequest(k) => UpdateScore(t, Increase, Some(id), Some(k), NoErrors).table
    case SubtractRequest(k) => UpdateScore(t, Decrease, Some(id), Some(k), NoErrors).table
  }

  /** The requests handled one after the other, none overlapping. */
  function Replay(t: Table, id: string, reqs: seq<ScoreRequest>): Table {
    if reqs == [] then t else Replay(Handle(t, id, reqs[0]), id, reqs[1..])
  }

  /**
   * Serialized add/subtract requests on a known user leave its score at the
   * initial score plus the increments minus the decrements, and touch
   * nothing else.
   */
  lemma {:induction false} ReplayNet(t: Table, id: string, reqs: seq<ScoreRequest>)
    requires id != "" && id in t
    ensures OnlyScoreChanged(t, Replay(t, id, reqs), id, t[id].score + Net(reqs))
  {
    if reqs == [] {
      assert Replay(t, id, reqs) == t;
    } else {
      var t1 := Handle(t, id, reqs[0]);
      assert OnlyScoreChanged(t, t1, id, t[id].score + Delta(reqs[0]));
      ReplayNet(t1, id, reqs[1..]);
    }
  }
}
