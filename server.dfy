/**
 * The route handlers of the leaderboard over the one `users` table they
 * share. Each request runs to completion before the next starts; the
 * driver's answers to the `SELECT ... ORDER BY` queries come in as `scan`
 * parameters, and its failures as `DriverErrors`.
 */
module Server {
  import opened Schema
  import opened Queries
  import Handlers
  import opened Teams

  /** The `users` table behind every route. */
  class UserStore {
    var users: Table

    /** `CREATE TABLE IF NOT EXISTS users (...)` on a fresh database file. */
    constructor ()
      ensures users == map[]
    {
      users := map[];
    }

    /** `POST /signup`, step by step as `Handlers.Signup` specifies it. */
    method Signup(id: Option<string>, name: Option<string>, score: Option<int>, team: Option<string>,
                  errs: DriverErrors) returns (status: Status)
      modifies this
      ensures Handlers.Outcome(status, users) == Handlers.Signup(old(users), id, name, score, team, errs)
    {
      if !Truthy(id) {
        return BadRequest;
      }
      if !Truthy(name) {
        return BadRequest;
      }
      if score.None? {
        return BadRequest;
      }
      if !Truthy(team) {
        return BadRequest;
      }
      // INSERT INTO users: the primary key refuses an id already present
      if id.value in users || errs.onFirst {
        return InternalError;
      }
      users := users[id.value := User(name.value, score.value, team.value)];
      status := Created;
    }

    /** `POST /set-score`, specified by `Handlers.UpdateScore` with `Assign`. */
    method SetScore(id: Option<string>, newScore: Option<int>, errs: DriverErrors) returns (status: Status)
      modifies this
      ensures Handlers.Outcome(status, users) == Handlers.UpdateScore(old(users), Handlers.Assign, id, newScore, errs)
    {
      status := ChangeScore(Handlers.Assign, id, newScore, errs);
    }

    /** `POST /add-score`, specified by `Handlers.UpdateScore` with `Increase`. */
    method AddScore(id: Option<string>, increment: Option<int>, errs: DriverErrors) returns (status: Status)
      modifies this
      ensures Handlers.Outcome(status, users) == Handlers.UpdateScore(old(users), Handlers.Increase, id, increment, errs)
    {
      status := ChangeScore(Handlers.Increase, id, increment, errs);
    }

    /** `POST /subtract-score`, specified by `Handlers.UpdateScore` with `Decrease`. */
    method SubtractScore(id: Option<string>, decrement: Option<int>, errs: DriverErrors) returns (status: Status)
      modifies this
      ensures Handlers.Outcome(status, users) == Handlers.UpdateScore(old(users), Handlers.Decrease, id, decrement, errs)
    {
      status := ChangeScore(Handlers.Decrease, id, decrement, errs);
    }

    /**
     * The steps the three score routes share: presence checks, `SELECT name,
     * score`, `UPDATE`; `Handlers.UpdateScore` is their specification.
     */
    method ChangeScore(u: Handlers.ScoreUpdate, id: Option<string>, amount: Option<int>, errs: DriverErrors)
      returns (status: Status)
      modifies this
      ensures Handlers.Outcome(status, users) == Handlers.UpdateScore(old(users), u, id, amount, errs)
    {
      if !Truthy(id) || amount.None? {
        return BadRequest;
      }
      // SELECT name, score FROM users WHERE id = ?
      if errs.onFirst {
        return InternalError;
      }
      if id.value !in users {
        return NotFound;
      }
      // UPDATE users SET score = ... WHERE id = ?
      if errs.onSecond {
        return InternalError;
      }
      var user := users[id.value];
      users := users[id.value := user.(score := Handlers.Adjusted(u, user.score, amount.value))];
      status := Ok;
    }

    /**
     * `GET /get-user-score/:id`, specified by `Handlers.UserScore`; it has no
     * `modifies` clause, so it leaves the table as it is.
     */
    method GetUserScore(id: string, errs: DriverErrors) returns (status: Status, score: Option<int>)
      ensures Handlers.ScoreReply(status, score) == Handlers.UserScore(users, id, errs)
    {
      // SELECT score FROM users WHERE id = ?
      if errs.onFirst {
        return InternalError, None;
      }
      if id !in users {
        return NotFound, None;
      }
      return Ok, Some(users[id].score);
    }

    /**
     * `GET /get-team-score/:team`, given the table as the engine scans it and
     * specified by `Handlers.TeamScore`; it has no `modifies` clause, so it
     * leaves the table as it is.
     */
    method GetTeamScore(team: string, scan: seq<Row>, errs: DriverErrors)
      returns (status: Status, members: seq<Member>, totalScore: Option<int>)
      requires IsScan(scan, users)
      ensures Handlers.TeamReply(status, members, totalScore) == Handlers.TeamScore(users, scan, team, errs)
    {
      // SELECT id, name, score FROM users WHERE team = ?
      if errs.onFirst {
        return InternalError, [], None;
      }
      var rows := MembersOf(scan, team);
      if |rows| == 0 {
        return NotFound, [], None;
      }
      // SELECT SUM(score) AS totalScore FROM users WHERE team = ?
      if errs.onSecond {
        return InternalError, [], None;
      }
      return Ok, rows, Some(Total(rows));
    }

    /**
     * `GET /get-teams`, given `SELECT team, id, name, score FROM users
     * ORDER BY team, id` as `scan`; it has no `modifies` clause, so it
     * leaves the table as it is.
     */
    method GetTeams(scan: seq<Row>, errs: DriverErrors) returns (status: Status, teams: seq<TeamEntry>)
      requires IsScan(scan, users) && OrderedByTeamThenId(scan)
      ensures status == InternalError <==> errs.onFirst
      ensures status == NotFound <==> !errs.onFirst && users == map[]
      ensures status == Ok <==> !errs.onFirst && users != map[]
      ensures status != Ok ==> teams == []
      ensures status == Ok ==> Leaderboard(users, teams)
      ensures status == Ok ==> forall v :: TiedTeams(teams, v) == TiedTeams(FirstMet(scan), v)
    {
      if errs.onFirst {
        return InternalError, [];
      }
      if |scan| == 0 {
        EmptyScan(users);
        return NotFound, [];
      }
      NonEmptyScan(scan, users);
      teams := RankTeams(scan, users);
      status := Ok;
    }
  }

  /** The loop, sort and reshaping of `GET /get-teams` over a scan of table `t`. */
  method RankTeams(scan: seq<Row>, ghost t: Table) returns (teams: seq<TeamEntry>)
    requires IsScan(scan, t) && OrderedByTeamThenId(scan)
    ensures Leaderboard(t, teams)
    ensures forall v :: TiedTeams(teams, v) == TiedTeams(FirstMet(scan), v)
  {
    teams := GroupAndRank(scan);
    assert Ranked(teams);
    TeamsOfTable(scan, t, teams);
  }

  /** Entries by non-increasing total, no team twice, equal totals by ascending team name. */
  predicate Ranked(teams: seq<TeamEntry>) {
    forall i, j :: 0 <= i < j < |teams| ==>
      && teams[i].totalScore >= teams[j].totalScore
      && teams[i].teamName != teams[j].teamName
      && (teams[i].totalScore == teams[j].totalScore ==> StrLt(teams[i].teamName, teams[j].teamName))
  }

  /**
   * `e` is the entry of a team of table `t` that has users: exactly those
   * users, once each and by ascending id, with their summed score.
   */
  ghost predicate EntryOfTable(t: Table, e: TeamEntry) {
    && TeamSet(t, e.teamName) != {}
    && (set m | m in e.teamMembers) == TeamSet(t, e.teamName)
    && DistinctMemberIds(e.teamMembers)
    && AscendingIds(e.teamMembers)
    && e.totalScore == TeamTotal(t, e.teamName)
  }

  /** The leaderboard of table `t`: ranked entries, one for the team of every user. */
  ghost predicate Leaderboard(t: Table, teams: seq<TeamEntry>) {
    && Ranked(teams)
    && (forall id :: id in t ==> exists i :: 0 <= i < |teams| && teams[i].teamName == t[id].team)
    && (forall i :: 0 <= i < |teams| ==> EntryOfTable(t, teams[i]))
  }

  /**
   * On the leaderboard every user appears in exactly one entry's members,
   * the entry of the user's own team.
   */
  lemma UserInOneEntry(t: Table, teams: seq<TeamEntry>, id: string)
    requires Leaderboard(t, teams) && id in t
    ensures exists i :: 0 <= i < |teams| && teams[i].teamName == t[id].team
    ensures forall i :: 0 <= i < |teams| ==>
              (Member(id, t[id].name, t[id].score) in teams[i].teamMembers <==> teams[i].teamName == t[id].team)
  {
    var m := Member(id, t[id].name, t[id].score);
    forall i | 0 <= i < |teams|
      ensures m in teams[i].teamMembers <==> teams[i].teamName == t[id].team
    {
      assert EntryOfTable(t, teams[i]);
      assert m in teams[i].teamMembers <==> m in TeamSet(t, teams[i].teamName);
    }
  }

  /**
   * Each leaderboard entry agrees with what `GET /get-team-score/:team`
   * answers for that team: the same users and the same total.
   */
  lemma LeaderboardAgreesWithTeamScore(t: Table, teams: seq<TeamEntry>, scan: seq<Row>, i: nat)
    requires Leaderboard(t, teams) && IsScan(scan, t) && i < |teams|
    ensures var r := Handlers.TeamScore(t, scan, teams[i].teamName, NoErrors);
            && r.status == Ok
            && (set m | m in r.users) == (set m | m in teams[i].teamMembers)
            && r.totalScore == Some(teams[i].totalScore)
  {
    assert EntryOfTable(t, teams[i]);
  }

  /** A group formed from a scan of the table is that team's entry of the table. */
  lemma EntryFromScan(scan: seq<Row>, t: Table, e: TeamEntry)
    requires IsScan(scan, t)
    requires e.teamMembers != [] && e.teamMembers == MembersOf(scan, e.teamName)
    requires e.totalScore == Total(e.teamMembers)
    requires AscendingIds(e.teamMembers)
    ensures EntryOfTable(t, e)
  {
    var name := e.teamName;
    ScanMembers(scan, t, name);
    ScanTotal(scan, t, name);
    assert e.teamMembers[0] in TeamSet(t, name);
  }

  /** Over a scan of the table, the ranked groups are the table's leaderboard. */
  lemma TeamsOfTable(scan: seq<Row>, t: Table, teams: seq<TeamEntry>)
    requires IsScan(scan, t)
    requires OneEntryPerTeam(scan, teams) && EntriesAreGroups(scan, teams)
    requires forall i :: 0 <= i < |teams| ==> AscendingIds(teams[i].teamMembers)
    requires Ranked(teams)
    ensures Leaderboard(t, teams)
  {
    EveryUserPlaced(scan, t, teams);
    EntriesOfTable(scan, t, teams);
  }

  /** Every user's team has an entry. */
  lemma EveryUserPlaced(scan: seq<Row>, t: Table, teams: seq<TeamEntry>)
    requires IsScan(scan, t)
    requires OneEntryPerTeam(scan, teams)
    ensures forall id :: id in t ==> exists i :: 0 <= i < |teams| && teams[i].teamName == t[id].team
  {
    forall id | id in t ensures exists i :: 0 <= i < |teams| && teams[i].teamName == t[id].team {
      var k :| 0 <= k < |scan| && scan[k].id == id;
      assert scan[k].team == t[id].team;
    }
  }

  /** Every entry grouped from a scan is its team's entry of the table. */
  lemma EntriesOfTable(scan: seq<Row>, t: Table, teams: seq<TeamEntry>)
    requires IsScan(scan, t)
    requires OneEntryPerTeam(scan, teams) && EntriesAreGroups(scan, teams)
    requires forall i :: 0 <= i < |teams| ==> AscendingIds(teams[i].teamMembers)
    ensures forall i :: 0 <= i < |teams| ==> EntryOfTable(t, teams[i])
  {
    forall i | 0 <= i < |teams| ensures EntryOfTable(t, teams[i]) {
      EntryFromScan(scan, t, teams[i]);
    }
  }
}
