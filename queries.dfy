/**
 * What the two team queries compute over a scan of the table: the rows of one
 * team (`WHERE team = ?`) and the sum of their scores (`SUM(score)`), with
 * the order-independent meaning of both over the table itself.
 */
module Queries {
  import opened Schema

  /** The rows of `rows` whose team is `team`, as member records, in scan order. */
  function MembersOf(rows: seq<Row>, team: string): (ms: seq<Member>)
    ensures |ms| <= |rows|
  {
    if rows == [] then []
    else
      var last := rows[|rows| - 1];
      MembersOf(rows[..|rows| - 1], team) + (if last.team == team then [MemberOf(last)] else [])
  }

  /** The sum of the members' scores. */
  function Total(ms: seq<Member>): (total: int)
    ensures (forall i :: 0 <= i < |ms| ==> ms[i].score >= 0) ==> total >= 0
  {
    if ms == [] then 0 else Total(ms[..|ms| - 1]) + ms[|ms| - 1].score
  }

  /** No two members share an id. */
  predicate DistinctMemberIds(ms: seq<Member>) {
    forall i, j :: 0 <= i < j < |ms| ==> ms[i].id != ms[j].id
  }

  /** The users of `team` in the table, as a set of member records. */
  ghost function TeamSet(t: Table, team: string): set<Member> {
    set id | id in t && t[id].team == team :: Member(id, t[id].name, t[id].score)
  }

  /** What one user adds to the total of `team`. */
  function Share(u: User, team: string): int {
    if u.team == team then u.score else 0
  }

  ghost function AnyId(t: Table): (id: string)
    requires t != map[]
    ensures id in t
  {
    var id :| id in t; id
  }

  /** The total score of `team` over the table, with no row order involved. */
  ghost function TeamTotal(t: Table, team: string): int
    decreases t.Keys
  {
    if t == map[] then 0
    else
      var id := AnyId(t);
      Share(t[id], team) + TeamTotal(t - {id}, team)
  }

  lemma TotalAppend(ms: seq<Member>, m: Member)
    ensures Total(ms + [m]) == Total(ms) + m.score
  {
    assert (ms + [m])[..|ms|] == ms;
  }

  /** A member is in a team's listing exactly when some row of that team produced it. */
  lemma {:induction false} InMembersOf(rows: seq<Row>, team: string, m: Member)
    ensures m in MembersOf(rows, team) <==>
            exists i :: 0 <= i < |rows| && rows[i].team == team && MemberOf(rows[i]) == m
  {
    if rows != [] {
      var n := |rows| - 1;
      var init := rows[..n];
      InMembersOf(init, team, m);
      if m in MembersOf(init, team) {
        var i :| 0 <= i < |init| && init[i].team == team && MemberOf(init[i]) == m;
        assert rows[i] == init[i];
      }
      if exists i :: 0 <= i < |rows| && rows[i].team == team && MemberOf(rows[i]) == m {
        var i :| 0 <= i < |rows| && rows[i].team == team && MemberOf(rows[i]) == m;
        if i < n {
          assert init[i] == rows[i];
        }
      }
    }
  }

  /** Filtering a listing with distinct ids keeps the ids distinct. */
  lemma {:induction false} MembersOfDistinct(rows: seq<Row>, team: string)
    requires DistinctIds(rows)
    ensures DistinctMemberIds(MembersOf(rows, team))
  {
    if rows != [] {
      var n := |rows| - 1;
      var init := rows[..n];
      MembersOfDistinct(init, team);
      var ms := MembersOf(init, team);
      if rows[n].team == team {
        forall k | 0 <= k < |ms| ensures ms[k].id != rows[n].id {
          InMembersOf(init, team, ms[k]);
          var i :| 0 <= i < |init| && init[i].team == team && MemberOf(init[i]) == ms[k];
          assert rows[i] == init[i];
        }
      }
    }
  }

  /** Removing any one user splits off exactly that user's share. */
  lemma PeelTeamTotal(t: Table, team: string, id: string)
    requires id in t
    ensures TeamTotal(t, team) == Share(t[id], team) + TeamTotal(t - {id}, team)
    decreases t.Keys
  {
    var k := AnyId(t);
    if k != id {
      var tk, ti := t - {k}, t - {id};
      PeelTeamTotal(tk, team, id);
      PeelTeamTotal(ti, team, k);
      assert tk - {id} == ti - {k};
    }
  }

  /** Dropping the last row of a scan leaves a scan of the table without that row. */
  lemma ScanInit(scan: seq<Row>, t: Table)
    requires IsScan(scan, t) && scan != []
    ensures var n := |scan| - 1;
            scan[n].id in t && IsScan(scan[..n], t - {scan[n].id})
  {
    var n := |scan| - 1;
    var init, t' := scan[..n], t - {scan[n].id};
    forall id | id in t' ensures exists i :: 0 <= i < |init| && init[i].id == id {
      var i :| 0 <= i < |scan| && scan[i].id == id;
      assert i < n && init[i] == scan[i];
    }
  }

  /** Only the empty table has an empty scan. */
  lemma EmptyScan(t: Table)
    requires IsScan([], t)
    ensures t == map[]
  {
    if t != map[] {
      var id := AnyId(t);
      assert false;
    }
  }

  /** A scan with a row is a scan of a table with a user. */
  lemma NonEmptyScan(scan: seq<Row>, t: Table)
    requires IsScan(scan, t) && scan != []
    ensures t != map[]
  {
    assert scan[0].id in t;
  }

  /** `SUM(score) WHERE team = ?` over any scan is the team's total in the table. */
  lemma {:induction false} ScanTotal(scan: seq<Row>, t: Table, team: string)
    requires IsScan(scan, t)
    ensures Total(MembersOf(scan, team)) == TeamTotal(t, team)
  {
    if scan == [] {
      EmptyScan(t);
    } else {
      var n := |scan| - 1;
      var r, init := scan[n], scan[..n];
      ScanInit(scan, t);
      ScanTotal(init, t - {r.id}, team);
      assert MembersOf(scan, team) == MembersOf(init, team) + (if r.team == team then [MemberOf(r)] else []);
      if r.team == team {
        TotalAppend(MembersOf(init, team), MemberOf(r));
      } else {
        assert MembersOf(scan, team) == MembersOf(init, team);
      }
      assert t[r.id] == User(r.name, r.score, r.team);
      PeelTeamTotal(t, team, r.id);
    }
  }

  /** `SELECT id, name, score WHERE team = ?` over any scan lists exactly the team's users, once each. */
  lemma ScanMembers(scan: seq<Row>, t: Table, team: string)
    requires IsScan(scan, t)
    ensures (set m | m in MembersOf(scan, team)) == TeamSet(t, team)
    ensures DistinctMemberIds(MembersOf(scan, team))
  {
    var ms := MembersOf(scan, team);
    forall m | m in ms ensures m in TeamSet(t, team) {
      InMembersOf(scan, team, m);
      var i :| 0 <= i < |scan| && scan[i].team == team && MemberOf(scan[i]) == m;
      assert t[scan[i].id] == User(scan[i].name, scan[i].score, scan[i].team);
    }
    forall m | m in TeamSet(t, team) ensures m in ms {
      var id :| id in t && t[id].team == team && m == Member(id, t[id].name, t[id].score);
      var i :| 0 <= i < |scan| && scan[i].id == id;
      InMembersOf(scan, team, m);
    }
    MembersOfDistinct(scan, team);
  }
}
