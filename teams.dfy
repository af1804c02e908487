/**
 * `GET /get-teams`: the rows of `SELECT team, id, name, score ORDER BY team, id`
 * are grouped into a `teams` dictionary of `{totalScore, users}` by one scan,
 * then its entries are sorted by total score, highest first, with a stable
 * sort, and reshaped into `{teamName, totalScore, teamMembers}`.
 */
module Teams {
  import opened Schema
  import opened Queries

  /** The accumulator `{totalScore, users}` the scan keeps for each team. */
  datatype Group = Group(totalScore: int, users: seq<Member>)

  /** One element of the response. */
  datatype TeamEntry = TeamEntry(teamName: string, totalScore: int, teamMembers: seq<Member>)

  /** A `[key, value]` pair of `Object.entries(teams)`. */
  type Entry = (string, Group)

  predicate DistinctNames(names: seq<string>) {
    forall i, j :: 0 <= i < j < |names| ==> names[i] != names[j]
  }

  /** The distinct teams of `rows`, in the order the scan first meets them. */
  function TeamsOf(rows: seq<Row>): (names: seq<string>)
    ensures DistinctNames(names)
    ensures forall t :: t in names <==> exists i :: 0 <= i < |rows| && rows[i].team == t
  {
    if rows == [] then []
    else
      var n := |rows| - 1;
      var init := TeamsOf(rows[..n]);
      assert forall i :: 0 <= i < n ==> rows[..n][i] == rows[i];
      if rows[n].team in init then init else init + [rows[n].team]
  }

  /** What the scan has accumulated for `team` once it has read `rows`. */
  function GroupOf(rows: seq<Row>, team: string): Group {
    Group(Total(MembersOf(rows, team)), MembersOf(rows, team))
  }

  lemma GroupOfStep(rows: seq<Row>, row: Row, team: string)
    ensures GroupOf(rows + [row], team) ==
            if row.team == team
            then Group(GroupOf(rows, team).totalScore + row.score, GroupOf(rows, team).users + [MemberOf(row)])
            else GroupOf(rows, team)
  {
    var s := rows + [row];
    assert s[..|s| - 1] == rows && s[|s| - 1] == row;
    if row.team == team {
      assert MembersOf(s, team) == MembersOf(rows, team) + [MemberOf(row)];
      TotalAppend(MembersOf(rows, team), MemberOf(row));
    } else {
      assert MembersOf(s, team) == MembersOf(rows, team) + [];
      assert MembersOf(rows, team) + [] == MembersOf(rows, team);
    }
  }

  /** A team the scan has not met has no members yet. */
  lemma UnmetTeamIsEmpty(rows: seq<Row>, team: string)
    requires team !in TeamsOf(rows)
    ensures GroupOf(rows, team) == Group(0, [])
  {
    if MembersOf(rows, team) != [] {
      InMembersOf(rows, team, MembersOf(rows, team)[0]);
    }
  }

  /** The dictionary the scan loop leaves, as `GroupByTeam` promises it. */
  ghost predicate GroupedFrom(rows: seq<Row>, names: seq<string>, teams: map<string, Group>) {
    && names == TeamsOf(rows)
    && teams.Keys == (set t | t in names)
    && (forall t :: t in teams ==> teams[t] == GroupOf(rows, t))
  }

  /** The dictionary after one more row, when the row's team gets an own group. */
  function OwnStep(acc: (seq<string>, map<string, Group>), row: Row): (seq<string>, map<string, Group>) {
    var g := if row.team in acc.1 then acc.1[row.team] else Group(0, []);
    ( if row.team in acc.1 then acc.0 else acc.0 + [row.team],
      acc.1[row.team := Group(g.totalScore + row.score, g.users + [MemberOf(row)])] )
  }

  /** `OwnStep` records a team's name the first time the scan meets it. */
  lemma OwnStepNames(rows: seq<Row>, row: Row, acc: (seq<string>, map<string, Group>))
    requires GroupedFrom(rows, acc.0, acc.1)
    ensures OwnStep(acc, row).0 == TeamsOf(rows + [row])
    ensures OwnStep(acc, row).1.Keys == set t | t in OwnStep(acc, row).0
  {
    var all := rows + [row];
    assert all[..|rows|] == rows;
    if row.team in acc.1 {
      assert TeamsOf(all) == TeamsOf(rows);
    } else {
      assert TeamsOf(all) == TeamsOf(rows) + [row.team];
    }
  }

  /** `OwnStep` keeps the dictionary equal to the grouping of the rows read so far. */
  lemma OwnStepGroups(rows: seq<Row>, row: Row, acc: (seq<string>, map<string, Group>))
    requires GroupedFrom(rows, acc.0, acc.1)
    ensures GroupedFrom(rows + [row], OwnStep(acc, row).0, OwnStep(acc, row).1)
  {
    OwnStepNames(rows, row, acc);
    if row.team !in acc.1 {
      UnmetTeamIsEmpty(rows, row.team);
    }
    var teams := OwnStep(acc, row).1;
    forall t | t in teams ensures teams[t] == GroupOf(rows + [row], t) {
      GroupOfStep(rows, row, t);
    }
  }

  /**
   * `rows.forEach(...)` over `teams = {}`: `names` records the order in
   * which keys were added to the dictionary, which is the order
   * `Object.entries` lists them in.
   */
  method GroupByTeam(rows: seq<Row>) returns (names: seq<string>, teams: map<string, Group>)
    ensures names == TeamsOf(rows)
    ensures teams.Keys == set t | t in names
    ensures forall t :: t in teams ==> teams[t] == GroupOf(rows, t)
  {
    names, teams := [], map[];
    for i := 0 to |rows|
      invariant GroupedFrom(rows[..i], names, teams)
    {
      assert rows[..i + 1] == rows[..i] + [rows[i]];
      OwnStepGroups(rows[..i], rows[i], (names, teams));
      names, teams := AddRow(names, teams, rows[i]);
    }
    assert rows[..|rows|] == rows;
  }

  /**
   * One turn of the `forEach`: give the row's team an empty group if it has
   * none, push the row's member record, add its score.
   */
  method AddRow(names: seq<string>, teams: map<string, Group>, row: Row)
    returns (names': seq<string>, teams': map<string, Group>)
    ensures (names', teams') == OwnStep((names, teams), row)
  {
    names', teams' := names, teams;
    if row.team !in teams' {
      teams' := teams'[row.team := Group(0, [])];
      names' := names' + [row.team];
    }
    ghost var g0 := teams'[row.team];
    var g := teams'[row.team];
    teams' := teams'[row.team := g.(users := g.users + [MemberOf(row)])];
    g := teams'[row.team];
    teams' := teams'[row.team := g.(totalScore := g.totalScore + row.score)];
    assert g0 == if row.team in teams then teams[row.team] else Group(0, []);
    assert teams' == teams[row.team := Group(g0.totalScore + row.score, g0.users + [MemberOf(row)])];
  }

  /** `Object.entries(teams)`: the pairs in the order their keys were added. */
  function Entries(names: seq<string>, teams: map<string, Group>): (es: seq<Entry>)
    requires forall t :: t in names ==> t in teams
    ensures |es| == |names|
    ensures forall i :: 0 <= i < |es| ==> es[i].0 == names[i] && es[i].1 == teams[names[i]]
    ensures DistinctNames(names) ==> DistinctKeys(es)
  {
    seq(|names|, i requires 0 <= i < |names| => (names[i], teams[names[i]]))
  }

  /** Totals never go up from one entry to the next. */
  predicate NonIncreasing(es: seq<Entry>) {
    forall i, j :: 0 <= i < j < |es| ==> es[i].1.totalScore >= es[j].1.totalScore
  }

  predicate DistinctKeys(es: seq<Entry>) {
    forall i, j :: 0 <= i < j < |es| ==> es[i].0 != es[j].0
  }

  /** Keys strictly ascending in the collation order. */
  predicate AscendingKeys(es: seq<Entry>) {
    forall i, j :: 0 <= i < j < |es| ==> StrLt(es[i].0, es[j].0)
  }

  /** Among entries with equal totals, keys are ascending. */
  predicate TiesAscending(es: seq<Entry>) {
    forall i, j :: 0 <= i < j < |es| && es[i].1.totalScore == es[j].1.totalScore ==> StrLt(es[i].0, es[j].0)
  }

  /** The entries of `es` whose total is `v`, in their order in `es`. */
  function Tied(es: seq<Entry>, v: int): seq<Entry> {
    if es == [] then []
    else (if es[0].1.totalScore == v then [es[0]] else []) + Tied(es[1..], v)
  }

  /** Places `e` before the first entry whose total does not exceed its own. */
  function Insert(e: Entry, es: seq<Entry>): seq<Entry> {
    if es == [] || es[0].1.totalScore <= e.1.totalScore then [e] + es
    else [es[0]] + Insert(e, es[1..])
  }

  lemma {:induction false} InsertPermutes(e: Entry, es: seq<Entry>)
    ensures multiset(Insert(e, es)) == multiset(es) + multiset{e}
  {
    if es != [] && es[0].1.totalScore > e.1.totalScore {
      InsertPermutes(e, es[1..]);
      assert es == [es[0]] + es[1..];
    }
  }

  lemma {:induction false} InsertKeepsOrder(e: Entry, es: seq<Entry>)
    requires NonIncreasing(es)
    ensures NonIncreasing(Insert(e, es))
  {
    if es != [] && es[0].1.totalScore > e.1.totalScore {
      var rest := Insert(e, es[1..]);
      InsertKeepsOrder(e, es[1..]);
      InsertPermutes(e, es[1..]);
      forall k | 0 <= k < |rest| ensures es[0].1.totalScore >= rest[k].1.totalScore {
        assert rest[k] in multiset(rest);
        if rest[k] != e {
          var m :| 0 <= m < |es[1..]| && es[1..][m] == rest[k];
          assert es[m + 1] == rest[k];
        }
      }
    }
  }

  /** An inserted entry goes in front of the entries already there with the same total. */
  lemma {:induction false} InsertTied(e: Entry, es: seq<Entry>, v: int)
    ensures Tied(Insert(e, es), v) == (if e.1.totalScore == v then [e] else []) + Tied(es, v)
  {
    if es != [] && es[0].1.totalScore > e.1.totalScore {
      InsertTied(e, es[1..], v);
      assert Insert(e, es)[1..] == Insert(e, es[1..]);
    }
  }

  lemma {:induction false} InsertDistinct(e: Entry, es: seq<Entry>)
    requires DistinctKeys(es)
    requires forall x :: x in es ==> x.0 != e.0
    ensures DistinctKeys(Insert(e, es))
  {
    if es != [] && es[0].1.totalScore > e.1.totalScore {
      var rest := Insert(e, es[1..]);
      InsertDistinct(e, es[1..]);
      InsertPermutes(e, es[1..]);
      forall k | 0 <= k < |rest| ensures es[0].0 != rest[k].0 {
        assert rest[k] in multiset(rest);
        if rest[k] != e {
          var m :| 0 <= m < |es[1..]| && es[1..][m] == rest[k];
          assert es[m + 1] == rest[k];
        }
      }
    }
  }

  lemma {:induction false} InsertTiesAscending(e: Entry, es: seq<Entry>)
    requires TiesAscending(es)
    requires forall x :: x in es ==> StrLt(e.0, x.0)
    ensures TiesAscending(Insert(e, es))
  {
    if es != [] && es[0].1.totalScore > e.1.totalScore {
      var rest := Insert(e, es[1..]);
      InsertTiesAscending(e, es[1..]);
      forall k | 0 <= k < |rest| && es[0].1.totalScore == rest[k].1.totalScore
        ensures StrLt(es[0].0, rest[k].0)
      {
        InsertedFrom(e, es[1..], rest[k]);
        var m :| 0 <= m < |es[1..]| && es[1..][m] == rest[k];
        assert es[m + 1] == rest[k];
      }
    }
  }

  /** Every entry of `Insert(e, es)` other than `e` comes from `es`. */
  lemma InsertedFrom(e: Entry, es: seq<Entry>, x: Entry)
    requires x in Insert(e, es) && x != e
    ensures exists m :: 0 <= m < |es| && es[m] == x
  {
    InsertPermutes(e, es);
    assert x in multiset(Insert(e, es));
  }

  /** An entry of a permutation of the tail of `es` sits somewhere after the head of `es`. */
  lemma FromTail(es: seq<Entry>, rest: seq<Entry>, x: Entry)
    requires es != [] && multiset(rest) == multiset(es[1..]) && x in rest
    ensures exists m :: 1 <= m < |es| && es[m] == x
  {
    assert x in multiset(rest);
    var m :| 0 <= m < |es[1..]| && es[1..][m] == x;
    assert es[m + 1] == x;
  }

  /** Inserting the head of `es` into a permutation of its tail keeps distinct keys distinct. */
  lemma InsertHeadDistinct(es: seq<Entry>, rest: seq<Entry>)
    requires es != [] && multiset(rest) == multiset(es[1..])
    requires DistinctKeys(es) && DistinctKeys(rest)
    ensures DistinctKeys(Insert(es[0], rest))
  {
    forall x | x in rest ensures x.0 != es[0].0 {
      FromTail(es, rest, x);
    }
    InsertDistinct(es[0], rest);
  }

  /** Inserting the least key of `es` into a permutation of its tail keeps ties ascending. */
  lemma InsertHeadTies(es: seq<Entry>, rest: seq<Entry>)
    requires es != [] && multiset(rest) == multiset(es[1..])
    requires AscendingKeys(es) && TiesAscending(rest)
    ensures TiesAscending(Insert(es[0], rest))
  {
    forall x | x in rest ensures StrLt(es[0].0, x.0) {
      FromTail(es, rest, x);
    }
    InsertTiesAscending(es[0], rest);
  }

  /** Inserting the head of `es` into the sorted rest of `es` sorts `es`. */
  lemma SortStep(es: seq<Entry>, rest: seq<Entry>)
    requires es != []
    requires NonIncreasing(rest) && multiset(rest) == multiset(es[1..])
    requires forall v :: Tied(rest, v) == Tied(es[1..], v)
    requires DistinctKeys(es[1..]) ==> DistinctKeys(rest)
    requires AscendingKeys(es[1..]) ==> TiesAscending(rest)
    ensures var r := Insert(es[0], rest);
            && NonIncreasing(r)
            && multiset(r) == multiset(es)
            && (forall v :: Tied(r, v) == Tied(es, v))
            && (DistinctKeys(es) ==> DistinctKeys(r))
            && (AscendingKeys(es) ==> TiesAscending(r))
  {
    var e := es[0];
    InsertPermutes(e, rest);
    InsertKeepsOrder(e, rest);
    assert es == [e] + es[1..];
    forall v ensures Tied(Insert(e, rest), v) == Tied(es, v) {
      InsertTied(e, rest, v);
    }
    if DistinctKeys(es) {
      InsertHeadDistinct(es, rest);
    }
    if AscendingKeys(es) {
      InsertHeadTies(es, rest);
    }
  }

  /**
   * `.sort((a, b) => b[1].totalScore - a[1].totalScore)`: highest total
   * first, and stable, as `Array.prototype.sort` is: the entries that share
   * a total keep their relative order.
   */
  function SortByTotal(es: seq<Entry>): (r: seq<Entry>)
    ensures NonIncreasing(r)
    ensures multiset(r) == multiset(es)
    ensures forall v :: Tied(r, v) == Tied(es, v)
    ensures DistinctKeys(es) ==> DistinctKeys(r)
    ensures AscendingKeys(es) ==> TiesAscending(r)
  {
    if es == [] then []
    else
      var rest := SortByTotal(es[1..]);
      SortStep(es, rest);
      Insert(es[0], rest)
  }

  function ToTeamEntry(e: Entry): TeamEntry {
    TeamEntry(e.0, e.1.totalScore, e.1.users)
  }

  /** `.map(([key, value]) => ({teamName: key, totalScore: value.totalScore, teamMembers: value.users}))` */
  function Reshape(es: seq<Entry>): (r: seq<TeamEntry>)
    ensures |r| == |es| && forall i :: 0 <= i < |es| ==> r[i] == ToTeamEntry(es[i])
  {
    if es == [] then [] else [ToTeamEntry(es[0])] + Reshape(es[1..])
  }

  /** The teams of the response whose total is `v`, in response order. */
  function TiedTeams(ts: seq<TeamEntry>, v: int): seq<TeamEntry> {
    if ts == [] then []
    else (if ts[0].totalScore == v then [ts[0]] else []) + TiedTeams(ts[1..], v)
  }

  lemma {:induction false} ReshapeTied(es: seq<Entry>, v: int)
    ensures TiedTeams(Reshape(es), v) == Reshape(Tied(es, v))
  {
    if es != [] {
      ReshapeTied(es[1..], v);
      assert Reshape(es)[1..] == Reshape(es[1..]);
      if es[0].1.totalScore == v {
        assert Tied(es, v) == [es[0]] + Tied(es[1..], v);
        assert Reshape(Tied(es, v))[1..] == Reshape(Tied(es[1..], v));
      } else {
        assert Tied(es, v) == Tied(es[1..], v);
      }
    }
  }

  /** The teams of `rows` before sorting: first-met order, with their members and totals. */
  function FirstMet(rows: seq<Row>): seq<TeamEntry> {
    var names := TeamsOf(rows);
    seq(|names|, i requires 0 <= i < |names| =>
      TeamEntry(names[i], GroupOf(rows, names[i]).totalScore, GroupOf(rows, names[i]).users))
  }

  /** With distinct ids, a row's member record is in a team's listing exactly when the row is of that team. */
  lemma RowInTeam(rows: seq<Row>, k: nat, team: string)
    requires DistinctIds(rows) && k < |rows|
    ensures MemberOf(rows[k]) in MembersOf(rows, team) <==> rows[k].team == team
  {
    InMembersOf(rows, team, MemberOf(rows[k]));
  }

  /** Member ids strictly ascending in the collation order. */
  predicate AscendingIds(ms: seq<Member>) {
    forall a, b :: 0 <= a < b < |ms| ==> StrLt(ms[a].id, ms[b].id)
  }

  /** Under `ORDER BY team, id` a team's members come in ascending id order. */
  lemma {:induction false} MembersAscending(rows: seq<Row>, team: string)
    requires OrderedByTeamThenId(rows)
    ensures AscendingIds(MembersOf(rows, team))
  {
    if rows != [] {
      var n := |rows| - 1;
      var init := rows[..n];
      MembersAscending(init, team);
      var ms := MembersOf(init, team);
      if rows[n].team == team {
        forall a | 0 <= a < |ms| ensures StrLt(ms[a].id, rows[n].id) {
          InMembersOf(init, team, ms[a]);
          var i :| 0 <= i < |init| && init[i].team == team && MemberOf(init[i]) == ms[a];
          assert rows[i] == init[i] && RowBefore(rows[i], rows[n]);
          StrLtIrreflexive(team);
        }
      }
    }
  }

  /** Names strictly ascending in the collation order. */
  predicate AscendingNames(names: seq<string>) {
    forall a, b :: 0 <= a < b < |names| ==> StrLt(names[a], names[b])
  }

  /** Under `ORDER BY team, id` the scan meets the teams in ascending name order. */
  lemma {:induction false} TeamsOfAscending(rows: seq<Row>)
    requires OrderedByTeamThenId(rows)
    ensures AscendingNames(TeamsOf(rows))
  {
    if rows != [] {
      var n := |rows| - 1;
      var init := rows[..n];
      TeamsOfAscending(init);
      if rows[n].team !in TeamsOf(init) {
        forall a | 0 <= a < |TeamsOf(init)| ensures StrLt(TeamsOf(init)[a], rows[n].team) {
          assert TeamsOf(init)[a] in TeamsOf(init);
          var i :| 0 <= i < |init| && init[i].team == TeamsOf(init)[a];
          assert rows[i] == init[i] && RowBefore(rows[i], rows[n]);
        }
        assert TeamsOf(rows) == TeamsOf(init) + [rows[n].team];
      }
    }
  }

  /** Every team of `rows` has exactly one entry, and every entry has a member. */
  predicate OneEntryPerTeam(rows: seq<Row>, result: seq<TeamEntry>) {
    && (forall i, j :: 0 <= i < j < |result| ==> result[i].teamName != result[j].teamName)
    && (forall i :: 0 <= i < |result| ==> result[i].teamMembers != [])
    && (forall k :: 0 <= k < |rows| ==> exists i :: 0 <= i < |result| && result[i].teamName == rows[k].team)
  }

  /** Each entry carries its team's rows in scan order and their summed score. */
  predicate EntriesAreGroups(rows: seq<Row>, result: seq<TeamEntry>) {
    forall i :: 0 <= i < |result| ==>
      && result[i].teamMembers == MembersOf(rows, result[i].teamName)
      && result[i].totalScore == Total(result[i].teamMembers)
  }

  /** The dictionary's entries, in key order, are the teams in first-met order. */
  lemma EntriesFirstMet(rows: seq<Row>, names: seq<string>, teams: map<string, Group>)
    requires GroupedFrom(rows, names, teams)
    ensures DistinctKeys(Entries(names, teams))
    ensures Reshape(Entries(names, teams)) == FirstMet(rows)
    ensures OrderedByTeamThenId(rows) ==> AscendingKeys(Entries(names, teams))
  {
    var es := Entries(names, teams);
    forall i | 0 <= i < |es| ensures es[i] == (names[i], GroupOf(rows, names[i])) {
      assert names[i] in teams;
    }
    var first := FirstMet(rows);
    assert |Reshape(es)| == |first|;
    forall i | 0 <= i < |first| ensures Reshape(es)[i] == first[i] {
    }
    if OrderedByTeamThenId(rows) {
      TeamsOfAscending(rows);
    }
  }

  /** Every entry of a permutation of the dictionary's entries is a met team with its group. */
  lemma SortedAreGroups(rows: seq<Row>, names: seq<string>, teams: map<string, Group>, sorted: seq<Entry>)
    requires GroupedFrom(rows, names, teams)
    requires multiset(sorted) == multiset(Entries(names, teams))
    ensures forall i :: 0 <= i < |sorted| ==> sorted[i].1 == GroupOf(rows, sorted[i].0) && sorted[i].1.users != []
  {
    var entries := Entries(names, teams);
    forall i | 0 <= i < |sorted|
      ensures sorted[i].1 == GroupOf(rows, sorted[i].0) && sorted[i].1.users != []
    {
      assert sorted[i] in multiset(entries);
      var m :| 0 <= m < |entries| && entries[m] == sorted[i];
      assert names[m] in teams;
      MetTeamHasMembers(rows, names[m]);
    }
  }

  /** A team the scan has met has at least one member. */
  lemma MetTeamHasMembers(rows: seq<Row>, team: string)
    requires team in TeamsOf(rows)
    ensures MembersOf(rows, team) != []
  {
    var k :| 0 <= k < |rows| && rows[k].team == team;
    InMembersOf(rows, team, MemberOf(rows[k]));
  }

  /** Every team a row belongs to has an entry in a permutation of the dictionary's entries. */
  lemma SortedCoversRows(rows: seq<Row>, names: seq<string>, teams: map<string, Group>, sorted: seq<Entry>)
    requires GroupedFrom(rows, names, teams)
    requires multiset(sorted) == multiset(Entries(names, teams))
    ensures forall k :: 0 <= k < |rows| ==> exists i :: 0 <= i < |sorted| && sorted[i].0 == rows[k].team
  {
    var entries := Entries(names, teams);
    forall k | 0 <= k < |rows|
      ensures exists i :: 0 <= i < |sorted| && sorted[i].0 == rows[k].team
    {
      var t := rows[k].team;
      assert t in names;
      var m :| 0 <= m < |names| && names[m] == t;
      assert entries[m].0 == t;
      assert entries[m] in multiset(sorted);
      var i :| 0 <= i < |sorted| && sorted[i] == entries[m];
    }
  }

  /** A permutation of the dictionary's entries still holds each team once, with its group. */
  lemma PermutedGroups(rows: seq<Row>, names: seq<string>, teams: map<string, Group>, sorted: seq<Entry>)
    requires GroupedFrom(rows, names, teams)
    requires multiset(sorted) == multiset(Entries(names, teams))
    requires DistinctKeys(sorted)
    ensures OneEntryPerTeam(rows, Reshape(sorted))
    ensures EntriesAreGroups(rows, Reshape(sorted))
  {
    SortedAreGroups(rows, names, teams, sorted);
    SortedCoversRows(rows, names, teams, sorted);
    ReshapeGroups(rows, sorted);
  }

  /** Reshaping entries that each hold a distinct met team with its group gives one entry per team. */
  lemma ReshapeGroups(rows: seq<Row>, sorted: seq<Entry>)
    requires DistinctKeys(sorted)
    requires forall i :: 0 <= i < |sorted| ==> sorted[i].1 == GroupOf(rows, sorted[i].0) && sorted[i].1.users != []
    requires forall k :: 0 <= k < |rows| ==> exists i :: 0 <= i < |sorted| && sorted[i].0 == rows[k].team
    ensures OneEntryPerTeam(rows, Reshape(sorted))
    ensures EntriesAreGroups(rows, Reshape(sorted))
  {
    var result := Reshape(sorted);
    assert forall i :: 0 <= i < |result| ==> result[i].teamName == sorted[i].0;
  }

  /** With distinct ids, each row's member record sits in the entry of its own team and in no other. */
  lemma RowsPlacedOnce(rows: seq<Row>, result: seq<TeamEntry>)
    requires DistinctIds(rows) && EntriesAreGroups(rows, result)
    ensures forall k, i :: 0 <= k < |rows| && 0 <= i < |result| ==>
              (MemberOf(rows[k]) in result[i].teamMembers <==> result[i].teamName == rows[k].team)
  {
    forall k, i | 0 <= k < |rows| && 0 <= i < |result|
      ensures MemberOf(rows[k]) in result[i].teamMembers <==> result[i].teamName == rows[k].team
    {
      RowInTeam(rows, k, result[i].teamName);
    }
  }

  /** Under `ORDER BY team, id` every entry lists its members in ascending id order. */
  lemma MembersInIdOrder(rows: seq<Row>, result: seq<TeamEntry>)
    requires OrderedByTeamThenId(rows) && EntriesAreGroups(rows, result)
    ensures forall i :: 0 <= i < |result| ==> AscendingIds(result[i].teamMembers)
  {
    forall i | 0 <= i < |result| ensures AscendingIds(result[i].teamMembers) {
      MembersAscending(rows, result[i].teamName);
    }
  }

  /** Sorting and reshaping keep, for every total, the first-met order of the teams that share it. */
  lemma RankIsStable(rows: seq<Row>, entries: seq<Entry>, sorted: seq<Entry>)
    requires Reshape(entries) == FirstMet(rows)
    requires forall v :: Tied(sorted, v) == Tied(entries, v)
    ensures forall v :: TiedTeams(Reshape(sorted), v) == TiedTeams(FirstMet(rows), v)
  {
    forall v ensures TiedTeams(Reshape(sorted), v) == TiedTeams(FirstMet(rows), v) {
      ReshapeTied(sorted, v);
      ReshapeTied(entries, v);
    }
  }

  /**
   * The body of the `/get-teams` callback after its 404 check: group the
   * rows, sort the groups by total score, highest first, and reshape them.
   */
  method GroupAndRank(rows: seq<Row>) returns (result: seq<TeamEntry>)
    ensures |result| == |TeamsOf(rows)|
    ensures forall i, j :: 0 <= i < j < |result| ==> result[i].totalScore >= result[j].totalScore
    ensures OneEntryPerTeam(rows, result)
    ensures EntriesAreGroups(rows, result)
    ensures forall v :: TiedTeams(result, v) == TiedTeams(FirstMet(rows), v)
    ensures DistinctIds(rows) ==>
              forall k, i :: 0 <= k < |rows| && 0 <= i < |result| ==>
                (MemberOf(rows[k]) in result[i].teamMembers <==> result[i].teamName == rows[k].team)
    ensures OrderedByTeamThenId(rows) ==>
              forall i :: 0 <= i < |result| ==> AscendingIds(result[i].teamMembers)
    ensures OrderedByTeamThenId(rows) ==>
              forall i, j :: 0 <= i < j < |result| && result[i].totalScore == result[j].totalScore ==>
                StrLt(result[i].teamName, result[j].teamName)
  {
    var names, teams := GroupByTeam(rows);
    var entries := Entries(names, teams);
    var sorted := SortByTotal(entries);
    result := Reshape(sorted);

    EntriesFirstMet(rows, names, teams);
    assert |sorted| == |entries| by {
      assert |multiset(sorted)| == |multiset(entries)|;
    }
    PermutedGroups(rows, names, teams, sorted);
    RankIsStable(rows, entries, sorted);
    if DistinctIds(rows) {
      RowsPlacedOnce(rows, result);
    }
    if OrderedByTeamThenId(rows) {
      MembersInIdOrder(rows, result);
    }
  }

  /** The property names every plain object inherits from `Object.prototype`. */
  const InheritedNames: set<string> := {
    "constructor", "__proto__", "toString", "toLocaleString", "valueOf",
    "hasOwnProperty", "isPrototypeOf", "propertyIsEnumerable",
    "__defineGetter__", "__defineSetter__", "__lookupGetter__", "__lookupSetter__"
  }

  /** What `teams[key]` reads on a plain object whose own properties are `teams`. */
  datatype Lookup = Missing | Own(group: Group) | Inherited

  function Read(teams: map<string, Group>, key: string): Lookup {
    if key in teams then Own(teams[key])
    else if key in InheritedNames then Inherited
    else Missing
  }

  /**
   * One turn of the scan loop exactly as written, over the plain object
   * `{}`: a team named after an inherited property reads as truthy, so no
   * group is created for it, and `teams[row.team].users.push(...)` then
   * throws a TypeError (`None`).
   */
  function StepAsWritten(acc: (seq<string>, map<string, Group>), row: Row): (r: Option<(seq<string>, map<string, Group>)>)
    ensures r.None? <==> row.team !in acc.1 && row.team in InheritedNames
    ensures r.Some? ==> r.value.1.Keys == acc.1.Keys + {row.team}
  {
    var created :=
      if Read(acc.1, row.team).Missing?
      then (acc.0 + [row.team], acc.1[row.team := Group(0, [])])
      else acc;
    match Read(created.1, row.team)
    case Own(g) =>
      Some((created.0, created.1[row.team := Group(g.totalScore + row.score, g.users + [MemberOf(row)])]))
    case _ => None
  }

  /** The whole scan loop as written; `None` when it throws. */
  function GroupAsWritten(rows: seq<Row>): (r: Option<(seq<string>, map<string, Group>)>)
    ensures r.Some? ==> forall t :: t in r.value.1 ==> t !in InheritedNames
  {
    if rows == [] then Some(([], map[]))
    else
      var n := |rows| - 1;
      match GroupAsWritten(rows[..n])
      case None => None
      case Some(acc) => StepAsWritten(acc, rows[n])
  }

  /** A turn for a team that is not an inherited name does what `GroupByTeam`'s loop body does. */
  lemma StepAsWrittenOwn(acc: (seq<string>, map<string, Group>), row: Row)
    requires row.team !in InheritedNames
    ensures StepAsWritten(acc, row) == Some(OwnStep(acc, row))
  {
    var team := row.team;
    if team !in acc.1 {
      assert Read(acc.1, team) == Missing;
      var g, created := Group(0, []), acc.1[team := Group(0, [])];
      assert Read(created, team) == Own(g);
      assert created[team := Group(g.totalScore + row.score, g.users + [MemberOf(row)])] == OwnStep(acc, row).1;
    }
  }

  /** The loop as written throws exactly when some row's team is an inherited property name. */
  lemma {:induction false} GroupAsWrittenThrows(rows: seq<Row>)
    ensures GroupAsWritten(rows).None? <==>
            exists i :: 0 <= i < |rows| && rows[i].team in InheritedNames
  {
    if rows != [] {
      var n := |rows| - 1;
      var init, row := rows[..n], rows[n];
      GroupAsWrittenThrows(init);
      if GroupAsWritten(init).None? {
        var i :| 0 <= i < |init| && init[i].team in InheritedNames;
        assert rows[i] == init[i];
      } else {
        assert forall i :: 0 <= i < n ==> rows[i] == init[i];
      }
    }
  }

  /** When the loop as written does not throw, it builds the same dictionary as `GroupByTeam`. */
  lemma {:induction false} GroupAsWrittenAgrees(rows: seq<Row>)
    ensures GroupAsWritten(rows).Some? ==>
            GroupedFrom(rows, GroupAsWritten(rows).value.0, GroupAsWritten(rows).value.1)
  {
    if rows != [] && GroupAsWritten(rows).Some? {
      var n := |rows| - 1;
      var init, row := rows[..n], rows[n];
      assert rows == init + [row];
      GroupAsWrittenAgrees(init);
      var acc := GroupAsWritten(init).value;
      assert GroupAsWritten(rows) == StepAsWritten(acc, row);
      assert row.team !in InheritedNames;
      StepAsWrittenOwn(acc, row);
      var next := OwnStep(acc, row);
      OwnStepGroups(init, row, acc);
      assert GroupedFrom(rows, next.0, next.1);
      assert GroupAsWritten(rows).value == next;
    }
  }

  /** One user in a team called "constructor" is enough to make the loop as written throw. */
  lemma ConstructorTeamThrows()
    ensures GroupAsWritten([Row("constructor", "u1", "Ann", 5)]) == None
    ensures GroupOf([Row("constructor", "u1", "Ann", 5)], "constructor") == Group(5, [Member("u1", "Ann", 5)])
  {
    var rows := [Row("constructor", "u1", "Ann", 5)];
    assert rows[..0] == [];
    assert MembersOf(rows, "constructor") == [Member("u1", "Ann", 5)];
  }
}
