/**
 * The `users` table of the leaderboard and the values that cross the
 * boundary between the HTTP handlers and the SQLite driver.
 */
module Schema {

  datatype Option<T> = None | Some(value: T)

  /** The non-key columns of a `users` row: `name TEXT, score INTEGER, team TEXT`. */
  datatype User = User(name: string, score: int, team: string)

  /**
   * The whole table, keyed by the `id TEXT PRIMARY KEY` column. Being a map,
   * it can never hold two rows with the same id.
   */
  type Table = map<string, User>

  /** A row as `SELECT team, id, name, score FROM users` hands it back. */
  datatype Row = Row(team: string, id: string, name: string, score: int)

  /** A member record `{id, name, score}` as the team responses carry it. */
  datatype Member = Member(id: string, name: string, score: int)

  function MemberOf(r: Row): Member {
    Member(r.id, r.name, r.score)
  }

  /** The HTTP statuses the handlers answer with: 200, 201, 400, 404 and 500. */
  datatype Status = Ok | Created | BadRequest | NotFound | InternalError

  /**
   * Whether the driver's completion callback reports an error for the first
   * and for the second statement a request issues. A statement that reports
   * an error changes nothing.
   */
  datatype DriverErrors = DriverErrors(onFirst: bool, onSecond: bool)

  const NoErrors := DriverErrors(false, false)

  /** JavaScript truthiness of a string body field: a missing field and "" are falsy. */
  predicate Truthy(s: Option<string>) {
    s.Some? && s.value != ""
  }

  /** No two rows of `rows` share an id. */
  predicate DistinctIds(rows: seq<Row>) {
    forall i, j :: 0 <= i < j < |rows| ==> rows[i].id != rows[j].id
  }

  /**
   * `scan` lists every row of `t` exactly once, in some order: what the
   * driver's `db.all` returns for a query over the whole table.
   */
  ghost predicate IsScan(scan: seq<Row>, t: Table) {
    && DistinctIds(scan)
    && (forall i :: 0 <= i < |scan| ==>
          scan[i].id in t && t[scan[i].id] == User(scan[i].name, scan[i].score, scan[i].team))
    && (forall id :: id in t ==> exists i :: 0 <= i < |scan| && scan[i].id == id)
  }

  /** SQLite's default BINARY collation: lexicographic order on characters. */
  predicate StrLt(a: string, b: string) {
    if a == [] then b != []
    else b != [] && (a[0] < b[0] || (a[0] == b[0] && StrLt(a[1..], b[1..])))
  }

  /** No string sorts before itself. */
  lemma {:induction false} StrLtIrreflexive(a: string)
    ensures !StrLt(a, a)
  {
    if a != [] {
      StrLtIrreflexive(a[1..]);
    }
  }

  /** `ORDER BY team, id` places `r` before `s`. */
  predicate RowBefore(r: Row, s: Row) {
    StrLt(r.team, s.team) || (r.team == s.team && StrLt(r.id, s.id))
  }

  /** The guarantee of `ORDER BY team, id`, stated for every pair of positions. */
  predicate OrderedByTeamThenId(rows: seq<Row>) {
    forall i, j :: 0 <= i < j < |rows| ==> RowBefore(rows[i], rows[j])
  }
}
