/** An immutable snapshot of the SQLite database the handlers read and write:
    one datatype per table row, with the columns the core uses. `teams` and
    `players` are keyed by their `id` primary key; every other table is the
    sequence of its rows in the order a query returns them. */
module Schema {

  import opened Replies

  datatype Team = Team(name: string)

  /** `active` is the integer column compared with 1. */
  datatype Player = Player(team: int, name: string, active: int)

  datatype MatchRow = MatchRow(week: int, matchNumber: int, homeTeam: int, awayTeam: int)

  datatype LineupRow = LineupRow(week: int, team: int, setNumber: int, player: int, race: string)

  /** `replayHash` is NULL (`None`) for a set stored without an upload. */
  datatype SetResultRow = SetResultRow(
    week: int, matchNumber: int, setNumber: int,
    homeWinner: int, awayWinner: int, forfeit: int,
    replayHash: Option<string>)

  datatype AceRow = AceRow(
    week: int, matchNumber: int,
    homePlayer: int, awayPlayer: int,
    homeRace: string, awayRace: string)

  datatype MapRow = MapRow(week: int, setNumber: int, mapId: int)

  datatype RefereeRow = RefereeRow(week: int, team: int, refereeName: string)

  datatype Db = Db(
    teams: map<int, Team>,
    players: map<int, Player>,
    matches: seq<MatchRow>,
    lineups: seq<LineupRow>,
    setResults: seq<SetResultRow>,
    aces: seq<AceRow>,
    maps: seq<MapRow>,
    referees: seq<RefereeRow>)

  /** Sets per match; set `NumSets` is the ace set. */
  const NumSets := 5

  /** Membership in `list("TZPR")`: the race symbols a form may name. */
  predicate IsRace(r: string) { r == "T" || r == "Z" || r == "P" || r == "R" }

  /** `SELECT DISTINCT week FROM maps WHERE week = ?` returns one row. */
  predicate WeekHasMaps(db: Db, week: int) {
    exists i :: 0 <= i < |db.maps| && db.maps[i].week == week
  }

  // ---------------------------------------------------------------------
  // Row selections: `SELECT ... WHERE week = ? AND <key> = ?`

  function MatchRows(rows: seq<MatchRow>, week: int, m: int): (r: seq<MatchRow>)
    ensures |r| <= |rows|
    ensures forall x :: x in r <==> x in rows && x.week == week && x.matchNumber == m
  {
    if |rows| == 0 then []
    else (if rows[0].week == week && rows[0].matchNumber == m then [rows[0]] else []) + MatchRows(rows[1..], week, m)
  }

  function ResultRows(rows: seq<SetResultRow>, week: int, m: int): (r: seq<SetResultRow>)
    ensures |r| <= |rows|
    ensures forall x :: x in r <==> x in rows && x.week == week && x.matchNumber == m
  {
    if |rows| == 0 then []
    else (if rows[0].week == week && rows[0].matchNumber == m then [rows[0]] else []) + ResultRows(rows[1..], week, m)
  }

  lemma {:induction false} ResultRowsAppend(a: seq<SetResultRow>, b: seq<SetResultRow>, week: int, m: int)
    ensures ResultRows(a + b, week, m) == ResultRows(a, week, m) + ResultRows(b, week, m)
    decreases |a|
  {
    if |a| == 0 {
      assert a + b == b;
    } else {
      assert (a + b)[0] == a[0];
      assert (a + b)[1..] == a[1..] + b;
      ResultRowsAppend(a[1..], b, week, m);
    }
  }

  /** Rows that all carry the key are all selected. */
  lemma {:induction false} ResultRowsAll(rows: seq<SetResultRow>, week: int, m: int)
    requires forall i :: 0 <= i < |rows| ==> rows[i].week == week && rows[i].matchNumber == m
    ensures ResultRows(rows, week, m) == rows
    decreases |rows|
  {
    if |rows| > 0 {
      ResultRowsAll(rows[1..], week, m);
    }
  }

  /** Rows none of which carries the key select nothing. */
  lemma {:induction false} ResultRowsNone(rows: seq<SetResultRow>, week: int, m: int)
    requires forall i :: 0 <= i < |rows| ==> !(rows[i].week == week && rows[i].matchNumber == m)
    ensures ResultRows(rows, week, m) == []
    decreases |rows|
  {
    if |rows| > 0 {
      ResultRowsNone(rows[1..], week, m);
    }
  }

  function AceRows(rows: seq<AceRow>, week: int, m: int): (r: seq<AceRow>)
    ensures |r| <= |rows|
    ensures forall x :: x in r <==> x in rows && x.week == week && x.matchNumber == m
  {
    if |rows| == 0 then []
    else (if rows[0].week == week && rows[0].matchNumber == m then [rows[0]] else []) + AceRows(rows[1..], week, m)
  }

  lemma {:induction false} AceRowsAppend(a: seq<AceRow>, b: seq<AceRow>, week: int, m: int)
    ensures AceRows(a + b, week, m) == AceRows(a, week, m) + AceRows(b, week, m)
    decreases |a|
  {
    if |a| == 0 {
      assert a + b == b;
    } else {
      assert (a + b)[0] == a[0];
      assert (a + b)[1..] == a[1..] + b;
      AceRowsAppend(a[1..], b, week, m);
    }
  }

  lemma {:induction false} AceRowsAll(rows: seq<AceRow>, week: int, m: int)
    requires forall i :: 0 <= i < |rows| ==> rows[i].week == week && rows[i].matchNumber == m
    ensures AceRows(rows, week, m) == rows
    decreases |rows|
  {
    if |rows| > 0 {
      AceRowsAll(rows[1..], week, m);
    }
  }

  lemma {:induction false} AceRowsNone(rows: seq<AceRow>, week: int, m: int)
    requires forall i :: 0 <= i < |rows| ==> !(rows[i].week == week && rows[i].matchNumber == m)
    ensures AceRows(rows, week, m) == []
    decreases |rows|
  {
    if |rows| > 0 {
      AceRowsNone(rows[1..], week, m);
    }
  }

  /** `SELECT ... FROM lineup WHERE team = ? AND week = ?`. */
  function LineupRows(rows: seq<LineupRow>, week: int, team: int): (r: seq<LineupRow>)
    ensures |r| <= |rows|
    ensures forall x :: x in r <==> x in rows && x.week == week && x.team == team
  {
    if |rows| == 0 then []
    else (if rows[0].week == week && rows[0].team == team then [rows[0]] else []) + LineupRows(rows[1..], week, team)
  }

  lemma {:induction false} LineupRowsAppend(a: seq<LineupRow>, b: seq<LineupRow>, week: int, team: int)
    ensures LineupRows(a + b, week, team) == LineupRows(a, week, team) + LineupRows(b, week, team)
    decreases |a|
  {
    if |a| == 0 {
      assert a + b == b;
    } else {
      assert (a + b)[0] == a[0];
      assert (a + b)[1..] == a[1..] + b;
      LineupRowsAppend(a[1..], b, week, team);
    }
  }

  /** The set numbers of some set-result rows, in row order. */
  function ResultSetNumbers(rows: seq<SetResultRow>): (r: seq<int>)
    ensures |r| == |rows|
    ensures forall i :: 0 <= i < |rows| ==> r[i] == rows[i].setNumber
  {
    if |rows| == 0 then [] else [rows[0].setNumber] + ResultSetNumbers(rows[1..])
  }

  /** Rows numbered 1 to `n` in order have exactly that list of set numbers. */
  lemma BatchSetNumbers(rows: seq<SetResultRow>)
    requires |rows| == 5 && forall k :: 0 <= k < 5 ==> rows[k].setNumber == k + 1
    ensures ResultSetNumbers(rows) == [1, 2, 3, 4, 5]
  {
    var ns := ResultSetNumbers(rows);
    assert ns[0] == 1 && ns[1] == 2 && ns[2] == 3 && ns[3] == 4 && ns[4] == 5;
  }

  lemma {:induction false} LineupRowsAll(rows: seq<LineupRow>, week: int, team: int)
    requires forall i :: 0 <= i < |rows| ==> rows[i].week == week && rows[i].team == team
    ensures LineupRows(rows, week, team) == rows
    decreases |rows|
  {
    if |rows| > 0 {
      LineupRowsAll(rows[1..], week, team);
    }
  }

  lemma {:induction false} LineupRowsNone(rows: seq<LineupRow>, week: int, team: int)
    requires forall i :: 0 <= i < |rows| ==> !(rows[i].week == week && rows[i].team == team)
    ensures LineupRows(rows, week, team) == []
    decreases |rows|
  {
    if |rows| > 0 {
      LineupRowsNone(rows[1..], week, team);
    }
  }

  /** The set numbers of some lineup rows, in row order. */
  function LineupSetNumbers(rows: seq<LineupRow>): (r: seq<int>)
    ensures |r| == |rows|
    ensures forall i :: 0 <= i < |rows| ==> r[i] == rows[i].setNumber
  {
    if |rows| == 0 then [] else [rows[0].setNumber] + LineupSetNumbers(rows[1..])
  }

  /** Lineup rows numbered 1 to 4 in order have exactly that list of set numbers. */
  lemma LineupBatchSetNumbers(rows: seq<LineupRow>)
    requires |rows| == 4 && forall k :: 0 <= k < 4 ==> rows[k].setNumber == k + 1
    ensures LineupSetNumbers(rows) == [1, 2, 3, 4]
  {
    var ns := LineupSetNumbers(rows);
    assert ns[0] == 1 && ns[1] == 2 && ns[2] == 3 && ns[3] == 4;
  }
}
