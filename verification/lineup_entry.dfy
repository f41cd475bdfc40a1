/** `submit_lineup` (ahgl_admin.py:312-398): a team captain enters the player
    and race of each of sets 1-4 for one week, and names a referee. The signed-in
    user's team (`get_user_team()`) is a parameter. */
module LineupEntry {

  import opened Replies
  import opened Text
  import opened Forms
  import opened Schema

  /** The sets a lineup covers: 1 to `NumSets - 1`; set 5 is the ace set. */
  const LineupSets := NumSets - 1

  /** `SELECT id FROM players WHERE team = ? AND active = 1`. */
  function Eligible(db: Db, team: int): (ids: set<int>)
    ensures forall p :: p in ids <==> p in db.players && db.players[p].team == team && db.players[p].active == 1
  {
    set p | p in db.players && db.players[p].team == team && db.players[p].active == 1
  }

  function NoValueMessage(field: string): string {
    "No value submitted for '" + field + "'"
  }

  /** The player field of set `s`: present once and non-empty, an integer, and
      an eligible player. */
  function PlayerField(form: Form, eligible: set<int>, s: int): (r: Reply<int>)
    ensures !r.Crashed?
    ensures r.Done? ==> ReadIntField(form, Numbered("player", s)) == Supplied(r.value) && r.value in eligible
    ensures ReadIntField(form, Numbered("player", s)).Unsupplied? ==> r == Refused(NoValueMessage(Numbered("player", s)))
    ensures ReadIntField(form, Numbered("player", s)).Unparsable? ==> r == Refused("Invalid value for player " + IntToString(s))
    ensures ReadIntField(form, Numbered("player", s)).Supplied? ==>
              var p := ReadIntField(form, Numbered("player", s)).value;
              && (p !in eligible ==> r == Refused("Player " + IntToString(s) + " is not an eligible team member"))
              && (p in eligible ==> r == Done(p))
  {
    match ReadIntField(form, Numbered("player", s))
    case Unsupplied => Refused(NoValueMessage(Numbered("player", s)))
    case Unparsable => Refused("Invalid value for player " + IntToString(s))
    case Supplied(p) =>
      if p !in eligible then Refused("Player " + IntToString(s) + " is not an eligible team member")
      else Done(p)
  }

  /** The race field of set `s`: present once, non-empty, and one of `T`, `Z`, `P`, `R`. */
  function RaceField(form: Form, s: int): (r: Reply<string>)
    ensures !r.Crashed?
    ensures r.Done? ==> GetList(form, Numbered("race", s)) == [r.value] && IsRace(r.value)
    ensures (|GetList(form, Numbered("race", s))| != 1 || GetList(form, Numbered("race", s))[0] == "") ==>
              r == Refused(NoValueMessage(Numbered("race", s)))
    ensures |GetList(form, Numbered("race", s))| == 1 ==>
              var race := GetList(form, Numbered("race", s))[0];
              && (race != "" && !IsRace(race) ==> r == Refused("Invalid race for player " + IntToString(s)))
              && (IsRace(race) ==> r == Done(race))
  {
    var race := GetList(form, Numbered("race", s));
    if |race| != 1 || race[0] == "" then Refused(NoValueMessage(Numbered("race", s)))
    else if !IsRace(race[0]) then Refused("Invalid race for player " + IntToString(s))
    else Done(race[0])
  }

  /** One set's checks: the player field, repetition, the race field. */
  function EnterSet(form: Form, eligible: set<int>, entered: set<int>, week: int, team: int, s: int): (r: Reply<LineupRow>)
    ensures !r.Crashed?
    ensures r.Done? ==>
              && ReadIntField(form, Numbered("player", s)) == Supplied(r.value.player)
              && r.value.player in eligible && r.value.player !in entered
              && GetList(form, Numbered("race", s)) == [r.value.race] && IsRace(r.value.race)
              && r.value.week == week && r.value.team == team && r.value.setNumber == s
    // The player checks first, then repetition, then the race checks.
    ensures PlayerField(form, eligible, s).Refused? ==> r == Refused(PlayerField(form, eligible, s).message)
    ensures PlayerField(form, eligible, s).Done? && PlayerField(form, eligible, s).value in entered ==>
              r == Refused("Duplicate player for player " + IntToString(s))
    ensures PlayerField(form, eligible, s).Done? && PlayerField(form, eligible, s).value !in entered ==>
              && (RaceField(form, s).Refused? ==> r == Refused(RaceField(form, s).message))
              && (RaceField(form, s).Done? ==>
                    r == Done(LineupRow(week, team, s, PlayerField(form, eligible, s).value, RaceField(form, s).value)))
  {
    match PlayerField(form, eligible, s)
    case Refused(e) => Refused(e)
    case Crashed(f) => Crashed(f)
    case Done(p) =>
      if p in entered then Refused("Duplicate player for player " + IntToString(s))
      else
        match RaceField(form, s)
        case Refused(e) => Refused(e)
        case Crashed(f) => Crashed(f)
        case Done(race) => Done(LineupRow(week, team, s, p, race))
  }

  /** The repetition check is the only one that looks at the earlier sets. */
  lemma EnterSetEntered(form: Form, eligible: set<int>, entered: set<int>, week: int, team: int, s: int, row: LineupRow)
    ensures EnterSet(form, eligible, entered, week, team, s) == Done(row)
            <==> EnterSet(form, eligible, {}, week, team, s) == Done(row) && row.player !in entered
  {
  }

  /** The loop of ahgl_admin.py:363-394 from set `s` on, `entered` holding the
      players of the sets before it. */
  function EnterSets(form: Form, eligible: set<int>, entered: set<int>, week: int, team: int, s: nat): (r: Reply<seq<LineupRow>>)
    requires 1 <= s <= LineupSets + 1
    ensures !r.Crashed?
    ensures r.Done? ==> |r.value| == LineupSets + 1 - s
    decreases LineupSets + 1 - s
  {
    if s == LineupSets + 1 then Done([])
    else match EnterSet(form, eligible, entered, week, team, s)
      case Refused(e) => Refused(e)
      case Crashed(f) => Crashed(f)
      case Done(row) => Prepend(row, EnterSets(form, eligible, entered + {row.player}, week, team, s + 1))
  }

  /** Players are pairwise different and none of them is in `entered`. */
  predicate FreshPlayers(rows: seq<LineupRow>, entered: set<int>) {
    && (forall i :: 0 <= i < |rows| ==> rows[i].player !in entered)
    && (forall i, j :: 0 <= i < j < |rows| ==> rows[i].player != rows[j].player)
  }

  /** A row in front of fresh rows keeps them fresh exactly when its player is
      neither entered before nor among theirs. */
  lemma FreshCons(row: LineupRow, rest: seq<LineupRow>, entered: set<int>)
    ensures FreshPlayers([row] + rest, entered) <==> row.player !in entered && FreshPlayers(rest, entered + {row.player})
  {
    var rows := [row] + rest;
    assert forall i :: 0 <= i < |rest| ==> rest[i] == rows[i + 1];
    if FreshPlayers(rows, entered) {
      assert rows[0] == row;
      forall i | 0 <= i < |rest| ensures rest[i].player !in entered + {row.player} {
        assert rows[0].player != rows[i + 1].player;
      }
    }
    if row.player !in entered && FreshPlayers(rest, entered + {row.player}) {
      forall i, j | 0 <= i < j < |rows| ensures rows[i].player != rows[j].player {
        if i > 0 { assert rows[i] == rest[i - 1]; }
        assert rows[j] == rest[j - 1];
      }
    }
  }

  /** One turn of an accepted loop: set `s` is accepted and the rest of the
      loop runs with its player entered. */
  lemma EnterSetsStep(form: Form, eligible: set<int>, entered: set<int>, week: int, team: int, s: nat)
    returns (row: LineupRow, rest: seq<LineupRow>)
    requires 1 <= s <= LineupSets
    requires EnterSets(form, eligible, entered, week, team, s).Done?
    ensures EnterSet(form, eligible, entered, week, team, s) == Done(row)
    ensures EnterSets(form, eligible, entered + {row.player}, week, team, s + 1) == Done(rest)
    ensures EnterSets(form, eligible, entered, week, team, s) == Done([row] + rest)
  {
    row := EnterSet(form, eligible, entered, week, team, s).value;
    rest := EnterSets(form, eligible, entered + {row.player}, week, team, s + 1).value;
  }

  /** An accepted run of the loop produces one row per remaining set, in set
      order, each set's row being the one its own fields give, with eligible
      players that repeat neither each other nor an earlier set. */
  lemma {:induction false} EnterSetsDone(form: Form, eligible: set<int>, entered: set<int>, week: int, team: int, s: nat)
    requires 1 <= s <= LineupSets + 1
    requires EnterSets(form, eligible, entered, week, team, s).Done?
    ensures var rows := EnterSets(form, eligible, entered, week, team, s).value;
            && FreshPlayers(rows, entered)
            && forall i :: 0 <= i < |rows| ==>
                 rows[i].setNumber == s + i && rows[i].player in eligible
                 && EnterSet(form, eligible, {}, week, team, s + i) == Done(rows[i])
    decreases LineupSets + 1 - s
  {
    if s <= LineupSets {
      var row, rest := EnterSetsStep(form, eligible, entered, week, team, s);
      EnterSetsDone(form, eligible, entered + {row.player}, week, team, s + 1);
      assert FreshPlayers([row] + rest, entered) by {
        FreshCons(row, rest, entered);
      }
      assert EnterSet(form, eligible, {}, week, team, s) == Done(row) by {
        EnterSetEntered(form, eligible, entered, week, team, s, row);
      }
      var rows := [row] + rest;
      forall i | 0 <= i < |rows|
        ensures rows[i].setNumber == s + i && rows[i].player in eligible
                && EnterSet(form, eligible, {}, week, team, s + i) == Done(rows[i])
      {
        if i > 0 {
          assert rows[i] == rest[i - 1];
          assert s + i == (s + 1) + (i - 1);
        }
      }
    }
  }

  /** Conversely, the loop accepts when every remaining set's own fields pass and
      no player repeats an earlier set or another remaining set. */
  lemma {:induction false} EnterSetsAccepts(form: Form, eligible: set<int>, entered: set<int>, week: int, team: int,
                                            s: nat, rows: seq<LineupRow>)
    requires 1 <= s <= LineupSets + 1
    requires |rows| == LineupSets + 1 - s
    requires forall i :: 0 <= i < |rows| ==> EnterSet(form, eligible, {}, week, team, s + i) == Done(rows[i])
    requires FreshPlayers(rows, entered)
    ensures EnterSets(form, eligible, entered, week, team, s) == Done(rows)
    decreases LineupSets + 1 - s
  {
    if s <= LineupSets {
      var row, rest := rows[0], rows[1..];
      assert rows == [row] + rest;
      assert row.player !in entered && FreshPlayers(rest, entered + {row.player}) by {
        FreshCons(row, rest, entered);
      }
      assert EnterSet(form, eligible, entered, week, team, s) == Done(row) by {
        assert EnterSet(form, eligible, {}, week, team, s + 0) == Done(rows[0]);
        EnterSetEntered(form, eligible, entered, week, team, s, row);
      }
      forall i | 0 <= i < |rest| ensures EnterSet(form, eligible, {}, week, team, s + 1 + i) == Done(rest[i]) {
        assert rest[i] == rows[i + 1];
        assert s + 1 + i == s + (i + 1);
      }
      EnterSetsAccepts(form, eligible, entered + {row.player}, week, team, s + 1, rest);
    }
  }

  /** The checks of ahgl_admin.py:341-354 and the loop, once the form's week,
      team and referee are read. */
  function Admit(db: Db, form: Form, week: int, team: int, referee: string): (r: Reply<Db>)
    ensures !r.Crashed?
    ensures r.Done? ==>
              && team in db.teams && WeekHasMaps(db, week) && LineupRows(db.lineups, week, team) == []
              && EnterSets(form, Eligible(db, team), {}, week, team, 1).Done?
              && r.value == db.(referees := db.referees + [RefereeRow(week, team, referee)],
                                lineups := db.lineups + EnterSets(form, Eligible(db, team), {}, week, team, 1).value)
    // The stored-state guards in the order they run, then the loop.
    ensures team !in db.teams ==> r == Refused("Invalid team")
    ensures team in db.teams && !WeekHasMaps(db, week) ==> r == Refused("Invalid week")
    ensures (team in db.teams && WeekHasMaps(db, week) && LineupRows(db.lineups, week, team) != [])
            ==> r == Refused("Lineup already submitted")
    ensures (team in db.teams && WeekHasMaps(db, week) && LineupRows(db.lineups, week, team) == []) ==>
              var loop := EnterSets(form, Eligible(db, team), {}, week, team, 1);
              && (loop.Refused? ==> r == Refused(loop.message))
              && (loop.Done? ==> r.Done?)
  {
    if team !in db.teams then Refused("Invalid team")
    else if !WeekHasMaps(db, week) then Refused("Invalid week")
    else if |LineupRows(db.lineups, week, team)| != 0 then Refused("Lineup already submitted")
    else
      match EnterSets(form, Eligible(db, team), {}, week, team, 1)
      case Refused(e) => Refused(e)
      case Crashed(f) => Crashed(f)
      case Done(rows) =>
        Done(db.(referees := db.referees + [RefereeRow(week, team, referee)], lineups := db.lineups + rows))
  }

  /** The whole handler; a refusal commits nothing, so the referee row inserted
      before the loop is only kept when the loop completes. */
  function SubmitLineup(db: Db, form: Form, userTeam: int): (r: Reply<Db>)
    ensures !r.Crashed?
    ensures ReadIntField(form, "week").Unsupplied? ==> r == Refused(NoValueMessage("week"))
    ensures ReadIntField(form, "week").Unparsable? ==> r == Refused("Invalid week")
    ensures ReadIntField(form, "week").Supplied? && ReadIntField(form, "team").Unsupplied? ==>
              r == Refused(NoValueMessage("team"))
    ensures ReadIntField(form, "week").Supplied? && ReadIntField(form, "team").Unparsable? ==>
              r == Refused("Invalid team")
    ensures (ReadIntField(form, "week").Supplied? && ReadIntField(form, "team").Supplied?
             && ReadIntField(form, "team").value != userTeam) ==> r == Refused("Can't submit for another team")
    ensures r.Done? ==>
              && ReadIntField(form, "week").Supplied? && ReadIntField(form, "team") == Supplied(userTeam)
              && Get(form, "referee", "") != ""
              && r == Admit(db, form, ReadIntField(form, "week").value, userTeam, Get(form, "referee", ""))
    ensures (ReadIntField(form, "week").Supplied? && ReadIntField(form, "team") == Supplied(userTeam)) ==>
              && (Get(form, "referee", "") == "" ==> r == Refused("No referee submitted"))
              && (Get(form, "referee", "") != "" ==>
                    r == Admit(db, form, ReadIntField(form, "week").value, userTeam, Get(form, "referee", "")))
  {
    match ReadIntField(form, "week")
    case Unsupplied => Refused(NoValueMessage("week"))
    case Unparsable => Refused("Invalid week")
    case Supplied(week) =>
      match ReadIntField(form, "team")
      case Unsupplied => Refused(NoValueMessage("team"))
      case Unparsable => Refused("Invalid team")
      case Supplied(team) =>
        if team != userTeam then Refused("Can't submit for another team")
        else
          var referee := Get(form, "referee", "");
          if referee == "" then Refused("No referee submitted")
          else Admit(db, form, week, team, referee)
  }

  // ---------------------------------------------------------------------
  // What an accepted lineup writes

  /** An accepted lineup appends one referee row and four lineup rows, set
      `k + 1` at index `k`, each the row its own fields give, with eligible and
      pairwise different players; no other table changes. */
  lemma SubmitLineupEffect(db: Db, form: Form, userTeam: int, week: int)
    requires ReadIntField(form, "week") == Supplied(week)
    requires SubmitLineup(db, form, userTeam).Done?
    ensures var after := SubmitLineup(db, form, userTeam).value;
            var rows := after.lineups[|db.lineups|..];
            && userTeam in db.teams && WeekHasMaps(db, week) && LineupRows(db.lineups, week, userTeam) == []
            && after.referees == db.referees + [RefereeRow(week, userTeam, Get(form, "referee", ""))]
            && after.lineups == db.lineups + rows && |rows| == LineupSets
            && FreshPlayers(rows, {})
            && (forall k :: 0 <= k < LineupSets ==>
                  rows[k].setNumber == k + 1 && rows[k].player in Eligible(db, userTeam)
                  && EnterSet(form, Eligible(db, userTeam), {}, week, userTeam, k + 1) == Done(rows[k]))
            && after.teams == db.teams && after.players == db.players && after.matches == db.matches
            && after.setResults == db.setResults && after.aces == db.aces && after.maps == db.maps
  {
    var after := SubmitLineup(db, form, userTeam).value;
    var entered := EnterSets(form, Eligible(db, userTeam), {}, week, userTeam, 1);
    EnterSetsDone(form, Eligible(db, userTeam), {}, week, userTeam, 1);
    assert after.lineups == db.lineups + entered.value;
    assert after.lineups[|db.lineups|..] == entered.value;
  }

  /** Conversely, a lineup for the signed-in user's team, with a referee, for a
      week with maps and no lineup yet, whose four sets each pass on their own
      and name four different players, is accepted with exactly those rows. */
  lemma SubmitLineupAccepts(db: Db, form: Form, userTeam: int, week: int, rows: seq<LineupRow>)
    requires ReadIntField(form, "week") == Supplied(week) && ReadIntField(form, "team") == Supplied(userTeam)
    requires Get(form, "referee", "") != ""
    requires userTeam in db.teams && WeekHasMaps(db, week) && LineupRows(db.lineups, week, userTeam) == []
    requires |rows| == LineupSets && FreshPlayers(rows, {})
    requires forall k :: 0 <= k < LineupSets ==>
               EnterSet(form, Eligible(db, userTeam), {}, week, userTeam, k + 1) == Done(rows[k])
    ensures SubmitLineup(db, form, userTeam)
            == Done(db.(referees := db.referees + [RefereeRow(week, userTeam, Get(form, "referee", ""))],
                        lineups := db.lineups + rows))
  {
    forall i | 0 <= i < |rows| ensures EnterSet(form, Eligible(db, userTeam), {}, week, userTeam, 1 + i) == Done(rows[i]) {
      assert 1 + i == i + 1;
    }
    EnterSetsAccepts(form, Eligible(db, userTeam), {}, week, userTeam, 1, rows);
  }

  /** Once a team's lineup for a week is stored, no further lineup for that team
      and week is accepted. */
  lemma LineupEnteredOnce(db: Db, form: Form, form': Form, userTeam: int, week: int)
    requires ReadIntField(form, "week") == Supplied(week) && ReadIntField(form', "week") == Supplied(week)
    requires SubmitLineup(db, form, userTeam).Done?
    ensures !SubmitLineup(SubmitLineup(db, form, userTeam).value, form', userTeam).Done?
  {
    SubmitLineupEffect(db, form, userTeam, week);
    var after := SubmitLineup(db, form, userTeam).value;
    var rows := after.lineups[|db.lineups|..];
    assert rows[0] == after.lineups[|db.lineups|];
    assert after.lineups[|db.lineups|] in LineupRows(after.lineups, week, userTeam);
  }

  // ---------------------------------------------------------------------
  // The invariant of the lineup table

  /** A team's lineup for a week is stored all at once: sets 1 to 4 in order,
      four different players. */
  ghost predicate LineupsWhole(lineups: seq<LineupRow>) {
    forall w, t :: |LineupRows(lineups, w, t)| > 0 ==>
      LineupSetNumbers(LineupRows(lineups, w, t)) == [1, 2, 3, 4]
      && FreshPlayers(LineupRows(lineups, w, t), {})
  }

  /** Appending one team's four rows for a week that had none, seen from that team and week. */
  lemma AppendLineupHere(db: Db, rows: seq<LineupRow>, week: int, team: int)
    requires LineupRows(db.lineups, week, team) == []
    requires |rows| == LineupSets
    requires forall k :: 0 <= k < LineupSets ==> rows[k].week == week && rows[k].team == team && rows[k].setNumber == k + 1
    ensures LineupRows(db.lineups + rows, week, team) == rows
    ensures LineupSetNumbers(rows) == [1, 2, 3, 4]
  {
    assert LineupRows(db.lineups + rows, week, team) == rows by {
      LineupRowsAppend(db.lineups, rows, week, team);
      LineupRowsAll(rows, week, team);
    }
    LineupBatchSetNumbers(rows);
  }

  /** The same append, seen from any other team or week: nothing changes. */
  lemma AppendLineupElsewhere(db: Db, rows: seq<LineupRow>, week: int, team: int, w: int, t: int)
    requires forall k :: 0 <= k < |rows| ==> rows[k].week == week && rows[k].team == team
    requires !(w == week && t == team)
    ensures LineupRows(db.lineups + rows, w, t) == LineupRows(db.lineups, w, t)
  {
    LineupRowsAppend(db.lineups, rows, w, t);
    LineupRowsNone(rows, w, t);
  }

  /** Appending one team's whole lineup for a week that had none keeps every lineup whole. */
  lemma AppendLineupPreserves(lineups: seq<LineupRow>, rows: seq<LineupRow>, week: int, team: int)
    requires LineupsWhole(lineups)
    requires LineupRows(lineups, week, team) == []
    requires |rows| == LineupSets && FreshPlayers(rows, {})
    requires forall k :: 0 <= k < LineupSets ==> rows[k].week == week && rows[k].team == team && rows[k].setNumber == k + 1
    ensures LineupsWhole(lineups + rows)
  {
    var db := Db(map[], map[], [], lineups, [], [], [], []);
    forall w, t ensures var now := LineupRows(lineups + rows, w, t);
                        |now| > 0 ==> LineupSetNumbers(now) == [1, 2, 3, 4] && FreshPlayers(now, {}) {
      if w == week && t == team {
        AppendLineupHere(db, rows, week, team);
      } else {
        AppendLineupElsewhere(db, rows, week, team, w, t);
      }
    }
  }

  /** Accepting a lineup keeps every stored lineup whole. */
  lemma SubmitLineupPreservesWhole(db: Db, form: Form, userTeam: int)
    requires LineupsWhole(db.lineups)
    requires SubmitLineup(db, form, userTeam).Done?
    ensures LineupsWhole(SubmitLineup(db, form, userTeam).value.lineups)
  {
    var week := ReadIntField(form, "week").value;
    var after := SubmitLineup(db, form, userTeam).value;
    var rows := after.lineups[|db.lineups|..];
    assert && after.lineups == db.lineups + rows && |rows| == LineupSets && FreshPlayers(rows, {})
           && LineupRows(db.lineups, week, userTeam) == []
           && forall k :: 0 <= k < LineupSets ==>
                rows[k].week == week && rows[k].team == userTeam && rows[k].setNumber == k + 1 by {
      SubmitLineupEffect(db, form, userTeam, week);
    }
    AppendLineupPreserves(db.lineups, rows, week, userTeam);
  }
}
