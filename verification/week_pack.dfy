/** `get_replay_pack` (ahgl_admin.py:789-844): the zip file of every stored
    replay of one week, each under a path naming the week, the match, the two
    teams, the set and the two players. The season (`app.config["SEASON"]`) is
    a parameter. */
module WeekPack {

  import opened Replies
  import opened Text
  import opened ReplayStore
  import opened Schema
  import opened Archives
  import opened ResultRecorder

  // ---------------------------------------------------------------------
  // The member path

  /** `"AHGL_S%s_Week-%d/Match-%d_%s-%s/%s-%s_%d_%s-%s.SC2Replay"` with every name
      passed through `cleanit`; grouped to the right so that each separator
      splits off one field. */
  function PackPath(season: string, week: int, m: int, homeTeam: string, awayTeam: string,
                    s: int, homePlayer: string, awayPlayer: string): (r: string)
    ensures var dir := "AHGL_S" + season + "_Week-" + IntToString(week) + "/Match-";
            |r| > |dir| && r[..|dir|] == dir
    ensures EndsWith(r, ".SC2Replay")
  {
    var dir := "AHGL_S" + season + "_Week-" + IntToString(week) + "/Match-";
    var rest := IntToString(m) + "_" + (Clean(homeTeam) + "-" + (Clean(awayTeam) + "/" +
                (Clean(homeTeam) + "-" + (Clean(awayTeam) + "_" + (IntToString(s) + "_" +
                (Clean(homePlayer) + "-" + (Clean(awayPlayer) + ".SC2Replay")))))));
    assert EndsWith(rest, ".SC2Replay") by {
      var tail := Clean(awayPlayer) + ".SC2Replay";
      AppendKeepsEnd(Clean(awayPlayer), ".SC2Replay", ".SC2Replay");
      AppendKeepsEnd(Clean(homePlayer) + "-", tail, ".SC2Replay");
      tail := Clean(homePlayer) + "-" + tail;
      AppendKeepsEnd(IntToString(s) + "_", tail, ".SC2Replay");
      tail := IntToString(s) + "_" + tail;
      AppendKeepsEnd(Clean(awayTeam) + "_", tail, ".SC2Replay");
      tail := Clean(awayTeam) + "_" + tail;
      AppendKeepsEnd(Clean(homeTeam) + "-", tail, ".SC2Replay");
      tail := Clean(homeTeam) + "-" + tail;
      AppendKeepsEnd(Clean(awayTeam) + "/", tail, ".SC2Replay");
      tail := Clean(awayTeam) + "/" + tail;
      AppendKeepsEnd(Clean(homeTeam) + "-", tail, ".SC2Replay");
      tail := Clean(homeTeam) + "-" + tail;
      AppendKeepsEnd(IntToString(m) + "_", tail, ".SC2Replay");
    }
    AppendKeepsEnd(dir, rest, ".SC2Replay");
    dir + rest
  }

  predicate EndsWith(x: string, suffix: string) {
    |suffix| <= |x| && x[|x| - |suffix|..] == suffix
  }

  /** A suffix of `x` is a suffix of `front + x`. */
  lemma AppendKeepsEnd(front: string, x: string, suffix: string)
    requires EndsWith(x, suffix)
    ensures EndsWith(front + x, suffix)
  {
    assert (front + x)[|front + x| - |suffix|..] == x[|x| - |suffix|..];
  }

  /** `%d` text holds no `_`. */
  lemma IntToStringHasNoUnderscore(n: int)
    ensures '_' !in IntToString(n)
  {
    if n < 0 {
      DigitsHaveNo(IntToString(n)[1..], '_');
      assert IntToString(n) == [IntToString(n)[0]] + IntToString(n)[1..];
    } else {
      DigitsHaveNo(IntToString(n), '_');
    }
  }

  /** Within one season's pack for one week, a member path determines the match
      number, the set number and the cleaned team and player names. */
  lemma {:induction false} PackPathInjective(season: string, week: int,
      m: int, ht: string, at: string, s: int, hp: string, ap: string,
      m': int, ht': string, at': string, s': int, hp': string, ap': string)
    requires PackPath(season, week, m, ht, at, s, hp, ap) == PackPath(season, week, m', ht', at', s', hp', ap')
    ensures m == m' && s == s'
    ensures Clean(ht) == Clean(ht') && Clean(at) == Clean(at')
    ensures Clean(hp) == Clean(hp') && Clean(ap) == Clean(ap')
  {
    var prefix := "AHGL_S" + season + "_Week-" + IntToString(week) + "/Match-";
    var cH, cA, cP, cQ := Clean(ht), Clean(at), Clean(hp), Clean(ap);
    var cH', cA', cP', cQ' := Clean(ht'), Clean(at'), Clean(hp'), Clean(ap');
    var tail6 := cQ + ".SC2Replay";
    var tail5 := cP + "-" + tail6;
    var tail4 := IntToString(s) + "_" + tail5;
    var tail3 := cA + "_" + tail4;
    var tail2 := cH + "-" + tail3;
    var tail1 := cA + "/" + tail2;
    var tail0 := cH + "-" + tail1;
    var rest := IntToString(m) + "_" + tail0;
    var tail6' := cQ' + ".SC2Replay";
    var tail5' := cP' + "-" + tail6';
    var tail4' := IntToString(s') + "_" + tail5';
    var tail3' := cA' + "_" + tail4';
    var tail2' := cH' + "-" + tail3';
    var tail1' := cA' + "/" + tail2';
    var tail0' := cH' + "-" + tail1';
    var rest' := IntToString(m') + "_" + tail0';
    assert prefix + rest == prefix + rest';
    assert rest == (prefix + rest)[|prefix|..];
    assert rest' == (prefix + rest')[|prefix|..];
    IntToStringHasNoUnderscore(m);
    IntToStringHasNoUnderscore(m');
    SplitAtSeparator(IntToString(m), tail0, IntToString(m'), tail0', '_');
    IntToStringInjective(m, m');
    AlnumHasNo(cH, '-');
    AlnumHasNo(cH', '-');
    SplitAtSeparator(cH, tail1, cH', tail1', '-');
    AlnumHasNo(cA, '/');
    AlnumHasNo(cA', '/');
    SplitAtSeparator(cA, tail2, cA', tail2', '/');
    SplitAtSeparator(cH, tail3, cH', tail3', '-');
    AlnumHasNo(cA, '_');
    AlnumHasNo(cA', '_');
    SplitAtSeparator(cA, tail4, cA', tail4', '_');
    IntToStringHasNoUnderscore(s);
    IntToStringHasNoUnderscore(s');
    SplitAtSeparator(IntToString(s), tail5, IntToString(s'), tail5', '_');
    IntToStringInjective(s, s');
    AlnumHasNo(cP, '-');
    AlnumHasNo(cP', '-');
    SplitAtSeparator(cP, tail6, cP', tail6', '-');
    assert cQ == tail6[..|tail6| - 10];
    assert cQ' == tail6'[..|tail6'| - 10];
  }

  // ---------------------------------------------------------------------
  // The lookups built before the zip is written

  /** `lineups[team][set]` where the dictionary is filled from the week's lineup
      rows joined with `players`, in row order: the name in the last matching
      row, or `None` when the lookup would raise `KeyError`. */
  function LineupName(rows: seq<LineupRow>, players: map<int, Player>, week: int, team: int, s: int): (r: Option<string>)
    ensures r.None? <==> forall i :: 0 <= i < |rows| ==> !LineupHit(rows[i], players, week, team, s)
    ensures r.Some? ==> exists i :: 0 <= i < |rows| && LineupHit(rows[i], players, week, team, s)
                                    && r.value == players[rows[i].player].name
                                    && forall j :: i < j < |rows| ==> !LineupHit(rows[j], players, week, team, s)
    decreases |rows|
  {
    if |rows| == 0 then None
    else
      var last := rows[|rows| - 1];
      if LineupHit(last, players, week, team, s) then Some(players[last.player].name)
      else LineupName(rows[..|rows| - 1], players, week, team, s)
  }

  predicate LineupHit(l: LineupRow, players: map<int, Player>, week: int, team: int, s: int) {
    l.week == week && l.team == team && l.setNumber == s && l.player in players
  }

  /** `aces[match]`, filled from the week's ace rows joined twice with `players`:
      the two names of the last matching row. */
  function AceNames(rows: seq<AceRow>, players: map<int, Player>, week: int, m: int): (r: Option<(string, string)>)
    ensures r.None? <==> forall i :: 0 <= i < |rows| ==> !AceHit(rows[i], players, week, m)
    ensures r.Some? ==> exists i :: 0 <= i < |rows| && AceHit(rows[i], players, week, m)
                                    && r.value == (players[rows[i].homePlayer].name, players[rows[i].awayPlayer].name)
                                    && forall j :: i < j < |rows| ==> !AceHit(rows[j], players, week, m)
    decreases |rows|
  {
    if |rows| == 0 then None
    else
      var last := rows[|rows| - 1];
      if AceHit(last, players, week, m) then Some((players[last.homePlayer].name, players[last.awayPlayer].name))
      else AceNames(rows[..|rows| - 1], players, week, m)
  }

  predicate AceHit(a: AceRow, players: map<int, Player>, week: int, m: int) {
    a.week == week && a.matchNumber == m && a.homePlayer in players && a.awayPlayer in players
  }

  // ---------------------------------------------------------------------
  // The join and the pack

  /** One row of the join of `matches` and `set_results`. */
  datatype Joined = Joined(m: MatchRow, s: SetResultRow)

  predicate InJoin(j: Joined, week: int) {
    j.m.week == week && j.s.week == week && j.s.matchNumber == j.m.matchNumber
  }

  function JoinMatch(mr: MatchRow, results: seq<SetResultRow>, week: int): (r: seq<Joined>)
    ensures forall j :: j in r <==> j.m == mr && j.s in results && InJoin(j, week)
    decreases |results|
  {
    if |results| == 0 then []
    else (if InJoin(Joined(mr, results[0]), week) then [Joined(mr, results[0])] else [])
         + JoinMatch(mr, results[1..], week)
  }

  /** `matches m JOIN set_results s ON m.match_number = s.match_number AND m.week = ?
      AND s.week = ?`, enumerated match row by match row. */
  function Join(matches: seq<MatchRow>, results: seq<SetResultRow>, week: int): (r: seq<Joined>)
    ensures forall j :: j in r <==> j.m in matches && j.s in results && InJoin(j, week)
    decreases |matches|
  {
    if |matches| == 0 then [] else JoinMatch(matches[0], results, week) + Join(matches[1..], results, week)
  }

  /** The player names for one set: the lineups for sets 1-4, the ace row for set 5. */
  function SetPlayers(db: Db, week: int, j: Joined): (r: Reply<(string, string)>)
    ensures !r.Refused?
    ensures r.Crashed? ==> r.fault == NoLineupEntry || r.fault == NoAceEntry
    ensures j.s.setNumber < NumSets ==>
              (r.Done? <==> (exists i :: 0 <= i < |db.lineups| && LineupHit(db.lineups[i], db.players, week, j.m.homeTeam, j.s.setNumber))
                            && (exists i :: 0 <= i < |db.lineups| && LineupHit(db.lineups[i], db.players, week, j.m.awayTeam, j.s.setNumber)))
    ensures j.s.setNumber >= NumSets ==>
              (r.Done? <==> exists i :: 0 <= i < |db.aces| && AceHit(db.aces[i], db.players, week, j.m.matchNumber))
    ensures r.Done? && j.s.setNumber < NumSets ==>
              r.value == (LineupName(db.lineups, db.players, week, j.m.homeTeam, j.s.setNumber).value,
                          LineupName(db.lineups, db.players, week, j.m.awayTeam, j.s.setNumber).value)
    ensures r.Done? && j.s.setNumber >= NumSets ==>
              r.value == AceNames(db.aces, db.players, week, j.m.matchNumber).value
  {
    if j.s.setNumber < NumSets then
      match LineupName(db.lineups, db.players, week, j.m.homeTeam, j.s.setNumber)
      case None => Crashed(NoLineupEntry)
      case Some(hp) =>
        match LineupName(db.lineups, db.players, week, j.m.awayTeam, j.s.setNumber)
        case None => Crashed(NoLineupEntry)
        case Some(ap) => Done((hp, ap))
    else
      match AceNames(db.aces, db.players, week, j.m.matchNumber)
      case None => Crashed(NoAceEntry)
      case Some(names) => Done(names)
  }

  /** The joined row carries a digest (`if not replayhash: continue` skips the others). */
  predicate HasDigest(j: Joined) {
    j.s.replayHash.Some? && j.s.replayHash.value != ""
  }

  /** Everything the member of a row with a digest needs: the players' names,
      both team rows and the stored file. */
  predicate RowReady(db: Db, blobs: Blobs, week: int, j: Joined) {
    && SetPlayers(db, week, j).Done?
    && j.m.homeTeam in db.teams && j.m.awayTeam in db.teams
    && j.s.replayHash.Some? && j.s.replayHash.value in blobs
  }

  /** The member written for a ready row. */
  function PackMember(db: Db, blobs: Blobs, season: string, week: int, j: Joined): Entry
    requires RowReady(db, blobs, week, j)
  {
    var names := SetPlayers(db, week, j).value;
    Entry(PackPath(season, week, j.m.matchNumber, db.teams[j.m.homeTeam].name,
                   db.teams[j.m.awayTeam].name, j.s.setNumber, names.0, names.1),
          blobs[j.s.replayHash.value])
  }

  /** The body of the loop at ahgl_admin.py:826-840 for one joined row. */
  function PackStep(db: Db, blobs: Blobs, season: string, week: int, j: Joined): (r: Reply<Option<Entry>>)
    ensures !r.Refused?
    ensures r == Done(None) <==> !HasDigest(j)
    ensures r.Done? <==> !HasDigest(j) || RowReady(db, blobs, week, j)
    ensures r.Done? && HasDigest(j) ==> r == Done(Some(PackMember(db, blobs, season, week, j)))
    ensures r == Crashed(MissingReplayFile) ==> j.s.replayHash.Some? && j.s.replayHash.value !in blobs
    ensures r.Crashed? ==> IsPackFault(r.fault)
  {
    var hash := j.s.replayHash;
    if hash.None? || hash.value == "" then Done(None)
    else match SetPlayers(db, week, j)
      case Refused(e) => Refused(e)
      case Crashed(f) => Crashed(f)
      case Done(names) =>
        if j.m.homeTeam !in db.teams || j.m.awayTeam !in db.teams then Crashed(NoSuchTeam)
        else if hash.value !in blobs then Crashed(MissingReplayFile)
        else Done(Some(PackMember(db, blobs, season, week, j)))
  }

  /** The loop body as a function of the joined row. */
  function PackStepOf(db: Db, blobs: Blobs, season: string, week: int): (step: Joined -> Reply<Option<Entry>>)
    ensures forall j :: step(j) == PackStep(db, blobs, season, week, j)
  {
    j => PackStep(db, blobs, season, week, j)
  }

  /** The replay pack of `week`. */
  function ReplayPack(db: Db, blobs: Blobs, season: string, week: int): (r: Reply<seq<Entry>>)
    ensures r.Done? ==> |r.value| <= |Join(db.matches, db.setResults, week)|
  {
    Gather(Join(db.matches, db.setResults, week), PackStepOf(db, blobs, season, week))
  }

  /** The faults the pack can stop with: a `KeyError` on `lineups[team][set]`,
      `aces[match]` or `teams[...]`, or a missing replay file. A lineup or ace
      row naming a player who is not in `players` drops out of the join with
      `players`, so a missing player shows up as `NoLineupEntry` or
      `NoAceEntry`. */
  predicate IsPackFault(f: Fault) {
    f == NoLineupEntry || f == NoAceEntry || f == NoSuchTeam || f == MissingReplayFile
  }

  /** The pack never answers with a refusal, and a crash is one of the pack's
      own lookups failing: rows without a digest are skipped before any lookup,
      so a NULL digest never reaches `+ ".SC2Replay"`. */
  lemma ReplayPackNeverRefused(db: Db, blobs: Blobs, season: string, week: int)
    ensures var r := ReplayPack(db, blobs, season, week);
            !r.Refused? && (r.Crashed? ==> IsPackFault(r.fault))
  {
    var step := PackStepOf(db, blobs, season, week);
    var js := Join(db.matches, db.setResults, week);
    GatherMeaning(js, step);
    var r := ReplayPack(db, blobs, season, week);
    if r.Crashed? {
      var i :| 0 <= i < |js| && step(js[i]) == Crashed(r.fault) && forall k :: 0 <= k < i ==> step(js[k]).Done?;
      assert PackStep(db, blobs, season, week, js[i]) == Crashed(r.fault);
    }
  }

  /** The pack is built exactly when every joined row with a digest has its
      players' names, its team rows and its file. */
  lemma ReplayPackBuilt(db: Db, blobs: Blobs, season: string, week: int)
    ensures ReplayPack(db, blobs, season, week).Done? <==>
              forall j :: j in Join(db.matches, db.setResults, week) && HasDigest(j) ==> RowReady(db, blobs, week, j)
  {
    var step := PackStepOf(db, blobs, season, week);
    var js := Join(db.matches, db.setResults, week);
    GatherMeaning(js, step);
    if forall j :: j in js && HasDigest(j) ==> RowReady(db, blobs, week, j) {
      forall i | 0 <= i < |js| ensures step(js[i]).Done? {
        assert js[i] in js;
      }
    } else {
      var j :| j in js && HasDigest(j) && !RowReady(db, blobs, week, j);
      var i :| 0 <= i < |js| && js[i] == j;
      assert !step(js[i]).Done?;
    }
  }

  /** When every stored digest names a file of the data directory, the pack never
      fails for want of a file: a crash can only come from a missing lineup, ace
      or team row. */
  lemma ReplayPackFindsFiles(db: Db, blobs: Blobs, season: string, week: int)
    requires HashesStored(State(db, blobs))
    ensures ReplayPack(db, blobs, season, week) != Crashed(MissingReplayFile)
  {
    var step := PackStepOf(db, blobs, season, week);
    var js := Join(db.matches, db.setResults, week);
    GatherMeaning(js, step);
    forall i | 0 <= i < |js| ensures step(js[i]) != Crashed(MissingReplayFile) {
      assert js[i] in js;
    }
  }

  /** Every member of a built pack is the member of a joined row with a digest. */
  lemma ReplayPackMemberOf(db: Db, blobs: Blobs, season: string, week: int, e: Entry)
    requires ReplayPack(db, blobs, season, week).Done?
    requires e in ReplayPack(db, blobs, season, week).value
    ensures exists j :: j in Join(db.matches, db.setResults, week) && HasDigest(j) && RowReady(db, blobs, week, j)
                        && e == PackMember(db, blobs, season, week, j)
  {
    var step := PackStepOf(db, blobs, season, week);
    var js := Join(db.matches, db.setResults, week);
    GatherMeaning(js, step);
    var i :| 0 <= i < |js| && step(js[i]) == Done(Some(e));
    assert js[i] in js;
  }

  /** In a content-addressed store every member's bytes hash to the digest of
      the row it came from. */
  lemma ReplayPackContent(db: Db, blobs: Blobs, season: string, week: int, sha1: Bytes -> Digest)
    requires ContentAddressed(blobs, sha1)
    requires ReplayPack(db, blobs, season, week).Done?
    ensures forall e :: e in ReplayPack(db, blobs, season, week).value ==>
              exists j :: j in Join(db.matches, db.setResults, week) && j.s.replayHash.Some?
                          && sha1(e.content) == j.s.replayHash.value
  {
    forall e | e in ReplayPack(db, blobs, season, week).value
      ensures exists j :: j in Join(db.matches, db.setResults, week) && j.s.replayHash.Some?
                          && sha1(e.content) == j.s.replayHash.value
    {
      ReplayPackMemberOf(db, blobs, season, week, e);
    }
  }

  /** Conversely, every joined row with a digest has its member in a built
      pack, under the path naming its match, teams, set and players. */
  lemma ReplayPackHasRow(db: Db, blobs: Blobs, season: string, week: int, j: Joined)
    requires ReplayPack(db, blobs, season, week).Done?
    requires j in Join(db.matches, db.setResults, week) && HasDigest(j)
    ensures RowReady(db, blobs, week, j)
    ensures Entry(PackPath(season, week, j.m.matchNumber, db.teams[j.m.homeTeam].name, db.teams[j.m.awayTeam].name,
                           j.s.setNumber, SetPlayers(db, week, j).value.0, SetPlayers(db, week, j).value.1),
                  blobs[j.s.replayHash.value])
            in ReplayPack(db, blobs, season, week).value
  {
    ReplayPackBuilt(db, blobs, season, week);
    var step := PackStepOf(db, blobs, season, week);
    var js := Join(db.matches, db.setResults, week);
    GatherMeaning(js, step);
    var i :| 0 <= i < |js| && js[i] == j;
    assert step(js[i]) == Done(Some(PackMember(db, blobs, season, week, j)));
  }
}
