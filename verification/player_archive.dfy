/** `get_player_replays` (ahgl_admin.py:739-786): the zip file of every replay
    of the sets one player was listed for, as a lineup member or as an ace,
    visited in sorted `(week, match, set)` order. */
module PlayerArchive {

  import opened Replies
  import opened Text
  import opened ReplayStore
  import opened Schema
  import opened Archives
  import opened ResultRecorder

  /** A `(week, match_number, set_number)` tuple of the two queries. */
  datatype Triple = Triple(week: int, matchNumber: int, setNumber: int)

  // ---------------------------------------------------------------------
  // The player's sets

  predicate ListedIn(mr: MatchRow, l: LineupRow, p: int) {
    l.player == p && mr.week == l.week && (mr.homeTeam == l.team || mr.awayTeam == l.team)
  }

  function LineupTriplesFor(mr: MatchRow, lineups: seq<LineupRow>, p: int): (r: seq<Triple>)
    ensures forall t :: t in r <==>
              exists l :: l in lineups && ListedIn(mr, l, p) && t == Triple(mr.week, mr.matchNumber, l.setNumber)
    decreases |lineups|
  {
    if |lineups| == 0 then []
    else
      (if ListedIn(mr, lineups[0], p) then [Triple(mr.week, mr.matchNumber, lineups[0].setNumber)] else [])
      + LineupTriplesFor(mr, lineups[1..], p)
  }

  /** `matches m JOIN lineup l ON m.week = l.week AND (m.home_team = l.team OR
      m.away_team = l.team) WHERE player = ?`: the sets of every match of a week
      in which the player's team lined them up. */
  function LineupTriples(matches: seq<MatchRow>, lineups: seq<LineupRow>, p: int): (r: seq<Triple>)
    ensures forall t :: t in r <==>
              exists mr, l :: mr in matches && l in lineups && ListedIn(mr, l, p)
                              && t == Triple(mr.week, mr.matchNumber, l.setNumber)
    decreases |matches|
  {
    if |matches| == 0 then [] else LineupTriplesFor(matches[0], lineups, p) + LineupTriples(matches[1..], lineups, p)
  }

  /** `SELECT week, match_number, 5 FROM ace_matches WHERE home_player = ? OR away_player = ?`. */
  function AceTriples(aces: seq<AceRow>, p: int): (r: seq<Triple>)
    ensures forall t :: t in r <==>
              exists a :: a in aces && (a.homePlayer == p || a.awayPlayer == p)
                          && t == Triple(a.week, a.matchNumber, NumSets)
    decreases |aces|
  {
    if |aces| == 0 then []
    else
      (if aces[0].homePlayer == p || aces[0].awayPlayer == p then [Triple(aces[0].week, aces[0].matchNumber, NumSets)] else [])
      + AceTriples(aces[1..], p)
  }

  // ---------------------------------------------------------------------
  // `sorted()` on tuples

  /** Python's tuple order. */
  predicate TripleLe(a: Triple, b: Triple) {
    a.week < b.week
    || (a.week == b.week && (a.matchNumber < b.matchNumber
                             || (a.matchNumber == b.matchNumber && a.setNumber <= b.setNumber)))
  }

  predicate Sorted(ts: seq<Triple>) {
    forall i, j :: 0 <= i < j < |ts| ==> TripleLe(ts[i], ts[j])
  }

  function Insert(t: Triple, ts: seq<Triple>): (r: seq<Triple>)
    requires Sorted(ts)
    ensures Sorted(r)
    ensures multiset(r) == multiset(ts) + multiset{t}
    decreases |ts|
  {
    if |ts| == 0 then [t]
    else if TripleLe(t, ts[0]) then [t] + ts
    else
      var rest := Insert(t, ts[1..]);
      assert ts == [ts[0]] + ts[1..];
      assert forall k :: 0 <= k < |rest| ==> TripleLe(ts[0], rest[k]) by {
        forall k | 0 <= k < |rest| ensures TripleLe(ts[0], rest[k]) {
          assert rest[k] in multiset(rest);
          assert rest[k] in multiset(ts[1..]) + multiset{t};
          if rest[k] != t {
            var j :| 0 <= j < |ts[1..]| && ts[1..][j] == rest[k];
            assert ts[j + 1] == rest[k];
          }
        }
      }
      [ts[0]] + rest
  }

  /** `sorted(ts)`: insertion sort; any sort gives the same list (`SortedUnique`). */
  function Sort(ts: seq<Triple>): (r: seq<Triple>)
    ensures Sorted(r)
    ensures multiset(r) == multiset(ts)
    decreases |ts|
  {
    if |ts| == 0 then []
    else
      assert ts == [ts[0]] + ts[1..];
      Insert(ts[0], Sort(ts[1..]))
  }

  lemma TripleLeAntisymmetric(a: Triple, b: Triple)
    requires TripleLe(a, b) && TripleLe(b, a)
    ensures a == b
  {
  }

  /** The head of a sorted list is at most any of its elements. */
  lemma SortedHeadIsLeast(a: seq<Triple>, t: Triple)
    requires Sorted(a) && t in multiset(a)
    ensures |a| > 0 && TripleLe(a[0], t)
  {
    var i :| 0 <= i < |a| && a[i] == t;
    if i > 0 { assert TripleLe(a[0], a[i]); }
  }

  /** Two sorted lists with the same elements are equal: the sorted order of a
      list of tuples is unique. */
  lemma {:induction false} SortedUnique(a: seq<Triple>, b: seq<Triple>)
    requires Sorted(a) && Sorted(b) && multiset(a) == multiset(b)
    ensures a == b
    decreases |a|
  {
    if |a| > 0 {
      assert |b| == |multiset(b)| == |multiset(a)| == |a|;
      SortedHeadIsLeast(b, a[0]);
      SortedHeadIsLeast(a, b[0]);
      TripleLeAntisymmetric(a[0], b[0]);
      assert a == [a[0]] + a[1..];
      assert b == [b[0]] + b[1..];
      assert multiset(a[1..]) == multiset(a) - multiset{a[0]};
      assert multiset(b[1..]) == multiset(b) - multiset{b[0]};
      SortedUnique(a[1..], b[1..]);
    }
  }

  // ---------------------------------------------------------------------
  // One set's member

  predicate ResultHit(row: SetResultRow, t: Triple) {
    row.week == t.week && row.matchNumber == t.matchNumber && row.setNumber == t.setNumber
  }

  /** The `replay_hash` column of the first `set_results` row of the set, or
      `None` when the set has no row ("in a lineup, but game was not played"). */
  function FirstHash(results: seq<SetResultRow>, t: Triple): (r: Option<Option<string>>)
    ensures r.None? <==> forall i :: 0 <= i < |results| ==> !ResultHit(results[i], t)
    ensures r.Some? ==> exists i :: 0 <= i < |results| && ResultHit(results[i], t)
                                    && r.value == results[i].replayHash
                                    && forall j :: 0 <= j < i ==> !ResultHit(results[j], t)
    decreases |results|
  {
    if |results| == 0 then None
    else if ResultHit(results[0], t) then Some(results[0].replayHash)
    else
      var r := FirstHash(results[1..], t);
      assert forall i :: 1 <= i < |results| ==> results[i] == results[1..][i - 1];
      r
  }

  /** The set has a `set_results` row whose `replay_hash` is not NULL. */
  predicate HashRecorded(results: seq<SetResultRow>, t: Triple) {
    FirstHash(results, t).Some? && FirstHash(results, t).value.Some?
  }

  /** That row's `replay_hash`. */
  function RecordedHash(results: seq<SetResultRow>, t: Triple): string
    requires HashRecorded(results, t)
  {
    FirstHash(results, t).value.value
  }

  /** The set was stored with a replay: its hash is neither NULL nor empty. */
  predicate HasReplay(results: seq<SetResultRow>, t: Triple) {
    HashRecorded(results, t) && RecordedHash(results, t) != ""
  }

  /** `prefix + "/Week%d-Set%d.SC2Replay" % (w, s)`. */
  function MemberPath(prefix: string, t: Triple): (r: string)
    ensures |r| >= |prefix| + 19 && r[..|prefix| + 5] == prefix + "/Week"
    ensures r[|r| - 10..] == ".SC2Replay"
  {
    prefix + "/Week" + IntToString(t.week) + "-Set" + IntToString(t.setNumber) + ".SC2Replay"
  }

  /** The loop body at ahgl_admin.py:768-782 as written: a row whose hash is
      NULL reaches `None + ".SC2Replay"` and crashes the handler. */
  function MemberStep(results: seq<SetResultRow>, blobs: Blobs, prefix: string, t: Triple): (r: Reply<Option<Entry>>)
    ensures !r.Refused?
    ensures r == Crashed(NullReplayHash) <==> FirstHash(results, t) == Some(None)
    ensures r == Done(None) <==> FirstHash(results, t).None?
    ensures HashRecorded(results, t) && RecordedHash(results, t) in blobs ==>
              r == Done(Some(Entry(MemberPath(prefix, t), blobs[RecordedHash(results, t)])))
    ensures HashRecorded(results, t) && RecordedHash(results, t) !in blobs ==> r == Crashed(MissingReplayFile)
  {
    match FirstHash(results, t)
    case None => Done(None)
    case Some(None) => Crashed(NullReplayHash)
    case Some(Some(h)) =>
      if h in blobs then Done(Some(Entry(MemberPath(prefix, t), blobs[h]))) else Crashed(MissingReplayFile)
  }

  /** The loop body as it is evidently meant: a set stored without a replay is
      skipped, as the week pack skips it. */
  function MemberStepSkipping(results: seq<SetResultRow>, blobs: Blobs, prefix: string, t: Triple): (r: Reply<Option<Entry>>)
    ensures !r.Refused? && r != Crashed(NullReplayHash)
    ensures r == Done(None) <==> (FirstHash(results, t).None? || FirstHash(results, t) == Some(None)
                                  || FirstHash(results, t) == Some(Some("")))
    ensures HasReplay(results, t) && RecordedHash(results, t) in blobs ==>
              r == Done(Some(Entry(MemberPath(prefix, t), blobs[RecordedHash(results, t)])))
    ensures HasReplay(results, t) && RecordedHash(results, t) !in blobs ==> r == Crashed(MissingReplayFile)
  {
    match FirstHash(results, t)
    case None => Done(None)
    case Some(None) => Done(None)
    case Some(Some(h)) =>
      if h == "" then Done(None)
      else if h in blobs then Done(Some(Entry(MemberPath(prefix, t), blobs[h]))) else Crashed(MissingReplayFile)
  }

  function MemberStepOf(results: seq<SetResultRow>, blobs: Blobs, prefix: string): (step: Triple -> Reply<Option<Entry>>)
    ensures forall t :: step(t) == MemberStep(results, blobs, prefix, t)
  {
    t => MemberStep(results, blobs, prefix, t)
  }

  function MemberStepSkippingOf(results: seq<SetResultRow>, blobs: Blobs, prefix: string): (step: Triple -> Reply<Option<Entry>>)
    ensures forall t :: step(t) == MemberStepSkipping(results, blobs, prefix, t)
  {
    t => MemberStepSkipping(results, blobs, prefix, t)
  }

  // ---------------------------------------------------------------------
  // The archive

  /** The sets the archive visits, in the order it visits them. */
  function Visits(db: Db, p: int): (ts: seq<Triple>)
    ensures Sorted(ts)
    ensures multiset(ts) == multiset(LineupTriples(db.matches, db.lineups, p) + AceTriples(db.aces, p))
  {
    Sort(LineupTriples(db.matches, db.lineups, p) + AceTriples(db.aces, p))
  }

  /** `"AHGL_S%s_%s" % (season, cleanit(name))`. */
  function Prefix(season: string, name: string): (r: string)
    ensures |r| >= 7 + |season| && r[..6 + |season|] == "AHGL_S" + season
    ensures r[6 + |season|] == '_' && r[7 + |season|..] == Clean(name)
    ensures AllAlnum(r[7 + |season|..]) && |r| - 7 - |season| <= |name|
  {
    "AHGL_S" + season + "_" + Clean(name)
  }

  /** The handler as written. */
  function PlayerReplays(db: Db, blobs: Blobs, season: string, p: int): (r: Reply<seq<Entry>>)
    ensures p !in db.players <==> r == Crashed(NoSuchPlayer)
  {
    if p !in db.players then Crashed(NoSuchPlayer)
    else
      var r := Gather(Visits(db, p), MemberStepOf(db.setResults, blobs, Prefix(season, db.players[p].name)));
      GatherMeaning(Visits(db, p), MemberStepOf(db.setResults, blobs, Prefix(season, db.players[p].name)));
      r
  }

  /** The handler with a set stored without a replay skipped. */
  function PlayerReplaysSkipping(db: Db, blobs: Blobs, season: string, p: int): (r: Reply<seq<Entry>>)
    ensures p !in db.players <==> r == Crashed(NoSuchPlayer)
  {
    if p !in db.players then Crashed(NoSuchPlayer)
    else
      var r := Gather(Visits(db, p), MemberStepSkippingOf(db.setResults, blobs, Prefix(season, db.players[p].name)));
      GatherMeaning(Visits(db, p), MemberStepSkippingOf(db.setResults, blobs, Prefix(season, db.players[p].name)));
      r
  }

  // ---------------------------------------------------------------------
  // Properties

  /** The sets visited are exactly the player's lineup and ace sets. */
  lemma VisitsAreListedSets(db: Db, p: int)
    ensures forall t :: t in Visits(db, p) <==>
              (exists mr, l :: mr in db.matches && l in db.lineups && ListedIn(mr, l, p)
                               && t == Triple(mr.week, mr.matchNumber, l.setNumber))
              || (exists a :: a in db.aces && (a.homePlayer == p || a.awayPlayer == p)
                              && t == Triple(a.week, a.matchNumber, NumSets))
  {
    var all := LineupTriples(db.matches, db.lineups, p) + AceTriples(db.aces, p);
    forall t ensures t in Visits(db, p) <==> t in all {
      assert t in Visits(db, p) <==> t in multiset(Visits(db, p));
      assert t in all <==> t in multiset(all);
    }
  }

  /** As written, the archive is built only if no set the player is listed for
      was stored without a replay: one such set crashes the whole download. */
  lemma PlayerReplaysNeedsEveryReplay(db: Db, blobs: Blobs, season: string, p: int, t: Triple)
    requires t in Visits(db, p) && FirstHash(db.setResults, t) == Some(None)
    ensures !PlayerReplays(db, blobs, season, p).Done?
  {
    if p in db.players {
      var ts := Visits(db, p);
      var step := MemberStepOf(db.setResults, blobs, Prefix(season, db.players[p].name));
      GatherMeaning(ts, step);
      var i :| 0 <= i < |ts| && ts[i] == t;
      assert step(ts[i]) == Crashed(NullReplayHash);
    }
  }

  /** A concrete store reached by an ordinary submission: player 1 was lined up
      for set 1 of match 1 of week 1, and the result was entered without a
      replay for that set. The archive as written crashes; the skipping one
      yields an empty archive. */
  lemma NullHashCrashesArchive(blobs: Blobs)
    ensures var db := Db(map[1 := Team("Home"), 2 := Team("Away")],
                         map[1 := Player(1, "implausible", 1)],
                         [MatchRow(1, 1, 1, 2)],
                         [LineupRow(1, 1, 1, 1, "P")],
                         [SetResultRow(1, 1, 1, 1, 0, 0, None)],
                         [], [MapRow(1, 1, 1)], []);
            PlayerReplays(db, blobs, "2", 1) == Crashed(NullReplayHash)
            && PlayerReplaysSkipping(db, blobs, "2", 1) == Done([])
  {
    var db := Db(map[1 := Team("Home"), 2 := Team("Away")],
                 map[1 := Player(1, "implausible", 1)],
                 [MatchRow(1, 1, 1, 2)],
                 [LineupRow(1, 1, 1, 1, "P")],
                 [SetResultRow(1, 1, 1, 1, 0, 0, None)],
                 [], [MapRow(1, 1, 1)], []);
    var t := Triple(1, 1, 1);
    assert LineupTriples(db.matches, db.lineups, 1) == [t];
    assert AceTriples(db.aces, 1) == [];
    assert [t] + [] == [t];
    var ts := Visits(db, 1);
    SortedUnique(ts, [t]);
    assert FirstHash(db.setResults, t) == Some(None);
    var prefix := Prefix("2", "implausible");
    assert Gather([t], MemberStepOf(db.setResults, blobs, prefix)) == Crashed(NullReplayHash);
    assert Gather([t], MemberStepSkippingOf(db.setResults, blobs, prefix)) == Gather([t][1..], MemberStepSkippingOf(db.setResults, blobs, prefix));
    assert [t][1..] == [];
  }

  /** The skipping archive never meets a NULL hash, and when every stored digest
      names a file it cannot crash at all for an existing player. */
  lemma SkippingNeverCrashes(db: Db, blobs: Blobs, season: string, p: int)
    requires HashesStored(State(db, blobs))
    ensures PlayerReplaysSkipping(db, blobs, season, p).Crashed? ==> p !in db.players
  {
    if p in db.players {
      var ts := Visits(db, p);
      var step := MemberStepSkippingOf(db.setResults, blobs, Prefix(season, db.players[p].name));
      GatherMeaning(ts, step);
      forall i | 0 <= i < |ts| ensures step(ts[i]).Done? {
        var fh := FirstHash(db.setResults, ts[i]);
        if fh.Some? && fh.value.Some? && fh.value.value != "" {
          var k :| 0 <= k < |db.setResults| && ResultHit(db.setResults[k], ts[i]) && fh.value == db.setResults[k].replayHash;
        }
      }
    }
  }

  /** Where the archive as written is built, the skipping one builds the same;
      the two differ only where the written one crashes. */
  lemma SkippingAgrees(db: Db, blobs: Blobs, season: string, p: int)
    requires PlayerReplays(db, blobs, season, p).Done?
    ensures PlayerReplaysSkipping(db, blobs, season, p) == PlayerReplays(db, blobs, season, p)
  {
    var ts := Visits(db, p);
    var prefix := Prefix(season, db.players[p].name);
    var f := MemberStepOf(db.setResults, blobs, prefix);
    var g := MemberStepSkippingOf(db.setResults, blobs, prefix);
    forall i | 0 <= i < |ts| && f(ts[i]).Done? ensures g(ts[i]) == f(ts[i]) {
      MemberStepsAgree(db.setResults, blobs, prefix, ts[i]);
    }
    GatherAgrees(ts, f, g);
  }

  /** Where the written loop body finishes, the skipping one gives the same:
      no digest is the empty text, so an empty hash never named a file. */
  lemma MemberStepsAgree(results: seq<SetResultRow>, blobs: Blobs, prefix: string, t: Triple)
    requires MemberStep(results, blobs, prefix, t).Done?
    ensures MemberStepSkipping(results, blobs, prefix, t) == MemberStep(results, blobs, prefix, t)
  {
  }

  /** Every member of a built archive is the file of one visited set, under the
      path naming its week and set, and its bytes hash to that set's digest in a
      content-addressed store. */
  lemma SkippingMembers(db: Db, blobs: Blobs, season: string, p: int, sha1: Bytes -> Digest)
    requires ContentAddressed(blobs, sha1)
    requires PlayerReplaysSkipping(db, blobs, season, p).Done?
    ensures forall e :: e in PlayerReplaysSkipping(db, blobs, season, p).value ==>
              exists t :: t in Visits(db, p) && e.path == MemberPath(Prefix(season, db.players[p].name), t)
                          && FirstHash(db.setResults, t).Some? && FirstHash(db.setResults, t).value.Some?
                          && sha1(e.content) == FirstHash(db.setResults, t).value.value
  {
    var prefix := Prefix(season, db.players[p].name);
    assert PlayerReplaysSkipping(db, blobs, season, p)
           == Gather(Visits(db, p), MemberStepSkippingOf(db.setResults, blobs, prefix));
    SkippingMembersOf(db.setResults, blobs, prefix, Visits(db, p), sha1);
  }

  lemma SkippingMembersOf(results: seq<SetResultRow>, blobs: Blobs, prefix: string, ts: seq<Triple>,
                          sha1: Bytes -> Digest)
    requires ContentAddressed(blobs, sha1)
    requires Gather(ts, MemberStepSkippingOf(results, blobs, prefix)).Done?
    ensures forall e :: e in Gather(ts, MemberStepSkippingOf(results, blobs, prefix)).value ==>
              exists t :: t in ts && e.path == MemberPath(prefix, t)
                          && FirstHash(results, t).Some? && FirstHash(results, t).value.Some?
                          && sha1(e.content) == FirstHash(results, t).value.value
  {
    var g := MemberStepSkippingOf(results, blobs, prefix);
    GatherMeaning(ts, g);
    forall e | e in Gather(ts, g).value
      ensures exists t :: t in ts && e.path == MemberPath(prefix, t)
                          && FirstHash(results, t).Some? && FirstHash(results, t).value.Some?
                          && sha1(e.content) == FirstHash(results, t).value.value
    {
      var i :| 0 <= i < |ts| && g(ts[i]) == Done(Some(e));
      assert ts[i] in ts;
    }
  }

  /** A member path determines the week and the set it was written for. */
  lemma MemberPathDeterminesWeekAndSet(prefix: string, t: Triple, u: Triple)
    requires MemberPath(prefix, t) == MemberPath(prefix, u)
    ensures t.week == u.week && t.setNumber == u.setNumber
  {
    var p := prefix + "/Week";
    var x, y := MemberPathSplit(prefix, t);
    var x', y' := MemberPathSplit(prefix, u);
    assert x + ['S'] + y == MemberPath(prefix, t)[|p|..];
    assert x' + ['S'] + y' == MemberPath(prefix, u)[|p|..];
    NoCapitalS(t.week);
    NoCapitalS(u.week);
    SplitAtSeparator(x, y, x', y', 'S');
    assert IntToString(t.week) == x[..|x| - 1];
    assert IntToString(u.week) == x'[..|x'| - 1];
    IntToStringInjective(t.week, u.week);
    assert IntToString(t.setNumber) == y[2..|y| - 10];
    assert IntToString(u.setNumber) == y'[2..|y'| - 10];
    IntToStringInjective(t.setNumber, u.setNumber);
  }

  /** The member path cut at the capital `S` of `-Set`. */
  lemma MemberPathSplit(prefix: string, t: Triple) returns (x: string, y: string)
    ensures x == IntToString(t.week) + "-" && y == "et" + IntToString(t.setNumber) + ".SC2Replay"
    ensures MemberPath(prefix, t) == prefix + "/Week" + (x + ['S'] + y)
  {
    x := IntToString(t.week) + "-";
    y := "et" + IntToString(t.setNumber) + ".SC2Replay";
    var w, n := IntToString(t.week), IntToString(t.setNumber);
    assert "-Set" == "-" + ['S'] + "et";
    calc {
      MemberPath(prefix, t);
      prefix + "/Week" + w + "-Set" + n + ".SC2Replay";
      { assert w + "-Set" + n + ".SC2Replay" == x + ['S'] + y; }
      prefix + "/Week" + (x + ['S'] + y);
    }
  }

  lemma NoCapitalS(n: int)
    ensures 'S' !in IntToString(n)
  {
    if n < 0 {
      DigitsHaveNo(IntToString(n)[1..], 'S');
      assert IntToString(n) == [IntToString(n)[0]] + IntToString(n)[1..];
    } else {
      DigitsHaveNo(IntToString(n), 'S');
    }
  }

  /** As written, the archive of an existing player is built exactly when no
      visited set has a NULL hash and every recorded hash names a stored file. */
  lemma PlayerReplaysBuilt(db: Db, blobs: Blobs, season: string, p: int)
    requires p in db.players
    ensures PlayerReplays(db, blobs, season, p).Done? <==>
              forall t :: t in Visits(db, p) ==>
                FirstHash(db.setResults, t) != Some(None)
                && (HashRecorded(db.setResults, t) ==> RecordedHash(db.setResults, t) in blobs)
  {
    var ts := Visits(db, p);
    var prefix := Prefix(season, db.players[p].name);
    var step := MemberStepOf(db.setResults, blobs, prefix);
    GatherMeaning(ts, step);
    if PlayerReplays(db, blobs, season, p).Done? {
      forall t | t in ts
        ensures FirstHash(db.setResults, t) != Some(None)
        ensures HashRecorded(db.setResults, t) ==> RecordedHash(db.setResults, t) in blobs
      {
        var i :| 0 <= i < |ts| && ts[i] == t;
        assert MemberStep(db.setResults, blobs, prefix, t).Done?;
      }
    } else {
      var i :| 0 <= i < |ts| && !step(ts[i]).Done?;
      var t := ts[i];
      assert !MemberStep(db.setResults, blobs, prefix, t).Done?;
      assert t in ts;
    }
  }

  /** The skipping archive of an existing player is built exactly when every
      visited set stored with a replay names a stored file. */
  lemma PlayerReplaysSkippingBuilt(db: Db, blobs: Blobs, season: string, p: int)
    requires p in db.players
    ensures PlayerReplaysSkipping(db, blobs, season, p).Done? <==>
              forall t :: t in Visits(db, p) && HasReplay(db.setResults, t) ==> RecordedHash(db.setResults, t) in blobs
  {
    var ts := Visits(db, p);
    var prefix := Prefix(season, db.players[p].name);
    var step := MemberStepSkippingOf(db.setResults, blobs, prefix);
    GatherMeaning(ts, step);
    if PlayerReplaysSkipping(db, blobs, season, p).Done? {
      forall t | t in ts && HasReplay(db.setResults, t) ensures RecordedHash(db.setResults, t) in blobs {
        var i :| 0 <= i < |ts| && ts[i] == t;
        assert MemberStepSkipping(db.setResults, blobs, prefix, t).Done?;
      }
    } else {
      var i :| 0 <= i < |ts| && !step(ts[i]).Done?;
      var t := ts[i];
      assert !MemberStepSkipping(db.setResults, blobs, prefix, t).Done?;
      assert t in ts && HasReplay(db.setResults, t) && RecordedHash(db.setResults, t) !in blobs;
    }
  }

  /** The zip lists its members in the sorted order of the visited sets: of
      two visited sets with a recorded replay, the earlier one's file comes
      first in a built archive. */
  lemma PlayerReplaysInVisitOrder(db: Db, blobs: Blobs, season: string, p: int, i: int, k: int)
    requires PlayerReplays(db, blobs, season, p).Done?
    requires 0 <= i < k < |Visits(db, p)|
    requires HashRecorded(db.setResults, Visits(db, p)[i]) && HashRecorded(db.setResults, Visits(db, p)[k])
    ensures var ts, v := Visits(db, p), PlayerReplays(db, blobs, season, p).value;
            var prefix := Prefix(season, db.players[p].name);
            && TripleLe(ts[i], ts[k])
            && RecordedHash(db.setResults, ts[i]) in blobs && RecordedHash(db.setResults, ts[k]) in blobs
            && exists a, b :: 0 <= a < b < |v|
                 && v[a] == Entry(MemberPath(prefix, ts[i]), blobs[RecordedHash(db.setResults, ts[i])])
                 && v[b] == Entry(MemberPath(prefix, ts[k]), blobs[RecordedHash(db.setResults, ts[k])])
  {
    var ts := Visits(db, p);
    var step := MemberStepOf(db.setResults, blobs, Prefix(season, db.players[p].name));
    GatherMeaning(ts, step);
    assert step(ts[i]).Done? && step(ts[k]).Done?;
    GatherKeepsOrder(ts, step, i, k,
                     Entry(MemberPath(Prefix(season, db.players[p].name), ts[i]), blobs[RecordedHash(db.setResults, ts[i])]),
                     Entry(MemberPath(Prefix(season, db.players[p].name), ts[k]), blobs[RecordedHash(db.setResults, ts[k])]));
  }

  /** A built archive holds the replay of every visited set that was stored
      with one, under that set's member path. */
  lemma PlayerReplaysHasSet(db: Db, blobs: Blobs, season: string, p: int, t: Triple)
    requires PlayerReplaysSkipping(db, blobs, season, p).Done?
    requires t in Visits(db, p) && HasReplay(db.setResults, t)
    ensures RecordedHash(db.setResults, t) in blobs
    ensures Entry(MemberPath(Prefix(season, db.players[p].name), t), blobs[RecordedHash(db.setResults, t)])
              in PlayerReplaysSkipping(db, blobs, season, p).value
  {
    var ts := Visits(db, p);
    var step := MemberStepSkippingOf(db.setResults, blobs, Prefix(season, db.players[p].name));
    GatherMeaning(ts, step);
    var i :| 0 <= i < |ts| && ts[i] == t;
    assert step(ts[i]).Done?;
  }
}
