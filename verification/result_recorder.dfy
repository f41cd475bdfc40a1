/** `submit_result` as a whole (ahgl_admin.py:567-697): read the week and match
    numbers, validate the declarations, check the stored state, store the
    uploaded replays and insert one row per set plus the ace row. The handler's
    effect is a new database snapshot and a grown replay store. */
module ResultRecorder {

  import opened Replies
  import opened Text
  import opened Forms
  import opened ReplayStore
  import opened Schema
  import opened ResultValidator

  /** What a request can change: the database and the data directory. */
  datatype State = State(db: Db, blobs: Blobs)

  /** The upload of field `replay_<n>`, when one was chosen. */
  function Replay(files: Files, n: int): Option<Bytes> {
    UploadedBytes(files, Numbered("replay", n))
  }

  /** `rephashes.get(n)` after the upload loop of ahgl_admin.py:669-681: the
      digest of set `k + 1`'s upload at index `k`, or `None` without one. */
  function ReplayHashes(files: Files, sha1: Bytes -> Digest): (hs: seq<Option<Digest>>)
    ensures |hs| == NumSets
    ensures forall k :: 0 <= k < NumSets ==>
              (hs[k].Some? <==> Replay(files, k + 1).Some?)
              && (hs[k].Some? ==> hs[k].value == sha1(Replay(files, k + 1).value))
  {
    seq(NumSets, k requires 0 <= k < NumSets =>
      match Replay(files, k + 1) case None => None case Some(content) => Some(sha1(content)))
  }

  /** The chosen uploads of sets `from`..5, in set order. */
  function Uploads(files: Files, from: nat): (us: seq<Bytes>)
    requires 1 <= from <= NumSets + 1
    ensures |us| <= NumSets + 1 - from
    decreases NumSets + 1 - from
  {
    if from == NumSets + 1 then []
    else match Replay(files, from)
      case None => Uploads(files, from + 1)
      case Some(content) => [content] + Uploads(files, from + 1)
  }

  /** The chosen uploads are exactly the files of the sets that have one. */
  lemma {:induction false} UploadsAreReplays(files: Files, from: nat)
    requires 1 <= from <= NumSets + 1
    ensures forall c :: c in Uploads(files, from) <==>
              exists n :: from <= n <= NumSets && Replay(files, n) == Some(c)
    decreases NumSets + 1 - from
  {
    if from <= NumSets {
      UploadsAreReplays(files, from + 1);
      forall c ensures c in Uploads(files, from) <==> exists n :: from <= n <= NumSets && Replay(files, n) == Some(c) {
        if exists n :: from <= n <= NumSets && Replay(files, n) == Some(c) {
          var n :| from <= n <= NumSets && Replay(files, n) == Some(c);
          if n > from {
            assert c in Uploads(files, from + 1);
          }
        }
      }
    }
  }

  /** Writing each upload in turn, each one only if its name is absent. */
  function PutAll(blobs: Blobs, contents: seq<Bytes>, sha1: Bytes -> Digest): (r: Blobs)
    ensures forall k :: k in blobs ==> k in r && r[k] == blobs[k]
    decreases |contents|
  {
    if |contents| == 0 then blobs else PutAll(Put(blobs, contents[0], sha1).blobs, contents[1..], sha1)
  }

  /** After the writes the store holds the old files and one file per upload
      digest; every new file is an upload whose digest is its name. */
  lemma {:induction false} PutAllMeaning(blobs: Blobs, contents: seq<Bytes>, sha1: Bytes -> Digest)
    ensures var r := PutAll(blobs, contents, sha1);
            && (forall c :: c in contents ==> sha1(c) in r)
            && (forall k :: k in r && k !in blobs ==>
                  exists c :: c in contents && sha1(c) == k && r[k] == c)
    decreases |contents|
  {
    if |contents| > 0 {
      var put := Put(blobs, contents[0], sha1);
      PutAllMeaning(put.blobs, contents[1..], sha1);
      var r := PutAll(blobs, contents, sha1);
      forall c | c in contents ensures sha1(c) in r {
        if c != contents[0] {
          assert c in contents[1..];
        }
      }
      forall k | k in r && k !in blobs ensures exists c :: c in contents && sha1(c) == k && r[k] == c {
        if k in put.blobs {
          assert k == put.digest && r[k] == contents[0];
        } else {
          var c :| c in contents[1..] && sha1(c) == k && r[k] == c;
          assert c in contents;
        }
      }
    }
  }

  /** Writing keeps every file named by its content's digest. */
  lemma {:induction false} PutAllKeepsContentAddressed(blobs: Blobs, contents: seq<Bytes>, sha1: Bytes -> Digest)
    requires ContentAddressed(blobs, sha1)
    ensures ContentAddressed(PutAll(blobs, contents, sha1), sha1)
    decreases |contents|
  {
    if |contents| > 0 {
      PutKeepsContentAddressed(blobs, contents[0], sha1);
      PutAllKeepsContentAddressed(Put(blobs, contents[0], sha1).blobs, contents[1..], sha1);
    }
  }

  /** The store after the upload loop. */
  function StoreReplays(blobs: Blobs, files: Files, sha1: Bytes -> Digest): (r: Blobs)
    ensures forall k :: k in blobs ==> k in r && r[k] == blobs[k]
  {
    PutAll(blobs, Uploads(files, 1), sha1)
  }

  /** Every recorded digest names a stored file, and every new file is the upload
      of some set, stored under its digest. */
  lemma StoreReplaysMeaning(blobs: Blobs, files: Files, sha1: Bytes -> Digest)
    ensures var r := StoreReplays(blobs, files, sha1);
            var hs := ReplayHashes(files, sha1);
            && (forall k :: k in blobs ==> k in r && r[k] == blobs[k])
            && (forall k :: 0 <= k < NumSets && hs[k].Some? ==> hs[k].value in r)
            && (forall d :: d in r && d !in blobs ==>
                  exists n :: 1 <= n <= NumSets && Replay(files, n) == Some(r[d]) && sha1(r[d]) == d)
  {
    var us := Uploads(files, 1);
    UploadsAreReplays(files, 1);
    PutAllMeaning(blobs, us, sha1);
    var r := StoreReplays(blobs, files, sha1);
    var hs := ReplayHashes(files, sha1);
    forall k | 0 <= k < NumSets && hs[k].Some? ensures hs[k].value in r {
      assert Replay(files, k + 1).value in us;
    }
  }

  /** `1 if postdata.get("forfeit_<n>") == "on" else 0`. */
  function Forfeit(form: Form, n: int): (f: int)
    ensures f == 1 <==> Get(form, Numbered("forfeit", n), "") == "on"
    ensures f == 0 || f == 1
  {
    if Get(form, Numbered("forfeit", n), "") == "on" then 1 else 0
  }

  function HashColumn(h: Option<Digest>): Option<string> {
    match h
    case None => None
    case Some(d) => Some(d)
  }

  /** The five `set_results` rows, set `k + 1` at index `k`. */
  function SetRows(week: int, m: int, pairs: seq<WinPair>, form: Form, hashes: seq<Option<Digest>>): (rows: seq<SetResultRow>)
    requires |pairs| == NumSets && |hashes| == NumSets
    ensures |rows| == NumSets
    ensures forall k :: 0 <= k < NumSets ==>
              rows[k] == SetResultRow(week, m, k + 1, pairs[k].home, pairs[k].away, Forfeit(form, k + 1), HashColumn(hashes[k]))
  {
    seq(NumSets, k requires 0 <= k < NumSets =>
      SetResultRow(week, m, k + 1, pairs[k].home, pairs[k].away, Forfeit(form, k + 1), HashColumn(hashes[k])))
  }

  function AceRowOf(week: int, m: int, pick: AcePick): AceRow {
    AceRow(week, m, pick.homePlayer, pick.awayPlayer, pick.homeRace, pick.awayRace)
  }

  /** The stored-state guards of ahgl_admin.py:654-667, then the writes of 669-697. */
  function Record(st: State, form: Form, files: Files, sha1: Bytes -> Digest, week: int, m: int, v: Validated): (r: Reply<State>)
    requires |v.pairs| == NumSets
    ensures !r.Crashed?
    ensures r.Refused? <==>
              (!WeekHasMaps(st.db, week) || |MatchRows(st.db.matches, week, m)| != 1
               || |ResultRows(st.db.setResults, week, m)| != 0)
    ensures !WeekHasMaps(st.db, week) ==> r == Refused("Invalid week")
    ensures WeekHasMaps(st.db, week) && |MatchRows(st.db.matches, week, m)| != 1 ==> r == Refused("Invalid match")
    ensures (WeekHasMaps(st.db, week) && |MatchRows(st.db.matches, week, m)| == 1
             && |ResultRows(st.db.setResults, week, m)| != 0) ==> r == Refused("Result already submitted")
    ensures r.Done? ==>
              && r.value.blobs == StoreReplays(st.blobs, files, sha1)
              && r.value.db == st.db.(
                   setResults := st.db.setResults + SetRows(week, m, v.pairs, form, ReplayHashes(files, sha1)),
                   aces := st.db.aces + (if v.ace.Some? then [AceRowOf(week, m, v.ace.value)] else []))
  {
    if !WeekHasMaps(st.db, week) then Refused("Invalid week")
    else if |MatchRows(st.db.matches, week, m)| != 1 then Refused("Invalid match")
    else if |ResultRows(st.db.setResults, week, m)| != 0 then Refused("Result already submitted")
    else
      var rows := SetRows(week, m, v.pairs, form, ReplayHashes(files, sha1));
      var aces := if v.ace.Some? then [AceRowOf(week, m, v.ace.value)] else [];
      Done(State(st.db.(setResults := st.db.setResults + rows, aces := st.db.aces + aces), StoreReplays(st.blobs, files, sha1)))
  }

  /** The whole handler. */
  function SubmitResult(st: State, form: Form, files: Files, sha1: Bytes -> Digest): (r: Reply<State>)
    ensures ReadIntField(form, "week").Unsupplied? ==> r == Refused("No value submitted for 'week'")
    ensures ReadIntField(form, "week").Unparsable? ==> r == Refused("Invalid week")
    ensures ReadIntField(form, "week").Supplied? && ReadIntField(form, "match").Unsupplied? ==>
              r == Refused("No value submitted for 'match'")
    ensures ReadIntField(form, "week").Supplied? && ReadIntField(form, "match").Unparsable? ==>
              r == Refused("Invalid match")
    ensures r.Done? ==> ReadIntField(form, "week").Supplied? && ReadIntField(form, "match").Supplied?
    ensures r.Done? ==>
              var week := ReadIntField(form, "week").value;
              var m := ReadIntField(form, "match").value;
              WeekHasMaps(st.db, week) && |MatchRows(st.db.matches, week, m)| == 1
              && ResultRows(st.db.setResults, week, m) == []
    ensures ReadIntField(form, "week").Supplied? && ReadIntField(form, "match").Supplied? ==>
              var v := Validate(st.db, form, ReadIntField(form, "week").value, ReadIntField(form, "match").value);
              && (v.Refused? ==> r == Refused(v.message))
              && (v.Crashed? ==> r == Crashed(v.fault))
  {
    match ReadIntField(form, "week")
    case Unsupplied => Refused("No value submitted for 'week'")
    case Unparsable => Refused("Invalid week")
    case Supplied(week) =>
      match ReadIntField(form, "match")
      case Unsupplied => Refused("No value submitted for 'match'")
      case Unparsable => Refused("Invalid match")
      case Supplied(m) =>
        match Validate(st.db, form, week, m)
        case Refused(e) => Refused(e)
        case Crashed(f) => Crashed(f)
        case Done(v) =>
          WinnersMeaning(Declarations(form));
          Record(st, form, files, sha1, week, m, v)
  }

  // ---------------------------------------------------------------------
  // What an accepted submission writes

  /** The week and match numbers of a submission whose fields both parse. */
  predicate Addressed(form: Form, week: int, m: int) {
    ReadIntField(form, "week") == Supplied(week) && ReadIntField(form, "match") == Supplied(m)
  }

  /** An accepted submission had every set named or decided, a week with maps,
      exactly one match row and no stored result; it appends five rows, set
      `k + 1` holding the pair its own declaration names, its forfeit box and
      the digest of its upload, plus one ace row exactly when set 5 names a side.
      No other table changes. */
  lemma SubmitResultEffect(st: State, form: Form, files: Files, sha1: Bytes -> Digest, week: int, m: int)
    requires Addressed(form, week, m)
    requires SubmitResult(st, form, files, sha1).Done?
    ensures var after := SubmitResult(st, form, files, sha1).value;
            var ds := Declarations(form);
            && (forall k :: 0 <= k < NumSets ==> SetAcceptable(ds, k))
            && WeekHasMaps(st.db, week) && |MatchRows(st.db.matches, week, m)| == 1
            && ResultRows(st.db.setResults, week, m) == []
            && |after.db.setResults| == |st.db.setResults| + NumSets
            && after.db.setResults[..|st.db.setResults|] == st.db.setResults
            && (forall k :: 0 <= k < NumSets ==>
                  after.db.setResults[|st.db.setResults| + k]
                  == SetResultRow(week, m, k + 1, PairOf(ds[k]).home, PairOf(ds[k]).away,
                                  Forfeit(form, k + 1), HashColumn(ReplayHashes(files, sha1)[k])))
            && (IsDeclared(ds[NumSets - 1]) ==>
                  AceCheck(st.db, form, week, m).Done?
                  && after.db.aces == st.db.aces + [AceRowOf(week, m, AceCheck(st.db, form, week, m).value)])
            && (!IsDeclared(ds[NumSets - 1]) ==> after.db.aces == st.db.aces)
            && after.db.teams == st.db.teams && after.db.players == st.db.players
            && after.db.matches == st.db.matches && after.db.lineups == st.db.lineups
            && after.db.maps == st.db.maps && after.db.referees == st.db.referees
            && after.blobs == StoreReplays(st.blobs, files, sha1)
  {
    var ds := Declarations(form);
    SubmitResultUnfolds(st, form, files, sha1, week, m);
    var v := Validate(st.db, form, week, m).value;
    WinnersMeaning(ds);
    AcePlayedIffFifthDeclared(ds);
    var after := Record(st, form, files, sha1, week, m, v).value;
    var rows := SetRows(week, m, v.pairs, form, ReplayHashes(files, sha1));
    assert after.db.setResults == st.db.setResults + rows;
    assert after.db.setResults[..|st.db.setResults|] == st.db.setResults;
  }

  /** An accepted submission is the recording of its validated result. */
  lemma SubmitResultUnfolds(st: State, form: Form, files: Files, sha1: Bytes -> Digest, week: int, m: int)
    requires Addressed(form, week, m)
    requires SubmitResult(st, form, files, sha1).Done?
    ensures Validate(st.db, form, week, m).Done?
    ensures |Validate(st.db, form, week, m).value.pairs| == NumSets
    ensures SubmitResult(st, form, files, sha1) == Record(st, form, files, sha1, week, m, Validate(st.db, form, week, m).value)
  {
    WinnersMeaning(Declarations(form));
  }

  /** Conversely, a submission is accepted whenever its week and match parse,
      every set is named or already decided, the ace checks pass when set 5
      names a side, and the week has maps, the match one row and no result. */
  lemma SubmitResultAccepts(st: State, form: Form, files: Files, sha1: Bytes -> Digest, week: int, m: int)
    requires Addressed(form, week, m)
    requires forall k :: 0 <= k < NumSets ==> SetAcceptable(Declarations(form), k)
    requires IsDeclared(Declarations(form)[NumSets - 1]) ==> AceCheck(st.db, form, week, m).Done?
    requires WeekHasMaps(st.db, week) && |MatchRows(st.db.matches, week, m)| == 1
    requires ResultRows(st.db.setResults, week, m) == []
    ensures var ds := Declarations(form);
            SubmitResult(st, form, files, sha1)
            == Done(State(st.db.(setResults := st.db.setResults + SetRows(week, m, DeclaredPairs(ds), form, ReplayHashes(files, sha1)),
                                 aces := st.db.aces + (if IsDeclared(ds[NumSets - 1])
                                                       then [AceRowOf(week, m, AceCheck(st.db, form, week, m).value)]
                                                       else [])),
                          StoreReplays(st.blobs, files, sha1)))
  {
    var ds := Declarations(form);
    WinnersMeaning(ds);
    var pairs := Winners(ds).value;
    assert pairs == DeclaredPairs(ds);
    AcePlayedIffFifthDeclared(ds);
  }

  /** A week and match that already hold results are refused, unless an earlier
      check stops the submission first; either way nothing is written. */
  lemma ResultWrittenOnce(st: State, form: Form, files: Files, sha1: Bytes -> Digest,
                          form': Form, files': Files, week: int, m: int)
    requires Addressed(form, week, m) && Addressed(form', week, m)
    requires SubmitResult(st, form, files, sha1).Done?
    ensures !SubmitResult(SubmitResult(st, form, files, sha1).value, form', files', sha1).Done?
  {
    SubmitResultEffect(st, form, files, sha1, week, m);
    var after := SubmitResult(st, form, files, sha1).value;
    var n := |st.db.setResults|;
    assert after.db.setResults[n] in ResultRows(after.db.setResults, week, m);
    assert ResultRows(after.db.setResults, week, m) != [];
  }

  // ---------------------------------------------------------------------
  // Invariants of the stored state

  /** Every stored digest names a file of the data directory. */
  predicate HashesStored(st: State) {
    forall i :: 0 <= i < |st.db.setResults| && st.db.setResults[i].replayHash.Some? ==>
      st.db.setResults[i].replayHash.value in st.blobs
  }

  /** A match's results are stored all at once: sets 1 to 5, in order. */
  ghost predicate BatchesWhole(db: Db) {
    forall w, m :: |ResultRows(db.setResults, w, m)| > 0 ==>
      ResultSetNumbers(ResultRows(db.setResults, w, m)) == [1, 2, 3, 4, 5]
  }

  /** Some stored set 5 has a winner. */
  predicate AceSetWon(rows: seq<SetResultRow>) {
    exists i :: 0 <= i < |rows| && rows[i].setNumber == NumSets && rows[i].homeWinner + rows[i].awayWinner != 0
  }

  /** A match has one ace row when its set 5 has a winner, and none otherwise. */
  ghost predicate AcesMatchResults(db: Db) {
    forall w, m :: |AceRows(db.aces, w, m)| == if AceSetWon(ResultRows(db.setResults, w, m)) then 1 else 0
  }

  ghost predicate Consistent(st: State, sha1: Bytes -> Digest) {
    ContentAddressed(st.blobs, sha1) && HashesStored(st) && BatchesWhole(st.db) && AcesMatchResults(st.db)
  }

  /** The empty database with an empty data directory is consistent. */
  lemma EmptyConsistent(teams: map<int, Team>, players: map<int, Player>, matches: seq<MatchRow>,
                        maps: seq<MapRow>, sha1: Bytes -> Digest)
    ensures Consistent(State(Db(teams, players, matches, [], [], [], maps, []), map[]), sha1)
  {
    var db := Db(teams, players, matches, [], [], [], maps, []);
    forall w, m ensures |AceRows(db.aces, w, m)| == if AceSetWon(ResultRows(db.setResults, w, m)) then 1 else 0 {
      assert ResultRows(db.setResults, w, m) == [];
    }
  }

  /** The rows one accepted submission appends for match `m` of `week`: five set
      rows numbered 1 to 5, and an ace row exactly when set 5 has a winner. */
  predicate IsBatch(rows: seq<SetResultRow>, added: seq<AceRow>, week: int, m: int) {
    && |rows| == NumSets
    && (forall k :: 0 <= k < NumSets ==>
          rows[k].week == week && rows[k].matchNumber == m && rows[k].setNumber == k + 1)
    && |added| <= 1
    && (forall i :: 0 <= i < |added| ==> added[i].week == week && added[i].matchNumber == m)
    && (|added| == 1 <==> rows[NumSets - 1].homeWinner + rows[NumSets - 1].awayWinner != 0)
  }

  /** Appending a batch, seen from its own match: the batch is all there is. */
  lemma AppendBatchHere(db: Db, rows: seq<SetResultRow>, added: seq<AceRow>, week: int, m: int)
    requires IsBatch(rows, added, week, m) && ResultRows(db.setResults, week, m) == []
    requires |AceRows(db.aces, week, m)| == if AceSetWon(ResultRows(db.setResults, week, m)) then 1 else 0
    ensures ResultRows(db.setResults + rows, week, m) == rows
    ensures ResultSetNumbers(rows) == [1, 2, 3, 4, 5]
    ensures |AceRows(db.aces + added, week, m)| == if AceSetWon(rows) then 1 else 0
  {
    assert ResultRows(db.setResults + rows, week, m) == rows by {
      ResultRowsAppend(db.setResults, rows, week, m);
      ResultRowsAll(rows, week, m);
    }
    BatchSetNumbers(rows);
    assert AceSetWon(rows) <==> |added| == 1 by {
      if AceSetWon(rows) {
        var i :| 0 <= i < |rows| && rows[i].setNumber == NumSets && rows[i].homeWinner + rows[i].awayWinner != 0;
        assert i == NumSets - 1;
      }
    }
    assert |AceRows(db.aces + added, week, m)| == |added| by {
      AceRowsAppend(db.aces, added, week, m);
      AceRowsAll(added, week, m);
      assert !AceSetWon(ResultRows(db.setResults, week, m));
    }
  }

  /** Appending a batch, seen from any other match: nothing changes. */
  lemma AppendBatchElsewhere(db: Db, rows: seq<SetResultRow>, added: seq<AceRow>, week: int, m: int, w: int, m': int)
    requires IsBatch(rows, added, week, m) && !(w == week && m' == m)
    ensures ResultRows(db.setResults + rows, w, m') == ResultRows(db.setResults, w, m')
    ensures AceRows(db.aces + added, w, m') == AceRows(db.aces, w, m')
  {
    assert ResultRows(db.setResults + rows, w, m') == ResultRows(db.setResults, w, m') by {
      ResultRowsAppend(db.setResults, rows, w, m');
      ResultRowsNone(rows, w, m');
    }
    assert AceRows(db.aces + added, w, m') == AceRows(db.aces, w, m') by {
      AceRowsAppend(db.aces, added, w, m');
      AceRowsNone(added, w, m');
    }
  }

  /** Appending one match's batch keeps batches whole and ace rows matched. */
  lemma AppendBatchPreserves(db: Db, rows: seq<SetResultRow>, added: seq<AceRow>, week: int, m: int)
    requires BatchesWhole(db) && AcesMatchResults(db)
    requires IsBatch(rows, added, week, m) && ResultRows(db.setResults, week, m) == []
    ensures var db' := db.(setResults := db.setResults + rows, aces := db.aces + added);
            BatchesWhole(db') && AcesMatchResults(db')
  {
    forall w, m' ensures
      var results := ResultRows(db.setResults + rows, w, m');
      && (|results| > 0 ==> ResultSetNumbers(results) == [1, 2, 3, 4, 5])
      && |AceRows(db.aces + added, w, m')| == if AceSetWon(results) then 1 else 0
    {
      if w == week && m' == m {
        AppendBatchHere(db, rows, added, week, m);
      } else {
        AppendBatchElsewhere(db, rows, added, week, m, w, m');
      }
    }
  }

  /** Appending rows whose digests all name stored files, to a store that only grows. */
  lemma AppendKeepsHashesStored(st: State, rows: seq<SetResultRow>, blobs: Blobs)
    requires HashesStored(st)
    requires forall k :: k in st.blobs ==> k in blobs
    requires forall k :: 0 <= k < |rows| && rows[k].replayHash.Some? ==> rows[k].replayHash.value in blobs
    ensures HashesStored(State(st.db.(setResults := st.db.setResults + rows), blobs))
  {
    var all := st.db.setResults + rows;
    var n := |st.db.setResults|;
    forall i | 0 <= i < |all| && all[i].replayHash.Some? ensures all[i].replayHash.value in blobs {
      if i >= n {
        assert all[i] == rows[i - n];
      } else {
        assert all[i] == st.db.setResults[i];
      }
    }
  }

  /** Appending one match's batch to a consistent state whose store grows into
      a content-addressed store holding every digest of the batch keeps it consistent. */
  lemma AppendBatchConsistent(st: State, rows: seq<SetResultRow>, added: seq<AceRow>, blobs: Blobs,
                              sha1: Bytes -> Digest, week: int, m: int)
    requires Consistent(st, sha1)
    requires IsBatch(rows, added, week, m) && ResultRows(st.db.setResults, week, m) == []
    requires ContentAddressed(blobs, sha1) && forall k :: k in st.blobs ==> k in blobs
    requires forall k :: 0 <= k < |rows| && rows[k].replayHash.Some? ==> rows[k].replayHash.value in blobs
    ensures Consistent(State(st.db.(setResults := st.db.setResults + rows, aces := st.db.aces + added), blobs), sha1)
  {
    AppendKeepsHashesStored(st, rows, blobs);
    AppendBatchPreserves(st.db, rows, added, week, m);
  }

  /** Recording a validated submission keeps the stored state consistent. */
  lemma RecordPreservesConsistent(st: State, form: Form, files: Files, sha1: Bytes -> Digest,
                                  week: int, m: int, v: Validated)
    requires Consistent(st, sha1)
    requires |v.pairs| == NumSets && (v.ace.Some? <==> AcePlayed(v.pairs))
    requires Record(st, form, files, sha1, week, m, v).Done?
    ensures Consistent(Record(st, form, files, sha1, week, m, v).value, sha1)
  {
    var after := Record(st, form, files, sha1, week, m, v).value;
    var hs := ReplayHashes(files, sha1);
    var rows := SetRows(week, m, v.pairs, form, hs);
    var added := if v.ace.Some? then [AceRowOf(week, m, v.ace.value)] else [];
    var blobs := StoreReplays(st.blobs, files, sha1);
    assert after == State(st.db.(setResults := st.db.setResults + rows, aces := st.db.aces + added), blobs);
    assert ContentAddressed(blobs, sha1) by {
      PutAllKeepsContentAddressed(st.blobs, Uploads(files, 1), sha1);
    }
    assert (forall k :: k in st.blobs ==> k in blobs)
           && (forall k :: 0 <= k < |rows| && rows[k].replayHash.Some? ==> rows[k].replayHash.value in blobs) by {
      StoreReplaysMeaning(st.blobs, files, sha1);
    }
    assert IsBatch(rows, added, week, m);
    AppendBatchConsistent(st, rows, added, blobs, sha1, week, m);
  }

  /** Accepting a submission keeps the stored state consistent. */
  lemma SubmitResultPreservesConsistent(st: State, form: Form, files: Files, sha1: Bytes -> Digest)
    requires Consistent(st, sha1)
    requires SubmitResult(st, form, files, sha1).Done?
    ensures Consistent(SubmitResult(st, form, files, sha1).value, sha1)
  {
    var week := ReadIntField(form, "week").value;
    var m := ReadIntField(form, "match").value;
    var v := Validate(st.db, form, week, m).value;
    WinnersMeaning(Declarations(form));
    assert SubmitResult(st, form, files, sha1) == Record(st, form, files, sha1, week, m, v);
    RecordPreservesConsistent(st, form, files, sha1, week, m, v);
  }
}
