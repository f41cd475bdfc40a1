/** The checks `submit_result` makes before it looks at stored results
    (ahgl_admin.py:589-652): the left-to-right walk over the five winner
    declarations, and the nomination checks of the ace set. */
module ResultValidator {

  import opened Replies
  import opened Text
  import opened Forms
  import opened Schema

  /** The `(home_winner, away_winner)` pair stored for one set. */
  datatype WinPair = WinPair(home: int, away: int)

  /** A declaration that names a side; anything else ("none", "", a missing
      field, any other text) is a blank. */
  predicate IsDeclared(d: string) { d == "home" || d == "away" }

  /** The pair a declaration stands for, taken on its own. */
  function PairOf(d: string): WinPair {
    if d == "home" then WinPair(1, 0) else if d == "away" then WinPair(0, 1) else WinPair(0, 0)
  }

  /** Sets declared for the home side. */
  function HomeCount(ds: seq<string>): nat {
    if |ds| == 0 then 0 else HomeCount(ds[..|ds| - 1]) + (if ds[|ds| - 1] == "home" then 1 else 0)
  }

  /** Sets declared for the away side. */
  function AwayCount(ds: seq<string>): nat {
    if |ds| == 0 then 0 else AwayCount(ds[..|ds| - 1]) + (if ds[|ds| - 1] == "away" then 1 else 0)
  }

  /** One side has reached three wins. */
  predicate Decided(ds: seq<string>) { HomeCount(ds) >= 3 || AwayCount(ds) >= 3 }

  /** Set `k + 1` may stand: it names a side, or the sets before it already decide the match. */
  predicate SetAcceptable(ds: seq<string>, k: int)
    requires 0 <= k < |ds|
  {
    IsDeclared(ds[k]) || Decided(ds[..k])
  }

  /** Set `k + 1` is the first set that may not stand. */
  predicate FirstUnacceptable(ds: seq<string>, k: int) {
    0 <= k < |ds| && !SetAcceptable(ds, k) && forall j :: 0 <= j < k ==> SetAcceptable(ds, j)
  }

  function InvalidWinnerMessage(setNumber: int): string {
    "Invalid winner for set " + IntToString(setNumber)
  }

  /** The loop at ahgl_admin.py:594-605, from index `i` on, with the running tallies. */
  function WalkFrom(ds: seq<string>, i: nat, sumHome: nat, sumAway: nat): (r: Reply<seq<WinPair>>)
    requires i <= |ds|
    ensures !r.Crashed?
    ensures r.Done? ==> |r.value| == |ds| - i
    decreases |ds| - i
  {
    if i == |ds| then Done([])
    else if ds[i] == "home" then Prepend(WinPair(1, 0), WalkFrom(ds, i + 1, sumHome + 1, sumAway))
    else if ds[i] == "away" then Prepend(WinPair(0, 1), WalkFrom(ds, i + 1, sumHome, sumAway + 1))
    else if sumHome >= 3 || sumAway >= 3 then Prepend(WinPair(0, 0), WalkFrom(ds, i + 1, sumHome, sumAway))
    else Refused(InvalidWinnerMessage(i + 1))
  }

  /** The winner walk over the declarations of sets 1, 2, ... in order. */
  function Winners(ds: seq<string>): (r: Reply<seq<WinPair>>)
    ensures !r.Crashed?
    ensures r.Done? ==> |r.value| == |ds|
  {
    WalkFrom(ds, 0, 0, 0)
  }

  lemma CountsStep(ds: seq<string>, i: nat)
    requires i < |ds|
    ensures HomeCount(ds[..i + 1]) == HomeCount(ds[..i]) + (if ds[i] == "home" then 1 else 0)
    ensures AwayCount(ds[..i + 1]) == AwayCount(ds[..i]) + (if ds[i] == "away" then 1 else 0)
  {
    assert ds[..i + 1][..i] == ds[..i];
  }

  /** The walk from index `i`, entered with the tallies of the sets before `i`,
      accepts exactly when every remaining set may stand, records each set's own
      pair, and otherwise names the first set that may not stand. */
  lemma {:induction false} WalkFromMeaning(ds: seq<string>, i: nat)
    requires i <= |ds|
    ensures var r := WalkFrom(ds, i, HomeCount(ds[..i]), AwayCount(ds[..i]));
            && (r.Done? <==> forall k :: i <= k < |ds| ==> SetAcceptable(ds, k))
            && (r.Done? ==> forall k :: i <= k < |ds| ==> r.value[k - i] == PairOf(ds[k]))
            && (r.Refused? ==> exists k :: (i <= k < |ds| && !SetAcceptable(ds, k)
                                            && (forall j :: i <= j < k ==> SetAcceptable(ds, j))
                                            && r.message == InvalidWinnerMessage(k + 1)))
    decreases |ds| - i
  {
    if i < |ds| {
      CountsStep(ds, i);
      WalkFromMeaning(ds, i + 1);
      var rest := WalkFrom(ds, i + 1, HomeCount(ds[..i + 1]), AwayCount(ds[..i + 1]));
      var r := WalkFrom(ds, i, HomeCount(ds[..i]), AwayCount(ds[..i]));
      if SetAcceptable(ds, i) {
        assert r == Prepend(PairOf(ds[i]), rest);
        if r.Refused? {
          var k :| i + 1 <= k < |ds| && !SetAcceptable(ds, k)
                   && (forall j :: i + 1 <= j < k ==> SetAcceptable(ds, j))
                   && rest.message == InvalidWinnerMessage(k + 1);
          assert forall j :: i <= j < k ==> SetAcceptable(ds, j);
        }
      } else {
        assert r == Refused(InvalidWinnerMessage(i + 1));
      }
    }
  }

  /** The walk accepts exactly when every set names a side or follows a decided
      match; on acceptance set `k + 1` records `(1,0)`, `(0,1)` or `(0,0)` as
      declared; on rejection the message names the first set that may not stand. */
  lemma WinnersMeaning(ds: seq<string>)
    ensures var r := Winners(ds);
            && (r.Done? <==> forall k :: 0 <= k < |ds| ==> SetAcceptable(ds, k))
            && (r.Done? ==> |r.value| == |ds| && forall k :: 0 <= k < |ds| ==> r.value[k] == PairOf(ds[k]))
            && (r.Refused? ==> exists k :: FirstUnacceptable(ds, k) && r.message == InvalidWinnerMessage(k + 1))
  {
    assert ds[..0] == [];
    WalkFromMeaning(ds, 0);
    var r := Winners(ds);
    assert r.Done? <==> forall k :: 0 <= k < |ds| ==> SetAcceptable(ds, k);
    assert r.Done? ==> |r.value| == |ds| && forall k :: 0 <= k < |ds| ==> r.value[k] == PairOf(ds[k]);
    if r.Refused? {
      var k :| 0 <= k < |ds| && !SetAcceptable(ds, k)
               && (forall j :: 0 <= j < k ==> SetAcceptable(ds, j))
               && r.message == InvalidWinnerMessage(k + 1);
      assert FirstUnacceptable(ds, k);
    }
  }

  /** Home wins in a list of recorded pairs. */
  function HomeTally(ps: seq<WinPair>): int {
    if |ps| == 0 then 0 else HomeTally(ps[..|ps| - 1]) + ps[|ps| - 1].home
  }

  /** Away wins in a list of recorded pairs. */
  function AwayTally(ps: seq<WinPair>): int {
    if |ps| == 0 then 0 else AwayTally(ps[..|ps| - 1]) + ps[|ps| - 1].away
  }

  lemma {:induction false} TallyOfPairs(ds: seq<string>, ps: seq<WinPair>)
    requires |ps| == |ds| && forall k :: 0 <= k < |ds| ==> ps[k] == PairOf(ds[k])
    ensures HomeTally(ps) == HomeCount(ds) && AwayTally(ps) == AwayCount(ds)
    decreases |ds|
  {
    if |ds| > 0 {
      TallyOfPairs(ds[..|ds| - 1], ps[..|ps| - 1]);
    }
  }

  /** The recorded pairs add up to the tallies the walk kept: one home win per
      "home" declaration and one away win per "away" declaration, whether or not
      the match was already decided. */
  lemma WinnersTally(ds: seq<string>)
    requires Winners(ds).Done?
    ensures HomeTally(Winners(ds).value) == HomeCount(ds)
    ensures AwayTally(Winners(ds).value) == AwayCount(ds)
  {
    WinnersMeaning(ds);
    TallyOfPairs(ds, Winners(ds).value);
  }

  lemma {:induction false} CountsBound(ds: seq<string>)
    ensures HomeCount(ds) + AwayCount(ds) <= |ds|
    ensures HomeCount(ds) + AwayCount(ds) == |ds| ==> forall k :: 0 <= k < |ds| ==> IsDeclared(ds[k])
    decreases |ds|
  {
    if |ds| > 0 {
      var front := ds[..|ds| - 1];
      CountsBound(front);
      if HomeCount(ds) + AwayCount(ds) == |ds| {
        assert forall k :: 0 <= k < |ds| - 1 ==> ds[k] == front[k];
      }
    }
  }

  // ---------------------------------------------------------------------
  // The ace set

  /** `sum(winners[5])`: the ace branch runs when set 5 recorded a win. */
  predicate AcePlayed(ps: seq<WinPair>) {
    |ps| == NumSets && ps[NumSets - 1].home + ps[NumSets - 1].away != 0
  }

  /** The ace branch runs exactly when set 5 names a side. */
  lemma AcePlayedIffFifthDeclared(ds: seq<string>)
    requires |ds| == NumSets && Winners(ds).Done?
    ensures AcePlayed(Winners(ds).value) <==> IsDeclared(ds[NumSets - 1])
  {
    WinnersMeaning(ds);
  }

  /** A 2-2 split over sets 1-4 leaves set 5 undecided: a blank set 5 is rejected
      as "Invalid winner for set 5", and an accepted submission runs the ace branch. */
  lemma TiedEnteringFifthForcesAce(ds: seq<string>)
    requires |ds| == NumSets
    requires HomeCount(ds[..NumSets - 1]) == 2 && AwayCount(ds[..NumSets - 1]) == 2
    ensures Winners(ds).Done? ==> AcePlayed(Winners(ds).value)
    ensures !IsDeclared(ds[NumSets - 1]) ==> Winners(ds) == Refused(InvalidWinnerMessage(NumSets))
  {
    WinnersMeaning(ds);
    var front := ds[..NumSets - 1];
    CountsBound(front);
    assert forall k :: 0 <= k < NumSets - 1 ==> IsDeclared(ds[k]) by {
      forall k | 0 <= k < NumSets - 1 ensures IsDeclared(ds[k]) { assert ds[k] == front[k]; }
    }
    if !IsDeclared(ds[NumSets - 1]) {
      assert !SetAcceptable(ds, NumSets - 1);
      var r := Winners(ds);
      assert r.Refused?;
      var k :| FirstUnacceptable(ds, k) && r.message == InvalidWinnerMessage(k + 1);
      assert k == NumSets - 1;
    }
  }

  /** The nominations of an accepted ace set. */
  datatype AcePick = AcePick(homePlayer: int, awayPlayer: int, homeRace: string, awayRace: string)

  /** Both ace ids were posted and are not empty. */
  predicate AceIdsPresent(form: Form) {
    Get(form, "home_ace", "") != "" && Get(form, "away_ace", "") != ""
  }

  /** Both ace ids were posted and `int()` reads them. */
  predicate AceIdsParsed(form: Form) {
    AceIdsPresent(form) && ParseInt(Get(form, "home_ace", "")).Some? && ParseInt(Get(form, "away_ace", "")).Some?
  }

  function HomeAceId(form: Form): int
    requires AceIdsParsed(form)
  {
    ParseInt(Get(form, "home_ace", "")).value
  }

  function AwayAceId(form: Form): int
    requires AceIdsParsed(form)
  {
    ParseInt(Get(form, "away_ace", "")).value
  }

  /** Both ace ids parse to non-zero numbers. */
  predicate AceIdsNonZero(form: Form) {
    AceIdsParsed(form) && HomeAceId(form) != 0 && AwayAceId(form) != 0
  }

  /** Every check on the form's ace fields passes; only the lookups remain. */
  predicate AceFieldsValid(form: Form) {
    AceIdsNonZero(form) && IsRace(Get(form, "home_ace_race", "")) && IsRace(Get(form, "away_ace_race", ""))
  }

  /** The checks on the form's ace fields, ahgl_admin.py:610-638, in the order
      they run; an accepted form yields the two ids and the two races. */
  function AceFields(form: Form): (r: Reply<AcePick>)
    ensures !r.Crashed?
    ensures r.Refused? ==> IsAceMessage(r.message)
    ensures r.Done? <==> AceFieldsValid(form)
    ensures r.Done? ==> r.value == AcePick(HomeAceId(form), AwayAceId(form),
                                           Get(form, "home_ace_race", ""), Get(form, "away_ace_race", ""))
    ensures Get(form, "home_ace", "") == "" ==> r == Refused("No home ace specified.")
    ensures Get(form, "home_ace", "") != "" && Get(form, "away_ace", "") == "" ==> r == Refused("No away ace specified.")
    ensures AceIdsPresent(form) && (ParseInt(Get(form, "home_ace", "")).None? || ParseInt(Get(form, "away_ace", "")).None?)
            ==> r == Refused("Invalid ace specified.")
    ensures AceIdsParsed(form) && HomeAceId(form) == 0 ==> r == Refused("No home ace specified.")
    ensures AceIdsParsed(form) && HomeAceId(form) != 0 && AwayAceId(form) == 0 ==> r == Refused("No away ace specified.")
    ensures AceIdsNonZero(form) && Get(form, "home_ace_race", "") == "" ==> r == Refused("No home ace race specified.")
    ensures AceIdsNonZero(form) && Get(form, "home_ace_race", "") != "" && Get(form, "away_ace_race", "") == ""
            ==> r == Refused("No away ace race specified.")
    ensures AceIdsNonZero(form) && Get(form, "home_ace_race", "") != "" && Get(form, "away_ace_race", "") != ""
            && (!IsRace(Get(form, "home_ace_race", "")) || !IsRace(Get(form, "away_ace_race", "")))
            ==> r == Refused("Invalid home ace race specified.")
  {
    var homeAce := Get(form, "home_ace", "");
    var awayAce := Get(form, "away_ace", "");
    var homeRace := Get(form, "home_ace_race", "");
    var awayRace := Get(form, "away_ace_race", "");
    if homeAce == "" then Refused("No home ace specified.")
    else if awayAce == "" then Refused("No away ace specified.")
    else if ParseInt(homeAce).None? || ParseInt(awayAce).None? then Refused("Invalid ace specified.")
    else
      var h := ParseInt(homeAce).value;
      var a := ParseInt(awayAce).value;
      if h == 0 then Refused("No home ace specified.")
      else if a == 0 then Refused("No away ace specified.")
      else if homeRace == "" then Refused("No home ace race specified.")
      else if awayRace == "" then Refused("No away ace race specified.")
      else if !IsRace(homeRace) then Refused("Invalid home ace race specified.")
      else if !IsRace(awayRace) then Refused("Invalid home ace race specified.")
      else Done(AcePick(h, a, homeRace, awayRace))
  }

  /** The lookups of ahgl_admin.py:639-652 for nominations that passed the field
      checks: the match's teams come from the first match row, the nominees'
      teams from the players table; either lookup failing crashes the handler. */
  function AceLookup(db: Db, week: int, m: int, pick: AcePick): (r: Reply<AcePick>)
    ensures |MatchRows(db.matches, week, m)| == 0 ==> r == Crashed(NoMatchRow)
    ensures |MatchRows(db.matches, week, m)| > 0 ==>
              var home := MatchRows(db.matches, week, m)[0].homeTeam;
              var away := MatchRows(db.matches, week, m)[0].awayTeam;
              var h, a := pick.homePlayer, pick.awayPlayer;
              && (h !in db.players ==> r == Crashed(NoSuchPlayer))
              && (h in db.players && db.players[h].team != home ==> r == Refused("Home ace is on the wrong team."))
              && (h in db.players && db.players[h].team == home && a !in db.players ==> r == Crashed(NoSuchPlayer))
              && (h in db.players && db.players[h].team == home && a in db.players && db.players[a].team != away
                  ==> r == Refused("Away ace is on the wrong team."))
              && (h in db.players && db.players[h].team == home && a in db.players && db.players[a].team == away
                  ==> r == Done(pick))
  {
    var rows := MatchRows(db.matches, week, m);
    if |rows| == 0 then Crashed(NoMatchRow)
    else if pick.homePlayer !in db.players then Crashed(NoSuchPlayer)
    else if db.players[pick.homePlayer].team != rows[0].homeTeam then Refused("Home ace is on the wrong team.")
    else if pick.awayPlayer !in db.players then Crashed(NoSuchPlayer)
    else if db.players[pick.awayPlayer].team != rows[0].awayTeam then Refused("Away ace is on the wrong team.")
    else Done(pick)
  }

  /** The nomination checks of ahgl_admin.py:610-652, in the order they run:
      the field checks, then the lookups. */
  function AceCheck(db: Db, form: Form, week: int, m: int): (r: Reply<AcePick>)
    ensures r.Done? ==>
      && ParseInt(Get(form, "home_ace", "")) == Some(r.value.homePlayer) && r.value.homePlayer != 0
      && ParseInt(Get(form, "away_ace", "")) == Some(r.value.awayPlayer) && r.value.awayPlayer != 0
      && r.value.homeRace == Get(form, "home_ace_race", "") && IsRace(r.value.homeRace)
      && r.value.awayRace == Get(form, "away_ace_race", "") && IsRace(r.value.awayRace)
    ensures r.Done? ==>
      var rows := MatchRows(db.matches, week, m);
      && |rows| > 0
      && r.value.homePlayer in db.players && db.players[r.value.homePlayer].team == rows[0].homeTeam
      && r.value.awayPlayer in db.players && db.players[r.value.awayPlayer].team == rows[0].awayTeam
    ensures r.Refused? ==> IsAceMessage(r.message)
    // The field checks in the order they run, each once the earlier ones pass.
    ensures !AceFieldsValid(form) ==> r == AceFields(form)
    ensures Get(form, "home_ace", "") == "" ==> r == Refused("No home ace specified.")
    ensures Get(form, "home_ace", "") != "" && Get(form, "away_ace", "") == "" ==> r == Refused("No away ace specified.")
    ensures AceIdsPresent(form) && (ParseInt(Get(form, "home_ace", "")).None? || ParseInt(Get(form, "away_ace", "")).None?)
            ==> r == Refused("Invalid ace specified.")
    ensures AceIdsParsed(form) && HomeAceId(form) == 0 ==> r == Refused("No home ace specified.")
    ensures AceIdsParsed(form) && HomeAceId(form) != 0 && AwayAceId(form) == 0 ==> r == Refused("No away ace specified.")
    ensures AceIdsNonZero(form) && Get(form, "home_ace_race", "") == "" ==> r == Refused("No home ace race specified.")
    ensures AceIdsNonZero(form) && Get(form, "home_ace_race", "") != "" && Get(form, "away_ace_race", "") == ""
            ==> r == Refused("No away ace race specified.")
    ensures AceIdsNonZero(form) && Get(form, "home_ace_race", "") != "" && Get(form, "away_ace_race", "") != ""
            && (!IsRace(Get(form, "home_ace_race", "")) || !IsRace(Get(form, "away_ace_race", "")))
            ==> r == Refused("Invalid home ace race specified.")
    // Then the lookups.
    ensures AceFieldsValid(form) && |MatchRows(db.matches, week, m)| == 0 ==> r == Crashed(NoMatchRow)
    ensures AceFieldsValid(form) && |MatchRows(db.matches, week, m)| > 0 ==>
              var home := MatchRows(db.matches, week, m)[0].homeTeam;
              var away := MatchRows(db.matches, week, m)[0].awayTeam;
              var h := HomeAceId(form);
              var a := AwayAceId(form);
              && (h !in db.players ==> r == Crashed(NoSuchPlayer))
              && (h in db.players && db.players[h].team != home ==> r == Refused("Home ace is on the wrong team."))
              && (h in db.players && db.players[h].team == home && a !in db.players ==> r == Crashed(NoSuchPlayer))
              && (h in db.players && db.players[h].team == home && a in db.players && db.players[a].team != away
                  ==> r == Refused("Away ace is on the wrong team."))
              && (h in db.players && db.players[h].team == home && a in db.players && db.players[a].team == away
                  ==> r == Done(AcePick(h, a, Get(form, "home_ace_race", ""), Get(form, "away_ace_race", ""))))
  {
    var fields := AceFields(form);
    if fields.Done? then AceLookup(db, week, m, fields.value) else fields
  }

  /** The refusal texts of the ace checks. */
  predicate IsAceMessage(e: string) {
    || e == "No home ace specified." || e == "No away ace specified." || e == "Invalid ace specified."
    || e == "No home ace race specified." || e == "No away ace race specified."
    || e == "Invalid home ace race specified."
    || e == "Home ace is on the wrong team." || e == "Away ace is on the wrong team."
  }

  /** An ace id of 0 counts as no nomination at all. */
  lemma {:induction false} ZeroAceIsMissing(db: Db, form: Form, week: int, m: int)
    requires Get(form, "home_ace", "") != "" && Get(form, "away_ace", "") != ""
    requires ParseInt(Get(form, "home_ace", "")) == Some(0) && ParseInt(Get(form, "away_ace", "")).Some?
    ensures AceCheck(db, form, week, m) == Refused("No home ace specified.")
  {
  }

  /** A bad away race is reported with the home race's text. */
  lemma BadAwayRaceUsesHomeText(db: Db, form: Form, week: int, m: int)
    requires IsRace(Get(form, "home_ace_race", ""))
    requires Get(form, "away_ace_race", "") != "" && !IsRace(Get(form, "away_ace_race", ""))
    requires ParseInt(Get(form, "home_ace", "")).Some? && ParseInt(Get(form, "home_ace", "")).value != 0
    requires ParseInt(Get(form, "away_ace", "")).Some? && ParseInt(Get(form, "away_ace", "")).value != 0
    ensures AceCheck(db, form, week, m) == Refused("Invalid home ace race specified.")
  {
  }

  // ---------------------------------------------------------------------
  // The whole validation step

  /** `postdata.get("winner_%d" % n, "none")` for n = 1..5. */
  function Declarations(form: Form): (ds: seq<string>)
    ensures |ds| == NumSets
    ensures forall k :: 0 <= k < NumSets ==> ds[k] == Get(form, Numbered("winner", k + 1), "none")
  {
    seq(NumSets, k requires 0 <= k => Get(form, Numbered("winner", k + 1), "none"))
  }

  datatype Validated = Validated(pairs: seq<WinPair>, ace: Option<AcePick>)

  /** The pair each declaration stands for, set by set. */
  function DeclaredPairs(ds: seq<string>): (ps: seq<WinPair>)
    ensures |ps| == |ds|
    ensures forall k :: 0 <= k < |ds| ==> ps[k] == PairOf(ds[k])
  {
    seq(|ds|, k requires 0 <= k < |ds| => PairOf(ds[k]))
  }

  /** Everything `submit_result` checks before the stored-state guards. */
  function Validate(db: Db, form: Form, week: int, m: int): (r: Reply<Validated>)
    ensures r.Done? ==> Winners(Declarations(form)) == Done(r.value.pairs)
    ensures r.Done? ==> (r.value.ace.Some? <==> AcePlayed(r.value.pairs))
    ensures r.Done? && r.value.ace.Some? ==> AceCheck(db, form, week, m) == Done(r.value.ace.value)
    ensures Winners(Declarations(form)).Refused? ==> r == Refused(Winners(Declarations(form)).message)
    ensures Winners(Declarations(form)).Done? && !AcePlayed(Winners(Declarations(form)).value) ==>
              r == Done(Validated(Winners(Declarations(form)).value, None))
    ensures Winners(Declarations(form)).Done? && AcePlayed(Winners(Declarations(form)).value) ==>
              var ace := AceCheck(db, form, week, m);
              && (ace.Refused? ==> r == Refused(ace.message))
              && (ace.Crashed? ==> r == Crashed(ace.fault))
              && (ace.Done? ==> r == Done(Validated(Winners(Declarations(form)).value, Some(ace.value))))
  {
    match Winners(Declarations(form))
    case Refused(e) => Refused(e)
    case Crashed(f) => Crashed(f)
    case Done(pairs) =>
      if AcePlayed(pairs) then
        match AceCheck(db, form, week, m)
        case Refused(e) => Refused(e)
        case Crashed(f) => Crashed(f)
        case Done(pick) => Done(Validated(pairs, Some(pick)))
      else Done(Validated(pairs, None))
  }
}
