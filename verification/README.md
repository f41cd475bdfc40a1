# AHGL admin: result entry, lineup entry and the replay archives

A Dafny model of the match-administration core of the AHGL admin web
application (`ahgl_admin.py`). The model covers these parts:

- **Result submission** (`submit_result`). A referee posts a winner for each
  of the five sets of a match, optional replay uploads and forfeit boxes, and,
  when set 5 was played, the two ace players and their races. The handler
  validates the declarations and the ace nominations, checks that the week has
  maps, that the match exists exactly once and that no result is stored yet,
  stores the replays under their SHA-1 digest and inserts one `set_results`
  row per set, plus an `ace_matches` row when set 5 has a winner.
- **Lineup submission** (`submit_lineup`). A captain names the player and race
  of each of sets 1-4 and a referee. Each player must be eligible, and no
  player may appear twice.
- **The replay store.** Uploads go to the data directory under
  `<sha1>.SC2Replay`, and a file is only written if that name is absent.
  `get_replay` reads a file back by digest.
- **The two zip builders.** `get_replay_pack` builds one week's pack with
  the path `AHGL_S<season>_Week-<w>/Match-<m>_<H>-<A>/<H>-<A>_<s>_<hp>-<ap>.SC2Replay`.
  `get_player_replays` builds one player's archive with paths
  `<prefix>/Week<w>-Set<s>.SC2Replay`. Both sanitise names with `cleanit`.

How the model is built:

- **Replies.** A handler gives back a `Reply`: `Done(value)`, `Refused(message)`
  with the exact text the handler returns, or `Crashed(fault)` for an uncaught
  exception (an HTTP 500). A refusal or a crash commits nothing.
- **The database** is a snapshot `Db`. `teams` and `players` are maps keyed by
  their primary key, and the other tables are sequences of rows in cursor
  order.
- **The data directory** is a map from digest to bytes.
- **SHA-1** is the parameter `sha1`. Its only known property is that it
  yields 40 lowercase hexadecimal characters.
- **The signed-in user's team** (`get_user_team()`) is a parameter.
- **A zip file** is the list of its members.

Modules, one per file: `Replies`, `Text` (`cleanit`, `%d`, Python 2 `int()`),
`Forms` (the posted form and files), `ReplayStore`, `Schema` (rows and
per-match/per-team selections), `ResultValidator`, `ResultRecorder`,
`LineupEntry`, `Archives` (the walk both zip builders share), `WeekPack`,
`PlayerArchive`, `Scenarios` (concrete submissions).

Two points where the code departs from what one might expect of it; the model follows the code:

- In a best-of-five reading, the ace is played only at 2-2, so a set-5 winner
  declared after a 3-1 or 1-3 split would be rejected. The code accepts any
  declared set 5 and then runs the ace checks (`ahgl_admin.py:594-609`); see
  `ResultValidator.AcePlayedIffFifthDeclared` and
  `Scenarios.ThreeOneWithDeclaredFifth`.
- The ace and winner checks run before the week, match and duplicate checks
  (`ahgl_admin.py:609-667`). So a bad ace can be reported for a match that does
  not exist. When set 5 names a side and every check on the ace fields passes,
  a match with no match row crashes on `list(cursor)[0]`
  (`Fault.NoMatchRow`) before "Invalid match" could be reached. Otherwise the
  first failing ace check's text, or "Invalid match", comes back.

## Model

| member | source | states |
|---|---|---|
| `Text.Clean` | ahgl_admin.py:496-497 | the sanitised word holds only `[a-zA-Z0-9]` and is no longer than the input |
| `Text.CleanFixesExactlyAlnum` | ahgl_admin.py:496-497 | `cleanit` leaves a word unchanged exactly when every character is alphanumeric |
| `Text.CleanIdempotent` | ahgl_admin.py:835-836 | sanitising a sanitised word changes nothing |
| `Text.CleanIsSubsequence` | ahgl_admin.py:496-497 | the kept characters appear in the input in the same order |
| `Text.CleanCounts` | ahgl_admin.py:496-497 | each alphanumeric character occurs as often as in the input, every other character not at all |
| `Text.CleanAppend` | ahgl_admin.py:496-497 | sanitising a concatenation is concatenating the sanitised parts |
| `Text.IntToString` | ahgl_admin.py:605 | `%d` of a non-negative number is all digits with no leading zero; of a negative one, a minus sign then digits |
| `Text.IntToStringInjective` | ahgl_admin.py:838-840 | different numbers give different `%d` texts, so paths built from them can be told apart |
| `Text.ParseIntOfIntToString` | ahgl_admin.py:575-578 | `int()` reads back every number written with `%d` |
| `Text.ParseIntOfDigits` | ahgl_admin.py:575-578 | `int()` of a non-empty digit string is its decimal value |
| `Text.ParseIntOfNegatedDigits` | ahgl_admin.py:575-578 | `int()` of a minus sign then digits is the negated decimal value |
| `Text.ParseInt` | ahgl_admin.py:575-578 | `int()` of an empty or all-whitespace text raises `ValueError` |
| `Forms.GetList` | ahgl_admin.py:571 | `getlist(name)` is every posted value of the field, and empty when the field was not posted |
| `Forms.Get` | ahgl_admin.py:595 | `get(name, default)` is the first posted value, or the default when there is none |
| `Forms.ReadIntField` | ahgl_admin.py:570-587 | a required number field is missing when it is not posted exactly once or is empty, and otherwise unparsable or parsed by `int()` |
| `Forms.NumberedInjective` | ahgl_admin.py:594-595 | different set numbers address different `winner_%d` fields |
| `Forms.UploadedBytes` | ahgl_admin.py:672-674 | an upload counts exactly when a file was chosen, and then yields its bytes |
| `ReplayStore.Put` | ahgl_admin.py:675-681 | the digest is the SHA-1 of the upload; old files are untouched; a new file holds the upload |
| `ReplayStore.PutKeepsContentAddressed` | ahgl_admin.py:676-680 | writing under the digest keeps every file named by its content's digest |
| `ReplayStore.PutIdempotent` | ahgl_admin.py:678-680 | a second upload of the same bytes changes nothing and yields the same digest |
| `ReplayStore.Fetch` | ahgl_admin.py:721-736 | a key that is not 40 lowercase hex characters is rejected before any lookup; a digest with a file yields that file |
| `ReplayStore.FetchAfterPut` | ahgl_admin.py:721-736 | reading back the digest of a stored upload yields bytes with that digest, and without a collision the upload itself |
| `ReplayStore.FetchAsWritten` | ahgl_admin.py:724-726 | the written check rejects exactly the keys its pattern refuses; a hit is a digest with a file |
| `ReplayStore.NewlineKeyReachesLookup` | ahgl_admin.py:724 | a digest followed by a newline passes the written check and reaches the lookup, and the intended check rejects it |
| `ReplayStore.FetchAgreesOffNewline` | ahgl_admin.py:724-736 | for every key but that one shape, the written and the intended check answer alike |
| `ResultValidator.WalkFrom` | ahgl_admin.py:594-605 | the walk never crashes and records one pair per remaining set |
| `ResultValidator.WalkFromMeaning` | ahgl_admin.py:594-605 | from any set on, the walk accepts exactly when each remaining set names a side or follows a decided match, and otherwise names the first one that does not |
| `ResultValidator.WinnersMeaning` | ahgl_admin.py:589-605 | sets are accepted exactly when each is declared or already decided; set `k` records `(1,0)`, `(0,1)` or `(0,0)` as declared; a rejection names the first bad set |
| `ResultValidator.TallyOfPairs` | ahgl_admin.py:596-601 | pairs recorded for the declarations add up to one home win per "home" and one away win per "away" |
| `ResultValidator.WinnersTally` | ahgl_admin.py:589-607 | the recorded pairs sum to the tallies `sum_home` and `sum_away` |
| `ResultValidator.CountsBound` | ahgl_admin.py:594-607 | at most one win per set, and all sets declared when the wins fill every set |
| `ResultValidator.AcePlayedIffFifthDeclared` | ahgl_admin.py:609 | the ace branch runs exactly when set 5 names a side |
| `ResultValidator.TiedEnteringFifthForcesAce` | ahgl_admin.py:594-609 | at 2-2 a blank set 5 is "Invalid winner for set 5", and an accepted set 5 runs the ace branch |
| `ResultValidator.AceFields` | ahgl_admin.py:610-638 | the field checks in order: a missing id, an unparsable id, a zero id, a missing race, a bad race, each with its own text; the form passes exactly when every field is valid, yielding the parsed ids and races |
| `ResultValidator.AceLookup` | ahgl_admin.py:639-652 | no match row or an unknown nominee crashes; a nominee of the wrong team is refused with its side's text; otherwise the nomination stands |
| `ResultValidator.AceCheck` | ahgl_admin.py:609-652 | each check in the order it runs, with its text: the ace-field checks, then the crash on no match row and on an unknown nominee, then each side's team; a nomination passing them all is accepted with its ids and races, each nominee on their side's team |
| `ResultValidator.ZeroAceIsMissing` | ahgl_admin.py:626-627 | a home ace id of 0 is refused as "No home ace specified." |
| `ResultValidator.BadAwayRaceUsesHomeText` | ahgl_admin.py:637-638 | a bad away race is refused with the home race's text |
| `ResultValidator.Winners` | ahgl_admin.py:594-605 | the winner walk never crashes, and an accepted walk records one pair per set |
| `ResultValidator.Declarations` | ahgl_admin.py:594-595 | set `k + 1`'s declaration is `winner_<k+1>`, "none" when absent |
| `ResultValidator.Validate` | ahgl_admin.py:589-652 | validation passes the walk's refusal through; an accepted walk without a set-5 winner is accepted with its pairs and no ace; with one, the ace check's refusal or crash comes back, and its nomination otherwise |
| `ResultRecorder.ReplayHashes` | ahgl_admin.py:669-681 | set `k + 1` has a digest exactly when it has an upload, and the digest is that upload's SHA-1 |
| `ResultRecorder.UploadsAreReplays` | ahgl_admin.py:671-674 | the written contents are exactly the chosen uploads of the sets |
| `ResultRecorder.PutAll` | ahgl_admin.py:671-681 | the upload loop never changes or removes a file already there |
| `ResultRecorder.PutAllMeaning` | ahgl_admin.py:671-681 | after the loop every upload's digest names a file, and every new file is an upload stored under its digest |
| `ResultRecorder.PutAllKeepsContentAddressed` | ahgl_admin.py:675-680 | the loop keeps every file named by its content's digest |
| `ResultRecorder.StoreReplays` | ahgl_admin.py:671-681 | the upload loop never changes or removes a file already in the data directory |
| `ResultRecorder.StoreReplaysMeaning` | ahgl_admin.py:669-689 | old files stay, every digest put in a row names a stored file, and every new file is some set's upload |
| `ResultRecorder.Forfeit` | ahgl_admin.py:684 | the forfeit column is 1 exactly when the box posted "on", and 0 otherwise |
| `ResultRecorder.SetRows` | ahgl_admin.py:683-689 | five rows, set `k + 1` carrying the week, the match, its pair, its forfeit bit and its digest |
| `ResultRecorder.Record` | ahgl_admin.py:654-697 | "Invalid week" when the week has no maps, else "Invalid match" unless the match is there once, else "Result already submitted" when a result exists; otherwise it appends the rows and the ace row and grows the store |
| `ResultRecorder.SubmitResult` | ahgl_admin.py:567-697 | a missing or unparsable week or match is refused with its text; then a refusal or crash of validation comes back unchanged; an accepted submission had a week with maps, one match row and no result |
| `ResultRecorder.SubmitResultEffect` | ahgl_admin.py:589-697 | an accepted submission appends five rows holding each set's declared pair, forfeit and digest, and an ace row exactly when set 5 names a side; no other table changes |
| `ResultRecorder.SubmitResultAccepts` | ahgl_admin.py:567-697 | conversely, a submission whose week and match parse, whose sets are each declared or decided, whose ace checks pass when set 5 names a side, for a week with maps, one match row and no result, is accepted with exactly its five rows, its ace row and its uploads |
| `ResultRecorder.ResultWrittenOnce` | ahgl_admin.py:664-667 | once a match's result is stored, no second submission for it is accepted |
| `ResultRecorder.EmptyConsistent` | ahgl_admin.py:664-697 | an empty result table with an empty data directory satisfies the stored-state invariant |
| `ResultRecorder.AppendBatchHere` | ahgl_admin.py:683-695 | after an append the match's rows are the five new ones numbered 1-5, with one ace row exactly when set 5 has a winner |
| `ResultRecorder.AppendBatchElsewhere` | ahgl_admin.py:683-695 | an append leaves every other match's rows and ace rows as they were |
| `ResultRecorder.AppendBatchPreserves` | ahgl_admin.py:683-695 | appending one whole batch keeps every match's rows numbered 1-5 and its ace rows matched to set 5 |
| `ResultRecorder.AppendKeepsHashesStored` | ahgl_admin.py:669-689 | rows whose digests name stored files, added to a store that only grows, keep every digest backed by a file |
| `ResultRecorder.AppendBatchConsistent` | ahgl_admin.py:669-697 | a whole batch with stored digests and a grown content-addressed store keeps the state consistent |
| `ResultRecorder.RecordPreservesConsistent` | ahgl_admin.py:654-697 | recording a validated result keeps the state consistent: files named by digest, digests backed by files, batches whole, aces matched |
| `ResultRecorder.SubmitResultPreservesConsistent` | ahgl_admin.py:567-697 | every accepted submission keeps the state consistent |
| `LineupEntry.Eligible` | ahgl_admin.py:355-358 | the eligible players are exactly the active players of the team |
| `LineupEntry.PlayerField` | ahgl_admin.py:369-378 | a field not posted once or empty gives "No value submitted for 'player_N'", an unparsable one "Invalid value for player N", an ineligible id "Player N is not an eligible team member"; an eligible id is accepted |
| `LineupEntry.RaceField` | ahgl_admin.py:383-388 | a field not posted once or empty gives "No value submitted for 'race_N'", any other non-race "Invalid race for player N"; a race from `TZPR` is accepted |
| `LineupEntry.EnterSet` | ahgl_admin.py:369-394 | the player field's refusal comes first, then "Duplicate player for player N" for a player entered before, then the race field's refusal; otherwise the set's row with that player and race |
| `LineupEntry.EnterSetEntered` | ahgl_admin.py:379-381 | the earlier sets matter only through the repetition check |
| `LineupEntry.EnterSets` | ahgl_admin.py:366-394 | the loop never crashes and yields one row per remaining set |
| `LineupEntry.FreshCons` | ahgl_admin.py:379-381 | a row extends fresh rows exactly when its player is new to them and to the earlier sets |
| `LineupEntry.EnterSetsDone` | ahgl_admin.py:366-394 | an accepted loop gives rows in set order, each the row its own fields give, with pairwise different eligible players |
| `LineupEntry.EnterSetsAccepts` | ahgl_admin.py:366-394 | conversely, sets that each pass alone with pairwise different new players are accepted as exactly those rows |
| `LineupEntry.Admit` | ahgl_admin.py:341-396 | "Invalid team" for an unknown team, then "Invalid week" for a week without maps, then "Lineup already submitted"; past those guards the loop's refusal comes back, and a finished loop is accepted, appending the referee row and the loop's rows |
| `LineupEntry.SubmitLineup` | ahgl_admin.py:312-398 | the week, team and other-team guards give their texts; for the user's own team an empty referee gives "No referee submitted", and otherwise the answer is what the stored-state guards and the loop admit |
| `LineupEntry.SubmitLineupEffect` | ahgl_admin.py:341-396 | an accepted lineup appends one referee row and four rows for sets 1-4 of different eligible players; nothing else changes |
| `LineupEntry.SubmitLineupAccepts` | ahgl_admin.py:312-396 | a well-formed lineup for the user's team, week and four different eligible players is accepted with exactly those rows |
| `LineupEntry.LineupEnteredOnce` | ahgl_admin.py:351-354 | once a team's lineup for a week is stored, no second one is accepted |
| `LineupEntry.AppendLineupHere` | ahgl_admin.py:366-394 | after an append the team's rows for the week are the four new ones numbered 1-4 |
| `LineupEntry.AppendLineupElsewhere` | ahgl_admin.py:366-394 | an append leaves every other team and week unchanged |
| `LineupEntry.AppendLineupPreserves` | ahgl_admin.py:351-394 | appending a whole lineup where none was keeps every lineup numbered 1-4 with different players |
| `LineupEntry.SubmitLineupPreservesWhole` | ahgl_admin.py:312-398 | every accepted lineup keeps all stored lineups whole |
| `Archives.Gather` | ahgl_admin.py:825-840 | a built archive has at most one member per visited row |
| `Archives.GatherMeaning` | ahgl_admin.py:768-782 | the archive is built exactly when every row's step finishes, and then holds exactly the members the steps add; a crash is the first failing row's |
| `Archives.GatherAgrees` | ahgl_admin.py:768-782 | two loop bodies that agree wherever the first finishes build the same archive |
| `Archives.GatherAppend` | ahgl_admin.py:768-782 | walking two runs of rows one after the other is walking the first and then the second: when both finish, the first run's members come first; otherwise the first run that stops gives the result |
| `Archives.GatherKeepsOrder` | ahgl_admin.py:768-782 | in a finished walk a member added by an earlier row sits before one added by a later row |
| `WeekPack.PackPath` | ahgl_admin.py:839-840 | a member path starts with the season's and week's directory `AHGL_S<season>_Week-<w>/Match-` and ends in `.SC2Replay` |
| `WeekPack.IntToStringHasNoUnderscore` | ahgl_admin.py:839-840 | a `%d` text has no underscore, so it ends at the next `_` of the path |
| `WeekPack.PackPathInjective` | ahgl_admin.py:839-840 | within one week's pack, the path determines the match, the set and the four sanitised names |
| `WeekPack.LineupName` | ahgl_admin.py:796-804 | `lineups[team][set]` is the name in the last matching joined row, or missing when none matches |
| `WeekPack.AceNames` | ahgl_admin.py:806-813 | `aces[match]` is the two names of the last matching ace row, or missing when none matches |
| `WeekPack.JoinMatch` | ahgl_admin.py:818-824 | one match row's joined rows are exactly the week's result rows with its match number |
| `WeekPack.Join` | ahgl_admin.py:818-824 | the joined rows are exactly the pairs of one match row and one result row of the week with the same match number |
| `WeekPack.SetPlayers` | ahgl_admin.py:829-834 | sets 1-4 find names exactly when both teams have a lineup row for the set, and then they are the two teams' lineup names; set 5 exactly when the match has an ace row, and then they are its two ace names; otherwise a `KeyError` crash, never a refusal |
| `WeekPack.PackStep` | ahgl_admin.py:825-840 | a row without a digest is skipped; one with a digest is written exactly when its names, teams and file exist, as that row's member; a crash is a missing lineup entry, ace entry, team row or replay file |
| `WeekPack.ReplayPack` | ahgl_admin.py:815-844 | a built pack has at most one member per joined row |
| `WeekPack.ReplayPackNeverRefused` | ahgl_admin.py:825-840 | the pack is never refused, and a NULL digest never crashes it; a crash is a missing lineup entry, ace entry, team row or replay file, and a player missing from `players` shows up as a missing lineup or ace entry |
| `WeekPack.ReplayPackBuilt` | ahgl_admin.py:815-844 | the pack is built exactly when every joined row with a digest has its names, team rows and file |
| `WeekPack.ReplayPackFindsFiles` | ahgl_admin.py:837-838 | when every stored digest names a file, the pack never fails for want of a file |
| `WeekPack.ReplayPackMemberOf` | ahgl_admin.py:825-840 | every member of a built pack is the member of one joined row with a digest |
| `WeekPack.ReplayPackContent` | ahgl_admin.py:837-840 | in a content-addressed store every member's bytes hash to the digest of some joined row |
| `WeekPack.ReplayPackHasRow` | ahgl_admin.py:825-840 | every joined row with a digest has its member, under its path, in a built pack |
| `PlayerArchive.LineupTriplesFor` | ahgl_admin.py:746-753 | one match row contributes a tuple per lineup row of the player's team in that week |
| `PlayerArchive.LineupTriples` | ahgl_admin.py:746-753 | the lineup tuples are exactly the (week, match, set) of the matches whose team lined up the player that week |
| `PlayerArchive.AceTriples` | ahgl_admin.py:755-761 | the ace tuples are exactly the (week, match, 5) of the ace rows naming the player on either side |
| `PlayerArchive.Insert` | ahgl_admin.py:768 | inserting into a sorted list keeps it sorted and adds exactly that tuple |
| `PlayerArchive.Sort` | ahgl_admin.py:768 | `sorted` yields a sorted permutation of its input |
| `PlayerArchive.SortedUnique` | ahgl_admin.py:768 | two sorted lists with the same tuples are equal, so the visiting order is determined |
| `PlayerArchive.FirstHash` | ahgl_admin.py:769-779 | the set's first result row's digest column, or nothing when the set has no row |
| `PlayerArchive.MemberPath` | ahgl_admin.py:782 | a member path is the prefix, then `/Week`, and ends in `.SC2Replay` |
| `PlayerArchive.MemberStep` | ahgl_admin.py:768-782 | as written, a set without a row is skipped and a set with a NULL digest crashes; a digest with a file writes that file under the set's member path, and a digest without one crashes for the missing file |
| `PlayerArchive.MemberStepSkipping` | ahgl_admin.py:768-782 | the corrected body skips a set without a row, a NULL or an empty digest; a replay with a file is written under the set's member path, one without crashes for the missing file |
| `PlayerArchive.Visits` | ahgl_admin.py:746-768 | the sets visited are the lineup and ace tuples, in sorted order |
| `PlayerArchive.Prefix` | ahgl_admin.py:763 | the prefix is `AHGL_S<season>`, then `_`, then exactly the name with every character outside `[a-zA-Z0-9]` removed |
| `PlayerArchive.PlayerReplays` | ahgl_admin.py:741-744 | the archive crashes on `list(cursor)[0]` before the walk exactly when the player id is unknown |
| `PlayerArchive.PlayerReplaysSkipping` | ahgl_admin.py:741-744 | the corrected archive also crashes only on an unknown player before the walk |
| `PlayerArchive.PlayerReplaysBuilt` | ahgl_admin.py:741-782 | as written, an existing player's archive is built exactly when no visited set has a NULL digest and every recorded digest names a file |
| `PlayerArchive.PlayerReplaysSkippingBuilt` | ahgl_admin.py:741-782 | the corrected archive of an existing player is built exactly when every visited set stored with a replay names a file |
| `PlayerArchive.PlayerReplaysInVisitOrder` | ahgl_admin.py:768-782 | the zip lists the files of the visited sets in the sorted order of `(week, match, set)`: of two visited sets with a recorded replay, the earlier one's file comes first |
| `PlayerArchive.PlayerReplaysHasSet` | ahgl_admin.py:768-782 | a built archive holds every visited set's replay, under that set's member path |
| `PlayerArchive.VisitsAreListedSets` | ahgl_admin.py:746-768 | a set is visited exactly when the player was in a lineup for it or was an ace of it |
| `PlayerArchive.PlayerReplaysNeedsEveryReplay` | ahgl_admin.py:779-782 | as written, one visited set stored without a replay keeps the archive from being built |
| `PlayerArchive.NullHashCrashesArchive` | ahgl_admin.py:775-782 | a player lined up for a set whose result was entered without a replay: the written archive crashes, the corrected one is empty |
| `PlayerArchive.SkippingNeverCrashes` | ahgl_admin.py:741-782 | when every stored digest names a file, the corrected archive of an existing player is always built |
| `PlayerArchive.MemberStepsAgree` | ahgl_admin.py:768-782 | where the written loop body finishes, the corrected one does the same |
| `PlayerArchive.SkippingAgrees` | ahgl_admin.py:768-782 | wherever the written archive is built, the corrected one is the same archive |
| `PlayerArchive.SkippingMembers` | ahgl_admin.py:763-782 | every member is a visited set's file under `<prefix>/Week<w>-Set<s>`, hashing to that set's digest |
| `PlayerArchive.MemberPathDeterminesWeekAndSet` | ahgl_admin.py:782 | a member path determines its week and set number |
| `Scenarios.ThreeOneWithBlankFifth` | ahgl_admin.py:594-605 | home, away, away, away, none is accepted with set 5 recorded as `(0,0)` and no ace |
| `Scenarios.ThreeOneWithDeclaredFifth` | ahgl_admin.py:594-609 | a side declared for set 5 after 1-3 is accepted and runs the ace branch |
| `Scenarios.BlankFirstSet` | ahgl_admin.py:602-605 | a blank set 1 is "Invalid winner for set 1" |
| `Scenarios.TwoTwoWithBlankFifth` | ahgl_admin.py:602-605 | at 2-2 a blank set 5 is "Invalid winner for set 5" |
| `Scenarios.TwoTwoWithoutAce` | ahgl_admin.py:609-616 | at 2-2 with set 5 declared and no ace posted, the answer is "No home ace specified." |
| `Scenarios.PackPathOfTestMatch` | webdriver_tests.py:285 | set 1 of match 1 of week 1 of season 2, Twitter against Zynga with implausible and ShamWOW, is stored at `AHGL_S2_Week-1/Match-1_Twitter-Zynga/Twitter-Zynga_1_implausible-ShamWOW.SC2Replay` |

## Left out

- HTTP, Flask routing, templates and the pages that only display data
  (`view_*`, `enter_*`, the rosters and character-code pages) are not modelled.
  `require_auth` and `get_user_team()` are not modelled either; the user's team
  is a parameter.
- `submit_result` carries no `require_auth` in the code. Authentication is
  outside this model either way.
- SQL is modelled by its result sets. Row order of a join is modelled as
  nested loops, match rows outer. The database engine's real order is not
  modelled, so no lemma claims an order of pack members.
- File-system errors other than a missing replay file, and the connection
  rollback of uncommitted inserts after a refusal, are not modelled. A refusal
  is modelled as committing nothing. The code writes replay files before the
  rows are committed. No check refuses after the upload loop, so the model
  writes them together with the rows.
- Zip compression and the zip container format are not modelled. Duplicate
  member names are kept as duplicate list entries.
- SHA-1 is a parameter: only its output format is assumed, not
  collision resistance.
- Concurrency between requests is not modelled; each handler is a function from
  one snapshot to the next.
- `Text.ParseInt`: Python 2 `int()` is modelled for ASCII digits, ASCII
  whitespace and an optional sign. Unicode digits and Unicode whitespace, which
  `int()` also accepts on unicode form values, are not. Neither is SQLite's
  overflow on ids beyond 64 bits.
- `WeekPack.ReplayPackMemberOf`: states which members the pack holds, not their
  order, because the join order is left to the database.
- `PlayerArchive.PlayerReplays`: which fault a failed archive reports (the
  first failing visited set's) is given by `Archives.GatherMeaning`, not
  restated per handler.
- `PlayerArchive.MemberPath`: the member path holds the week and set but not the
  match number, as in the code. Two matches of one week in which the player
  played the same set number give two members with the same name; the model
  keeps both as list entries and states no uniqueness of member names.
- `PlayerArchive.Sort`: Python's `sorted` is modelled by insertion sort. Any
  sort gives the same list of tuples (`PlayerArchive.SortedUnique`).
- `LineupEntry.SubmitLineup`: the source inserts the referee row before the
  loop. The model appends it only when the loop completes, because a refusal
  commits nothing.

## Findings

| source | as written | input that shows it | evidently intended | confidence | as-written member | corrected member |
|---|---|---|---|---|---|---|
| ahgl_admin.py:779-782 | a set whose result row has no replay (`replay_hash` NULL) reaches `None + ".SC2Replay"` and raises `TypeError` | player 1 lined up for set 1 of week 1, whose result was entered without uploading `replay_1` | skip the set, as the comment on the empty case and the week pack's `if not replayhash: continue` do | not executed; high: every submission without all five uploads stores NULL digests | `PlayerArchive.NullHashCrashesArchive` | `PlayerArchive.SkippingNeverCrashes` |
| ahgl_admin.py:724 | `re.search(r'^[0-9a-f]{40}$', key)` also matches 40 hex characters followed by a newline, because `$` matches before a final `\n` | the key `<40 hex digits>\n` | accept exactly the 40-character lowercase hex digests before touching the data directory | not executed; low impact: the looser key only reaches a lookup of a file that cannot exist | `ReplayStore.NewlineKeyReachesLookup` | `ReplayStore.Fetch` |
