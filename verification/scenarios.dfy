/** Worked submissions: the winner declarations of webdriver_tests.py:240-244
    and the edge cases of the winner walk, each stated on concrete values. */
module Scenarios {

  import opened Replies
  import opened Forms
  import opened Schema
  import opened ResultValidator
  import opened Text
  import opened WeekPack

  /** Home wins set 1, away wins sets 2-4, set 5 is left at "none": the match is
      decided before set 5, so the blank stands as an unplayed set and no ace
      is nominated. */
  lemma ThreeOneWithBlankFifth()
    ensures Winners(["home", "away", "away", "away", "none"])
            == Done([WinPair(1, 0), WinPair(0, 1), WinPair(0, 1), WinPair(0, 1), WinPair(0, 0)])
    ensures !AcePlayed([WinPair(1, 0), WinPair(0, 1), WinPair(0, 1), WinPair(0, 1), WinPair(0, 0)])
  {
    var ds := ["home", "away", "away", "away", "none"];
    assert [WinPair(0, 0)] + [] == [WinPair(0, 0)];
    assert WalkFrom(ds, 4, 1, 3) == Done([WinPair(0, 0)]);
    assert [WinPair(0, 1)] + [WinPair(0, 0)] == [WinPair(0, 1), WinPair(0, 0)];
    assert WalkFrom(ds, 3, 1, 2) == Done([WinPair(0, 1), WinPair(0, 0)]);
    assert [WinPair(0, 1)] + [WinPair(0, 1), WinPair(0, 0)] == [WinPair(0, 1), WinPair(0, 1), WinPair(0, 0)];
    assert WalkFrom(ds, 2, 1, 1) == Done([WinPair(0, 1), WinPair(0, 1), WinPair(0, 0)]);
    assert [WinPair(0, 1)] + [WinPair(0, 1), WinPair(0, 1), WinPair(0, 0)] == [WinPair(0, 1), WinPair(0, 1), WinPair(0, 1), WinPair(0, 0)];
    assert WalkFrom(ds, 1, 1, 0) == Done([WinPair(0, 1), WinPair(0, 1), WinPair(0, 1), WinPair(0, 0)]);
    assert [WinPair(1, 0)] + [WinPair(0, 1), WinPair(0, 1), WinPair(0, 1), WinPair(0, 0)]
           == [WinPair(1, 0), WinPair(0, 1), WinPair(0, 1), WinPair(0, 1), WinPair(0, 0)];
  }

  /** A side may still be declared for set 5 after the match is decided: the
      walk accepts it and the ace branch runs. */
  lemma ThreeOneWithDeclaredFifth()
    ensures Winners(["home", "away", "away", "away", "home"])
            == Done([WinPair(1, 0), WinPair(0, 1), WinPair(0, 1), WinPair(0, 1), WinPair(1, 0)])
    ensures AcePlayed([WinPair(1, 0), WinPair(0, 1), WinPair(0, 1), WinPair(0, 1), WinPair(1, 0)])
  {
    var ds := ["home", "away", "away", "away", "home"];
    assert [WinPair(1, 0)] + [] == [WinPair(1, 0)];
    assert WalkFrom(ds, 4, 1, 3) == Done([WinPair(1, 0)]);
    assert [WinPair(0, 1)] + [WinPair(1, 0)] == [WinPair(0, 1), WinPair(1, 0)];
    assert WalkFrom(ds, 3, 1, 2) == Done([WinPair(0, 1), WinPair(1, 0)]);
    assert [WinPair(0, 1)] + [WinPair(0, 1), WinPair(1, 0)] == [WinPair(0, 1), WinPair(0, 1), WinPair(1, 0)];
    assert WalkFrom(ds, 2, 1, 1) == Done([WinPair(0, 1), WinPair(0, 1), WinPair(1, 0)]);
    assert [WinPair(0, 1)] + [WinPair(0, 1), WinPair(0, 1), WinPair(1, 0)] == [WinPair(0, 1), WinPair(0, 1), WinPair(0, 1), WinPair(1, 0)];
    assert WalkFrom(ds, 1, 1, 0) == Done([WinPair(0, 1), WinPair(0, 1), WinPair(0, 1), WinPair(1, 0)]);
    assert [WinPair(1, 0)] + [WinPair(0, 1), WinPair(0, 1), WinPair(0, 1), WinPair(1, 0)]
           == [WinPair(1, 0), WinPair(0, 1), WinPair(0, 1), WinPair(0, 1), WinPair(1, 0)];
  }

  /** A blank set 1 is rejected with its set number. */
  lemma BlankFirstSet()
    ensures Winners(["none", "home", "home", "home", "none"]) == Refused("Invalid winner for set 1")
  {
  }

  /** At 2-2 a blank set 5 is rejected. */
  lemma TwoTwoWithBlankFifth()
    ensures Winners(["home", "home", "away", "away", "none"]) == Refused("Invalid winner for set 5")
  {
  }

  /** At 2-2 with set 5 declared and no home ace posted, the ace check refuses. */
  lemma TwoTwoWithoutAce(db: Db)
    ensures var form: Form := map["winner_1" := ["home"], "winner_2" := ["home"], "winner_3" := ["away"],
                                  "winner_4" := ["away"], "winner_5" := ["home"]];
            Validate(db, form, 1, 1) == Refused("No home ace specified.")
  {
    var form: Form := map["winner_1" := ["home"], "winner_2" := ["home"], "winner_3" := ["away"],
                          "winner_4" := ["away"], "winner_5" := ["home"]];
    TwoTwoDeclared(form);
    TwoTwoWalk();
    assert AcePlayed([WinPair(1, 0), WinPair(1, 0), WinPair(0, 1), WinPair(0, 1), WinPair(1, 0)]);
    assert Get(form, "home_ace", "") == "";
  }

  lemma TwoTwoDeclared(form: Form)
    requires form == map["winner_1" := ["home"], "winner_2" := ["home"], "winner_3" := ["away"],
                         "winner_4" := ["away"], "winner_5" := ["home"]]
    ensures Declarations(form) == ["home", "home", "away", "away", "home"]
  {
    assert Numbered("winner", 1) == "winner_1";
    assert Numbered("winner", 2) == "winner_2";
    assert Numbered("winner", 3) == "winner_3";
    assert Numbered("winner", 4) == "winner_4";
    assert Numbered("winner", 5) == "winner_5";
  }

  lemma TwoTwoWalk()
    ensures Winners(["home", "home", "away", "away", "home"])
            == Done([WinPair(1, 0), WinPair(1, 0), WinPair(0, 1), WinPair(0, 1), WinPair(1, 0)])
  {
    var ds := ["home", "home", "away", "away", "home"];
    assert [WinPair(1, 0)] + [] == [WinPair(1, 0)];
    assert WalkFrom(ds, 4, 2, 2) == Done([WinPair(1, 0)]);
    assert [WinPair(0, 1)] + [WinPair(1, 0)] == [WinPair(0, 1), WinPair(1, 0)];
    assert WalkFrom(ds, 3, 2, 1) == Done([WinPair(0, 1), WinPair(1, 0)]);
    assert [WinPair(0, 1)] + [WinPair(0, 1), WinPair(1, 0)] == [WinPair(0, 1), WinPair(0, 1), WinPair(1, 0)];
    assert WalkFrom(ds, 2, 2, 0) == Done([WinPair(0, 1), WinPair(0, 1), WinPair(1, 0)]);
    assert [WinPair(1, 0)] + [WinPair(0, 1), WinPair(0, 1), WinPair(1, 0)] == [WinPair(1, 0), WinPair(0, 1), WinPair(0, 1), WinPair(1, 0)];
    assert WalkFrom(ds, 1, 1, 0) == Done([WinPair(1, 0), WinPair(0, 1), WinPair(0, 1), WinPair(1, 0)]);
    assert [WinPair(1, 0)] + [WinPair(1, 0), WinPair(0, 1), WinPair(0, 1), WinPair(1, 0)]
           == [WinPair(1, 0), WinPair(1, 0), WinPair(0, 1), WinPair(0, 1), WinPair(1, 0)];
  }

  /** The member webdriver_tests.py:285 opens in the pack of week 1 of season 2:
      set 1 of match 1, Twitter at home to Zynga, played by implausible and
      ShamWOW. The expected path is written in four pieces that spell, end to
      end, the test's `AHGL_S2_Week-1/Match-1_Twitter-Zynga/Twitter-Zynga_1_implausible-ShamWOW.SC2Replay`. */
  lemma PackPathOfTestMatch()
    ensures PackPath("2", 1, 1, "Twitter", "Zynga", 1, "implausible", "ShamWOW")
            == "AHGL_S2_Week-1/Match-" + "1_Twitter-Zynga/" + "Twitter-Zynga_1_" + "implausible-ShamWOW.SC2Replay"
  {
    TestMatchUnfolds();
    TestPathRegroups();
  }

  /** The test's names are alphanumeric, so `Clean` keeps them as they are. */
  lemma TestMatchUnfolds()
    ensures PackPath("2", 1, 1, "Twitter", "Zynga", 1, "implausible", "ShamWOW")
            == "AHGL_S" + "2" + "_Week-" + "1" + "/Match-"
               + ("1" + "_" + ("Twitter" + "-" + ("Zynga" + "/" + ("Twitter" + "-" + ("Zynga" + "_"
               + ("1" + "_" + ("implausible" + "-" + ("ShamWOW" + ".SC2Replay"))))))))
  {
    assert AllAlnum("Twitter") && AllAlnum("Zynga") && AllAlnum("implausible") && AllAlnum("ShamWOW");
    PackPathOfCleanNames("2", 1, 1, "Twitter", "Zynga", 1, "implausible", "ShamWOW");
    assert IntToString(1) == "1";
  }

  /** Joins the pieces of the test path a few at a time, each step an equation
      between short literals in front of a common tail. */
  lemma TestPathRegroups()
    ensures "AHGL_S" + "2" + "_Week-" + "1" + "/Match-"
               + ("1" + "_" + ("Twitter" + "-" + ("Zynga" + "/" + ("Twitter" + "-" + ("Zynga" + "_"
               + ("1" + "_" + ("implausible" + "-" + ("ShamWOW" + ".SC2Replay"))))))))
            == "AHGL_S2_Week-1/Match-" + "1_Twitter-Zynga/" + "Twitter-Zynga_1_" + "implausible-ShamWOW.SC2Replay"
  {
    var last := "implausible-ShamWOW.SC2Replay";
    calc {
      "AHGL_S" + "2" + "_Week-" + "1" + "/Match-"
        + ("1" + "_" + ("Twitter" + "-" + ("Zynga" + "/" + ("Twitter" + "-" + ("Zynga" + "_"
        + ("1" + "_" + ("implausible" + "-" + ("ShamWOW" + ".SC2Replay"))))))));
    == { LastPiece(); }
      "AHGL_S" + "2" + "_Week-" + "1" + "/Match-"
        + ("1" + "_" + ("Twitter" + "-" + ("Zynga" + "/" + ("Twitter" + "-" + ("Zynga" + "_"
        + ("1" + "_" + last))))));
    == { MiddlePieces(last); }
      "AHGL_S" + "2" + "_Week-" + "1" + "/Match-"
        + ("1" + "_" + ("Twitter" + "-" + ("Zynga" + "/" + ("Twitter-Zynga_1_" + last))));
    == { FirstPieces("Twitter-Zynga_1_" + last); }
      "AHGL_S" + "2" + "_Week-" + "1" + "/Match-" + ("1_Twitter-Zynga/" + ("Twitter-Zynga_1_" + last));
    == { DirPiece("1_Twitter-Zynga/" + ("Twitter-Zynga_1_" + last)); }
      "AHGL_S2_Week-1/Match-" + ("1_Twitter-Zynga/" + ("Twitter-Zynga_1_" + last));
    == { Regroup("AHGL_S2_Week-1/Match-", "1_Twitter-Zynga/", "Twitter-Zynga_1_", last); }
      "AHGL_S2_Week-1/Match-" + "1_Twitter-Zynga/" + "Twitter-Zynga_1_" + last;
    }
  }

  /** With names that are already alphanumeric, the pack path holds the names as given. */
  lemma PackPathOfCleanNames(season: string, week: int, m: int, homeTeam: string, awayTeam: string,
                             s: int, homePlayer: string, awayPlayer: string)
    requires AllAlnum(homeTeam) && AllAlnum(awayTeam) && AllAlnum(homePlayer) && AllAlnum(awayPlayer)
    ensures PackPath(season, week, m, homeTeam, awayTeam, s, homePlayer, awayPlayer)
            == "AHGL_S" + season + "_Week-" + IntToString(week) + "/Match-"
               + (IntToString(m) + "_" + (homeTeam + "-" + (awayTeam + "/" + (homeTeam + "-" + (awayTeam + "_"
               + (IntToString(s) + "_" + (homePlayer + "-" + (awayPlayer + ".SC2Replay"))))))))
  {
    StaysClean(homeTeam);
    StaysClean(awayTeam);
    StaysClean(homePlayer);
    StaysClean(awayPlayer);
  }

  lemma StaysClean(s: string)
    requires AllAlnum(s)
    ensures Clean(s) == s
  {
    CleanFixesExactlyAlnum(s);
  }

  lemma LastPiece()
    ensures "implausible" + "-" + ("ShamWOW" + ".SC2Replay") == "implausible-ShamWOW.SC2Replay"
  {
  }

  lemma MiddlePieces(x: string)
    ensures "Twitter" + "-" + ("Zynga" + "_" + ("1" + "_" + x)) == "Twitter-Zynga_1_" + x
  {
  }

  lemma FirstPieces(x: string)
    ensures "1" + "_" + ("Twitter" + "-" + ("Zynga" + "/" + x)) == "1_Twitter-Zynga/" + x
  {
  }

  lemma DirPiece(x: string)
    ensures "AHGL_S" + "2" + "_Week-" + "1" + "/Match-" + x == "AHGL_S2_Week-1/Match-" + x
  {
  }

  lemma Regroup(d: string, a: string, b: string, c: string)
    ensures d + (a + (b + c)) == d + a + b + c
  {
  }
}
