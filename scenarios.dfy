/**
  A worked example: two users, one problem, alice faster than bob. The
  bonus map credits alice alone, and the decorated ranking raises her score
  by one point and keeps her ahead.
 */
module Scenarios {
  import opened Domain
  import opened StableSort
  import opened FastestSolutionBonus
  import opened BestTimeRanking

  const Alice := User("u1", "alice", "", "")
  const Bob := User("u2", "bob", "", "")
  const AliceFirst := Submission("u1", "p1", 10, "kotlin")
  const BobSecond := Submission("u2", "p1", 20, "kotlin")

  function Entry(hacker: string, score: real): RankEntry {
    RankEntry(hacker, score, ["p1"], "", "", map[])
  }

  /** alice's 10 is the fastest of p1. */
  lemma FasterUserWins()
    ensures WinnerOf([AliceFirst, BobSecond], "p1") == Some("u1")
  {
    var subs := [AliceFirst, BobSecond];
    assert subs[..1] == [AliceFirst];
    assert OfProblem(subs, "p1") == subs;
    assert FastestIndex(subs) == 0;
  }

  lemma TwoUserIds()
    ensures UserIds([Alice, Bob]) == {"u1", "u2"}
  {
    assert [Alice, Bob][0].id == "u1" && [Alice, Bob][1].id == "u2";
  }

  /** alice's 10 beats bob's 20 on p1: the map is `{u1: 1.0, u2: 0.0}`. */
  lemma FasterUserGetsThePoint()
    ensures BonusPoints([AliceFirst, BobSecond], [Alice, Bob]) == map["u1" := 1.0, "u2" := 0.0]
  {
    var subs, users := [AliceFirst, BobSecond], [Alice, Bob];
    FasterUserWins();
    TwoUserIds();
    SingleProblemBonus(subs, users, "p1", "u1");
    SingleProblemBonus(subs, users, "p1", "u2");
    SameTwoEntries(BonusPoints(subs, users));
  }

  lemma SameTwoEntries(bonus: map<UserId, real>)
    requires bonus.Keys == {"u1", "u2"} && bonus["u1"] == 1.0 && bonus["u2"] == 0.0
    ensures bonus == map["u1" := 1.0, "u2" := 0.0]
  {
  }

  /** Sorting alice 6.0 and bob 4.0 by score descending keeps that order. */
  lemma HigherScoreFirst()
    ensures SortBy([Entry("alice", 6.0), Entry("bob", 4.0)], ByScoreDescending)
              == [Entry("alice", 6.0), Entry("bob", 4.0)]
  {
    var s := [Entry("alice", 6.0), Entry("bob", 4.0)];
    assert SortBy(s[1..], ByScoreDescending) == [Entry("bob", 4.0)];
  }

  /** The bonuses the ranking looks up by username: alice 1.0, bob 0.0. */
  lemma BonusesByUsername()
    ensures CoversUsers([Alice, Bob], BonusPoints([AliceFirst, BobSecond], [Alice, Bob]))
    ensures BonusOf([Alice, Bob], BonusPoints([AliceFirst, BobSecond], [Alice, Bob]), "alice") == 1.0
    ensures BonusOf([Alice, Bob], BonusPoints([AliceFirst, BobSecond], [Alice, Bob]), "bob") == 0.0
  {
    var users := [Alice, Bob];
    FasterUserGetsThePoint();
    assert FirstUserNamed(users, "alice") == Some(0);
    assert FirstUserNamed(users, "bob") == Some(1);
  }

  /** Adding alice 1.0 and bob 0.0 to alice 5.0 and bob 4.0. */
  lemma LookupsRaiseScores(users: seq<User>, bonus: map<UserId, real>)
    requires users == [Alice, Bob] && CoversUsers(users, bonus)
    requires BonusOf(users, bonus, "alice") == 1.0 && BonusOf(users, bonus, "bob") == 0.0
    ensures WithBonuses([Entry("alice", 5.0), Entry("bob", 4.0)], Hacker, RankEntryWithBonus, users, bonus)
              == Success([Entry("alice", 6.0), Entry("bob", 4.0)])
  {
    var inner := [Entry("alice", 5.0), Entry("bob", 4.0)];
    var boosted := WithBonuses(inner, Hacker, RankEntryWithBonus, users, bonus);
    assert IsUsername(users, inner[0].hacker) && IsUsername(users, inner[1].hacker);
    assert boosted.value[0] == Entry("alice", 6.0);
    assert boosted.value[1] == Entry("bob", 4.0);
    assert boosted.value == [Entry("alice", 6.0), Entry("bob", 4.0)];
  }

  /** Before sorting, alice's entry carries her point and bob's is unchanged. */
  lemma FasterUserRaised(decorator: BonusPointsForBestTimeRankingCalculator, problems: seq<Problem>)
    requires decorator.rankingCalculator.ranking([Alice, Bob], [AliceFirst, BobSecond], problems)
               == [Entry("alice", 5.0), Entry("bob", 4.0)]
    ensures decorator.RankEntriesWithBonus([Alice, Bob], [AliceFirst, BobSecond], problems)
              == Success([Entry("alice", 6.0), Entry("bob", 4.0)])
  {
    BonusesByUsername();
    LookupsRaiseScores([Alice, Bob], BonusPoints([AliceFirst, BobSecond], [Alice, Bob]));
  }

  /** With inner scores alice 5.0 and bob 4.0, the decorated ranking is alice 6.0 then bob 4.0. */
  lemma FasterUserStaysAhead(decorator: BonusPointsForBestTimeRankingCalculator, problems: seq<Problem>)
    requires decorator.rankingCalculator.ranking([Alice, Bob], [AliceFirst, BobSecond], problems)
               == [Entry("alice", 5.0), Entry("bob", 4.0)]
    ensures decorator.Ranking([Alice, Bob], [AliceFirst, BobSecond], problems)
              == Success([Entry("alice", 6.0), Entry("bob", 4.0)])
  {
    FasterUserRaised(decorator, problems);
    HigherScoreFirst();
  }
}
