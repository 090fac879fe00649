/**
  The ranking decorator that rewards the fastest solution of each problem
  with one extra point. It holds the submissions repository and the ranking
  calculator it wraps, and answers the same three questions as that
  calculator: the overall ranking, the ranking of one problem, and a user's
  standing on each problem. Each answer takes the wrapped calculator's
  answer, adds the bonus points and sorts again.

  A `first { ... }` that finds nothing raises an exception in the decorator;
  here it is a Failure naming the first row, in list order, that had no match.
 */
module BestTimeRanking {
  import opened Domain
  import opened StableSort
  import opened FastestSolutionBonus

  /** `users.first { it.username == username }`, as an index. */
  function FirstUserNamed(users: seq<User>, username: string): (r: Option<nat>)
    ensures r.None? <==> forall i :: 0 <= i < |users| ==> users[i].username != username
    ensures r.Some? ==> r.value < |users| && users[r.value].username == username
    ensures r.Some? ==> forall j :: 0 <= j < r.value ==> users[j].username != username
  {
    if users == [] then None
    else if users[0].username == username then Some(0)
    else
      match FirstUserNamed(users[1..], username)
      case None => None
      case Some(i) => Some(i + 1)
  }

  predicate IsUsername(users: seq<User>, username: string) {
    FirstUserNamed(users, username).Some?
  }

  /** Every user's id is a key: the lookups `bonusPoints[id] as Double` cannot fail. */
  ghost predicate CoversUsers(users: seq<User>, bonus: map<UserId, real>) {
    forall i :: 0 <= i < |users| ==> users[i].id in bonus
  }

  /** The bonus of the first user called `username`. */
  function BonusOf(users: seq<User>, bonus: map<UserId, real>, username: string): real
    requires CoversUsers(users, bonus) && IsUsername(users, username)
  {
    bonus[users[FirstUserNamed(users, username).value].id]
  }

  /** `f(xs[i])` is the first failure of `f` over `xs`. */
  ghost predicate FirstFailureAt<A, B>(xs: seq<A>, f: A -> Result<B>, i: int) {
    && 0 <= i < |xs|
    && f(xs[i]).Failure?
    && forall j :: 0 <= j < i ==> f(xs[j]).Success?
  }

  /** A Kotlin `map { ... }` whose lambda may throw: the first exception ends the whole call. */
  function MapOrFail<A, B>(xs: seq<A>, f: A -> Result<B>): (r: Result<seq<B>>)
    ensures r.Success? <==> forall i :: 0 <= i < |xs| ==> f(xs[i]).Success?
    ensures r.Failure? ==> exists i :: FirstFailureAt(xs, f, i) && r.error == f(xs[i]).error
    ensures r.Success? ==> |r.value| == |xs|
    ensures r.Success? ==> forall i :: 0 <= i < |xs| ==> r.value[i] == f(xs[i]).value
  {
    if xs == [] then Success([])
    else
      match f(xs[0])
      case Failure(e) =>
        assert FirstFailureAt(xs, f, 0);
        Failure(e)
      case Success(first) =>
        var rest := MapOrFail(xs[1..], f);
        if rest.Failure? then
          assert exists i :: FirstFailureAt(xs, f, i) && rest.error == f(xs[i]).error by {
            var k :| FirstFailureAt(xs[1..], f, k) && rest.error == f(xs[1..][k]).error;
            assert FirstFailureAt(xs, f, k + 1);
          }
          Failure(rest.error)
        else
          Success([first] + rest.value)
  }

  /** One entry with the bonus of the first user whose username is its hacker. */
  function EntryWithBonus<E>(e: E, hacker: E -> string, addToScore: (E, real) -> E,
                             users: seq<User>, bonus: map<UserId, real>): (r: Result<E>)
    requires CoversUsers(users, bonus)
  {
    match FirstUserNamed(users, hacker(e))
    case None => Failure(NoUserWithUsername(hacker(e)))
    case Some(u) => Success(addToScore(e, bonus[users[u].id]))
  }

  /** Entry `i` is the first one whose hacker is no user's username. */
  ghost predicate FirstUnknownAt<E>(entries: seq<E>, hacker: E -> string, users: seq<User>, i: int) {
    && 0 <= i < |entries|
    && !IsUsername(users, hacker(entries[i]))
    && forall j :: 0 <= j < i ==> IsUsername(users, hacker(entries[j]))
  }

  /**
    The `map { ... }` step shared by `ranking` and `problemRanking`: every
    entry gets the bonus of the first user whose username is its hacker,
    and the first entry without such a user fails the whole call.
   */
  function WithBonuses<E>(entries: seq<E>, hacker: E -> string, addToScore: (E, real) -> E,
                          users: seq<User>, bonus: map<UserId, real>): (r: Result<seq<E>>)
    requires CoversUsers(users, bonus)
    ensures r.Success? <==> forall i :: 0 <= i < |entries| ==> IsUsername(users, hacker(entries[i]))
    ensures r.Failure? ==> exists i :: FirstUnknownAt(entries, hacker, users, i)
                                       && r.error == NoUserWithUsername(hacker(entries[i]))
    ensures r.Success? ==> |r.value| == |entries|
    ensures r.Success? ==> forall i :: 0 <= i < |entries| ==>
              r.value[i] == addToScore(entries[i], BonusOf(users, bonus, hacker(entries[i])))
  {
    var f := e => EntryWithBonus(e, hacker, addToScore, users, bonus);
    var r := MapOrFail(entries, f);
    assert r.Failure? ==> exists i :: FirstUnknownAt(entries, hacker, users, i) && r.error == NoUserWithUsername(hacker(entries[i])) by {
      if r.Failure? {
        var k :| FirstFailureAt(entries, f, k) && r.error == f(entries[k]).error;
        assert FirstUnknownAt(entries, hacker, users, k);
      }
    }
    r
  }

  function Hacker(e: RankEntry): string { e.hacker }

  /** The `RankEntry(...)` that `ranking` builds: the same entry with the bonus added to its score. */
  function RankEntryWithBonus(e: RankEntry, bonus: real): RankEntry {
    RankEntry(e.hacker, e.score + bonus, e.solvedProblems, e.region, e.team, e.numberOfSolutionsPerLanguage)
  }

  /** `sortedByDescending { it.score }` is the ascending sort on the negated score. */
  function ByScoreDescending(e: RankEntry): real { -e.score }

  lemma ScoresDescend(ranking: seq<RankEntry>)
    requires SortedBy(ranking, ByScoreDescending)
    ensures forall i, j :: 0 <= i < j < |ranking| ==> ranking[i].score >= ranking[j].score
  {
    forall i, j | 0 <= i < j < |ranking| ensures ranking[i].score >= ranking[j].score {
      assert ByScoreDescending(ranking[i]) <= ByScoreDescending(ranking[j]);
    }
  }

  function ProblemHacker(e: ProblemRankEntry): string { e.hacker }

  function ProblemRankEntryWithBonus(e: ProblemRankEntry, bonus: real): ProblemRankEntry {
    ProblemRankEntry(e.hacker, e.score + bonus, e.elapsedTime, e.language)
  }

  function ByElapsedTime(e: ProblemRankEntry): real { e.elapsedTime as real }

  lemma ElapsedTimesAscend(ranking: seq<ProblemRankEntry>)
    requires SortedBy(ranking, ByElapsedTime)
    ensures forall i, j :: 0 <= i < j < |ranking| ==> ranking[i].elapsedTime <= ranking[j].elapsedTime
  {
    forall i, j | 0 <= i < j < |ranking| ensures ranking[i].elapsedTime <= ranking[j].elapsedTime {
      assert ByElapsedTime(ranking[i]) <= ByElapsedTime(ranking[j]);
    }
  }

  /** `first { it.second.hacker == username }` over the indexed ranking: the 0-based place. */
  function PlaceOf(ranking: seq<ProblemRankEntry>, username: string): (r: Option<nat>)
    ensures r.None? <==> forall i :: 0 <= i < |ranking| ==> ranking[i].hacker != username
    ensures r.Some? ==> r.value < |ranking| && ranking[r.value].hacker == username
    ensures r.Some? ==> forall j :: 0 <= j < r.value ==> ranking[j].hacker != username
  {
    if ranking == [] then None
    else if ranking[0].hacker == username then Some(0)
    else
      match PlaceOf(ranking[1..], username)
      case None => None
      case Some(i) => Some(i + 1)
  }

  /** The place bonus of `userRankingDetails`: a row already first on its problem earns one point. */
  function RankPlaceBonus(row: SubmissionWithRankingDetails): real {
    if row.problemRankPlace == 1 then 1.0 else 0.0
  }

  /** Some entry of the ranking is the user's. */
  ghost predicate Lists(ranking: seq<ProblemRankEntry>, username: string) {
    exists k :: 0 <= k < |ranking| && ranking[k].hacker == username
  }

  /** `place` is the 1-based place of the first entry of the ranking that is the user's. */
  ghost predicate IsFirstPlaceOf(ranking: seq<ProblemRankEntry>, username: string, place: int) {
    && 1 <= place <= |ranking|
    && ranking[place - 1].hacker == username
    && forall j :: 0 <= j < place - 1 ==> ranking[j].hacker != username
  }

  datatype BonusPointsForBestTimeRankingCalculator = BonusPointsForBestTimeRankingCalculator(
    submissionsRepository: SubmissionsRepository,
    rankingCalculator: RankingCalculator)
  {
    /** The wrapped ranking with every entry's bonus added, before sorting. */
    function RankEntriesWithBonus(users: seq<User>, submissions: seq<Submission>, problems: seq<Problem>): (r: Result<seq<RankEntry>>)
    {
      var bonus := BonusPoints(submissions, users);
      WithBonuses(rankingCalculator.ranking(users, submissions, problems), Hacker, RankEntryWithBonus, users, bonus)
    }

    /** `ranking`: the wrapped ranking, each score raised by its user's bonus, by score descending. */
    function Ranking(users: seq<User>, submissions: seq<Submission>, problems: seq<Problem>): (r: Result<seq<RankEntry>>)
      ensures var inner := rankingCalculator.ranking(users, submissions, problems);
              r.Success? <==> forall i :: 0 <= i < |inner| ==> IsUsername(users, inner[i].hacker)
      ensures var inner := rankingCalculator.ranking(users, submissions, problems);
              r.Failure? ==> exists i :: FirstUnknownAt(inner, Hacker, users, i)
                                         && r.error == NoUserWithUsername(inner[i].hacker)
      ensures r.Success? ==> IsStableSortOf(r.value, RankEntriesWithBonus(users, submissions, problems).value, ByScoreDescending)
      ensures r.Success? ==> forall i, j :: 0 <= i < j < |r.value| ==> r.value[i].score >= r.value[j].score
    {
      var boosted := RankEntriesWithBonus(users, submissions, problems);
      if boosted.Failure? then Failure(boosted.error)
      else
        var sorted := SortBy(boosted.value, ByScoreDescending);
        ScoresDescend(sorted);
        Success(sorted)
    }

    /** The wrapped problem ranking with every entry's bonus added, before sorting. */
    function ProblemRankEntriesWithBonus(problemId: ProblemId, users: seq<User>, problems: seq<Problem>): (r: Result<seq<ProblemRankEntry>>)
    {
      var bonus := BonusPoints(submissionsRepository.findByProblemId(problemId), users);
      WithBonuses(rankingCalculator.problemRanking(problemId, users, problems), ProblemHacker, ProblemRankEntryWithBonus, users, bonus)
    }

    /** `problemRanking`: bonuses over the problem's own submissions, then by elapsed time ascending. */
    function ProblemRanking(problemId: ProblemId, users: seq<User>, problems: seq<Problem>): (r: Result<seq<ProblemRankEntry>>)
      ensures var inner := rankingCalculator.problemRanking(problemId, users, problems);
              r.Success? <==> forall i :: 0 <= i < |inner| ==> IsUsername(users, inner[i].hacker)
      ensures var inner := rankingCalculator.problemRanking(problemId, users, problems);
              r.Failure? ==> exists i :: FirstUnknownAt(inner, ProblemHacker, users, i)
                                         && r.error == NoUserWithUsername(inner[i].hacker)
      ensures r.Success? ==> IsStableSortOf(r.value, ProblemRankEntriesWithBonus(problemId, users, problems).value, ByElapsedTime)
      ensures r.Success? ==> forall i, j :: 0 <= i < j < |r.value| ==> r.value[i].elapsedTime <= r.value[j].elapsedTime
    {
      var boosted := ProblemRankEntriesWithBonus(problemId, users, problems);
      if boosted.Failure? then Failure(boosted.error)
      else
        var sorted := SortBy(boosted.value, ByElapsedTime);
        ElapsedTimesAscend(sorted);
        Success(sorted)
    }

    /** One row of `userRankingDetails`: its score with the place bonus, and its place in the decorated problem ranking. */
    function RankedRow(row: SubmissionWithRankingDetails, user: User, problems: seq<Problem>, users: seq<User>)
      : (r: Result<SubmissionWithRankingDetails>)
      ensures var ranking := ProblemRanking(row.problemId, users, problems);
              r.Success? <==> ranking.Success? && Lists(ranking.value, user.username)
      ensures var ranking := ProblemRanking(row.problemId, users, problems);
              r.Failure? ==> r.error == if ranking.Failure? then ranking.error else NotInProblemRanking(user.username, row.problemId)
      ensures r.Success? ==>
                && r.value.problemId == row.problemId
                && r.value.score == row.score + (if row.problemRankPlace == 1 then 1.0 else 0.0)
                && IsFirstPlaceOf(ProblemRanking(row.problemId, users, problems).value, user.username, r.value.problemRankPlace)
    {
      var scoreWithBonus := row.score + RankPlaceBonus(row);
      match ProblemRanking(row.problemId, users, problems)
      case Failure(e) => Failure(e)
      case Success(ranking) =>
        match PlaceOf(ranking, user.username)
        case None => Failure(NotInProblemRanking(user.username, row.problemId))
        case Some(place) => Success(row.(score := scoreWithBonus, problemRankPlace := place + 1))
    }

    /**
      `userRankingDetails`: the wrapped rows in their order, each score raised
      by 1.0 exactly when the wrapped place is 1, each place replaced by the
      1-based place of the user in the decorated ranking of the row's problem.
     */
    function UserRankingDetails(user: User, problems: seq<Problem>, users: seq<User>)
      : (r: Result<seq<SubmissionWithRankingDetails>>)
      ensures var rows := rankingCalculator.userRankingDetails(user, problems, users);
              r.Success? <==> forall i :: 0 <= i < |rows| ==>
                ProblemRanking(rows[i].problemId, users, problems).Success?
                && Lists(ProblemRanking(rows[i].problemId, users, problems).value, user.username)
      ensures var rows := rankingCalculator.userRankingDetails(user, problems, users);
              r.Failure? ==> exists i ::
                                 && 0 <= i < |rows|
                                 && RankedRow(rows[i], user, problems, users).Failure?
                                 && (forall j :: 0 <= j < i ==> RankedRow(rows[j], user, problems, users).Success?)
                                 && r.error == RankedRow(rows[i], user, problems, users).error
      ensures var rows := rankingCalculator.userRankingDetails(user, problems, users);
              r.Success? ==> |r.value| == |rows| && forall i :: 0 <= i < |rows| ==>
                && r.value[i].problemId == rows[i].problemId
                && r.value[i].score == rows[i].score + (if rows[i].problemRankPlace == 1 then 1.0 else 0.0)
                && IsFirstPlaceOf(ProblemRanking(rows[i].problemId, users, problems).value, user.username, r.value[i].problemRankPlace)
    {
      var rows := rankingCalculator.userRankingDetails(user, problems, users);
      var rankRow := row => RankedRow(row, user, problems, users);
      var r := MapOrFail(rows, rankRow);
      assert r.Failure? ==> exists i :: FirstFailureAt(rows, rankRow, i) && r.error == rankRow(rows[i]).error;
      r
    }
  }

  /** The points a user's fastest solutions earn: the problems whose fastest author is the first user called `username`. */
  ghost function PointsWon(subs: seq<Submission>, users: seq<User>, username: string): real
    requires IsUsername(users, username)
  {
    |ProblemsWonBy(subs, {users[FirstUserNamed(users, username).value].id})| as real
  }

  /** The bonus the ranking adds is the number of problems the user solved fastest. */
  lemma BonusIsPointsWon(subs: seq<Submission>, users: seq<User>, username: string)
    requires IsUsername(users, username)
    ensures CoversUsers(users, BonusPoints(subs, users))
    ensures BonusOf(users, BonusPoints(subs, users), username) == PointsWon(subs, users, username)
    ensures 0.0 <= PointsWon(subs, users, username) <= |ProblemIds(subs)| as real
  {
    var id := users[FirstUserNamed(users, username).value].id;
    BonusIsProblemsWon(subs, users, id);
  }

  /**
    `ranking` is a permutation of the wrapped ranking in which each entry's
    score is raised by the points its user won, every other field unchanged.
   */
  lemma {:induction false} RankingRaisesEachScore(decorator: BonusPointsForBestTimeRankingCalculator,
                                                  users: seq<User>, subs: seq<Submission>, problems: seq<Problem>)
    requires decorator.Ranking(users, subs, problems).Success?
    ensures var inner := decorator.rankingCalculator.ranking(users, subs, problems);
            multiset(decorator.Ranking(users, subs, problems).value)
              == multiset(seq(|inner|, i requires 0 <= i < |inner| =>
                   RankEntryWithBonus(inner[i], PointsWon(subs, users, inner[i].hacker))))
    ensures var inner := decorator.rankingCalculator.ranking(users, subs, problems);
            forall i :: 0 <= i < |inner| ==> 0.0 <= PointsWon(subs, users, inner[i].hacker) <= |ProblemIds(subs)| as real
  {
    var inner := decorator.rankingCalculator.ranking(users, subs, problems);
    var boosted := decorator.RankEntriesWithBonus(users, subs, problems).value;
    var raised := seq(|inner|, i requires 0 <= i < |inner| =>
                    RankEntryWithBonus(inner[i], PointsWon(subs, users, inner[i].hacker)));
    forall i | 0 <= i < |inner|
      ensures boosted[i] == raised[i]
      ensures 0.0 <= PointsWon(subs, users, inner[i].hacker) <= |ProblemIds(subs)| as real
    {
      BonusIsPointsWon(subs, users, inner[i].hacker);
    }
    assert boosted == raised;
  }

  /** Without submissions nobody earns a point: `ranking` only sorts the wrapped ranking. */
  lemma {:induction false} RankingWithoutSubmissions(decorator: BonusPointsForBestTimeRankingCalculator,
                                                     users: seq<User>, problems: seq<Problem>)
    requires decorator.Ranking(users, [], problems).Success?
    ensures decorator.Ranking(users, [], problems).value
              == SortBy(decorator.rankingCalculator.ranking(users, [], problems), ByScoreDescending)
  {
    var inner := decorator.rankingCalculator.ranking(users, [], problems);
    var boosted := decorator.RankEntriesWithBonus(users, [], problems).value;
    NoSubmissionsAllZero(users);
    forall i | 0 <= i < |inner| ensures boosted[i] == inner[i] {
      BonusIsPointsWon([], users, inner[i].hacker);
    }
    assert boosted == inner;
  }

  /** The user credited with problem `problemId`: the author of its first fastest submission. */
  ghost predicate IsFastestAuthor(subs: seq<Submission>, users: seq<User>, username: string, problemId: ProblemId)
    requires IsUsername(users, username)
  {
    WinnerOf(subs, problemId) == Some(users[FirstUserNamed(users, username).value].id)
  }

  /**
    When the repository returns only submissions of the problem asked for,
    `problemRanking` raises the score of the fastest author's entries by 1.0
    and leaves every other entry's score as it was.
   */
  lemma {:induction false} ProblemRankingCreditsFastestAuthor(decorator: BonusPointsForBestTimeRankingCalculator,
                                                              problemId: ProblemId, users: seq<User>, problems: seq<Problem>)
    requires decorator.ProblemRanking(problemId, users, problems).Success?
    requires forall s :: s in decorator.submissionsRepository.findByProblemId(problemId) ==> s.problemId == problemId
    ensures var subs := decorator.submissionsRepository.findByProblemId(problemId);
            var inner := decorator.rankingCalculator.problemRanking(problemId, users, problems);
            multiset(decorator.ProblemRanking(problemId, users, problems).value)
              == multiset(seq(|inner|, i requires 0 <= i < |inner| =>
                   ProblemRankEntryWithBonus(inner[i],
                     if IsFastestAuthor(subs, users, inner[i].hacker, problemId) then 1.0 else 0.0)))
  {
    var subs := decorator.submissionsRepository.findByProblemId(problemId);
    var inner := decorator.rankingCalculator.problemRanking(problemId, users, problems);
    var boosted := decorator.ProblemRankEntriesWithBonus(problemId, users, problems).value;
    var raised := seq(|inner|, i requires 0 <= i < |inner| =>
                    ProblemRankEntryWithBonus(inner[i],
                      if IsFastestAuthor(subs, users, inner[i].hacker, problemId) then 1.0 else 0.0));
    forall i | 0 <= i < |inner| ensures boosted[i] == raised[i] {
      var u := FirstUserNamed(users, inner[i].hacker).value;
      assert users[u].id in UserIds(users);
      SingleProblemBonus(subs, users, problemId, users[u].id);
    }
    assert boosted == raised;
  }
}
