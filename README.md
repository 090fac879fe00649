# Bonus points for the best time: a Dafny model

`BonusPointsForBestTimeRankingCalculator` is a ranking calculator that wraps
another one. It rewards the fastest accepted solution of every problem with
one extra point. It answers the same three questions as the calculator it
wraps:

- **the overall ranking.** The wrapped ranking, with each user's bonus added to
  the score, sorted by score descending.
- **the ranking of one problem.** The wrapped problem ranking, with bonuses
  computed over that problem's submissions only, sorted by elapsed time
  ascending.
- **a user's standing on every problem.** The wrapped rows, each score raised
  by one point when the wrapped place is first. Each place is replaced by the
  user's 1-based place in the decorated ranking of that problem.

The bonus map is built step by step. Every user id starts at 0.0. For each
distinct problem id among the submissions, the author of the fastest
submission gains 1.0, but only if that author already has an entry. On equal
elapsed times, the earlier submission in the list is the fastest.

The project has five modules:

- `Domain` (`domain.dfy`): the entities, and the two collaborators. The
  submissions repository and the wrapped calculator are records of total
  functions.
- `StableSort` (`stable_sort.dfy`): Kotlin's `sortedBy` / `sortedByDescending`.
  It is specified as sorted, a permutation, and order-preserving among equal
  keys. These three facts determine the result uniquely.
- `FastestSolutionBonus` (`bonus_points.dfy`): the bonus map. Its reference
  definition, `BonusPoints`, is a fold over the distinct problems that
  credits each problem's winner. `TallyCounts` and `BonusIsProblemsWon`
  prove that each entry is the number of problems its user won. The
  imperative computation updates one map entry at a time and is proved
  equal to the fold. Lemmas give the
  winner of a problem, the bounds on each bonus and on their sum, and the
  cases with no submissions or a single problem.
- `BestTimeRanking` (`best_time_ranking.dfy`): the decorator. It is an
  immutable value holding its two collaborators, with the three operations as
  member functions. A `first { ... }` that finds no match throws in the
  original. Here it is a `Failure` naming the first row, in list order, that
  had no match.
- `Scenarios` (`scenarios.dfy`): two users and one problem, where the faster
  user gets the point and stays ahead.

## Model

| member | source | states |
|---|---|---|
| FastestSolutionBonus.CalculateBonusPointsForFastestSolutions | src/main/kotlin/com/jalgoarena/ranking/BonusPointsForBestTimeRankingCalculator.kt:73-90 | the map built by seeding every user id with 0.0 and then crediting each distinct problem's fastest author equals `BonusPoints`, the per-user count of problems won |
| FastestSolutionBonus.Credit | src/main/kotlin/com/jalgoarena/ranking/BonusPointsForBestTimeRankingCalculator.kt:84-86 | deciding one problem never adds or removes a key: the credited id's entry rises by 1.0, every other entry stays, and a credited id without an entry is skipped |
| FastestSolutionBonus.Tally | src/main/kotlin/com/jalgoarena/ranking/BonusPointsForBestTimeRankingCalculator.kt:75-87 | the fold that seeds every id with 0.0 and credits each problem in turn has exactly the seeded ids as keys |
| FastestSolutionBonus.TallyCounts | src/main/kotlin/com/jalgoarena/ranking/BonusPointsForBestTimeRankingCalculator.kt:75-87 | every entry of the fold equals the number of the folded problems credited to that id |
| FastestSolutionBonus.BonusPoints | src/main/kotlin/com/jalgoarena/ranking/BonusPointsForBestTimeRankingCalculator.kt:75-87 | the key set is exactly the set of user ids: seeding creates them and updates never add one |
| FastestSolutionBonus.RecalculatedBonusPointsAreEqual | src/main/kotlin/com/jalgoarena/ranking/BonusPointsForBestTimeRankingCalculator.kt:73-90 | two computations on the same submissions and users give the same map |
| FastestSolutionBonus.DistinctProblemIds | src/main/kotlin/com/jalgoarena/ranking/BonusPointsForBestTimeRankingCalculator.kt:78 | the distinct problem ids have no repetition and are exactly the problem ids of the submissions |
| FastestSolutionBonus.OfProblem | src/main/kotlin/com/jalgoarena/ranking/BonusPointsForBestTimeRankingCalculator.kt:81 | the filtered submissions all belong to the problem, and there are none exactly when no submission names it |
| FastestSolutionBonus.OfProblemKeepsEvery | src/main/kotlin/com/jalgoarena/ranking/BonusPointsForBestTimeRankingCalculator.kt:81 | the filter keeps every submission of the problem, as often as it occurs, and no other |
| FastestSolutionBonus.FastestSubmission | src/main/kotlin/com/jalgoarena/ranking/BonusPointsForBestTimeRankingCalculator.kt:82 | `minBy`: null exactly for an empty list; otherwise an element no slower than any other and strictly faster than every earlier one |
| FastestSolutionBonus.WinnerIsFirstFastest | src/main/kotlin/com/jalgoarena/ranking/BonusPointsForBestTimeRankingCalculator.kt:81-85 | a problem credits nobody exactly when nobody submitted to it; otherwise it credits the author of the first submission in list order with the smallest elapsed time for that problem |
| FastestSolutionBonus.OnlyUsersHaveBonus | src/main/kotlin/com/jalgoarena/ranking/BonusPointsForBestTimeRankingCalculator.kt:84-85 | an id that belongs to no user never gets an entry, even when its submission is the fastest |
| FastestSolutionBonus.BonusIsProblemsWon | src/main/kotlin/com/jalgoarena/ranking/BonusPointsForBestTimeRankingCalculator.kt:78-87 | a user's bonus is the number of distinct problems the user won, so it lies between 0 and the number of distinct problems |
| FastestSolutionBonus.TotalBonus | src/main/kotlin/com/jalgoarena/ranking/BonusPointsForBestTimeRankingCalculator.kt:78-87 | each problem adds at most 1.0 in all: the bonuses sum to the number of problems won by a user, which is at most the number of distinct problems and equals it when every fastest author is a user |
| FastestSolutionBonus.NoSubmissionNoBonus | src/main/kotlin/com/jalgoarena/ranking/BonusPointsForBestTimeRankingCalculator.kt:76-86 | a user with no submission keeps 0.0 |
| FastestSolutionBonus.NoSubmissionsAllZero | src/main/kotlin/com/jalgoarena/ranking/BonusPointsForBestTimeRankingCalculator.kt:75-89 | with no submissions every entry is 0.0 |
| FastestSolutionBonus.SingleProblemBonus | src/main/kotlin/com/jalgoarena/ranking/BonusPointsForBestTimeRankingCalculator.kt:80-86 | over the submissions of one problem, a user's bonus is 1.0 if that user is the problem's fastest author and 0.0 otherwise |
| StableSort.SortBy | src/main/kotlin/com/jalgoarena/ranking/BonusPointsForBestTimeRankingCalculator.kt:53 | the result is ordered by the key, is a permutation of the input, and keeps input order among elements with equal keys |
| StableSort.StableSortIsUnique | src/main/kotlin/com/jalgoarena/ranking/BonusPointsForBestTimeRankingCalculator.kt:70 | any two lists that are stable sorts of the same list on the same key are equal, so `SortBy` is the stable sort |
| BestTimeRanking.FirstUserNamed | src/main/kotlin/com/jalgoarena/ranking/BonusPointsForBestTimeRankingCalculator.kt:43 | the index of the first user with the username, or none exactly when no user has it |
| BestTimeRanking.MapOrFail | src/main/kotlin/com/jalgoarena/ranking/BonusPointsForBestTimeRankingCalculator.kt:22-35 | a map whose lambda may throw: succeeds exactly when every element succeeds, with each result in place; otherwise fails with the error of the first failing element |
| BestTimeRanking.WithBonuses | src/main/kotlin/com/jalgoarena/ranking/BonusPointsForBestTimeRankingCalculator.kt:42-52 | every entry gets the bonus of the first user whose username is its hacker; succeeds exactly when every hacker is a username, else fails naming the first unknown hacker |
| BestTimeRanking.BonusPointsForBestTimeRankingCalculator.Ranking | src/main/kotlin/com/jalgoarena/ranking/BonusPointsForBestTimeRankingCalculator.kt:38-54 | fails exactly when a wrapped entry's hacker is no username, naming the first one; otherwise a stable sort of the raised entries by score descending, scores non-increasing |
| BestTimeRanking.RankingRaisesEachScore | src/main/kotlin/com/jalgoarena/ranking/BonusPointsForBestTimeRankingCalculator.kt:40-53 | the ranking is a permutation of the wrapped ranking with each score raised by the number of problems its user won, other fields unchanged; each raise is between 0 and the number of distinct problems |
| BestTimeRanking.RankingWithoutSubmissions | src/main/kotlin/com/jalgoarena/ranking/BonusPointsForBestTimeRankingCalculator.kt:40-53 | with no submissions the ranking is the wrapped ranking re-sorted, with every score unchanged |
| BestTimeRanking.BonusIsPointsWon | src/main/kotlin/com/jalgoarena/ranking/BonusPointsForBestTimeRankingCalculator.kt:43-47 | the bonus looked up through the first user with the username is that user's count of problems won, and every user id has an entry |
| BestTimeRanking.BonusPointsForBestTimeRankingCalculator.ProblemRanking | src/main/kotlin/com/jalgoarena/ranking/BonusPointsForBestTimeRankingCalculator.kt:56-71 | fails exactly when a wrapped entry's hacker is no username; otherwise a stable sort, by elapsed time ascending, of the entries raised by bonuses computed over the repository's submissions for the problem |
| BestTimeRanking.ProblemRankingCreditsFastestAuthor | src/main/kotlin/com/jalgoarena/ranking/BonusPointsForBestTimeRankingCalculator.kt:57-70 | when the repository returns only that problem's submissions, the problem ranking is a permutation of the wrapped entries with 1.0 added for the fastest author and nothing for anyone else |
| BestTimeRanking.PlaceOf | src/main/kotlin/com/jalgoarena/ranking/BonusPointsForBestTimeRankingCalculator.kt:27-29 | the 0-based index of the first entry with the hacker, or none exactly when no entry has it |
| BestTimeRanking.BonusPointsForBestTimeRankingCalculator.RankedRow | src/main/kotlin/com/jalgoarena/ranking/BonusPointsForBestTimeRankingCalculator.kt:22-34 | succeeds exactly when the problem ranking succeeds and lists the user; then the score gains 1.0 exactly when the wrapped place is 1, and the place is the user's first 1-based place in that ranking; otherwise it carries the ranking's error or says the user is not in it |
| BestTimeRanking.BonusPointsForBestTimeRankingCalculator.UserRankingDetails | src/main/kotlin/com/jalgoarena/ranking/BonusPointsForBestTimeRankingCalculator.kt:10-36 | succeeds exactly when every row's problem ranking succeeds and lists the user; then the rows keep their number, order and problem, each score gains 1.0 exactly when the wrapped place is 1, and each place is the user's first 1-based place in the decorated problem ranking; otherwise it fails with the error of the first row that fails |
| Scenarios.FasterUserGetsThePoint | src/main/kotlin/com/jalgoarena/ranking/BonusPointsForBestTimeRankingCalculator.kt:73-90 | alice (10) beats bob (20) on p1, so the map is u1 1.0 and u2 0.0 |
| Scenarios.FasterUserStaysAhead | src/main/kotlin/com/jalgoarena/ranking/BonusPointsForBestTimeRankingCalculator.kt:38-54 | wrapped scores alice 5.0 and bob 4.0 become alice 6.0 then bob 4.0 |

## Left out

- The submissions repository is reduced to a total function from a problem id to submissions. Its storage, and any failure to read it, are not modelled.
- The wrapped ranking calculator is three arbitrary total functions. What it computes, and any exception it throws, are not modelled.
- Scores are exact reals rather than IEEE doubles. The decorator adds whole-number bonuses (0.0, 1.0, 2.0, ...) to scores, and floating-point rounding of those sums is not modelled.
- Elapsed times are unbounded integers. The sort compares them as reals, which preserves their order.
- The `problems` argument is only passed through to the wrapped calculator, so a problem has no fields other than its id.
- `SubmissionWithRankingDetails` keeps only the three fields the decorator reads or writes. Its other fields are copied unchanged by `copy` and are not modelled.
- Kotlin's nullable casts `bonusPoints[id] as Double` are not modelled. Every user id has an entry (`BonusPoints` ensures the key set), so these lookups never fail.
- Exceptions become values. A `first` that finds no match becomes a `Failure` carrying an `Error`, not a `NoSuchElementException`. The decorator's results are `Result` values rather than bare lists, so the decorator is not itself packaged as a `RankingCalculator` value.
- The map's iteration order (a `LinkedHashMap` in Kotlin) is not modelled. The map is only ever read by key.
- DistinctProblemIds: the problems are visited in order of first occurrence, as in Kotlin's `distinct`. The contract states only that it has no repetition and covers the problem ids, because the resulting map does not depend on that order.
- OfProblem: its contract and OfProblemKeepsEvery state which submissions are kept and how often, not their order. The list order is carried by its body and is what WinnerIsFirstFastest relies on to credit the earlier of two equally fast submissions.
