/**
  The entities the ranking calculators exchange, and the two collaborators the
  bonus-points decorator is wired with: the store of submissions and the
  ranking calculator it wraps. Both collaborators are immutable values whose
  operations are total functions, so that every ranking below is a pure
  function of its arguments.
 */
module Domain {

  type UserId = string
  type ProblemId = string

  datatype Option<T> = None | Some(value: T)

  /** The two ways a decorated ranking fails: a `first { ... }` that finds no match. */
  datatype Error =
    | NoUserWithUsername(username: string)
    | NotInProblemRanking(username: string, problemId: ProblemId)

  datatype Result<T> = Success(value: T) | Failure(error: Error)

  datatype User = User(id: UserId, username: string, region: string, team: string)

  /** Problems are only passed through to the inner calculator. */
  datatype Problem = Problem(id: ProblemId)

  /** One accepted solution; a smaller elapsed time is a faster solution. */
  datatype Submission = Submission(userId: UserId, problemId: ProblemId, elapsedTime: int, language: string)

  /** One row of the overall ranking. */
  datatype RankEntry = RankEntry(
    hacker: string,
    score: real,
    solvedProblems: seq<ProblemId>,
    region: string,
    team: string,
    numberOfSolutionsPerLanguage: map<string, int>)

  /** One row of the ranking of a single problem. */
  datatype ProblemRankEntry = ProblemRankEntry(hacker: string, score: real, elapsedTime: int, language: string)

  /** One row of a user's standing, per problem; the place is 1-based. */
  datatype SubmissionWithRankingDetails = SubmissionWithRankingDetails(
    problemId: ProblemId,
    score: real,
    problemRankPlace: int)

  /** The persistence layer, reduced to the one query the decorator makes. */
  datatype SubmissionsRepository = SubmissionsRepository(findByProblemId: ProblemId -> seq<Submission>)

  /** The wrapped ranking calculator: its three operations, whatever they compute. */
  datatype RankingCalculator = RankingCalculator(
    userRankingDetails: (User, seq<Problem>, seq<User>) -> seq<SubmissionWithRankingDetails>,
    ranking: (seq<User>, seq<Submission>, seq<Problem>) -> seq<RankEntry>,
    problemRanking: (ProblemId, seq<User>, seq<Problem>) -> seq<ProblemRankEntry>)
}
