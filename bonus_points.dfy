/**
  The bonus points for fastest solutions: every user starts at 0.0, and for
  each distinct problem in the submissions, the author of the fastest
  submission earns 1.0 when that author is one of the given users. On equal
  elapsed times the submission earlier in the list is the fastest.

  BonusPoints is the reference definition: a user's bonus is the number of
  problems the user won. CalculateBonusPointsForFastestSolutions is the
  imperative computation, one map entry updated at a time, proved equal to it.
 */
module FastestSolutionBonus {
  import opened Domain

  function UserIds(users: seq<User>): (ids: set<UserId>)
    ensures forall i :: 0 <= i < |users| ==> users[i].id in ids
    ensures forall id :: id in ids ==> exists i :: 0 <= i < |users| && users[i].id == id
  {
    set u | u in users :: u.id
  }

  function ProblemIds(submissions: seq<Submission>): (ids: set<ProblemId>)
    ensures forall i :: 0 <= i < |submissions| ==> submissions[i].problemId in ids
    ensures forall p :: p in ids ==> exists i :: 0 <= i < |submissions| && submissions[i].problemId == p
  {
    set s | s in submissions :: s.problemId
  }

  /** `submissions.map { it.problemId }.distinct()`: each problem once, by first occurrence. */
  function DistinctProblemIds(submissions: seq<Submission>): (ps: seq<ProblemId>)
    ensures forall i, j :: 0 <= i < j < |ps| ==> ps[i] != ps[j]
    ensures forall p :: p in ps <==> p in ProblemIds(submissions)
  {
    if submissions == [] then []
    else
      var n := |submissions| - 1;
      var ps := DistinctProblemIds(submissions[..n]);
      assert submissions == submissions[..n] + [submissions[n]];
      if submissions[n].problemId in ps then ps else ps + [submissions[n].problemId]
  }

  /** `submissions.filter { it.problemId == problemId }` */
  function OfProblem(submissions: seq<Submission>, problemId: ProblemId): (r: seq<Submission>)
    ensures |r| <= |submissions|
    ensures forall i :: 0 <= i < |r| ==> r[i].problemId == problemId
    ensures r == [] <==> problemId !in ProblemIds(submissions)
  {
    if submissions == [] then []
    else
      var n := |submissions| - 1;
      assert submissions == submissions[..n] + [submissions[n]];
      OfProblem(submissions[..n], problemId) + (if submissions[n].problemId == problemId then [submissions[n]] else [])
  }

  /** The filter keeps every submission of the problem, as often as it occurs, and drops every other one. */
  lemma {:induction false} OfProblemKeepsEvery(submissions: seq<Submission>, problemId: ProblemId)
    ensures forall x :: multiset(OfProblem(submissions, problemId))[x]
                        == if x.problemId == problemId then multiset(submissions)[x] else 0
  {
    if submissions != [] {
      var n := |submissions| - 1;
      OfProblemKeepsEvery(submissions[..n], problemId);
      assert submissions == submissions[..n] + [submissions[n]];
    }
  }

  /** `s[k]` has the smallest elapsed time in `s`, and every earlier element is slower. */
  ghost predicate IsFirstFastest(s: seq<Submission>, k: int) {
    && 0 <= k < |s|
    && (forall j :: 0 <= j < |s| ==> s[k].elapsedTime <= s[j].elapsedTime)
    && (forall j :: 0 <= j < k ==> s[j].elapsedTime > s[k].elapsedTime)
  }

  /** The scan of `minBy { it.elapsedTime }`: a later element replaces the best only when strictly faster. */
  function FastestIndex(s: seq<Submission>): (k: nat)
    requires s != []
    ensures IsFirstFastest(s, k)
  {
    if |s| == 1 then 0
    else
      var n := |s| - 1;
      var k := FastestIndex(s[..n]);
      if s[k].elapsedTime > s[n].elapsedTime then n else k
  }

  /** `minBy { it.elapsedTime }`, which is null on an empty list. */
  function FastestSubmission(s: seq<Submission>): (r: Option<Submission>)
    ensures r == None <==> s == []
    ensures r.Some? ==> exists k :: IsFirstFastest(s, k) && s[k] == r.value
  {
    if s == [] then None
    else
      var k := FastestIndex(s);
      assert IsFirstFastest(s, k);
      Some(s[k])
  }

  /** The author of the fastest submission for `problemId`, if it has any submission. */
  function WinnerOf(submissions: seq<Submission>, problemId: ProblemId): Option<UserId> {
    match FastestSubmission(OfProblem(submissions, problemId))
    case None => None
    case Some(s) => Some(s.userId)
  }

  /** The credited author of every problem. */
  function Winners(submissions: seq<Submission>): ProblemId -> Option<UserId> {
    problemId => WinnerOf(submissions, problemId)
  }

  predicate CreditedToOneOf(winner: ProblemId -> Option<UserId>, problemId: ProblemId, ids: set<UserId>) {
    winner(problemId).Some? && winner(problemId).value in ids
  }

  /** How many of `problems` are credited to one of `ids`. */
  function ProblemsWon(winner: ProblemId -> Option<UserId>, problems: seq<ProblemId>, ids: set<UserId>): (n: nat)
    ensures n <= |problems|
  {
    if problems == [] then 0
    else
      var last := |problems| - 1;
      ProblemsWon(winner, problems[..last], ids) + (if CreditedToOneOf(winner, problems[last], ids) then 1 else 0)
  }

  /** One problem decided: its credited user, when that user has an entry, gains 1.0. */
  function Credit(bonus: map<UserId, real>, credited: Option<UserId>): (r: map<UserId, real>)
    ensures r.Keys == bonus.Keys
    ensures forall id :: id in r ==> r[id] == bonus[id] + if credited == Some(id) then 1.0 else 0.0
  {
    if credited.Some? && credited.value in bonus then bonus[credited.value := bonus[credited.value] + 1.0] else bonus
  }

  /** Every id in `ids` starts at 0.0; then each of `problems`, in order, credits its winner. */
  function Tally(winner: ProblemId -> Option<UserId>, ids: set<UserId>, problems: seq<ProblemId>): (bonus: map<UserId, real>)
    ensures bonus.Keys == ids
  {
    if problems == [] then map id | id in ids :: 0.0
    else
      var last := |problems| - 1;
      Credit(Tally(winner, ids, problems[..last]), winner(problems[last]))
  }

  /** Each entry of the tally counts the problems credited to its id. */
  lemma {:induction false} TallyCounts(winner: ProblemId -> Option<UserId>, ids: set<UserId>, problems: seq<ProblemId>, id: UserId)
    requires id in ids
    ensures Tally(winner, ids, problems)[id] == ProblemsWon(winner, problems, {id}) as real
  {
    if problems != [] {
      TallyCounts(winner, ids, problems[..|problems| - 1], id);
    }
  }

  /** The bonus map: one entry per user id, holding the number of distinct problems that user won. */
  function BonusPoints(submissions: seq<Submission>, users: seq<User>): (bonus: map<UserId, real>)
    ensures bonus.Keys == UserIds(users)
  {
    Tally(Winners(submissions), UserIds(users), DistinctProblemIds(submissions))
  }

  lemma UserIdsSnoc(users: seq<User>, i: nat)
    requires i < |users|
    ensures UserIds(users[..i + 1]) == UserIds(users[..i]) + {users[i].id}
  {
    assert users[..i + 1] == users[..i] + [users[i]];
  }

  lemma NothingDecidedIsAllZero(m: map<UserId, real>, winner: ProblemId -> Option<UserId>, ids: set<UserId>)
    requires m.Keys == ids && forall id :: id in m ==> m[id] == 0.0
    ensures m == Tally(winner, ids, [])
  {
  }

  /** Deciding one more problem credits its winner, when the winner has an entry, and nobody else. */
  lemma TallySnoc(winner: ProblemId -> Option<UserId>, ids: set<UserId>, problems: seq<ProblemId>, i: nat)
    requires i < |problems|
    ensures Tally(winner, ids, problems[..i + 1]) == Credit(Tally(winner, ids, problems[..i]), winner(problems[i]))
  {
    assert problems[..i + 1][..i] == problems[..i];
  }

  /** The credited user of a problem is the author of what `FastestSubmission` picks among its submissions. */
  lemma WinnerIsFastestAuthor(submissions: seq<Submission>, problemId: ProblemId)
    ensures var fastest := FastestSubmission(OfProblem(submissions, problemId));
            Winners(submissions)(problemId) == if fastest.Some? then Some(fastest.value.userId) else None
  {
  }

  /** Crediting the author of the fastest submission, when there is one, is the in-place update of the loop. */
  lemma CreditAuthor(before: map<UserId, real>, fastest: Option<Submission>, credited: Option<UserId>)
    requires credited == if fastest.Some? then Some(fastest.value.userId) else None
    ensures Credit(before, credited)
            == if fastest.Some? && fastest.value.userId in before
               then before[fastest.value.userId := before[fastest.value.userId] + 1.0]
               else before
  {
  }

  /** `calculateBonusPointsForFastestSolutions`, with its mutable map. */
  method CalculateBonusPointsForFastestSolutions(submissions: seq<Submission>, users: seq<User>)
    returns (bonusPoints: map<UserId, real>)
    ensures bonusPoints == BonusPoints(submissions, users)
  {
    bonusPoints := map[];
    for i := 0 to |users|
      invariant bonusPoints.Keys == UserIds(users[..i])
      invariant forall id :: id in bonusPoints ==> bonusPoints[id] == 0.0
    {
      UserIdsSnoc(users, i);
      bonusPoints := bonusPoints[users[i].id := 0.0];
    }
    assert users[..|users|] == users;

    var problems := DistinctProblemIds(submissions);
    assert problems[..0] == [];
    NothingDecidedIsAllZero(bonusPoints, Winners(submissions), UserIds(users));
    for i := 0 to |problems|
      invariant bonusPoints == Tally(Winners(submissions), UserIds(users), problems[..i])
    {
      var problem := problems[i];
      var problemSubmissions := OfProblem(submissions, problem);
      var fastestSubmission := FastestSubmission(problemSubmissions);
      TallySnoc(Winners(submissions), UserIds(users), problems, i);
      WinnerIsFastestAuthor(submissions, problem);
      CreditAuthor(bonusPoints, fastestSubmission, Winners(submissions)(problem));
      if fastestSubmission.Some? && fastestSubmission.value.userId in bonusPoints {
        bonusPoints := bonusPoints[fastestSubmission.value.userId := bonusPoints[fastestSubmission.value.userId] + 1.0];
      }
    }
    assert problems[..|problems|] == problems;
  }

  /** Two runs on the same input build the same map. */
  method RecalculatedBonusPointsAreEqual(submissions: seq<Submission>, users: seq<User>)
    returns (first: map<UserId, real>, second: map<UserId, real>)
    ensures first == second
  {
    first := CalculateBonusPointsForFastestSolutions(submissions, users);
    second := CalculateBonusPointsForFastestSolutions(submissions, users);
  }

  /** `subs[i]` is the first submission for `problemId` with the smallest elapsed time among that problem's submissions. */
  ghost predicate IsFirstFastestOfProblem(subs: seq<Submission>, problemId: ProblemId, i: int) {
    && 0 <= i < |subs|
    && subs[i].problemId == problemId
    && (forall j :: 0 <= j < |subs| && subs[j].problemId == problemId ==> subs[i].elapsedTime <= subs[j].elapsedTime)
    && (forall j :: 0 <= j < i && subs[j].problemId == problemId ==> subs[j].elapsedTime > subs[i].elapsedTime)
  }

  /** A first fastest submission stays so when a submission no faster, or for another problem, is appended. */
  lemma FirstFastestExtends(subs: seq<Submission>, problemId: ProblemId, i: int)
    requires subs != []
    requires IsFirstFastestOfProblem(subs[..|subs| - 1], problemId, i)
    requires subs[|subs| - 1].problemId == problemId ==> subs[i].elapsedTime <= subs[|subs| - 1].elapsedTime
    ensures IsFirstFastestOfProblem(subs, problemId, i)
  {
  }

  /** An appended submission strictly faster than all earlier ones of its problem is the first fastest. */
  lemma LastIsFirstFastest(subs: seq<Submission>, problemId: ProblemId)
    requires subs != [] && subs[|subs| - 1].problemId == problemId
    requires forall j :: 0 <= j < |subs| - 1 && subs[j].problemId == problemId ==>
               subs[j].elapsedTime > subs[|subs| - 1].elapsedTime
    ensures IsFirstFastestOfProblem(subs, problemId, |subs| - 1)
  {
  }

  /** An appended submission strictly faster than the first fastest so far takes its place. */
  lemma FasterLastIsFirstFastest(subs: seq<Submission>, problemId: ProblemId, i: int)
    requires subs != [] && subs[|subs| - 1].problemId == problemId
    requires IsFirstFastestOfProblem(subs[..|subs| - 1], problemId, i)
    requires subs[i].elapsedTime > subs[|subs| - 1].elapsedTime
    ensures IsFirstFastestOfProblem(subs, problemId, |subs| - 1)
  {
    LastIsFirstFastest(subs, problemId);
  }

  /** What `minBy` picks among the submissions for `problemId` is their first fastest one. */
  ghost predicate PicksFirstFastest(subs: seq<Submission>, problemId: ProblemId) {
    FastestSubmission(OfProblem(subs, problemId)).Some? ==>
      exists i :: IsFirstFastestOfProblem(subs, problemId, i) && subs[i] == FastestSubmission(OfProblem(subs, problemId)).value
  }

  lemma {:induction false} FastestOfProblemIsFirstFastest(subs: seq<Submission>, problemId: ProblemId)
    ensures PicksFirstFastest(subs, problemId)
  {
    if subs != [] {
      var n := |subs| - 1;
      FastestOfProblemIsFirstFastest(subs[..n], problemId);
      if subs[n].problemId != problemId {
        OtherProblemAppended(subs, problemId);
      } else if OfProblem(subs[..n], problemId) == [] {
        FirstOfProblemAppended(subs, problemId);
      } else {
        SameProblemAppended(subs, problemId);
      }
    }
  }

  lemma OtherProblemAppended(subs: seq<Submission>, problemId: ProblemId)
    requires subs != [] && subs[|subs| - 1].problemId != problemId
    requires PicksFirstFastest(subs[..|subs| - 1], problemId)
    ensures PicksFirstFastest(subs, problemId)
  {
    var pre := subs[..|subs| - 1];
    var f := OfProblem(pre, problemId);
    assert OfProblem(subs, problemId) == f + [] == f;
    if f != [] {
      var i :| IsFirstFastestOfProblem(pre, problemId, i) && pre[i] == FastestSubmission(f).value;
      FirstFastestExtends(subs, problemId, i);
    }
  }

  lemma FirstOfProblemAppended(subs: seq<Submission>, problemId: ProblemId)
    requires subs != [] && subs[|subs| - 1].problemId == problemId
    requires OfProblem(subs[..|subs| - 1], problemId) == []
    ensures PicksFirstFastest(subs, problemId)
  {
    assert OfProblem(subs, problemId) == [subs[|subs| - 1]];
    assert problemId !in ProblemIds(subs[..|subs| - 1]);
    LastIsFirstFastest(subs, problemId);
  }

  lemma SameProblemAppended(subs: seq<Submission>, problemId: ProblemId)
    requires subs != [] && subs[|subs| - 1].problemId == problemId
    requires OfProblem(subs[..|subs| - 1], problemId) != []
    requires PicksFirstFastest(subs[..|subs| - 1], problemId)
    ensures PicksFirstFastest(subs, problemId)
  {
    var n := |subs| - 1;
    var pre, x := subs[..n], subs[n];
    var f := OfProblem(pre, problemId);
    var g := f + [x];
    assert OfProblem(subs, problemId) == g;
    assert g[..|f|] == f;
    var k := FastestIndex(f);
    assert FastestIndex(g) == if f[k].elapsedTime > x.elapsedTime then |f| else k;
    var i :| IsFirstFastestOfProblem(pre, problemId, i) && pre[i] == f[k];
    if f[k].elapsedTime > x.elapsedTime {
      FasterLastIsFirstFastest(subs, problemId, i);
    } else {
      FirstFastestExtends(subs, problemId, i);
    }
  }

  /**
    The credited user of a problem is the author of the first submission, in
    list order, whose elapsed time is the smallest for that problem; a
    problem without submissions credits nobody.
   */
  lemma WinnerIsFirstFastest(subs: seq<Submission>, problemId: ProblemId)
    ensures WinnerOf(subs, problemId).None? <==> problemId !in ProblemIds(subs)
    ensures WinnerOf(subs, problemId).Some? ==>
      exists i :: IsFirstFastestOfProblem(subs, problemId, i) && subs[i].userId == WinnerOf(subs, problemId).value
  {
    FastestOfProblemIsFirstFastest(subs, problemId);
  }

  lemma {:induction false} DistinctCardinality(ps: seq<ProblemId>)
    requires forall i, j :: 0 <= i < j < |ps| ==> ps[i] != ps[j]
    ensures |set p | p in ps| == |ps|
  {
    if ps != [] {
      var n := |ps| - 1;
      DistinctCardinality(ps[..n]);
      assert ps == ps[..n] + [ps[n]];
      assert (set p | p in ps) == (set p | p in ps[..n]) + {ps[n]};
    }
  }

  /** The problems of `ps` credited to one of `ids`. */
  function CreditedAmong(winner: ProblemId -> Option<UserId>, ps: seq<ProblemId>, ids: set<UserId>): set<ProblemId> {
    set p | p in ps && CreditedToOneOf(winner, p, ids)
  }

  lemma CreditedAmongSnoc(winner: ProblemId -> Option<UserId>, ps: seq<ProblemId>, ids: set<UserId>)
    requires ps != []
    ensures var n := |ps| - 1;
            CreditedAmong(winner, ps, ids)
            == CreditedAmong(winner, ps[..n], ids) + (if CreditedToOneOf(winner, ps[n], ids) then {ps[n]} else {})
  {
    var n := |ps| - 1;
    assert ps == ps[..n] + [ps[n]];
  }

  /** Over a list without repetitions, the count is the size of the set of problems counted. */
  lemma {:induction false} ProblemsWonIsCardinality(winner: ProblemId -> Option<UserId>, ps: seq<ProblemId>, ids: set<UserId>)
    requires forall i, j :: 0 <= i < j < |ps| ==> ps[i] != ps[j]
    ensures ProblemsWon(winner, ps, ids) == |CreditedAmong(winner, ps, ids)|
  {
    if ps != [] {
      var n := |ps| - 1;
      ProblemsWonIsCardinality(winner, ps[..n], ids);
      CreditedAmongSnoc(winner, ps, ids);
      assert ps[n] !in CreditedAmong(winner, ps[..n], ids) by {
        assert forall i :: 0 <= i < n ==> ps[..n][i] != ps[n];
      }
    }
  }

  /** The problems among those submitted to whose credited user is one of `winners`. */
  function ProblemsWonBy(subs: seq<Submission>, winners: set<UserId>): (won: set<ProblemId>)
    ensures won <= ProblemIds(subs)
  {
    set p | p in ProblemIds(subs) && WinnerOf(subs, p).Some? && WinnerOf(subs, p).value in winners
  }

  lemma CountOfDistinctProblems(subs: seq<Submission>, winners: set<UserId>)
    ensures ProblemsWon(Winners(subs), DistinctProblemIds(subs), winners) == |ProblemsWonBy(subs, winners)|
    ensures |DistinctProblemIds(subs)| == |ProblemIds(subs)|
  {
    var ps := DistinctProblemIds(subs);
    ProblemsWonIsCardinality(Winners(subs), ps, winners);
    CreditedAreProblemsWonBy(subs, winners);
    DistinctCardinality(ps);
    DistinctProblemIdsCover(subs);
  }

  lemma CreditedAreProblemsWonBy(subs: seq<Submission>, winners: set<UserId>)
    ensures CreditedAmong(Winners(subs), DistinctProblemIds(subs), winners) == ProblemsWonBy(subs, winners)
  {
  }

  lemma DistinctProblemIdsCover(subs: seq<Submission>)
    ensures (set p | p in DistinctProblemIds(subs)) == ProblemIds(subs)
  {
  }

  /** A user's bonus is the number of distinct problems whose fastest submission is theirs. */
  lemma BonusIsProblemsWon(subs: seq<Submission>, users: seq<User>, id: UserId)
    requires id in UserIds(users)
    ensures BonusPoints(subs, users)[id] == |ProblemsWonBy(subs, {id})| as real
    ensures 0.0 <= BonusPoints(subs, users)[id] <= |ProblemIds(subs)| as real
  {
    TallyCounts(Winners(subs), UserIds(users), DistinctProblemIds(subs), id);
    CountOfDistinctProblems(subs, {id});
  }

  /** An id that is not a user's never gets an entry, even when its submission is the fastest. */
  lemma OnlyUsersHaveBonus(subs: seq<Submission>, users: seq<User>, id: UserId)
    requires forall u :: u in users ==> u.id != id
    ensures id !in BonusPoints(subs, users)
  {
  }

  /** A user without submissions keeps 0.0. */
  lemma {:induction false} NoSubmissionNoBonus(subs: seq<Submission>, users: seq<User>, id: UserId)
    requires id in UserIds(users)
    requires forall s :: s in subs ==> s.userId != id
    ensures BonusPoints(subs, users)[id] == 0.0
  {
    assert ProblemsWonBy(subs, {id}) == {} by {
      forall p | p in ProblemIds(subs) ensures WinnerOf(subs, p) != Some(id) {
        WinnerIsFirstFastest(subs, p);
      }
    }
    BonusIsProblemsWon(subs, users, id);
  }

  /** Without submissions every user's bonus is 0.0. */
  lemma NoSubmissionsAllZero(users: seq<User>)
    ensures forall id :: id in BonusPoints([], users) ==> BonusPoints([], users)[id] == 0.0
  {
    forall id | id in BonusPoints([], users) ensures BonusPoints([], users)[id] == 0.0 {
      NoSubmissionNoBonus([], users, id);
    }
  }

  /** Over the submissions of one problem, its fastest author gets 1.0 and everyone else 0.0. */
  lemma {:induction false} SingleProblemBonus(subs: seq<Submission>, users: seq<User>, problemId: ProblemId, id: UserId)
    requires forall s :: s in subs ==> s.problemId == problemId
    requires id in UserIds(users)
    ensures BonusPoints(subs, users)[id] == if WinnerOf(subs, problemId) == Some(id) then 1.0 else 0.0
  {
    BonusIsProblemsWon(subs, users, id);
    assert ProblemIds(subs) <= {problemId};
    if WinnerOf(subs, problemId) == Some(id) {
      WinnerIsFirstFastest(subs, problemId);
      assert ProblemsWonBy(subs, {id}) == {problemId};
    } else {
      assert ProblemsWonBy(subs, {id}) == {};
    }
  }

  /** The sum of the values of a map. */
  ghost function Total(m: map<UserId, real>): real
    decreases |m|
  {
    if m == map[] then 0.0 else var id :| id in m; m[id] + Total(m - {id})
  }

  lemma {:induction false} TotalRemove(m: map<UserId, real>, id: UserId)
    requires id in m
    ensures Total(m) == m[id] + Total(m - {id})
    decreases |m|
  {
    var chosen :| chosen in m && Total(m) == m[chosen] + Total(m - {chosen});
    if chosen != id {
      TotalRemove(m - {chosen}, id);
      TotalRemove(m - {id}, chosen);
      assert m - {chosen} - {id} == m - {id} - {chosen};
    }
  }

  lemma {:induction false} TotalOfZeros(m: map<UserId, real>)
    requires forall id :: id in m ==> m[id] == 0.0
    ensures Total(m) == 0.0
    decreases |m|
  {
    if m != map[] {
      var id :| id in m;
      TotalRemove(m, id);
      TotalOfZeros(m - {id});
    }
  }

  lemma TotalIncrement(m: map<UserId, real>, id: UserId)
    requires id in m
    ensures Total(m[id := m[id] + 1.0]) == Total(m) + 1.0
  {
    TotalRemove(m, id);
    TotalRemove(m[id := m[id] + 1.0], id);
    assert m[id := m[id] + 1.0] - {id} == m - {id};
  }

  lemma {:induction false} TotalOfTally(winner: ProblemId -> Option<UserId>, ids: set<UserId>, ps: seq<ProblemId>)
    ensures Total(Tally(winner, ids, ps)) == ProblemsWon(winner, ps, ids) as real
  {
    if ps == [] {
      TotalOfZeros(Tally(winner, ids, ps));
    } else {
      var n := |ps| - 1;
      TotalOfTally(winner, ids, ps[..n]);
      var before := Tally(winner, ids, ps[..n]);
      var w := winner(ps[n]);
      if w.Some? && w.value in before {
        TotalIncrement(before, w.value);
      }
    }
  }

  /**
    Each distinct problem adds at most 1.0 in all: the bonuses sum to the
    number of problems whose fastest author is a user, which is at most the
    number of distinct problems, and equal to it when every fastest author is a user.
   */
  lemma TotalBonus(subs: seq<Submission>, users: seq<User>)
    ensures Total(BonusPoints(subs, users)) == |ProblemsWonBy(subs, UserIds(users))| as real
    ensures Total(BonusPoints(subs, users)) <= |ProblemIds(subs)| as real
    ensures (forall p :: p in ProblemIds(subs) ==> WinnerOf(subs, p).Some? && WinnerOf(subs, p).value in UserIds(users)) ==>
              Total(BonusPoints(subs, users)) == |ProblemIds(subs)| as real
  {
    TotalOfTally(Winners(subs), UserIds(users), DistinctProblemIds(subs));
    CountOfDistinctProblems(subs, UserIds(users));
    if forall p :: p in ProblemIds(subs) ==> WinnerOf(subs, p).Some? && WinnerOf(subs, p).value in UserIds(users) {
      assert ProblemsWonBy(subs, UserIds(users)) == ProblemIds(subs);
    }
  }
}
