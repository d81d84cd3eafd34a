/**
 * Content and quiz rewards: `completeContent` and `submitQuizAttempt`.
 * Both credit coins, then record the day's activity with the streak tracker.
 */
module Content {
  import opened Common
  import opened Database
  import opened Arith
  import opened Constants
  import opened Ledger
  import opened Catalog
  import opened Streaks
  import TrackProgression

  /** A `quiz_attempts` row. */
  datatype QuizAttempt = QuizAttempt(
    quiz: QuizId,
    answers: seq<int>,
    score: nat,
    totalQuestions: nat,
    coinsEarned: int)

  /**
   * One user's state: account, streak row, `user_content_progress` rows
   * (content id to coins earned) and quiz attempts.
   */
  datatype Learner = Learner(
    account: Account,
    streak: Option<Streak>,
    progress: map<ContentId, int>,
    attempts: seq<QuizAttempt>)

  datatype Completion = Completion(alreadyCompleted: bool, coinsEarned: int)

  datatype QuizOutcome = QuizOutcome(score: nat, total: nat, coinsEarned: int)

  datatype ContentError = ContentNotFound | QuizQuestionsNotFound

  /** The reward of a quiz whose row is missing. */
  const DefaultQuizReward: int := 15

  /** The streak length before today's activity, 0 for a user with no streak row. */
  function CurrentStreak(l: Learner): int {
    if l.streak.Some? then l.streak.value.current else 0
  }

  /** Math.round(coins_reward * multiplier), the multiplier in hundredths. */
  function ContentReward(base: int, multiplier: nat): int {
    RoundDiv(base * multiplier, 100)
  }

  /** The integer reward is Math.round of the exact product. */
  lemma ContentRewardIsRounded(base: int, multiplier: nat)
    ensures ContentReward(base, multiplier) == JsRound(base as real * (multiplier as real / 100.0))
  {
    RoundDivIsJsRound(base * multiplier, 100);
    assert (base * multiplier) as real / 100 as real == base as real * (multiplier as real / 100.0);
  }

  /** With no streak bonus, a content reward is the base reward, unchanged. */
  lemma BaseMultiplierKeepsReward(base: int)
    ensures ContentReward(base, BaseMultiplier) == base
  {
  }

  /** The profile's current track has a row and that row is flagged convertible. */
  predicate TrackConvertible(cat: Catalog, p: Profile) {
    p.currentTrack.Some? && p.currentTrack.value in cat.tracks
    && cat.tracks[p.currentTrack.value].coinsConvertible
  }

  /** The streak row and ledger rows appended by today's activity. */
  function StreakRows(l: Learner, today: int): seq<LedgerEntry> {
    var b := UpdateStreak(l.streak, today).bonus;
    if b == 0 then [] else [LedgerEntry(b, StreakBonus, NoSource, true)]
  }

  /**
   * completeContent. The ledger row is always flagged convertible; the
   * convertible balance is credited only on a convertible track. Track
   * progression is not checked.
   */
  function CompleteContent(l: Learner, cat: Catalog, id: ContentId, today: int)
    : (r: Result<(Learner, Completion), ContentError>)
    ensures id in l.progress ==> r == Ok((l, Completion(true, 0)))
    ensures id !in l.progress && id !in cat.contents ==> r == Err(ContentNotFound)
    ensures id !in l.progress && id in cat.contents ==>
      r.Ok? &&
      var (l', c) := r.value;
      var coins := ContentReward(cat.contents[id].coinsReward, StreakMultiplier(CurrentStreak(l)));
      var bonus := UpdateStreak(l.streak, today).bonus;
      var p, p' := l.account.profile, l'.account.profile;
      && c == Completion(false, coins)
      && l'.progress == l.progress[id := coins]
      && l'.streak == Some(UpdateStreak(l.streak, today).streak)
      && l'.attempts == l.attempts
      && p'.totalCoins == p.totalCoins + coins + bonus
      && p'.convertibleCoins == p.convertibleCoins + (if TrackConvertible(cat, p) then coins else 0) + bonus
      && p'.currentTrack == p.currentTrack
      && l'.account.ledger == l.account.ledger
           + [LedgerEntry(coins, ContentCompletion, ContentRef(id), true)] + StreakRows(l, today)
  {
    if id in l.progress then Ok((l, Completion(true, 0)))
    else if id !in cat.contents then Err(ContentNotFound)
    else
      var multiplier := StreakMultiplier(CurrentStreak(l));
      var coins := ContentReward(cat.contents[id].coinsReward, multiplier);
      var a := Post(l.account, LedgerEntry(coins, ContentCompletion, ContentRef(id), true),
                    TrackConvertible(cat, l.account.profile));
      var (a', s) := RecordActivity(a, l.streak, today);
      Ok((Learner(a', Some(s), l.progress[id := coins], l.attempts), Completion(false, coins)))
  }

  /** Completing the same content twice pays once: the second call changes nothing. */
  lemma CompleteContentIdempotent(l: Learner, cat: Catalog, id: ContentId, today: int, later: int)
    requires CompleteContent(l, cat, id, today).Ok?
    ensures var l' := CompleteContent(l, cat, id, today).value.0;
      CompleteContent(l', cat, id, later) == Ok((l', Completion(true, 0)))
  {
  }

  /**
   * On a track whose coins are not convertible, a completion leaves the
   * ledger's convertible rows and the convertible balance out of step.
   */
  lemma CompletionOnNonConvertibleTrackBreaksSync(l: Learner, cat: Catalog, id: ContentId, today: int)
    requires InSync(l.account) && id !in l.progress && id in cat.contents
    requires !TrackConvertible(cat, l.account.profile)
    requires ContentReward(cat.contents[id].coinsReward, StreakMultiplier(CurrentStreak(l))) != 0
    ensures !InSync(CompleteContent(l, cat, id, today).value.0.account)
  {
    var coins := ContentReward(cat.contents[id].coinsReward, StreakMultiplier(CurrentStreak(l)));
    var e := LedgerEntry(coins, ContentCompletion, ContentRef(id), true);
    var a := Post(l.account, e, false);
    PostWithoutConvertibleCreditBreaksSync(l.account, e);
    var b := UpdateStreak(l.streak, today).bonus;
    if b != 0 {
      var be := LedgerEntry(b, StreakBonus, NoSource, true);
      assert (a.ledger + [be])[..|a.ledger|] == a.ledger;
    }
  }

  /** On a convertible track a completion keeps the ledger and balances in step. */
  lemma CompletionOnConvertibleTrackKeepsSync(l: Learner, cat: Catalog, id: ContentId, today: int)
    requires InSync(l.account) && id !in l.progress && id in cat.contents
    requires TrackConvertible(cat, l.account.profile)
    ensures InSync(CompleteContent(l, cat, id, today).value.0.account)
  {
    var coins := ContentReward(cat.contents[id].coinsReward, StreakMultiplier(CurrentStreak(l)));
    var e := LedgerEntry(coins, ContentCompletion, ContentRef(id), true);
    PostKeepsSync(l.account, e);
    RecordActivityKeepsSync(Post(l.account, e, true), l.streak, today);
  }

  /** Every question of the first k is answered with its correct option index. */
  predicate AllCorrect(correct: seq<int>, answers: seq<int>, k: nat)
    requires k <= |correct|
  {
    forall i :: 0 <= i < k ==> i < |answers| && answers[i] == correct[i]
  }

  /**
   * The number of the first k questions whose answer equals the correct
   * option index; a missing answer matches nothing.
   */
  function Matches(correct: seq<int>, answers: seq<int>, k: nat): (n: nat)
    requires k <= |correct|
    ensures n <= k
    ensures n == k <==> AllCorrect(correct, answers, k)
  {
    if k == 0 then 0
    else
      AllCorrectStep(correct, answers, k);
      Matches(correct, answers, k - 1)
      + (if k - 1 < |answers| && answers[k - 1] == correct[k - 1] then 1 else 0)
  }

  lemma AllCorrectStep(correct: seq<int>, answers: seq<int>, k: nat)
    requires 0 < k <= |correct|
    ensures AllCorrect(correct, answers, k) <==>
      AllCorrect(correct, answers, k - 1) && k - 1 < |answers| && answers[k - 1] == correct[k - 1]
  {
    if AllCorrect(correct, answers, k) {
      AllCorrectLast(correct, answers, k);
    }
  }

  /** All of the first k correct means the k-th is too. */
  lemma AllCorrectLast(correct: seq<int>, answers: seq<int>, k: nat)
    requires 0 < k <= |correct| && AllCorrect(correct, answers, k)
    ensures k - 1 < |answers| && answers[k - 1] == correct[k - 1]
  {
  }

  /** The scoring loop of `submitQuizAttempt`. */
  method ScoreQuiz(correct: seq<int>, answers: seq<int>) returns (score: nat)
    ensures score == Matches(correct, answers, |correct|)
    ensures score <= |correct|
    ensures score == |correct| <==> AllCorrect(correct, answers, |correct|)
  {
    score := 0;
    var i := 0;
    while i < |correct|
      invariant 0 <= i <= |correct|
      invariant score == Matches(correct, answers, i)
    {
      if i < |answers| && answers[i] == correct[i] {
        score := score + 1;
      }
      i := i + 1;
    }
  }

  /**
   * submitQuizAttempt. `correct` holds the questions' correct option
   * indexes in sort order; `quizReward` is the quiz row's reward, if the row
   * exists. Only a perfect score pays, to both balances.
   */
  method SubmitQuizAttempt(l: Learner, quiz: QuizId, correct: seq<int>, quizReward: Option<int>,
                           answers: seq<int>, today: int)
    returns (r: Result<(Learner, QuizOutcome), ContentError>)
    ensures |correct| == 0 ==> r == Err(QuizQuestionsNotFound)
    ensures |correct| > 0 ==>
      r.Ok? &&
      var (l', o) := r.value;
      var coins := if AllCorrect(correct, answers, |correct|) then quizReward.GetOr(DefaultQuizReward) else 0;
      var paid := if coins > 0 then coins else 0;
      var bonus := UpdateStreak(l.streak, today).bonus;
      && o == QuizOutcome(Matches(correct, answers, |correct|), |correct|, coins)
      && o.score <= o.total
      && l'.attempts == l.attempts + [QuizAttempt(quiz, answers, o.score, |correct|, coins)]
      && l'.progress == l.progress
      && l'.streak == Some(UpdateStreak(l.streak, today).streak)
      && l'.account.profile.totalCoins == l.account.profile.totalCoins + paid + bonus
      && l'.account.profile.convertibleCoins == l.account.profile.convertibleCoins + paid + bonus
      && l'.account.profile.currentTrack == l.account.profile.currentTrack
      && l'.account.ledger == l.account.ledger
           + (if coins > 0 then [LedgerEntry(coins, QuizCompletion, QuizRef(quiz), true)] else [])
           + StreakRows(l, today)
  {
    if |correct| == 0 {
      return Err(QuizQuestionsNotFound);
    }
    var score := ScoreQuiz(correct, answers);
    var coins := if score == |correct| then quizReward.GetOr(DefaultQuizReward) else 0;
    var attempts := l.attempts + [QuizAttempt(quiz, answers, score, |correct|, coins)];
    var a := l.account;
    if coins > 0 {
      a := Post(a, LedgerEntry(coins, QuizCompletion, QuizRef(quiz), true), true);
    }
    var (a', s) := RecordActivity(a, l.streak, today);
    r := Ok((Learner(a', Some(s), l.progress, attempts), QuizOutcome(score, |correct|, coins)));
  }

  /**
   * The completion as it evidently was meant to work: `completeContent`
   * followed by `checkTrackProgression`, as the caller and the doc comment of
   * `checkTrackProgression` expect.
   */
  function CompleteContentAndProgress(l: Learner, cat: Catalog, id: ContentId, today: int)
    : (r: Result<(Learner, Completion, Option<TrackProgression.Progression>), ContentError>)
    ensures CompleteContent(l, cat, id, today).Err? ==> r == Err(CompleteContent(l, cat, id, today).error)
    ensures CompleteContent(l, cat, id, today).Ok? ==>
      r.Ok? &&
      var (l1, c) := CompleteContent(l, cat, id, today).value;
      && r.value.1 == c
      && (c.alreadyCompleted ==> r.value.0 == l1 && r.value.2.None?)
      && (!c.alreadyCompleted ==>
            var (a2, p) := TrackProgression.CheckTrackProgression(l1.account, cat, l1.progress.Keys);
            r.value.0 == l1.(account := a2) && r.value.2 == Some(p))
  {
    match CompleteContent(l, cat, id, today)
    case Err(e) => Err(e)
    case Ok((l1, c)) =>
      if c.alreadyCompleted then Ok((l1, c, None))
      else
        var (a2, p) := TrackProgression.CheckTrackProgression(l1.account, cat, l1.progress.Keys);
        Ok((l1.(account := a2), c, Some(p)))
  }

  /** As written, completing content never changes the user's track. */
  lemma CompleteContentNeverAdvances(l: Learner, cat: Catalog, id: ContentId, today: int)
    requires CompleteContent(l, cat, id, today).Ok?
    ensures CompleteContent(l, cat, id, today).value.0.account.profile.currentTrack
            == l.account.profile.currentTrack
  {
  }

  /** A one-item track: completing its only item reaches 100% of it. */
  function SingleItemCatalog(): Catalog {
    Catalog(
      map[Retomada := Track(Retomada, "Retomada", false), Fundacao := Track(Fundacao, "Fundacao", true)],
      map[0 := ContentItem(Retomada, 10, true)])
  }

  function NewLearner(): Learner {
    Learner(Account(Profile(0, 0, Some(Retomada)), []), None, map[], [])
  }

  /**
   * The discrepancy on a concrete input: after completing the only item of
   * the user's track the threshold is met, yet the user stays on it and the
   * caller's `trackAdvanced` has nothing to read.
   */
  lemma CompletionLeavesThresholdUnused()
    ensures var l' := CompleteContent(NewLearner(), SingleItemCatalog(), 0, 1).value.0;
      && l'.account.profile.currentTrack == Some(Retomada)
      && TrackProgression.Advances(l'.account.profile, SingleItemCatalog(), l'.progress.Keys)
  {
    var cat := SingleItemCatalog();
    var l' := CompleteContent(NewLearner(), cat, 0, 1).value.0;
    assert l'.progress.Keys == {0};
    assert (set id | id in cat.contents && cat.contents[id].track == Retomada && cat.contents[id].isPublished) == {0};
    assert (set id | id in l'.progress.Keys && id in cat.contents && cat.contents[id].track == Retomada) == {0};
  }

  /**
   * With the check run after the completion, a completion that brings the
   * user over the threshold advances the track by one step.
   */
  lemma CompletionThenCheckAdvances(l: Learner, cat: Catalog, id: ContentId, today: int)
    requires CompleteContent(l, cat, id, today).Ok?
    requires var (l1, c) := CompleteContent(l, cat, id, today).value;
      !c.alreadyCompleted && TrackProgression.Advances(l1.account.profile, cat, l1.progress.Keys)
    ensures var r := CompleteContentAndProgress(l, cat, id, today).value;
      && r.2 == Some(TrackProgression.Progression(true, TrackProgression.Next(l.account.profile.currentTrack.value), 100))
      && Rank(r.0.account.profile.currentTrack.value) == Rank(l.account.profile.currentTrack.value) + 1
  {
  }
}
