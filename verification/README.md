# Pulso progression and rewards, in Dafny

Pulso is a financial-education app. Users are placed on one of four
curriculum tracks (retomada, fundação, crescimento, expertise) by an
onboarding diagnosis. They earn coins for completing daily content and
perfect quizzes, get a streak multiplier and streak bonuses for daily
activity, and move to the next track once they have completed 80% of the
published content of their current one. They can also set personal goals
("intents"), log daily progress against them, and earn one-shot milestone
rewards. Some tools unlock for free or by criteria; others can be bought with
coins. The profile screen shows level thresholds; the reset-password page
shows a password-strength meter.

This project models those rules as pure Dafny functions over immutable
records and proves properties of them. The database tables become records
and maps. The current instant becomes a day number passed in by the caller.

Each action writes a ledger row and updates the profile balances separately.
The model keeps these two effects apart and states, operation by operation,
whether they stay in step (`Ledger.InSync`). The source does not promise a
global "ledger equals balance" invariant. Two places matter:
- a content completion on a non-convertible track writes a convertible row
  but does not credit the convertible balance, so the convertible balance
  falls out of step with the ledger;
- a tool purchase keeps both balances in step with the ledger (its row is
  non-convertible and only the total drops), but it can leave the
  convertible balance above the total.

Module layout, one file each:
- `common.dfy` (`Option`, `Result`, `Min`, `Max`).
- `arith.dfy`: `Math.round` of a quotient, percentages, and the arithmetic facts the proofs use.
- `database.dfy`: the schema enumerations and `assignTrack`.
- `constants.dfy`: the streak multiplier table.
- `ledger.dfy`: ledger rows, profile balances, `Post`.
- `catalog.dfy`: the tracks and content tables.
- `streaks.dfy`: `updateStreak`.
- `track_progression.dfy`.
- `content.dfy`: `completeContent` and `submitQuizAttempt`.
- `intents.dfy`.
- `tools.dfy`.
- `level_progress.dfy`.
- `password_strength.dfy`.

Conventions:
- Multipliers are integers in hundredths: 125 stands for 1.25.
- `Math.round(p / q)` is `Arith.RoundDiv`, proved equal to rounding half up over the exact reals.
- Ratio thresholds (0.8, 1.1) are compared by cross-multiplying.
- "Yesterday" is `today - 1`.
- An intent spans `end - start` days. On day `today` it has run `today - start + 1` days, because the source rounds up a positive fraction of a day.

## Model

| member | source | states |
|---|---|---|
| Database.AssignTrack | src/lib/types/database.ts:375-393 | overdue debt gives retomada; otherwise no monthly saving or no emergency fund gives fundação; otherwise not knowing the retirement target or PGBL/VGBL gives crescimento; otherwise expertise; each as an if-and-only-if |
| Database.AssignTrackMonotone | src/lib/types/database.ts:375-393 | with the same debt answer, more "yes" answers never place the user on an earlier track |
| Constants.StreakMultiplier | src/lib/constants.ts:54-65 | a streak below the first threshold (7) gets 1.00; every multiplier lies between 1.00 and 3.00 |
| Constants.ScanDown | src/lib/constants.ts:59-64 | the descending threshold scan returns 1.00 when the streak is below the first threshold, and never leaves 1.00-3.00 |
| Constants.ScanDownFindsLargest | src/lib/constants.ts:55-64 | the scan over the thresholds sorted descending returns the multiplier of the largest threshold the streak reaches, or 1.00 when it reaches none |
| Constants.MultiplierIsLargestThreshold | src/lib/constants.ts:46-65 | the multiplier is the table entry of the largest threshold not above the streak |
| Constants.StreakMultipliersAscending | src/lib/constants.ts:46-52 | thresholds 7, 14, 30, 60, 90 and multipliers 1.25 to 3.00 both strictly increase |
| Constants.LargestAtOrBelowExists | src/lib/constants.ts:54-65 | once a streak reaches 7 days, some table entry is the largest threshold it reaches |
| Constants.MultiplierBoundaries | src/lib/constants.ts:46-65 | 6 gives 1.00, 7 and 13 give 1.25, 14 and 29 give 1.50, 30 and 59 give 2.00, 60 and 89 give 2.50, 90 or more gives 3.00 |
| Constants.MultiplierMonotone | src/lib/constants.ts:54-65 | a longer streak never gets a smaller multiplier |
| Arith.RoundDiv | src/lib/actions/track-progression.ts:78 | the rounded quotient r satisfies r - 1/2 <= p/q < r + 1/2 for either sign of q |
| Arith.RoundDivIsJsRound | src/lib/actions/content.ts:45 | the integer rounding equals Math.round (floor of x + 0.5) of the exact real quotient |
| Arith.RoundDivMonotone | src/lib/actions/track-progression.ts:78 | with a positive divisor, rounding preserves order |
| Arith.PercentBounds | src/lib/actions/track-progression.ts:192 | a rounded percentage of a part no larger than the whole lies in 0..100 |
| Ledger.Post | src/lib/actions/content.ts:55-84 | posting appends exactly one ledger row, adds its amount to the total, adds it to the convertible balance only when asked, and leaves the track alone |
| Ledger.SumAppend | src/lib/actions/content.ts:55-62 | the ledger sum of two row sequences is the sum of their sums |
| Ledger.PostKeepsSync | src/lib/actions/content.ts:55-84 | a post whose convertible credit matches its row's flag keeps balances equal to the ledger sums |
| Ledger.PostWithoutConvertibleCreditBreaksSync | src/lib/actions/content.ts:61-83 | a non-zero convertible row posted without crediting the convertible balance leaves the two unequal |
| Catalog.CompletedCountNone | src/lib/actions/track-progression.ts:66-76 | a user who completed nothing on a track counts zero completed items there |
| Streaks.BonusFor | src/lib/actions/content.ts:215-216 | a bonus is paid exactly on days 7, 14, 30, 60 and 90, and it is 5 coins per streak day |
| Streaks.UpdateStreak | src/lib/actions/content.ts:169-212 | a first activity writes streak 1 with multiplier 1.00; a repeat on the same day changes nothing; the day after the last activity extends the streak by one; any other day resets it to 1; the longest streak is the max; the multiplier is the new streak's; the last day becomes today |
| Streaks.RecordActivity | src/lib/actions/content.ts:207-237 | on a bonus day a convertible `streak_bonus` row of the bonus is appended and both balances rise by it; otherwise the account is unchanged |
| Streaks.UpdateKeepsWellFormed | src/lib/actions/content.ts:179-212 | every row written has 1 <= current <= longest, a last day, and the multiplier of its current streak |
| Streaks.SameDayIsNoOp | src/lib/actions/content.ts:191 | a second activity on the same day returns the same row and pays nothing |
| Streaks.RecordActivityKeepsSync | src/lib/actions/content.ts:214-237 | recording an activity keeps ledger and balances in step |
| Streaks.Days | src/lib/actions/content.ts:193-202 | the sequence of n consecutive day numbers: n entries, the i-th being start + i |
| Streaks.FirstDay | src/lib/actions/content.ts:179-190 | a user's first activity writes a streak of 1 with multiplier 1.00 and pays no bonus |
| Streaks.ReplayStep | src/lib/actions/content.ts:179-237 | one more day of activity applies one more streak update and adds that update's bonus to the total paid |
| Streaks.ConsecutiveRun | src/lib/actions/content.ts:179-237 | n consecutive days from a new user give current = longest = n, last day the n-th, the multiplier for n, and each bonus day's bonus paid exactly once |
| Streaks.NextDay | src/lib/actions/content.ts:198-205 | activity the day after a run of c days gives a run of c + 1 and that length's bonus |
| Streaks.GapResets | src/lib/actions/content.ts:198-202 | skipping a day resets the streak to 1 and pays nothing |
| Streaks.ContinuityExamples | src/lib/actions/content.ts:193-202 | activity on days 1, 2, 3 gives streak 3; on days 1 and 3 gives streak 1 |
| TrackProgression.IndexOf | src/lib/actions/track-progression.ts:6 | the track's unique position in the fixed track order |
| TrackProgression.Next | src/lib/actions/track-progression.ts:48-52 | only expertise has no next track; the next track is one position further and is never retomada |
| TrackProgression.MeetsThresholdIsRatio | src/lib/actions/track-progression.ts:9 | the integer test equals the real comparison done / total >= 0.8 |
| TrackProgression.CheckTrackProgression | src/lib/actions/track-progression.ts:18-138 | advances iff the user has a track row that is not the last, the track has published content, 80% of it is completed, and the next track's row exists; otherwise nothing changes; the reported percentage is 0 with no track id, 0 for a track id without a track row, 100 on expertise, 0 for a track without published content, and otherwise the rounded share; on advance the track moves one step, a bonus of 100 × (index + 1) is posted under `achievement_unlock` and credited to both balances, and 100 is reported |
| TrackProgression.AdvanceBonusConvertible | src/lib/actions/track-progression.ts:104-127 | the advancement row is always convertible, because no step leads to retomada |
| TrackProgression.AdvanceIsOneStep | src/lib/actions/track-progression.ts:85-101 | an advance moves exactly one position forward in the track order |
| TrackProgression.CheckKeepsSync | src/lib/actions/track-progression.ts:103-130 | the check keeps ledger and balances in step |
| TrackProgression.RecheckAfterAdvance | src/lib/actions/track-progression.ts:54-83 | right after an advance, a new check with nothing completed in the new track changes nothing |
| TrackProgression.BelowThresholdPercent | src/lib/actions/track-progression.ts:78-83 | when the threshold is not met, the reported percentage is at most 80 |
| TrackProgression.RoundsUpToThresholdExample | src/lib/actions/track-progression.ts:78-83 | 199 of 250 reports 80% yet does not advance |
| TrackProgression.GetTrackProgress | src/lib/actions/track-progression.ts:143-202 | threshold 80; no track gives all nulls and zeros; the slug is the profile's track when its row exists; a track id without a row gives a null slug and names retomada as next (the indexOf fallback); the next slug is null only on expertise; counts are published items and completed items of the track; the percentage is the rounded share, 0 for an empty track |
| TrackProgression.AdvanceImpliesThresholdShown | src/lib/actions/track-progression.ts:78-83 | whenever the check advances, the progress view shows at least 80% |
| TrackProgression.CheckAgreesWithProgress | src/lib/actions/track-progression.ts:78-192 | on a non-final track where the check does not advance, it reports the progress view's percentage |
| Content.ContentRewardIsRounded | src/lib/actions/content.ts:44-45 | the content reward is Math.round of the base reward times the exact multiplier |
| Content.BaseMultiplierKeepsReward | src/lib/actions/content.ts:44-45 | with multiplier 1.00 the reward equals the base reward |
| Content.CompleteContent | src/lib/actions/content.ts:6-91 | already completed gives `alreadyCompleted` with 0 coins and no change; missing content gives "Content not found"; otherwise the reward with the streak multiplier is recorded, a convertible `content_completion` row is appended, the total rises by the reward, the convertible balance rises only on a convertible track, and the streak is updated; the track never changes |
| Content.CompleteContentIdempotent | src/lib/actions/content.ts:14-24 | completing the same content a second time changes nothing and pays 0 |
| Content.CompletionOnNonConvertibleTrackBreaksSync | src/lib/actions/content.ts:55-84 | with a non-zero reward on a non-convertible track, the convertible ledger sum and the convertible balance part |
| Content.CompletionOnConvertibleTrackKeepsSync | src/lib/actions/content.ts:55-88 | on a convertible track a completion keeps ledger and balances in step |
| Content.Matches | src/lib/actions/content.ts:115-119 | the count of matching answers is at most the number of questions, and equals it iff every answer is correct |
| Content.AllCorrectStep | src/lib/actions/content.ts:116-119 | all of the first k answers are correct iff the first k - 1 are and the k-th is |
| Content.ScoreQuiz | src/lib/actions/content.ts:115-119 | the scoring loop returns the number of questions whose answer at the same index equals the correct option, and the full count iff all are correct |
| Content.SubmitQuizAttempt | src/lib/actions/content.ts:93-167 | no questions gives "Quiz questions not found"; otherwise the attempt is recorded with its score; a perfect score pays the quiz reward (15 if the quiz row is missing), posted as a convertible `quiz_completion` row to both balances; any other score pays 0 with no row; the streak is updated either way |
| Content.CompleteContentNeverAdvances | src/lib/actions/content.ts:6-91 | as written, a completion never changes the user's track |
| Content.CompletionLeavesThresholdUnused | src/lib/actions/content.ts:6-91 | a user who completes the only item of their track meets the threshold but stays on the track |
| Content.CompleteContentAndProgress | src/lib/actions/track-progression.ts:11-17 | completion followed by the track check: errors pass through, and the result is the check applied to the account after the completion |
| Content.CompletionThenCheckAdvances | src/lib/actions/track-progression.ts:11-17 | with the check run after it, a completion that brings the user over the threshold advances exactly one track |
| Intents.CatalogueIndex | src/lib/actions/intents.ts:18-29 | each milestone type's position in the default catalogue |
| Intents.Types | src/lib/actions/intents.ts:76-82 | the milestone types of a row sequence, index by index |
| Intents.Keep | src/lib/actions/intents.ts:70-77 | one catalogue entry under the length filter: at most one row, and only a fresh copy of that entry when the span admits its type |
| Intents.GenerateMilestones | src/lib/actions/intents.ts:66-84 | every generated row is an unachieved copy of a catalogue entry (name, target, reward) whose type the span admits, and the rows keep catalogue order without repeats |
| Intents.KeptWhenIncluded | src/lib/actions/intents.ts:70-77 | every catalogue entry the length filter admits is generated, and so is its type |
| Intents.GeneratedTypeIncluded | src/lib/actions/intents.ts:70-77 | only types the span admits are generated |
| Intents.GeneratedIffIncluded | src/lib/actions/intents.ts:66-77 | a type is generated iff the span admits it (day_3 from 3 days, week_1 from 7, day_21 from 21); halfway and completed always are |
| Intents.FiveDayIntentMilestones | src/lib/actions/intents.ts:18-84 | a five-day intent gets exactly day_3, halfway and completed |
| Intents.CreateIntent | src/lib/actions/intents.ts:35-90 | the new intent is the user's, active, without samples, starts today unless given a start, and has the milestones generated for its span; it is stored under the fresh id |
| Intents.CalculateIntentProgress | src/lib/actions/intents.ts:326-339 | no samples gives 0 and 0%; otherwise current is the sum of the logged values and the percentage is the rounded share of the target capped at 100 (a zero target counts as 100% for a positive sum, 0% otherwise) |
| Intents.PercentageInRange | src/lib/actions/intents.ts:335-336 | with non-negative values and a positive target the percentage lies in 0..100 |
| Intents.SumValuesNonNegative | src/lib/actions/intents.ts:335 | the sum of non-negative logged values is non-negative |
| Intents.HasDayTail | src/lib/actions/intents.ts:263-278 | when the first row is for another day, the day has a row iff it has one in the rest |
| Intents.FirstIndexOfDay | src/lib/actions/intents.ts:263-278 | the position of the day's first row: a row for that day, with no row for it before |
| Intents.Upsert | src/lib/actions/intents.ts:263-278 | the upsert keyed on the day grows the table by one row exactly when the day had none, and the new sample is in the result |
| Intents.UpsertKeepsOtherDays | src/lib/actions/intents.ts:263-278 | every other day's row survives the upsert; with one row per day, nothing but the new sample is added and one row per day remains |
| Intents.ValueOnFirst | src/lib/actions/intents.ts:263-278 | the value logged on a day is its first row's value, 0 when it has none |
| Intents.SumReplace | src/lib/actions/intents.ts:335 | replacing one row moves the sum of logged values by new minus old |
| Intents.SumAppendOne | src/lib/actions/intents.ts:335 | appending a row adds its value to the sum |
| Intents.UpsertSum | src/lib/actions/intents.ts:263-278 | re-logging a day replaces its value: the sum moves by new minus old |
| Intents.UpsertOnlyRowForDay | src/lib/actions/intents.ts:263-278 | after the upsert the day's only row is the new sample |
| Intents.DetermineProgressStatus | src/lib/actions/intents.ts:341-359 | exceeded iff the value reaches 1.1 × expected; behind iff not exceeded and the value is under 0.8 × expected; on track otherwise; expected is target / totalDays × elapsed over exact arithmetic, with the infinite and NaN paces a zero span gives in JavaScript |
| Intents.PaceMatchesRealComparison | src/lib/actions/intents.ts:347-358 | for a positive span the classification equals the comparisons with 1.1 and 0.8 times target / totalDays × elapsed over exact reals |
| Intents.ScaledPace | src/lib/actions/intents.ts:347-358 | for a positive span, comparing the value with k/10 of target / totalDays × elapsed over the reals is the cross-multiplied integer comparison |
| Intents.PaceMonotone | src/lib/actions/intents.ts:355-358 | a larger value never gives a worse status (behind < on track < exceeded) |
| Intents.MarkAll | src/lib/actions/intents.ts:389-414 | each pending milestone whose condition holds is marked achieved today; every other row is unchanged |
| Intents.AwardPending | src/lib/actions/intents.ts:389-441 | the reward loop appends one convertible `intent_milestone` row per newly achieved milestone with a positive reward, in order, raises both balances by their sum, and leaves the track alone |
| Intents.CheckAndAwardMilestones | src/lib/actions/intents.ts:365-467 | a missing intent or no pending milestone changes nothing; otherwise milestones are evaluated with the capped percentage and the number of logged days, the reward rows are posted to both balances, linked achievements are unlocked, and an active intent at 100% becomes completed |
| Intents.RewardRowsConvertible | src/lib/actions/intents.ts:418-426 | every milestone reward row is convertible |
| Intents.CheckKeepsSync | src/lib/actions/intents.ts:418-441 | milestone rewards keep ledger and balances in step |
| Intents.RowsComeFromHits | src/lib/actions/intents.ts:389-426 | every reward row names this intent and a milestone type whose condition held, with a positive amount |
| Intents.MarkedLeavesNoHit | src/lib/actions/intents.ts:409-414 | after an evaluation no milestone whose condition held is still pending, and achieved rows are untouched |
| Intents.RowsOnlyForPending | src/lib/actions/intents.ts:377-380 | every reward row is for a milestone that was pending |
| Intents.PaidAtMostOnce | src/lib/actions/intents.ts:377-457 | two successive evaluations, whatever the progress at each, never pay the same milestone twice |
| Intents.MarkAllIdempotent | src/lib/actions/intents.ts:389-457 | re-evaluating with the same progress marks nothing, pays nothing and unlocks nothing |
| Intents.CheckIdempotent | src/lib/actions/intents.ts:365-467 | running the evaluation twice in a row equals running it once |
| Intents.NoAutoCompleteWithoutPending | src/lib/actions/intents.ts:382 | when all milestones are already achieved the status is left alone, even at 100% |
| Intents.UpdateIntentProgress | src/lib/actions/intents.ts:237-289 | refused iff the intent is missing, not the user's or not active; otherwise today's sample carries the pace status of the logged value, is upserted, and the milestones are evaluated |
| Intents.LogProgressUpserts | src/lib/actions/intents.ts:260-286 | logging keeps one sample per day, today's sample holds the logged value, and the sum moves by the replaced difference |
| Intents.LogProgressRejected | src/lib/actions/intents.ts:249-258 | another user's intent, or one not active, is refused |
| Intents.AggregationExample | src/lib/actions/intents.ts:263-339 | target 500 with 100 and 150 logged gives 250 (50%); re-logging the first day as 50 gives 200 (40%) |
| Intents.UpdateIntentStatus | src/lib/actions/intents.ts:295-320 | pause, complete or abandon sets the status of the user's own intent only; on complete the milestones of the named intent are then evaluated, whoever owns it |
| Intents.ManualCompletionSticks | src/lib/actions/intents.ts:308-319 | after the owner completes an intent by hand it is completed |
| Tools.LockedView | src/lib/actions/tools.ts:146-152 | progress is shown only for a positive target, with the user's measure, the target, and the percentage min(100, Math.round(progress / target × 100)) over the exact quotient |
| Tools.Decide | src/lib/actions/tools.ts:69-154 | unlocked iff an unlock exists, the tool is free, or its criterion is met; a row is inserted iff none existed and the tool is free or meets its criterion, with method free or criteria and 0 coins, and the status shows it unlocked now; a criteria unlock shows the measure, the target and 100%; an existing row is reported as is, without progress, and so is a free tool; a locked tool reports affordability against its cost and its progress |
| Tools.ScanTools | src/lib/actions/tools.ts:65-155 | one status per tool in display order, each decided against the unlocks as read at the start |
| Tools.ScanInsertsGranted | src/lib/actions/tools.ts:69-114 | the scan inserts a row exactly for each listed tool that had none and that is free or meets its criterion, and that row is a fresh free or criteria unlock at 0 coins |
| Tools.GetToolUnlockStatuses | src/lib/actions/tools.ts:23-158 | existing unlocks are kept; the store afterwards holds exactly the old unlocks plus the granted tools; each status's unlocked flag says whether its tool is in the store, and each status is the per-tool decision against the unlocks read at the start |
| Tools.RescanIsIdempotent | src/lib/actions/tools.ts:69-82 | a second scan inserts nothing and shows every tool with the same unlocked flag and method |
| Tools.RescanKeepsStore | src/lib/actions/tools.ts:69-114 | a store that already holds every granted listed tool is unchanged by a scan |
| Tools.RescanSameStatus | src/lib/actions/tools.ts:69-82 | tool by tool, the second scan shows the same unlocked flag and method as the first |
| Tools.UnlockToolWithCoins | src/lib/actions/tools.ts:164-233 | an unknown tool, a free tool, one already unlocked and a balance below the cost are refused in that order; otherwise the total drops by the cost to a non-negative balance, the convertible balance is unchanged, a non-convertible `tool_unlock` row of minus the cost is appended, and a coins unlock of that cost is recorded |
| Tools.PurchaseKeepsSync | src/lib/actions/tools.ts:208-222 | a purchase keeps ledger and balances in step |
| Tools.SecondPurchaseRefused | src/lib/actions/tools.ts:185-195 | buying the same tool again is refused as already unlocked |
| Tools.PurchasedToolShowsUnlocked | src/lib/actions/tools.ts:69-82 | a bought tool shows as unlocked by coins in the next scan |
| Tools.PurchaseCanLeaveConvertibleAboveTotal | src/lib/actions/tools.ts:208-213 | with 100 of each balance, buying a 60-coin tool leaves 100 convertible against a 40 total |
| LevelProgress.CoinsForLevel | src/components/perfil/level-progress.tsx:13-18 | 0 up to level 1, and 25 × (l − 1) × (l + 2) coins from level 2 |
| LevelProgress.DocumentedThresholds | src/components/perfil/level-progress.tsx:15 | levels 1 to 4 need 0, 100, 250 and 450 coins |
| LevelProgress.LevelStep | src/components/perfil/level-progress.tsx:13-18 | from level 1 each level needs 50 × (l + 1) more coins than the one before |
| LevelProgress.ThresholdsMonotone | src/components/perfil/level-progress.tsx:13-18 | thresholds never decrease with the level |
| LevelProgress.LevelProgressPercent | src/components/perfil/level-progress.tsx:27-31 | the bar is the share of the current level's span already earned, in percent, capped at 100; 100 when the span is empty |
| LevelProgress.LowLevelsShowFull | src/components/perfil/level-progress.tsx:27-31 | levels below 1 show a full bar |
| LevelProgress.LevelProgressMeaning | src/components/perfil/level-progress.tsx:27-31 | from level 1 the bar is full iff the balance reaches the next threshold, and negative iff it is below the current one |
| LevelProgress.QuotientPercent | src/components/perfil/level-progress.tsx:27-31 | a quotient shown as a percentage reaches 100 iff the numerator reaches the divisor, and is negative iff the numerator is |
| LevelProgress.TrackProgressPercent | src/components/perfil/level-progress.tsx:33 | the share of completed track content is Math.round of the exact percentage, 0 for an empty track |
| LevelProgress.TrackProgressInRange | src/components/perfil/level-progress.tsx:33 | with no more completed than existing items the share lies in 0..100 |
| PasswordStrength.GetPasswordStrength | src/components/auth/reset-password-form.tsx:6-21 | empty gives score 0 and no label; otherwise the score is the number of criteria met (length 6, length 8, upper case, digit, symbol), raised to at least 1, and the label is that score's from Fraca to Muito forte |
| PasswordStrength.AllCriteriaIsVeryStrong | src/components/auth/reset-password-form.tsx:9-20 | eight or more characters with an upper-case letter, a digit and a symbol rate 5, Muito forte |
| PasswordStrength.ShortLowercaseIsWeak | src/components/auth/reset-password-form.tsx:9-16 | fewer than six lower-case letters rate 1, Fraca |
| PasswordStrength.AppendNeverWeakens | src/components/auth/reset-password-form.tsx:9-20 | typing one more character never lowers the score |
| PasswordStrength.StrengthExamples | src/components/auth/reset-password-form.tsx:9-20 | "abc" is Fraca, "abcdefgh" Razoável, "Abcdef1!" Muito forte |

## Left out

- Supabase I/O, authentication ("Not authenticated"), database errors and concurrency. Every action is modelled as one atomic step over the user's rows; the races between separate reads and writes of the same profile are not modelled.
- Profile rows are assumed to exist. When the source finds no profile it skips the balance update after the ledger insert; the model always updates.
- The clock and date strings. Days are integers supplied by the caller. Time-zone effects of `toISOString` and the exact instant within a day are not modelled.
- Floating point. Values are exact integers, and rounding is exact rounding half up. Binary rounding of non-integer intermediate values (`target / totalDays`, quotients at exact .5 boundaries) is not modelled. Logged intent values are integers.
- JavaScript string length counts UTF-16 code units. The password model counts Unicode characters, so characters outside the Basic Multilingual Plane count once instead of twice.
- Colours, descriptions, titles, notes, `data_point_count`, `validation_source` and the `achieved_at` timestamp. The timestamp is modelled as the day number.
- The tool catalogue (`TOOLS_CONFIG`, `TOOLS_ORDER`) is a parameter. The model holds for every catalogue whose display order names only configured tools.
- The intent read paths `getActiveIntents` and `getIntent` (display only). The `newlyAchieved` list returned by `checkAndAwardMilestones` is not modelled either; nothing reads it.
- Intents.CreateIntent: no validation that the target is positive or that the end follows the start. The source does not validate either, so the model does not.
- Intents.CalculateIntentProgress: states the zero-target case as 100% or 0%, not JavaScript's Infinity or NaN. Every later comparison (>= 50, >= 100) treats the two the same.
- Intents.DetermineProgressStatus: compares with exactly 1.1 and 0.8 times the expected value. JavaScript multiplies in binary floating point, where 1.1 and 0.8 are inexact: with target 100 over one day, value 110 on the first day, `100 * 1.1` is 110.00000000000001, so the source answers on_track where the model answers exceeded. Such boundary values are not modelled.
- Intents.CheckAndAwardMilestones: the stored `target_progress` of a milestone is not consulted. The source hard-codes 50% and 100%.
- Intents.CheckAndAwardMilestones: the pending milestones are taken in stored order. The source's query does not order them.
- TrackProgression.CheckTrackProgression: is not idempotent in general. Right after an advance, a second check advances again if the user has already completed 80% of the new track. `RecheckAfterAdvance` states the case where it is.

## Findings

| source | as written | input that shows it | evidently intended | confidence | as-written member | corrected member |
|---|---|---|---|---|---|---|
| src/lib/actions/content.ts:6-91 | `completeContent` never calls `checkTrackProgression` and returns no `trackAdvanced`. The doc comment at src/lib/actions/track-progression.ts:11-17 says the check runs after each content completion, and src/components/dashboard/daily-content-list.tsx:28 reads `result.trackAdvanced`. | A user on a track with one published item completes it: 100% of the track, the user stays on it | after the completion, check track progression and advance the user when the threshold is met | not executed | Content.CompletionLeavesThresholdUnused | Content.CompletionThenCheckAdvances |
