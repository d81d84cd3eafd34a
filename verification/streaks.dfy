/**
 * The daily streak tracker (`updateStreak`): a day-indexed state machine
 * with bonus coins at fixed streak lengths. "Today" is a day number
 * supplied by the caller; "yesterday" is `today - 1`.
 */
module Streaks {
  import opened Common
  import opened Database
  import opened Constants
  import opened Ledger

  /** A `user_streaks` row; the multiplier is in hundredths. */
  datatype Streak = Streak(current: int, longest: int, lastDay: Option<int>, multiplier: nat)

  /** Streak lengths that pay a bonus, and the coins paid per streak day. */
  const BonusDays: seq<int> := [7, 14, 30, 60, 90]
  const BonusPerDay: int := 5

  /** The stored row after one call, and the bonus it credited (0 for none). */
  datatype StreakUpdate = StreakUpdate(streak: Streak, bonus: int)

  /** The streak row written for a user's first activity. */
  function FirstStreak(today: int): Streak {
    Streak(1, 1, Some(today), BaseMultiplier)
  }

  /** Bonus coins for reaching a streak of `n` days. */
  function BonusFor(n: int): (b: int)
    ensures b != 0 <==> n in BonusDays
    ensures b != 0 ==> b == BonusPerDay * n && b > 0
  {
    if n in BonusDays then BonusPerDay * n else 0
  }

  /** updateStreak: the new row and the bonus, given the stored row (if any). */
  function UpdateStreak(prior: Option<Streak>, today: int): (r: StreakUpdate)
    ensures prior.None? ==> r == StreakUpdate(FirstStreak(today), 0)
    ensures prior.Some? && prior.value.lastDay == Some(today) ==> r == StreakUpdate(prior.value, 0)
    ensures prior.Some? && prior.value.lastDay != Some(today) ==>
      && r.streak.current ==
           (if prior.value.lastDay == Some(today - 1) then prior.value.current + 1 else 1)
      && r.streak.longest == Max(r.streak.current, prior.value.longest)
      && r.streak.multiplier == StreakMultiplier(r.streak.current)
      && r.bonus == BonusFor(r.streak.current)
    ensures r.streak.lastDay == Some(today)
  {
    match prior
    case None => StreakUpdate(FirstStreak(today), 0)
    case Some(s) =>
      if s.lastDay == Some(today) then StreakUpdate(s, 0)
      else
        var n := if s.lastDay == Some(today - 1) then s.current + 1 else 1;
        StreakUpdate(Streak(n, Max(n, s.longest), Some(today), StreakMultiplier(n)), BonusFor(n))
  }

  /**
   * Records an activity for the account's owner: updates the streak and,
   * on a bonus day, appends a convertible `streak_bonus` row and credits
   * both balances by the bonus.
   */
  function RecordActivity(a: Account, prior: Option<Streak>, today: int): (r: (Account, Streak))
    ensures r.1 == UpdateStreak(prior, today).streak
    ensures var b := UpdateStreak(prior, today).bonus;
      && r.0.profile.totalCoins == a.profile.totalCoins + b
      && r.0.profile.convertibleCoins == a.profile.convertibleCoins + b
      && r.0.profile.currentTrack == a.profile.currentTrack
      && r.0.ledger == a.ledger + (if b == 0 then [] else [LedgerEntry(b, StreakBonus, NoSource, true)])
  {
    var u := UpdateStreak(prior, today);
    if u.bonus == 0 then (a, u.streak)
    else (Post(a, LedgerEntry(u.bonus, StreakBonus, NoSource, true), true), u.streak)
  }

  /** The row invariant the tracker maintains. */
  predicate WellFormed(s: Streak) {
    1 <= s.current <= s.longest && s.lastDay.Some? && s.multiplier == StreakMultiplier(s.current)
  }

  /** Every row the tracker writes is well formed, given a well-formed (or absent) prior row. */
  lemma UpdateKeepsWellFormed(prior: Option<Streak>, today: int)
    requires prior.Some? ==> WellFormed(prior.value)
    ensures WellFormed(UpdateStreak(prior, today).streak)
  {
    match prior
    case None =>
    case Some(s) =>
      if s.lastDay == Some(today) {
      } else if s.lastDay == Some(today - 1) {
        assert UpdateStreak(prior, today).streak.current == s.current + 1;
      } else {
        assert UpdateStreak(prior, today).streak.current == 1;
      }
  }

  /** A second activity on the same day changes nothing and pays nothing. */
  lemma SameDayIsNoOp(prior: Option<Streak>, today: int)
    ensures var s := UpdateStreak(prior, today).streak;
      UpdateStreak(Some(s), today) == StreakUpdate(s, 0)
  {
  }

  /** Each call keeps the account's ledger and balances in step. */
  lemma RecordActivityKeepsSync(a: Account, prior: Option<Streak>, today: int)
    requires InSync(a)
    ensures InSync(RecordActivity(a, prior, today).0)
  {
    var u := UpdateStreak(prior, today);
    if u.bonus != 0 {
      PostKeepsSync(a, LedgerEntry(u.bonus, StreakBonus, NoSource, true));
    }
  }

  /** The consecutive days start, start+1, ..., start+n-1. */
  function Days(start: int, n: nat): (d: seq<int>)
    ensures |d| == n
    ensures forall i :: 0 <= i < n ==> d[i] == start + i
  {
    if n == 0 then [] else Days(start, n - 1) + [start + n - 1]
  }

  /** The stored row after one activity on each day of `days`, in order. */
  function Replay(prior: Option<Streak>, days: seq<int>): Option<Streak> {
    if |days| == 0 then prior
    else Some(UpdateStreak(Replay(prior, days[..|days| - 1]), days[|days| - 1]).streak)
  }

  /** Total streak bonus paid over the activities of `days`. */
  function BonusPaid(prior: Option<Streak>, days: seq<int>): int {
    if |days| == 0 then 0
    else BonusPaid(prior, days[..|days| - 1])
         + UpdateStreak(Replay(prior, days[..|days| - 1]), days[|days| - 1]).bonus
  }

  /** Bonus of every streak length 1..n added up: each bonus day counted once. */
  function BonusesUpTo(n: nat): int {
    if n == 0 then 0 else BonusesUpTo(n - 1) + BonusFor(n)
  }

  /**
   * n consecutive days of activity from a fresh user give a streak of n,
   * and pay each bonus day's bonus exactly once along the way.
   */
  lemma {:induction false} ConsecutiveRun(start: int, n: nat)
    requires n >= 1
    ensures var s := Replay(None, Days(start, n));
      && s == Some(Streak(n, n, Some(start + n - 1), StreakMultiplier(n)))
      && BonusPaid(None, Days(start, n)) == BonusesUpTo(n)
  {
    var prev := Days(start, n - 1);
    var today := start + n - 1;
    assert Days(start, n) == prev + [today];
    ReplayStep(None, prev, today);
    if n == 1 {
      assert prev == [];
      FirstDay(today);
    } else {
      ConsecutiveRun(start, n - 1);
      NextDay(n - 1, today);
    }
  }

  /** Replaying one more day applies one more update and adds its bonus. */
  lemma ReplayStep(prior: Option<Streak>, days: seq<int>, today: int)
    ensures var u := UpdateStreak(Replay(prior, days), today);
      && Replay(prior, days + [today]) == Some(u.streak)
      && BonusPaid(prior, days + [today]) == BonusPaid(prior, days) + u.bonus
  {
    assert (days + [today])[..|days|] == days;
  }

  /** The first activity of a fresh user starts a streak of one and pays nothing. */
  lemma FirstDay(today: int)
    ensures UpdateStreak(None, today) == StreakUpdate(Streak(1, 1, Some(today), StreakMultiplier(1)), BonusFor(1))
  {
    assert StreakMultiplier(1) == BaseMultiplier;
    assert BonusFor(1) == 0;
  }

  /** Activity the day after a run of `c` days extends it to c + 1 and pays that length's bonus. */
  lemma NextDay(c: nat, today: int)
    requires c >= 1
    ensures UpdateStreak(Some(Streak(c, c, Some(today - 1), StreakMultiplier(c))), today)
      == StreakUpdate(Streak(c + 1, c + 1, Some(today), StreakMultiplier(c + 1)), BonusFor(c + 1))
  {
  }

  /** Skipping a day resets the streak to one, whatever it was. */
  lemma GapResets(s: Streak, today: int)
    requires s.lastDay.Some? && s.lastDay.value < today - 1
    ensures UpdateStreak(Some(s), today).streak.current == 1
    ensures UpdateStreak(Some(s), today).bonus == 0
  {
  }

  /** Activity on days 1, 2, 3 gives a streak of 3; on days 1 and 3 a streak of 1. */
  lemma ContinuityExamples()
    ensures Replay(None, [1, 2, 3]).value.current == 3
    ensures Replay(None, [1, 3]).value.current == 1
  {
    assert [1, 2, 3] == Days(1, 3);
    ConsecutiveRun(1, 3);
    assert [1, 3][..1] == [1];
    assert [1][..0] == [];
  }
}
