/**
 * The profile's level card: coin thresholds per level, progress within the
 * current level, and the share of the current track completed.
 */
module LevelProgress {
  import opened Arith

  /**
   * Coins needed to reach a level: nothing up to level 1, then the source's
   * formula 50 * l * (l - 1) / 2 + 50 * (l - 1) (an integer, so the floor
   * changes nothing).
   */
  function CoinsForLevel(level: int): (c: int)
    ensures level <= 1 ==> c == 0
    ensures level >= 2 ==> c == 25 * (level - 1) * (level + 2)
  {
    if level <= 1 then 0
    else (50 * level * (level - 1)) / 2 + 50 * (level - 1)
  }

  /** The values the source documents: levels 1 to 4 need 0, 100, 250 and 450 coins. */
  lemma DocumentedThresholds()
    ensures CoinsForLevel(1) == 0 && CoinsForLevel(2) == 100
    ensures CoinsForLevel(3) == 250 && CoinsForLevel(4) == 450
  {
  }

  /** From level 1 on, each level costs 50 * (l + 1) more than the one before. */
  lemma LevelStep(level: int)
    requires level >= 1
    ensures CoinsForLevel(level + 1) - CoinsForLevel(level) == 50 * (level + 1)
  {
  }

  /** Thresholds never decrease with the level. */
  lemma {:induction false} ThresholdsMonotone(l1: int, l2: int)
    requires l1 <= l2
    ensures CoinsForLevel(l1) <= CoinsForLevel(l2)
    decreases l2 - l1
  {
    if l1 < l2 {
      ThresholdsMonotone(l1, l2 - 1);
      if l2 - 1 >= 1 {
        LevelStep(l2 - 1);
      }
    }
  }

  function CoinsNeeded(level: int): int { CoinsForLevel(level + 1) - CoinsForLevel(level) }

  /**
   * Progress through the current level, in percent, uncapped below and
   * capped at 100 above; 100 when the level costs nothing to leave.
   */
  function LevelProgressPercent(level: int, totalCoins: int): (r: real)
    ensures r <= 100.0
    ensures CoinsNeeded(level) <= 0 ==> r == 100.0
    ensures CoinsNeeded(level) > 0 ==>
      r == (if totalCoins >= CoinsForLevel(level + 1) then 100.0
            else (totalCoins - CoinsForLevel(level)) as real / CoinsNeeded(level) as real * 100.0)
  {
    var needed := CoinsNeeded(level);
    if needed > 0 then
      var p := (totalCoins - CoinsForLevel(level)) as real / needed as real * 100.0;
      if p < 100.0 then p else 100.0
    else 100.0
  }

  /** Levels below 1 cost nothing to leave, so they show full progress. */
  lemma LowLevelsShowFull(level: int, totalCoins: int)
    requires level <= 0
    ensures LevelProgressPercent(level, totalCoins) == 100.0
  {
  }

  /**
   * The bar is full exactly when the balance reaches the next level's
   * threshold, and negative when the balance is below the current one
   * (the level and the balance are separate profile fields).
   */
  lemma LevelProgressMeaning(level: int, totalCoins: int)
    requires level >= 1
    ensures LevelProgressPercent(level, totalCoins) == 100.0 <==> totalCoins >= CoinsForLevel(level + 1)
    ensures LevelProgressPercent(level, totalCoins) < 0.0 <==> totalCoins < CoinsForLevel(level)
  {
    LevelStep(level);
    QuotientPercent(totalCoins - CoinsForLevel(level), CoinsNeeded(level));
  }

  /** n/d as a percentage reaches 100 exactly when n >= d, and is negative exactly when n is. */
  lemma QuotientPercent(n: int, d: int)
    requires d > 0
    ensures n as real / d as real * 100.0 >= 100.0 <==> n >= d
    ensures n as real / d as real * 100.0 < 0.0 <==> n < 0
  {
    var q := n as real / d as real;
    var r := d as real;
    assert q * r == n as real;
    if n < d {
      assert q * r < 1.0 * r;
      RealCancelStrict(q, 1.0, r);
    } else {
      assert 1.0 * r <= q * r;
      RealCancel(1.0, q, r);
    }
    if n < 0 {
      assert q * r < 0.0 * r;
      RealCancelStrict(q, 0.0, r);
    } else {
      assert 0.0 * r <= q * r;
      RealCancel(0.0, q, r);
    }
  }

  /** The share of the track's content completed, rounded to a whole percent; 0 for an empty track. */
  function TrackProgressPercent(completedContent: int, totalContent: int): (r: int)
    ensures totalContent > 0 ==> r == JsRound(completedContent as real / totalContent as real * 100.0)
    ensures totalContent <= 0 ==> r == 0
  {
    if totalContent > 0 then
      RoundDivIsJsRound(completedContent * 100, totalContent);
      assert (completedContent * 100) as real / totalContent as real
          == completedContent as real / totalContent as real * 100.0;
      Percent(completedContent, totalContent)
    else 0
  }

  /** With no more completed than existing items the share lies in 0..100. */
  lemma TrackProgressInRange(completedContent: int, totalContent: int)
    requires totalContent > 0 && 0 <= completedContent <= totalContent
    ensures 0 <= TrackProgressPercent(completedContent, totalContent) <= 100
  {
    PercentBounds(completedContent, totalContent);
  }
}
