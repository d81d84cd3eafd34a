/**
 * The streak multiplier table. Multipliers are kept in hundredths
 * (125 stands for 1.25); every value in the table is exact in binary
 * floating point, so nothing is lost.
 */
module Constants {

  /** Streak threshold in days and its multiplier, in the table's own (ascending) order. */
  const StreakMultipliers: seq<(int, nat)> :=
    [(7, 125), (14, 150), (30, 200), (60, 250), (90, 300)]

  /** The multiplier when no threshold is reached: 1.00. */
  const BaseMultiplier: nat := 100

  /** Thresholds strictly increase along the table, and so do their multipliers. */
  predicate Ascending(t: seq<(int, nat)>) {
    forall i, j :: 0 <= i < j < |t| ==> t[i].0 < t[j].0 && t[i].1 < t[j].1
  }

  /** Entry `i` holds the largest threshold not exceeding `streak`. */
  predicate IsLargestAtOrBelow(i: nat, streak: int)
    requires i < |StreakMultipliers|
  {
    StreakMultipliers[i].0 <= streak
    && (i + 1 == |StreakMultipliers| || streak < StreakMultipliers[i + 1].0)
  }

  /**
   * Scans entries k-1 down to 0 (the thresholds sorted descending) and
   * returns the multiplier of the first threshold the streak reaches.
   */
  function ScanDown(streak: int, k: nat): (m: nat)
    requires k <= |StreakMultipliers|
    ensures streak < StreakMultipliers[0].0 ==> m == BaseMultiplier
    ensures BaseMultiplier <= m <= 300
  {
    if k == 0 then BaseMultiplier
    else if streak >= StreakMultipliers[k - 1].0 then StreakMultipliers[k - 1].1
    else ScanDown(streak, k - 1)
  }

  /** getStreakMultiplier: the multiplier for a streak of `streakDays` days. */
  function StreakMultiplier(streakDays: int): (m: nat)
    ensures streakDays < StreakMultipliers[0].0 ==> m == BaseMultiplier
    ensures BaseMultiplier <= m <= 300
  {
    ScanDown(streakDays, |StreakMultipliers|)
  }

  /**
   * The scan over entries below k returns the multiplier of the largest
   * threshold below k that the streak reaches, and 1.00 when it reaches none.
   */
  lemma {:induction false} ScanDownFindsLargest(streak: int, k: nat)
    requires k <= |StreakMultipliers|
    ensures (forall j :: 0 <= j < k ==> streak < StreakMultipliers[j].0) ==> ScanDown(streak, k) == BaseMultiplier
    ensures forall j :: (0 <= j < k && StreakMultipliers[j].0 <= streak
                          && (forall l :: j < l < k ==> streak < StreakMultipliers[l].0))
                         ==> ScanDown(streak, k) == StreakMultipliers[j].1
  {
    if k > 0 && streak < StreakMultipliers[k - 1].0 {
      ScanDownFindsLargest(streak, k - 1);
    }
  }

  /** The multiplier is that of the largest threshold the streak reaches. */
  lemma MultiplierIsLargestThreshold(streak: int, i: nat)
    requires i < |StreakMultipliers| && IsLargestAtOrBelow(i, streak)
    ensures StreakMultiplier(streak) == StreakMultipliers[i].1
  {
    StreakMultipliersAscending();
    ScanDownFindsLargest(streak, |StreakMultipliers|);
  }

  lemma StreakMultipliersAscending()
    ensures Ascending(StreakMultipliers)
  {
  }

  /** Exactly one threshold is the largest one reached, once the first is reached. */
  lemma LargestAtOrBelowExists(streak: int) returns (i: nat)
    requires streak >= StreakMultipliers[0].0
    ensures i < |StreakMultipliers| && IsLargestAtOrBelow(i, streak)
  {
    i := 0;
    while i + 1 < |StreakMultipliers| && StreakMultipliers[i + 1].0 <= streak
      invariant i < |StreakMultipliers| && StreakMultipliers[i].0 <= streak
    {
      i := i + 1;
    }
  }

  /** The boundary values of the table. */
  lemma MultiplierBoundaries()
    ensures StreakMultiplier(6) == 100 && StreakMultiplier(7) == 125
    ensures StreakMultiplier(13) == 125 && StreakMultiplier(14) == 150
    ensures StreakMultiplier(29) == 150 && StreakMultiplier(30) == 200
    ensures StreakMultiplier(59) == 200 && StreakMultiplier(60) == 250
    ensures StreakMultiplier(89) == 250
    ensures forall s :: s >= 90 ==> StreakMultiplier(s) == 300
  {
    MultiplierIsLargestThreshold(7, 0);
    MultiplierIsLargestThreshold(13, 0);
    MultiplierIsLargestThreshold(14, 1);
    MultiplierIsLargestThreshold(29, 1);
    MultiplierIsLargestThreshold(30, 2);
    MultiplierIsLargestThreshold(59, 2);
    MultiplierIsLargestThreshold(60, 3);
    MultiplierIsLargestThreshold(89, 3);
    forall s | s >= 90 ensures StreakMultiplier(s) == 300 {
      MultiplierIsLargestThreshold(s, 4);
    }
  }

  /** A longer streak never earns a smaller multiplier. */
  lemma MultiplierMonotone(s1: int, s2: int)
    requires s1 <= s2
    ensures StreakMultiplier(s1) <= StreakMultiplier(s2)
  {
    if s1 >= StreakMultipliers[0].0 {
      StreakMultipliersAscending();
      var i := LargestAtOrBelowExists(s1);
      var j := LargestAtOrBelowExists(s2);
      MultiplierIsLargestThreshold(s1, i);
      MultiplierIsLargestThreshold(s2, j);
      if j < i {
        assert false;
      }
      assert i == j || StreakMultipliers[i].1 < StreakMultipliers[j].1;
    }
  }
}
