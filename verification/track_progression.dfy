/**
 * Track progression: users move through the ordered tracks
 * retomada -> fundacao -> crescimento -> expertise once they have completed
 * 80% of the published content of their current track, and earn a bonus.
 */
module TrackProgression {
  import opened Common
  import opened Database
  import opened Arith
  import opened Ledger
  import opened Catalog

  const TrackOrder: seq<TrackSlug> := [Retomada, Fundacao, Crescimento, Expertise]

  /** COMPLETION_THRESHOLD, 0.8, kept as the fraction 4/5. */
  const ThresholdNum: int := 4
  const ThresholdDen: int := 5

  /** The threshold as the percentage reported to the UI. */
  const ThresholdPercent: int := 80

  /** Coins per step of the advancement bonus: 100, 200, 300. */
  const BonusPerStep: int := 100

  /** TRACK_ORDER.indexOf(t). */
  function IndexOf(t: TrackSlug): (i: nat)
    ensures i < |TrackOrder| && TrackOrder[i] == t
    ensures forall j :: 0 <= j < |TrackOrder| && TrackOrder[j] == t ==> j == i
  {
    Rank(t)
  }

  /** The track after `t`, if `t` is not the last. */
  function Next(t: TrackSlug): (n: Option<TrackSlug>)
    ensures n.None? <==> t == Expertise
    ensures n.Some? ==> IndexOf(n.value) == IndexOf(t) + 1 && n.value != Retomada
  {
    var i := IndexOf(t);
    if i == |TrackOrder| - 1 then None else Some(TrackOrder[i + 1])
  }

  /** `done / total >= 0.8`, cross-multiplied. */
  predicate MeetsThreshold(done: int, total: int) {
    ThresholdDen * done >= ThresholdNum * total
  }

  /** The cross-multiplied test is the source's comparison of the ratio with 0.8. */
  lemma MeetsThresholdIsRatio(done: int, total: int)
    requires total > 0
    ensures MeetsThreshold(done, total) <==> done as real / total as real >= 0.8
  {
    var x := done as real / total as real;
    assert x * total as real == done as real;
    if MeetsThreshold(done, total) {
      RealCancel(0.8, x, total as real);
    } else {
      RealCancelStrict(x, 0.8, total as real);
    }
  }

  /** The result of `checkTrackProgression`. */
  datatype Progression = Progression(advanced: bool, newTrack: Option<TrackSlug>, completionPercentage: int)

  /** Every condition under which `checkTrackProgression` moves the user on. */
  predicate Advances(p: Profile, cat: Catalog, completed: set<ContentId>) {
    && p.currentTrack.Some?
    && var t := p.currentTrack.value;
       && t in cat.tracks
       && Next(t).Some?
       && PublishedCount(cat, t) > 0
       && MeetsThreshold(CompletedCount(cat, completed, t), PublishedCount(cat, t))
       && Next(t).value in cat.tracks
  }

  /** checkTrackProgression for the account's owner, whose completed content is `completed`. */
  function CheckTrackProgression(a: Account, cat: Catalog, completed: set<ContentId>): (r: (Account, Progression))
    ensures r.1.advanced <==> Advances(a.profile, cat, completed)
    ensures !r.1.advanced ==> r.0 == a && r.1.newTrack.None?
    ensures r.1.advanced ==>
      var t := a.profile.currentTrack.value;
      var bonus := (IndexOf(t) + 1) * BonusPerStep;
      && r.1 == Progression(true, Next(t), 100)
      && r.0.profile.currentTrack == Next(t)
      && r.0.profile.totalCoins == a.profile.totalCoins + bonus
      && r.0.profile.convertibleCoins ==
           a.profile.convertibleCoins + (if Next(t).value != Retomada then bonus else 0)
      && r.0.ledger == a.ledger
           + [LedgerEntry(bonus, AchievementUnlock, NoSource, Next(t).value != Retomada)]
    ensures a.profile.currentTrack.None? ==> r.1.completionPercentage == 0
    ensures a.profile.currentTrack.Some? && a.profile.currentTrack.value !in cat.tracks ==>
      r.1.completionPercentage == 0
    ensures a.profile.currentTrack == Some(Expertise) && Expertise in cat.tracks ==>
      r.1.completionPercentage == 100
    ensures a.profile.currentTrack.Some? && a.profile.currentTrack.value in cat.tracks
            && a.profile.currentTrack.value != Expertise ==>
      var t := a.profile.currentTrack.value;
      var total := PublishedCount(cat, t);
      var done := CompletedCount(cat, completed, t);
      && (total == 0 ==> r.1.completionPercentage == 0)
      && (total > 0 && !r.1.advanced ==> r.1.completionPercentage == Percent(done, total))
  {
    var none := Progression(false, None, 0);
    match a.profile.currentTrack
    case None => (a, none)
    case Some(t) =>
      if t !in cat.tracks then (a, none)
      else if IndexOf(t) == |TrackOrder| - 1 then (a, Progression(false, None, 100))
      else
        var total := PublishedCount(cat, t);
        if total == 0 then (a, none)
        else
          var done := CompletedCount(cat, completed, t);
          var pct := Percent(done, total);
          if !MeetsThreshold(done, total) then (a, Progression(false, None, pct))
          else
            var next := TrackOrder[IndexOf(t) + 1];
            if next !in cat.tracks then (a, Progression(false, None, pct))
            else
              var convertible := next != Retomada;
              var bonus := (IndexOf(t) + 1) * BonusPerStep;
              var moved := Account(a.profile.(currentTrack := Some(next)), a.ledger);
              (Post(moved, LedgerEntry(bonus, AchievementUnlock, NoSource, convertible), convertible),
               Progression(true, Some(next), 100))
  }

  /** The advancement bonus is always convertible: no step leads back to the first track. */
  lemma AdvanceBonusConvertible(a: Account, cat: Catalog, completed: set<ContentId>)
    requires CheckTrackProgression(a, cat, completed).1.advanced
    ensures var r := CheckTrackProgression(a, cat, completed).0;
      r.profile.convertibleCoins - a.profile.convertibleCoins
      == r.profile.totalCoins - a.profile.totalCoins > 0
  {
  }

  /** Advancing moves exactly one step forward in the track order. */
  lemma AdvanceIsOneStep(a: Account, cat: Catalog, completed: set<ContentId>)
    requires CheckTrackProgression(a, cat, completed).1.advanced
    ensures var r := CheckTrackProgression(a, cat, completed).0;
      Rank(r.profile.currentTrack.value) == Rank(a.profile.currentTrack.value) + 1
  {
  }

  /** The check keeps ledger and balances in step: its row's flag matches its credit. */
  lemma CheckKeepsSync(a: Account, cat: Catalog, completed: set<ContentId>)
    requires InSync(a)
    ensures InSync(CheckTrackProgression(a, cat, completed).0)
  {
    if Advances(a.profile, cat, completed) {
      var t := a.profile.currentTrack.value;
      var n := Next(t).value;
      var moved := Account(a.profile.(currentTrack := Some(n)), a.ledger);
      PostKeepsSync(moved, LedgerEntry((IndexOf(t) + 1) * BonusPerStep, AchievementUnlock, NoSource, true));
    }
  }

  /**
   * Checking again right after an advance does nothing while the user has
   * completed nothing in the new track.
   */
  lemma RecheckAfterAdvance(a: Account, cat: Catalog, completed: set<ContentId>)
    requires CheckTrackProgression(a, cat, completed).1.advanced
    requires var n := Next(a.profile.currentTrack.value).value;
      forall id :: id in completed && id in cat.contents ==> cat.contents[id].track != n
    ensures var a' := CheckTrackProgression(a, cat, completed).0;
      CheckTrackProgression(a', cat, completed) == (a', Progression(false, None, if a'.profile.currentTrack == Some(Expertise) then 100 else 0))
  {
    var a' := CheckTrackProgression(a, cat, completed).0;
    var n := a'.profile.currentTrack.value;
    CompletedCountNone(cat, completed, n);
    if n != Expertise && PublishedCount(cat, n) > 0 {
      assert Percent(0, PublishedCount(cat, n)) == 0;
    }
  }

  /**
   * Below the threshold the reported percentage is at most 80; it can round
   * up to exactly 80 without the user advancing (199 of 250 is 79.6%).
   */
  lemma BelowThresholdPercent(done: int, total: int)
    requires total > 0 && done >= 0 && !MeetsThreshold(done, total)
    ensures Percent(done, total) <= ThresholdPercent
  {
    var r := Percent(done, total);
    if r >= 81 {
      MulMono(2 * total, 81, r);
      assert false;
    }
  }

  lemma RoundsUpToThresholdExample()
    ensures !MeetsThreshold(199, 250) && Percent(199, 250) == ThresholdPercent
  {
  }

  /** The result of `getTrackProgress`. */
  datatype TrackProgress = TrackProgress(
    completedCount: nat,
    totalCount: nat,
    percentage: int,
    currentTrackSlug: Option<TrackSlug>,
    nextTrackSlug: Option<TrackSlug>,
    threshold: int)

  /**
   * getTrackProgress. A track id with no track row leaves the slug null, and
   * the source's `indexOf` fallback of -1 then names the first track as next.
   */
  function GetTrackProgress(p: Profile, cat: Catalog, completed: set<ContentId>): (r: TrackProgress)
    ensures r.threshold == ThresholdPercent
    ensures p.currentTrack.None? ==> r == TrackProgress(0, 0, 0, None, None, ThresholdPercent)
    ensures p.currentTrack.Some? ==>
      r.currentTrackSlug == (if p.currentTrack.value in cat.tracks then p.currentTrack else None)
    ensures r.nextTrackSlug.None? <==> p.currentTrack.None? || r.currentTrackSlug == Some(Expertise)
    ensures r.currentTrackSlug.Some? ==> p.currentTrack == r.currentTrackSlug && r.currentTrackSlug.value in cat.tracks
    ensures r.currentTrackSlug.Some? && r.nextTrackSlug.Some? ==>
      IndexOf(r.nextTrackSlug.value) == IndexOf(r.currentTrackSlug.value) + 1
    ensures p.currentTrack.Some? && r.currentTrackSlug.None? ==> r.nextTrackSlug == Some(TrackOrder[0])
    ensures r.totalCount == 0 ==> r.percentage == 0
    ensures p.currentTrack.Some? ==>
      && r.totalCount == PublishedCount(cat, p.currentTrack.value)
      && r.completedCount == CompletedCount(cat, completed, p.currentTrack.value)
    ensures r.totalCount > 0 ==> r.percentage == Percent(r.completedCount, r.totalCount)
  {
    match p.currentTrack
    case None => TrackProgress(0, 0, 0, None, None, ThresholdPercent)
    case Some(t) =>
      var slug := if t in cat.tracks then Some(t) else None;
      var index := if slug.Some? then IndexOf(t) else -1;
      var next := if index < |TrackOrder| - 1 then Some(TrackOrder[index + 1]) else None;
      var total := PublishedCount(cat, t);
      var done := CompletedCount(cat, completed, t);
      var pct := if total > 0 then Percent(done, total) else 0;
      TrackProgress(done, total, pct, slug, next, ThresholdPercent)
  }

  /** Whenever the check advances a user, the progress view showed at least the threshold. */
  lemma AdvanceImpliesThresholdShown(a: Account, cat: Catalog, completed: set<ContentId>)
    requires CheckTrackProgression(a, cat, completed).1.advanced
    ensures GetTrackProgress(a.profile, cat, completed).percentage >= ThresholdPercent
  {
    var t := a.profile.currentTrack.value;
    var total := PublishedCount(cat, t);
    var done := CompletedCount(cat, completed, t);
    var r := Percent(done, total);
    if r + 1 <= 80 {
      MulMono(2 * total, r + 1, 80);
      assert false;
    }
  }

  /** When the check does not advance, it reports the same percentage as the progress view. */
  lemma CheckAgreesWithProgress(a: Account, cat: Catalog, completed: set<ContentId>)
    requires a.profile.currentTrack.Some? && a.profile.currentTrack.value in cat.tracks
    requires a.profile.currentTrack.value != Expertise
    requires !CheckTrackProgression(a, cat, completed).1.advanced
    ensures CheckTrackProgression(a, cat, completed).1.completionPercentage
            == GetTrackProgress(a.profile, cat, completed).percentage
  {
  }
}
