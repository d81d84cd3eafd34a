/**
 * The intent (personal goal) tracker: milestone generation at creation,
 * per-day progress samples with upsert semantics, aggregate progress, pace
 * classification, and one-shot milestone rewards with auto-completion.
 *
 * Dates are day numbers. The source measures elapsed time from the start
 * date's midnight (UTC) to the current instant and rounds up, so on day
 * `today` (any moment after midnight) `today - start + 1` days have elapsed;
 * the span of an intent is `end - start`, both being midnights.
 */
module Intents {
  import opened Common
  import opened Database
  import opened Arith
  import opened Ledger

  // ---------------------------------------------------------------------------
  // Records
  // ---------------------------------------------------------------------------

  /** An entry of the fixed milestone catalogue. */
  datatype MilestoneDef = MilestoneDef(mtype: MilestoneType, name: string, targetProgress: int, coinsReward: int)

  /** An `intent_milestones` row. */
  datatype Milestone = Milestone(
    mtype: MilestoneType,
    name: string,
    targetProgress: int,
    coinsReward: int,
    achievementId: Option<nat>,
    isAchieved: bool,
    achievedAt: Option<int>)

  /** An `intent_progress` row: one day's logged value and its pace status. */
  datatype Sample = Sample(day: int, value: int, status: ProgressStatus)

  /** A `user_intents` row with its progress samples and milestones. */
  datatype Intent = Intent(
    owner: UserId,
    targetValue: int,
    startDay: int,
    endDay: int,
    status: IntentStatus,
    samples: seq<Sample>,
    milestones: seq<Milestone>)

  /** All intents, plus the calling user's account and unlocked achievements. */
  datatype Store = Store(intents: map<IntentId, Intent>, account: Account, badges: set<nat>)

  datatype IntentError = IntentNotFoundOrInactive

  // ---------------------------------------------------------------------------
  // Milestone catalogue and generation (createIntent)
  // ---------------------------------------------------------------------------

  const DefaultMilestones: seq<MilestoneDef> := [
    MilestoneDef(Day3, "3 dias de foco", 0, 10),
    MilestoneDef(Week1, "1 semana firme", 0, 25),
    MilestoneDef(Halfway, "Metade do caminho", 50, 50),
    MilestoneDef(Day21, "Habito formado (21 dias)", 0, 75),
    MilestoneDef(MilestoneType.Completed, "Meta alcancada!", 100, 100)
  ]

  /** Position of a milestone type in the catalogue. */
  function CatalogueIndex(t: MilestoneType): (i: nat)
    ensures i < |DefaultMilestones| && DefaultMilestones[i].mtype == t
  {
    match t
    case Day3 => 0
    case Week1 => 1
    case Halfway => 2
    case Day21 => 3
    case Completed => 4
  }

  /** Whether a milestone type is generated for an intent spanning `totalDays` days. */
  predicate Included(t: MilestoneType, totalDays: int) {
    match t
    case Day3 => totalDays >= 3
    case Week1 => totalDays >= 7
    case Day21 => totalDays >= 21
    case _ => true
  }

  /** A fresh, unachieved milestone row from a catalogue entry. */
  function FromDef(d: MilestoneDef): Milestone {
    Milestone(d.mtype, d.name, d.targetProgress, d.coinsReward, None, false, None)
  }

  function Types(ms: seq<Milestone>): (ts: seq<MilestoneType>)
    ensures |ts| == |ms| && forall i :: 0 <= i < |ms| ==> ts[i] == ms[i].mtype
  {
    if |ms| == 0 then [] else [ms[0].mtype] + Types(ms[1..])
  }

  /** The milestones are in catalogue order, without repeats. */
  predicate InCatalogueOrder(ms: seq<Milestone>) {
    forall i, j :: 0 <= i < j < |ms| ==> CatalogueIndex(ms[i].mtype) < CatalogueIndex(ms[j].mtype)
  }

  /** A fresh row of a catalogue entry that the span admits. */
  predicate Admitted(m: Milestone, totalDays: int) {
    Included(m.mtype, totalDays) && m == FromDef(DefaultMilestones[CatalogueIndex(m.mtype)])
  }

  /** The catalogue entry at index k as a fresh row, when the span admits it. */
  function Keep(k: nat, totalDays: int): (ms: seq<Milestone>)
    requires k < |DefaultMilestones|
    ensures |ms| <= 1
    ensures forall m :: m in ms ==> Admitted(m, totalDays) && CatalogueIndex(m.mtype) == k
  {
    if Included(DefaultMilestones[k].mtype, totalDays) then [FromDef(DefaultMilestones[k])] else []
  }

  /** Putting at most one row of catalogue index k before rows of later indices keeps the order. */
  lemma OrderedPrepend(a: seq<Milestone>, b: seq<Milestone>, k: nat)
    requires |a| <= 1 && (forall m :: m in a ==> CatalogueIndex(m.mtype) == k)
    requires (forall m :: m in b ==> CatalogueIndex(m.mtype) > k) && InCatalogueOrder(b)
    ensures InCatalogueOrder(a + b)
  {
    if |a| == 1 {
      forall i, j | 0 <= i < j < |a + b|
        ensures CatalogueIndex((a + b)[i].mtype) < CatalogueIndex((a + b)[j].mtype)
      {
        if i == 0 {
          assert (a + b)[j] == b[j - 1];
        } else {
          assert (a + b)[i] == b[i - 1] && (a + b)[j] == b[j - 1];
        }
      }
    } else {
      assert a + b == b;
    }
  }

  /**
   * The milestone rows `createIntent` inserts for an intent spanning
   * `totalDays` days: the catalogue, filtered entry by entry.
   */
  function GenerateMilestones(totalDays: int): (ms: seq<Milestone>)
    ensures forall m :: m in ms ==> Admitted(m, totalDays) && !m.isAchieved
    ensures InCatalogueOrder(ms)
  {
    var s4 := Keep(4, totalDays);
    var s3 := Keep(3, totalDays) + s4;
    OrderedPrepend(Keep(3, totalDays), s4, 3);
    var s2 := Keep(2, totalDays) + s3;
    OrderedPrepend(Keep(2, totalDays), s3, 2);
    var s1 := Keep(1, totalDays) + s2;
    OrderedPrepend(Keep(1, totalDays), s2, 1);
    OrderedPrepend(Keep(0, totalDays), s1, 0);
    Keep(0, totalDays) + s1
  }

  /**
   * A milestone type is generated exactly when the span admits it; halfway
   * and completion always are.
   */
  lemma GeneratedIffIncluded(totalDays: int, t: MilestoneType)
    ensures t in Types(GenerateMilestones(totalDays)) <==> Included(t, totalDays)
    ensures Halfway in Types(GenerateMilestones(totalDays))
    ensures MilestoneType.Completed in Types(GenerateMilestones(totalDays))
  {
    if Included(t, totalDays) {
      KeptWhenIncluded(t, totalDays);
    } else if t in Types(GenerateMilestones(totalDays)) {
      GeneratedTypeIncluded(t, totalDays);
    }
    KeptWhenIncluded(Halfway, totalDays);
    KeptWhenIncluded(MilestoneType.Completed, totalDays);
  }

  lemma TypeOfMember(ms: seq<Milestone>, m: Milestone)
    requires m in ms
    ensures m.mtype in Types(ms)
  {
    var j :| 0 <= j < |ms| && ms[j] == m;
    assert Types(ms)[j] == m.mtype;
  }

  /** A generated type is one the span admits. */
  lemma GeneratedTypeIncluded(t: MilestoneType, totalDays: int)
    requires t in Types(GenerateMilestones(totalDays))
    ensures Included(t, totalDays)
  {
    var ms := GenerateMilestones(totalDays);
    var j :| 0 <= j < |ms| && Types(ms)[j] == t;
    assert ms[j] in ms;
  }

  /** An admitted catalogue entry is generated, and so is its type. */
  lemma KeptWhenIncluded(t: MilestoneType, totalDays: int)
    requires Included(t, totalDays)
    ensures FromDef(DefaultMilestones[CatalogueIndex(t)]) in GenerateMilestones(totalDays)
    ensures t in Types(GenerateMilestones(totalDays))
  {
    var m := FromDef(DefaultMilestones[CatalogueIndex(t)]);
    assert m in Keep(CatalogueIndex(t), totalDays);
    TypeOfMember(GenerateMilestones(totalDays), m);
  }

  /** A five-day intent gets exactly the 3-day, halfway and completion milestones. */
  lemma FiveDayIntentMilestones()
    ensures Types(GenerateMilestones(5)) == [Day3, Halfway, MilestoneType.Completed]
  {
    assert Keep(1, 5) == [] && Keep(3, 5) == [];
  }

  /** The input of `createIntent` that the model uses. */
  datatype NewIntent = NewIntent(targetValue: int, startDay: Option<int>, endDay: int)

  /**
   * createIntent: stores an active intent (start defaulting to today) and its
   * milestones under the fresh id the database assigns.
   */
  function CreateIntent(st: Store, user: UserId, input: NewIntent, id: IntentId, today: int)
    : (r: (Store, Intent))
    requires id !in st.intents
    ensures r.0 == st.(intents := st.intents[id := r.1])
    ensures r.1.owner == user && r.1.status == Active && r.1.samples == []
    ensures r.1.startDay == input.startDay.GetOr(today) && r.1.endDay == input.endDay
    ensures r.1.targetValue == input.targetValue
    ensures r.1.milestones == GenerateMilestones(r.1.endDay - r.1.startDay)
  {
    var start := input.startDay.GetOr(today);
    var it := Intent(user, input.targetValue, start, input.endDay, Active, [],
                     GenerateMilestones(input.endDay - start));
    (st.(intents := st.intents[id := it]), it)
  }

  // ---------------------------------------------------------------------------
  // Progress aggregation (calculateIntentProgress)
  // ---------------------------------------------------------------------------

  function SumValues(samples: seq<Sample>): int {
    if |samples| == 0 then 0 else samples[0].value + SumValues(samples[1..])
  }

  datatype ProgressSummary = ProgressSummary(current: int, percentage: int)

  /**
   * calculateIntentProgress. For a zero target JavaScript yields Infinity,
   * NaN or -Infinity; the model gives 100 for a positive sum and 0 otherwise,
   * which every later comparison (>= 50, >= 100) treats the same way.
   */
  function CalculateIntentProgress(target: int, samples: seq<Sample>): (r: ProgressSummary)
    ensures |samples| == 0 ==> r == ProgressSummary(0, 0)
    ensures r.current == SumValues(samples)
    ensures r.percentage <= 100
    ensures |samples| > 0 && target != 0 ==> r.percentage == Min(100, Percent(r.current, target))
    ensures |samples| > 0 && target == 0 ==> r.percentage == (if r.current > 0 then 100 else 0)
  {
    if |samples| == 0 then ProgressSummary(0, 0)
    else
      var current := SumValues(samples);
      var pct := if target != 0 then Min(100, Percent(current, target))
                 else if current > 0 then 100 else 0;
      ProgressSummary(current, pct)
  }

  /** With non-negative samples and a positive target the percentage lies in 0..100. */
  lemma {:induction false} PercentageInRange(target: int, samples: seq<Sample>)
    requires target > 0
    requires forall i :: 0 <= i < |samples| ==> samples[i].value >= 0
    ensures 0 <= CalculateIntentProgress(target, samples).percentage <= 100
  {
    SumValuesNonNegative(samples);
    if |samples| > 0 {
      var c := SumValues(samples);
      RoundDivMonotone(0, c * 100, target);
    }
  }

  lemma {:induction false} SumValuesNonNegative(samples: seq<Sample>)
    requires forall i :: 0 <= i < |samples| ==> samples[i].value >= 0
    ensures SumValues(samples) >= 0
  {
    if |samples| > 0 {
      SumValuesNonNegative(samples[1..]);
    }
  }

  // ---------------------------------------------------------------------------
  // Upsert on (intent, date)
  // ---------------------------------------------------------------------------

  /** At most one sample per day: the table's unique key. */
  predicate UniqueDays(samples: seq<Sample>) {
    forall i, j :: 0 <= i < j < |samples| ==> samples[i].day != samples[j].day
  }

  predicate HasDay(samples: seq<Sample>, day: int) {
    exists i :: 0 <= i < |samples| && samples[i].day == day
  }

  /** The value logged on `day`, or 0 when nothing was. */
  function ValueOn(samples: seq<Sample>, day: int): int {
    if |samples| == 0 then 0
    else if samples[0].day == day then samples[0].value
    else ValueOn(samples[1..], day)
  }

  lemma HasDayTail(samples: seq<Sample>, day: int)
    requires |samples| > 0 && samples[0].day != day
    ensures HasDay(samples, day) <==> HasDay(samples[1..], day)
  {
    if HasDay(samples, day) {
      var i :| 0 <= i < |samples| && samples[i].day == day;
      assert samples[1..][i - 1].day == day;
    }
    if HasDay(samples[1..], day) {
      var i :| 0 <= i < |samples[1..]| && samples[1..][i].day == day;
      assert samples[i + 1].day == day;
    }
  }

  /** Position of the first sample logged on `day`. */
  function FirstIndexOfDay(samples: seq<Sample>, day: int): (k: nat)
    requires HasDay(samples, day)
    ensures k < |samples| && samples[k].day == day
    ensures forall j :: 0 <= j < k ==> samples[j].day != day
  {
    if samples[0].day == day then 0
    else
      HasDayTail(samples, day);
      1 + FirstIndexOfDay(samples[1..], day)
  }

  /** The upsert keyed on the sample's day: replaces that day's row, or appends one. */
  function Upsert(samples: seq<Sample>, s: Sample): (r: seq<Sample>)
    ensures |r| == |samples| + (if HasDay(samples, s.day) then 0 else 1)
    ensures s in r
  {
    if HasDay(samples, s.day) then
      var k := FirstIndexOfDay(samples, s.day);
      assert samples[k := s][k] == s;
      samples[k := s]
    else
      assert (samples + [s])[|samples|] == s;
      samples + [s]
  }

  /**
   * The upsert keeps every other day's row, and with one row per day it adds
   * nothing but the new sample and keeps one row per day.
   */
  lemma UpsertKeepsOtherDays(samples: seq<Sample>, s: Sample)
    ensures forall x :: x in samples && x.day != s.day ==> x in Upsert(samples, s)
    ensures UniqueDays(samples) ==>
      forall x :: x in Upsert(samples, s) ==> x == s || (x in samples && x.day != s.day)
    ensures UniqueDays(samples) ==> UniqueDays(Upsert(samples, s))
  {
    var r := Upsert(samples, s);
    if HasDay(samples, s.day) {
      var k := FirstIndexOfDay(samples, s.day);
      forall x | x in samples && x.day != s.day ensures x in r {
        var j :| 0 <= j < |samples| && samples[j] == x;
        assert r[j] == x;
      }
      if UniqueDays(samples) {
        forall x | x in r ensures x == s || (x in samples && x.day != s.day) {
          var j :| 0 <= j < |r| && r[j] == x;
          if j != k {
            assert x == samples[j];
          }
        }
      }
    } else {
      forall x | x in r ensures x == s || (x in samples && x.day != s.day) {
        var j :| 0 <= j < |r| && r[j] == x;
        if j < |samples| {
          assert x == samples[j];
        }
      }
    }
  }

  /** The value logged on the day is that of its first row. */
  lemma {:induction false} ValueOnFirst(samples: seq<Sample>, day: int)
    ensures ValueOn(samples, day) == (if HasDay(samples, day) then samples[FirstIndexOfDay(samples, day)].value else 0)
  {
    if |samples| > 0 && samples[0].day != day {
      HasDayTail(samples, day);
      ValueOnFirst(samples[1..], day);
    }
  }

  lemma {:induction false} SumReplace(samples: seq<Sample>, k: nat, s: Sample)
    requires k < |samples|
    ensures SumValues(samples[k := s]) == SumValues(samples) - samples[k].value + s.value
  {
    if k > 0 {
      SumReplace(samples[1..], k - 1, s);
      assert samples[k := s][1..] == samples[1..][k - 1 := s];
    } else {
      assert samples[k := s][1..] == samples[1..];
    }
  }

  lemma {:induction false} SumAppendOne(samples: seq<Sample>, s: Sample)
    ensures SumValues(samples + [s]) == SumValues(samples) + s.value
  {
    if |samples| > 0 {
      SumAppendOne(samples[1..], s);
      assert (samples + [s])[1..] == samples[1..] + [s];
    }
  }

  /** Re-logging a day replaces its value: the sum moves by the difference. */
  lemma UpsertSum(samples: seq<Sample>, s: Sample)
    ensures SumValues(Upsert(samples, s)) == SumValues(samples) - ValueOn(samples, s.day) + s.value
  {
    ValueOnFirst(samples, s.day);
    if HasDay(samples, s.day) {
      SumReplace(samples, FirstIndexOfDay(samples, s.day), s);
    } else {
      SumAppendOne(samples, s);
    }
  }

  /** After an upsert the day's only row is the new sample. */
  lemma UpsertOnlyRowForDay(samples: seq<Sample>, s: Sample)
    requires UniqueDays(samples)
    ensures forall i :: 0 <= i < |Upsert(samples, s)| && Upsert(samples, s)[i].day == s.day
              ==> Upsert(samples, s)[i] == s
  {
    var r := Upsert(samples, s);
    UpsertKeepsOtherDays(samples, s);
    forall i | 0 <= i < |r| && r[i].day == s.day ensures r[i] == s {
      assert r[i] in r;
    }
  }

  // ---------------------------------------------------------------------------
  // Pace classification (determineProgressStatus)
  // ---------------------------------------------------------------------------

  function Sign(x: int): int { if x > 0 then 1 else if x < 0 then -1 else 0 }

  /**
   * `value >= expected * (k / 10)` as JavaScript evaluates it, where
   * expected = target / totalDays * elapsed: cross-multiplied when totalDays
   * is non-zero; otherwise expected is +Infinity, -Infinity or NaN.
   */
  predicate ReachesPace(value: int, target: int, elapsed: int, totalDays: int, k: int) {
    if totalDays > 0 then 10 * value * totalDays >= k * target * elapsed
    else if totalDays < 0 then 10 * value * totalDays <= k * target * elapsed
    else Sign(target) * Sign(elapsed) < 0
  }

  /** `value < expected * (k / 10)`, evaluated the same way. */
  predicate BelowPace(value: int, target: int, elapsed: int, totalDays: int, k: int) {
    if totalDays > 0 then 10 * value * totalDays < k * target * elapsed
    else if totalDays < 0 then 10 * value * totalDays > k * target * elapsed
    else Sign(target) * Sign(elapsed) > 0
  }

  function TotalDays(it: Intent): int { it.endDay - it.startDay }

  function ElapsedDays(it: Intent, today: int): int { today - it.startDay + 1 }

  /** determineProgressStatus: exceeded at 1.1x the expected pace, behind under 0.8x. */
  function DetermineProgressStatus(it: Intent, value: int, today: int): (r: ProgressStatus)
    ensures r == Exceeded <==>
      ReachesPace(value, it.targetValue, ElapsedDays(it, today), TotalDays(it), 11)
    ensures r == Behind <==>
      !ReachesPace(value, it.targetValue, ElapsedDays(it, today), TotalDays(it), 11)
      && BelowPace(value, it.targetValue, ElapsedDays(it, today), TotalDays(it), 8)
  {
    var t, e, d := it.targetValue, ElapsedDays(it, today), TotalDays(it);
    if ReachesPace(value, t, e, d, 11) then Exceeded
    else if BelowPace(value, t, e, d, 8) then Behind
    else OnTrack
  }

  /**
   * For a positive span the classification is the source's comparison of the
   * value with 1.1 and 0.8 times target / totalDays * elapsed over exact reals.
   */
  lemma PaceMatchesRealComparison(it: Intent, value: int, today: int)
    requires TotalDays(it) > 0
    ensures var expected := it.targetValue as real / TotalDays(it) as real * ElapsedDays(it, today) as real;
      var r := DetermineProgressStatus(it, value, today);
      && (r == Exceeded <==> value as real >= expected * 1.1)
      && (r == Behind <==> !(value as real >= expected * 1.1) && value as real < expected * 0.8)
  {
    var t, e, d := it.targetValue, ElapsedDays(it, today), TotalDays(it);
    ScaledPace(value, t, e, d, 11);
    ScaledPace(value, t, e, d, 8);
    assert 11 as real / 10.0 == 1.1 && 8 as real / 10.0 == 0.8;
  }

  /** Comparing with k/10 of the expected value over the reals is the cross-multiplied integer test. */
  lemma ScaledPace(value: int, t: int, e: int, d: int, k: int)
    requires d > 0
    ensures var expected := t as real / d as real * e as real;
      value as real >= expected * (k as real / 10.0) <==> 10 * value * d >= k * t * e
  {
    var expected := t as real / d as real * e as real;
    var c := (10 * d) as real;
    assert expected * d as real == (t * e) as real;
    assert (value as real) * c == (10 * value * d) as real;
    assert expected * (k as real / 10.0) * c == (k * t * e) as real;
    if 10 * value * d >= k * t * e {
      RealCancel(expected * (k as real / 10.0), value as real, c);
    } else {
      RealCancelStrict(value as real, expected * (k as real / 10.0), c);
    }
  }

  function PaceRank(s: ProgressStatus): nat {
    match s
    case Behind => 0
    case OnTrack => 1
    case Exceeded => 2
  }

  /** Logging a larger value never yields a worse pace status. */
  lemma PaceMonotone(it: Intent, v1: int, v2: int, today: int)
    requires v1 <= v2
    ensures PaceRank(DetermineProgressStatus(it, v1, today)) <= PaceRank(DetermineProgressStatus(it, v2, today))
  {
    var d := TotalDays(it);
    if d > 0 {
      MulMono(10 * d, v1, v2);
      assert 10 * v1 * d <= 10 * v2 * d;
    } else if d < 0 {
      MulMono(-10 * d, v1, v2);
      assert 10 * v1 * d >= 10 * v2 * d;
    }
  }

  // ---------------------------------------------------------------------------
  // Milestone evaluation (checkAndAwardMilestones)
  // ---------------------------------------------------------------------------

  /** The achievement condition of a milestone type. */
  predicate Reached(t: MilestoneType, percentage: int, daysActive: int) {
    match t
    case Day3 => daysActive >= 3
    case Week1 => daysActive >= 7
    case Day21 => daysActive >= 21
    case Halfway => percentage >= 50
    case Completed => percentage >= 100
  }

  predicate Hits(m: Milestone, percentage: int, daysActive: int) {
    !m.isAchieved && Reached(m.mtype, percentage, daysActive)
  }

  predicate HasPending(ms: seq<Milestone>) {
    exists i :: 0 <= i < |ms| && !ms[i].isAchieved
  }

  /** The ledger row paid for a milestone of intent `id`. */
  function RewardRow(id: IntentId, m: Milestone): LedgerEntry {
    LedgerEntry(m.coinsReward, IntentMilestone, MilestoneRef(id, m.mtype), true)
  }

  /** The row marked achieved on `today` if it is pending and its condition holds. */
  function Mark(m: Milestone, percentage: int, daysActive: int, today: int): Milestone {
    if Hits(m, percentage, daysActive) then m.(isAchieved := true, achievedAt := Some(today)) else m
  }

  function MarkAll(ms: seq<Milestone>, percentage: int, daysActive: int, today: int): (r: seq<Milestone>)
    ensures |r| == |ms| && forall i :: 0 <= i < |ms| ==> r[i] == Mark(ms[i], percentage, daysActive, today)
  {
    if |ms| == 0 then [] else [Mark(ms[0], percentage, daysActive, today)] + MarkAll(ms[1..], percentage, daysActive, today)
  }

  /** The ledger rows an evaluation writes: one per newly achieved milestone with a positive reward. */
  function RewardRows(ms: seq<Milestone>, percentage: int, daysActive: int, id: IntentId): seq<LedgerEntry> {
    if |ms| == 0 then []
    else
      (if Hits(ms[0], percentage, daysActive) && ms[0].coinsReward > 0 then [RewardRow(id, ms[0])] else [])
      + RewardRows(ms[1..], percentage, daysActive, id)
  }

  /** The achievements linked to newly achieved milestones; unlocking is an upsert, so a set. */
  function BadgesOf(ms: seq<Milestone>, percentage: int, daysActive: int): set<nat> {
    if |ms| == 0 then {}
    else
      (if Hits(ms[0], percentage, daysActive) && ms[0].achievementId.Some? then {ms[0].achievementId.value} else {})
      + BadgesOf(ms[1..], percentage, daysActive)
  }

  /**
   * The reward loop over pending milestones: for each one whose condition
   * holds and whose reward is positive, the reward is posted to the ledger
   * and credited to both balances.
   */
  function AwardPending(a: Account, ms: seq<Milestone>, percentage: int, daysActive: int, id: IntentId): (r: Account)
    ensures r.ledger == a.ledger + RewardRows(ms, percentage, daysActive, id)
    ensures r.profile.totalCoins == a.profile.totalCoins + Sum(RewardRows(ms, percentage, daysActive, id))
    ensures r.profile.convertibleCoins == a.profile.convertibleCoins + Sum(RewardRows(ms, percentage, daysActive, id))
    ensures r.profile.currentTrack == a.profile.currentTrack
    decreases |ms|
  {
    if |ms| == 0 then a
    else if Hits(ms[0], percentage, daysActive) && ms[0].coinsReward > 0 then
      var e := RewardRow(id, ms[0]);
      var rest := RewardRows(ms[1..], percentage, daysActive, id);
      assert RewardRows(ms, percentage, daysActive, id) == [e] + rest;
      SumAppend([e], rest);
      assert [e][..0] == [];
      assert a.ledger + [e] + rest == a.ledger + ([e] + rest);
      AwardPending(Post(a, e, true), ms[1..], percentage, daysActive, id)
    else
      assert RewardRows(ms, percentage, daysActive, id) == RewardRows(ms[1..], percentage, daysActive, id);
      AwardPending(a, ms[1..], percentage, daysActive, id)
  }

  /** The status after evaluation: an active intent at 100% becomes completed. */
  function AutoStatus(status: IntentStatus, percentage: int): IntentStatus {
    if percentage >= 100 && status == Active then IntentStatus.Completed else status
  }

  /**
   * checkAndAwardMilestones(id) for the calling user. It reads the intent by
   * id alone, so it evaluates whichever user's intent `id` names, and it
   * returns early, without auto-completion, when no milestone is pending.
   */
  function CheckAndAwardMilestones(st: Store, id: IntentId, today: int): (r: Store)
    ensures id !in st.intents || !HasPending(st.intents[id].milestones) ==> r == st
    ensures id in st.intents && HasPending(st.intents[id].milestones) ==>
      var it := st.intents[id];
      var pct := CalculateIntentProgress(it.targetValue, it.samples).percentage;
      var days := |it.samples|;
      var rows := RewardRows(it.milestones, pct, days, id);
      && r.intents == st.intents[id := it.(milestones := MarkAll(it.milestones, pct, days, today),
                                           status := AutoStatus(it.status, pct))]
      && r.account.ledger == st.account.ledger + rows
      && r.account.profile.totalCoins == st.account.profile.totalCoins + Sum(rows)
      && r.account.profile.convertibleCoins == st.account.profile.convertibleCoins + Sum(rows)
      && r.account.profile.currentTrack == st.account.profile.currentTrack
      && r.badges == st.badges + BadgesOf(it.milestones, pct, days)
  {
    if id !in st.intents || !HasPending(st.intents[id].milestones) then st
    else
      var it := st.intents[id];
      var pct := CalculateIntentProgress(it.targetValue, it.samples).percentage;
      var days := |it.samples|;
      var it' := it.(milestones := MarkAll(it.milestones, pct, days, today), status := AutoStatus(it.status, pct));
      Store(st.intents[id := it'], AwardPending(st.account, it.milestones, pct, days, id),
            st.badges + BadgesOf(it.milestones, pct, days))
  }

  // Properties of the evaluation

  /** Every reward row is convertible, so its convertible sum is its sum. */
  lemma {:induction false} RewardRowsConvertible(ms: seq<Milestone>, percentage: int, daysActive: int, id: IntentId)
    ensures ConvertibleSum(RewardRows(ms, percentage, daysActive, id)) == Sum(RewardRows(ms, percentage, daysActive, id))
  {
    if |ms| > 0 {
      var row := if Hits(ms[0], percentage, daysActive) && ms[0].coinsReward > 0 then [RewardRow(id, ms[0])] else [];
      RewardRowsConvertible(ms[1..], percentage, daysActive, id);
      SumAppend(row, RewardRows(ms[1..], percentage, daysActive, id));
      if |row| == 1 {
        assert row[..0] == [];
      }
    }
  }

  /** Milestone rewards keep the ledger and both balances in step. */
  lemma CheckKeepsSync(st: Store, id: IntentId, today: int)
    requires InSync(st.account)
    ensures InSync(CheckAndAwardMilestones(st, id, today).account)
  {
    if id in st.intents && HasPending(st.intents[id].milestones) {
      var it := st.intents[id];
      var pct := CalculateIntentProgress(it.targetValue, it.samples).percentage;
      var rows := RewardRows(it.milestones, pct, |it.samples|, id);
      SumAppend(st.account.ledger, rows);
      RewardRowsConvertible(it.milestones, pct, |it.samples|, id);
    }
  }

  /** Every reward row names a milestone type that was pending and whose condition held. */
  lemma {:induction false} RowsComeFromHits(ms: seq<Milestone>, percentage: int, daysActive: int, id: IntentId)
    ensures forall e :: e in RewardRows(ms, percentage, daysActive, id) ==>
      e.ref.MilestoneRef? && e.ref.intent == id && Reached(e.ref.milestone, percentage, daysActive)
      && e.amount > 0
  {
    if |ms| > 0 {
      RowsComeFromHits(ms[1..], percentage, daysActive, id);
    }
  }

  /** After an evaluation, no milestone whose condition held is still pending. */
  lemma MarkedLeavesNoHit(ms: seq<Milestone>, percentage: int, daysActive: int, today: int)
    ensures forall i :: 0 <= i < |ms| ==>
      !Hits(MarkAll(ms, percentage, daysActive, today)[i], percentage, daysActive)
    ensures forall i :: 0 <= i < |ms| && ms[i].isAchieved ==> MarkAll(ms, percentage, daysActive, today)[i] == ms[i]
  {
  }

  /** A later evaluation pays rows only for milestones still pending then. */
  lemma {:induction false} RowsOnlyForPending(ms: seq<Milestone>, percentage: int, daysActive: int, id: IntentId)
    ensures forall e :: e in RewardRows(ms, percentage, daysActive, id) ==>
      exists i :: 0 <= i < |ms| && !ms[i].isAchieved && e.ref == MilestoneRef(id, ms[i].mtype)
  {
    if |ms| > 0 {
      RowsOnlyForPending(ms[1..], percentage, daysActive, id);
      forall e | e in RewardRows(ms, percentage, daysActive, id)
        ensures exists i :: 0 <= i < |ms| && !ms[i].isAchieved && e.ref == MilestoneRef(id, ms[i].mtype)
      {
        if e in RewardRows(ms[1..], percentage, daysActive, id) {
          var j :| 0 <= j < |ms[1..]| && !ms[1..][j].isAchieved && e.ref == MilestoneRef(id, ms[1..][j].mtype);
          assert ms[j + 1] == ms[1..][j];
        } else {
          assert e == RewardRow(id, ms[0]);
        }
      }
    }
  }

  /**
   * No milestone is paid twice: two successive evaluations, whatever the
   * progress at each, never write rows for the same milestone.
   */
  lemma PaidAtMostOnce(ms: seq<Milestone>, pct1: int, days1: int, pct2: int, days2: int,
                       id: IntentId, today: int)
    ensures var ms1 := MarkAll(ms, pct1, days1, today);
      forall e1, e2 :: e1 in RewardRows(ms, pct1, days1, id) && e2 in RewardRows(ms1, pct2, days2, id)
        ==> e1.ref != e2.ref
  {
    var ms1 := MarkAll(ms, pct1, days1, today);
    RowsComeFromHits(ms, pct1, days1, id);
    RowsOnlyForPending(ms1, pct2, days2, id);
    forall e1, e2 | e1 in RewardRows(ms, pct1, days1, id) && e2 in RewardRows(ms1, pct2, days2, id)
      ensures e1.ref != e2.ref
    {
      var i :| 0 <= i < |ms1| && !ms1[i].isAchieved && e2.ref == MilestoneRef(id, ms1[i].mtype);
      assert ms1[i] == Mark(ms[i], pct1, days1, today);
    }
  }

  /** Evaluating twice in a row, with no new progress, changes nothing the second time. */
  lemma {:induction false} MarkAllIdempotent(ms: seq<Milestone>, percentage: int, daysActive: int, today: int, id: IntentId)
    ensures var ms1 := MarkAll(ms, percentage, daysActive, today);
      && MarkAll(ms1, percentage, daysActive, today) == ms1
      && RewardRows(ms1, percentage, daysActive, id) == []
      && BadgesOf(ms1, percentage, daysActive) == {}
  {
    if |ms| > 0 {
      MarkAllIdempotent(ms[1..], percentage, daysActive, today, id);
      var ms1 := MarkAll(ms, percentage, daysActive, today);
      assert ms1[1..] == MarkAll(ms[1..], percentage, daysActive, today);
    }
  }

  lemma CheckIdempotent(st: Store, id: IntentId, today: int)
    ensures var st1 := CheckAndAwardMilestones(st, id, today);
      CheckAndAwardMilestones(st1, id, today) == st1
  {
    var st1 := CheckAndAwardMilestones(st, id, today);
    if id in st.intents && HasPending(st.intents[id].milestones) {
      var it := st.intents[id];
      var pct := CalculateIntentProgress(it.targetValue, it.samples).percentage;
      var days := |it.samples|;
      var ms1 := MarkAll(it.milestones, pct, days, today);
      assert st1.intents[id] == it.(milestones := ms1, status := AutoStatus(it.status, pct));
      MarkAllIdempotent(it.milestones, pct, days, today, id);
      if HasPending(ms1) {
        var st2 := CheckAndAwardMilestones(st1, id, today);
        assert st2.intents == st1.intents;
        assert st2.account.ledger == st1.account.ledger + [];
        assert Sum([]) == 0;
        assert st2.account.profile == st1.account.profile;
        assert st2.badges == st1.badges + {};
      }
    }
  }

  /** An intent whose milestones are all achieved is not auto-completed, even at 100%. */
  lemma NoAutoCompleteWithoutPending(st: Store, id: IntentId, today: int)
    requires id in st.intents && !HasPending(st.intents[id].milestones)
    ensures CheckAndAwardMilestones(st, id, today).intents[id].status == st.intents[id].status
  {
  }

  // ---------------------------------------------------------------------------
  // updateIntentProgress and updateIntentStatus
  // ---------------------------------------------------------------------------

  /** The intent exists, belongs to `user` and is active. */
  predicate Loggable(st: Store, user: UserId, id: IntentId) {
    id in st.intents && st.intents[id].owner == user && st.intents[id].status == Active
  }

  /** The store after upserting today's sample, before milestones are evaluated. */
  function WithSample(st: Store, id: IntentId, s: Sample): Store
    requires id in st.intents
  {
    var it := st.intents[id];
    st.(intents := st.intents[id := it.(samples := Upsert(it.samples, s))])
  }

  /**
   * updateIntentProgress: rejects an intent that is missing, not the
   * user's or not active; otherwise upserts today's sample, classified
   * against the pace, and evaluates the milestones.
   */
  function UpdateIntentProgress(st: Store, user: UserId, id: IntentId, value: int, today: int)
    : (r: Result<(Store, Sample), IntentError>)
    ensures r.Err? <==> !Loggable(st, user, id)
    ensures r.Ok? ==>
      var s := Sample(today, value, DetermineProgressStatus(st.intents[id], value, today));
      r.value == (CheckAndAwardMilestones(WithSample(st, id, s), id, today), s)
  {
    if !Loggable(st, user, id) then Err(IntentNotFoundOrInactive)
    else
      var s := Sample(today, value, DetermineProgressStatus(st.intents[id], value, today));
      Ok((CheckAndAwardMilestones(WithSample(st, id, s), id, today), s))
  }

  /** Every intent has at most one sample per day. */
  predicate StoreUniqueDays(st: Store) {
    forall id :: id in st.intents ==> UniqueDays(st.intents[id].samples)
  }

  /**
   * Logging keeps one sample per day; afterwards today's only sample holds
   * the logged value, and the intent's sum moved by the replaced difference.
   */
  lemma LogProgressUpserts(st: Store, user: UserId, id: IntentId, value: int, today: int)
    requires StoreUniqueDays(st) && Loggable(st, user, id)
    ensures var st' := UpdateIntentProgress(st, user, id, value, today).value.0;
      var samples := st'.intents[id].samples;
      && StoreUniqueDays(st')
      && (forall i :: 0 <= i < |samples| && samples[i].day == today ==> samples[i].value == value)
      && HasDay(samples, today)
      && SumValues(samples) == SumValues(st.intents[id].samples) - ValueOn(st.intents[id].samples, today) + value
  {
    var it := st.intents[id];
    var s := Sample(today, value, DetermineProgressStatus(it, value, today));
    UpsertSum(it.samples, s);
    UpsertKeepsOtherDays(it.samples, s);
    UpsertOnlyRowForDay(it.samples, s);
    var samples := Upsert(it.samples, s);
    assert s in samples;
    var k :| 0 <= k < |samples| && samples[k] == s;
    assert HasDay(samples, today);
  }

  /** Logging is refused, and nothing changes, unless the intent is the user's and active. */
  lemma LogProgressRejected(st: Store, user: UserId, id: IntentId, value: int, today: int)
    requires id in st.intents && (st.intents[id].owner != user || st.intents[id].status != Active)
    ensures UpdateIntentProgress(st, user, id, value, today) == Err(IntentNotFoundOrInactive)
  {
  }

  /** Target 500 with 100 and 150 logged is 250 (50%); re-logging the first day as 50 gives 200 (40%). */
  lemma AggregationExample()
    ensures var s := [Sample(1, 100, OnTrack), Sample(2, 150, OnTrack)];
      && CalculateIntentProgress(500, s) == ProgressSummary(250, 50)
      && CalculateIntentProgress(500, Upsert(s, Sample(1, 50, Behind))) == ProgressSummary(200, 40)
  {
    var s := [Sample(1, 100, OnTrack), Sample(2, 150, OnTrack)];
    assert Upsert(s, Sample(1, 50, Behind)) == [Sample(1, 50, Behind), Sample(2, 150, OnTrack)];
  }

  /** The statuses a user can set by hand; there is no way back to active. */
  datatype StatusChange = Pause | Complete | Abandon

  function ChangedStatus(c: StatusChange): IntentStatus {
    match c
    case Pause => Paused
    case Complete => IntentStatus.Completed
    case Abandon => Abandoned
  }

  /**
   * updateIntentStatus: sets the status of the user's own intent (any
   * current status; nothing happens for another user's intent), then on
   * completion evaluates the milestones of the intent the id names.
   */
  function UpdateIntentStatus(st: Store, user: UserId, id: IntentId, change: StatusChange, today: int): (r: Store)
    ensures change != Complete ==>
      r == (if id in st.intents && st.intents[id].owner == user
            then st.(intents := st.intents[id := st.intents[id].(status := ChangedStatus(change))])
            else st)
    ensures change == Complete && id in st.intents && st.intents[id].owner == user ==>
      r == CheckAndAwardMilestones(
             st.(intents := st.intents[id := st.intents[id].(status := IntentStatus.Completed)]), id, today)
    ensures change == Complete && !(id in st.intents && st.intents[id].owner == user) ==>
      r == CheckAndAwardMilestones(st, id, today)
  {
    var st1 := if id in st.intents && st.intents[id].owner == user
               then st.(intents := st.intents[id := st.intents[id].(status := ChangedStatus(change))])
               else st;
    if change == Complete then CheckAndAwardMilestones(st1, id, today) else st1
  }

  /** A manual completion leaves the intent completed, and pays any milestone it reached. */
  lemma ManualCompletionSticks(st: Store, user: UserId, id: IntentId, today: int)
    requires id in st.intents && st.intents[id].owner == user
    ensures UpdateIntentStatus(st, user, id, Complete, today).intents[id].status == IntentStatus.Completed
  {
  }
}
