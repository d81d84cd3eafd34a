/**
 * The enumerations of the database schema and the diagnosis rule that
 * places a new user on a track.
 */
module Database {

  /** The curriculum tracks, in the order the union type lists them. */
  datatype TrackSlug = Retomada | Fundacao | Crescimento | Expertise

  /** Position of a track in the curriculum: the entry-level track first. */
  function Rank(t: TrackSlug): nat {
    match t
    case Retomada => 0
    case Fundacao => 1
    case Crescimento => 2
    case Expertise => 3
  }

  datatype IntentStatus = Active | Paused | Completed | Abandoned

  datatype MilestoneType = Day3 | Week1 | Halfway | Day21 | Completed

  /** Pace classification stored on every intent progress sample. */
  datatype ProgressStatus = OnTrack | Behind | Exceeded

  /**
   * The `source_type` of a coin ledger row. `ToolUnlock` is written by the
   * tool-unlock action although the schema's union type does not list it.
   */
  datatype CoinSourceType =
    | ContentCompletion
    | QuizCompletion
    | AchievementUnlock
    | StreakBonus
    | PracticalAction
    | WeeklyCheckin
    | Referral
    | ConversionToAporte
    | ManualAdjustment
    | IntentMilestone
    | ToolUnlock

  /** The five yes/no answers of the onboarding diagnosis. */
  datatype DiagnosisAnswers = DiagnosisAnswers(
    hasOverdueDebt: bool,
    canSaveMonthly: bool,
    hasEmergencyFund: bool,
    knowsRetirementTarget: bool,
    understandsPgblVgbl: bool)

  /**
   * The diagnosis decision rule: overdue debt sends the user to the recovery
   * track; otherwise each unmet need, earliest first, decides the track.
   */
  function AssignTrack(a: DiagnosisAnswers): (t: TrackSlug)
    ensures t == Retomada <==> a.hasOverdueDebt
    ensures t == Fundacao <==> !a.hasOverdueDebt && (!a.canSaveMonthly || !a.hasEmergencyFund)
    ensures t == Crescimento <==>
      !a.hasOverdueDebt && a.canSaveMonthly && a.hasEmergencyFund
      && (!a.knowsRetirementTarget || !a.understandsPgblVgbl)
    ensures t == Expertise <==>
      !a.hasOverdueDebt && a.canSaveMonthly && a.hasEmergencyFund
      && a.knowsRetirementTarget && a.understandsPgblVgbl
  {
    if a.hasOverdueDebt then Retomada
    else if !a.canSaveMonthly || !a.hasEmergencyFund then Fundacao
    else if !a.knowsRetirementTarget || !a.understandsPgblVgbl then Crescimento
    else Expertise
  }

  /** Answer set `b` says "yes" wherever `a` does, apart from the debt question. */
  predicate AtLeastAsReady(a: DiagnosisAnswers, b: DiagnosisAnswers) {
    && a.hasOverdueDebt == b.hasOverdueDebt
    && (a.canSaveMonthly ==> b.canSaveMonthly)
    && (a.hasEmergencyFund ==> b.hasEmergencyFund)
    && (a.knowsRetirementTarget ==> b.knowsRetirementTarget)
    && (a.understandsPgblVgbl ==> b.understandsPgblVgbl)
  }

  /**
   * Answering "yes" to more of the readiness questions never places a user
   * on an earlier track.
   */
  lemma AssignTrackMonotone(a: DiagnosisAnswers, b: DiagnosisAnswers)
    requires AtLeastAsReady(a, b)
    ensures Rank(AssignTrack(a)) <= Rank(AssignTrack(b))
  {
  }
}
