/**
 * Tool unlocking: the status scan that auto-unlocks free tools and tools
 * whose criteria are met, and the purchase of a tool with coins.
 *
 * The tool catalogue (names, costs, criteria, display order) is a
 * parameter: the model holds for every catalogue.
 */
module Tools {
  import opened Common
  import opened Arith
  import opened Database
  import opened Ledger

  type ToolSlug = string

  datatype CriteriaKind = ContentCount | StreakDays | OtherCriteria

  /** An auto-unlock criterion: the user's measure of `kind` must reach `value`. */
  datatype Criteria = Criteria(kind: CriteriaKind, value: int)

  /** One catalogue entry. */
  datatype ToolConfig = ToolConfig(name: string, isFree: bool, coinsCost: int, criteria: Option<Criteria>)

  datatype UnlockMethod = FreeUnlock | CriteriaUnlock | CoinsUnlock

  /** A `user_tool_unlocks` row of the current user. */
  datatype UnlockRow = UnlockRow(via: UnlockMethod, coinsSpent: int, unlockedAt: int)

  /** The user's measures the scan reads (each defaulting to 0 when absent). */
  datatype UserFacts = UserFacts(totalCoins: int, completedContent: int, currentStreak: int)

  /** Progress toward a criterion, as displayed. */
  datatype CriteriaView = CriteriaView(progress: int, target: int, percent: int)

  datatype ToolStatus = ToolStatus(
    slug: ToolSlug,
    unlocked: bool,
    via: Option<UnlockMethod>,
    unlockedAt: Option<int>,
    criteria: Option<CriteriaView>,
    canAfford: bool)

  // ---------------------------------------------------------------------------
  // The status scan (getToolUnlockStatuses)
  // ---------------------------------------------------------------------------

  /** The user's measure a criterion compares; an unknown kind measures 0. */
  function Measure(c: Criteria, facts: UserFacts): int {
    match c.kind
    case ContentCount => facts.completedContent
    case StreakDays => facts.currentStreak
    case OtherCriteria => 0
  }

  predicate CriteriaMet(cfg: ToolConfig, facts: UserFacts) {
    cfg.criteria.Some? && Measure(cfg.criteria.value, facts) >= cfg.criteria.value.value
  }

  /** The scan unlocks a tool it finds locked when it is free or its criterion is met. */
  predicate Grants(cfg: ToolConfig, facts: UserFacts) {
    cfg.isFree || CriteriaMet(cfg, facts)
  }

  /** The row the scan inserts for a tool it unlocks. */
  function NewUnlock(cfg: ToolConfig, now: int): UnlockRow {
    UnlockRow(if cfg.isFree then FreeUnlock else CriteriaUnlock, 0, now)
  }

  function Lookup(unlocks: map<ToolSlug, UnlockRow>, slug: ToolSlug): Option<UnlockRow> {
    if slug in unlocks then Some(unlocks[slug]) else None
  }

  /**
   * The progress shown for a locked tool: only for a positive target, as
   * Math.round of the exact percentage, capped at 100%.
   */
  function LockedView(cfg: ToolConfig, facts: UserFacts): (v: Option<CriteriaView>)
    ensures v.Some? <==> cfg.criteria.Some? && cfg.criteria.value.value > 0
    ensures v.Some? ==>
      v.value.target == cfg.criteria.value.value
      && v.value.progress == Measure(cfg.criteria.value, facts)
      && v.value.percent == Min(100, JsRound(v.value.progress as real / v.value.target as real * 100.0))
  {
    if cfg.criteria.Some? && cfg.criteria.value.value > 0 then
      var c := cfg.criteria.value;
      var p := Measure(c, facts);
      RoundDivIsJsRound(p * 100, c.value);
      assert (p * 100) as real / c.value as real == p as real / c.value as real * 100.0;
      Some(CriteriaView(p, c.value, Min(100, Percent(p, c.value))))
    else None
  }

  /**
   * The per-tool step: an existing unlock is reported as is; otherwise a
   * free tool or one whose criterion is met is unlocked now (the inserted
   * row is the first component); otherwise the tool is reported locked with
   * its progress and whether the balance covers its cost.
   */
  function Decide(slug: ToolSlug, cfg: ToolConfig, existing: Option<UnlockRow>, facts: UserFacts, now: int)
    : (r: (Option<UnlockRow>, ToolStatus))
    ensures r.1.slug == slug
    ensures r.1.unlocked <==> existing.Some? || Grants(cfg, facts)
    ensures r.0.Some? <==> existing.None? && Grants(cfg, facts)
    ensures r.0.Some? ==> r.0.value == NewUnlock(cfg, now) && r.1.via == Some(r.0.value.via)
    ensures existing.Some? ==>
      r.1.via == Some(existing.value.via) && r.1.unlockedAt == Some(existing.value.unlockedAt)
    ensures existing.None? && Grants(cfg, facts) ==> r.1.unlockedAt == Some(now)
    ensures existing.Some? || cfg.isFree ==> r.1.criteria.None?
    ensures existing.None? && !cfg.isFree && CriteriaMet(cfg, facts) ==>
      r.1.criteria == Some(CriteriaView(Measure(cfg.criteria.value, facts), cfg.criteria.value.value, 100))
    ensures r.1.unlocked ==> r.1.canAfford
    ensures !r.1.unlocked ==>
      r.1.canAfford == (facts.totalCoins >= cfg.coinsCost)
      && r.1.criteria == LockedView(cfg, facts) && r.1.via.None? && r.1.unlockedAt.None?
  {
    if existing.Some? then
      (None, ToolStatus(slug, true, Some(existing.value.via), Some(existing.value.unlockedAt), None, true))
    else if cfg.isFree then
      (Some(NewUnlock(cfg, now)), ToolStatus(slug, true, Some(FreeUnlock), Some(now), None, true))
    else if CriteriaMet(cfg, facts) then
      var c := cfg.criteria.value;
      (Some(NewUnlock(cfg, now)),
       ToolStatus(slug, true, Some(CriteriaUnlock), Some(now), Some(CriteriaView(Measure(c, facts), c.value, 100)), true))
    else
      (None, ToolStatus(slug, false, None, None, LockedView(cfg, facts), facts.totalCoins >= cfg.coinsCost))
  }

  datatype Scan = Scan(inserted: map<ToolSlug, UnlockRow>, statuses: seq<ToolStatus>)

  /**
   * The loop over the display order. Every decision reads the unlocks as
   * they were when the scan began (`snapshot`).
   */
  function ScanTools(order: seq<ToolSlug>, config: map<ToolSlug, ToolConfig>,
                     snapshot: map<ToolSlug, UnlockRow>, facts: UserFacts, now: int): (r: Scan)
    requires forall s :: s in order ==> s in config
    ensures |r.statuses| == |order|
    ensures forall i :: 0 <= i < |order| ==>
      r.statuses[i] == Decide(order[i], config[order[i]], Lookup(snapshot, order[i]), facts, now).1
  {
    if |order| == 0 then Scan(map[], [])
    else
      var slug := order[0];
      var rest := ScanTools(order[1..], config, snapshot, facts, now);
      var d := Decide(slug, config[slug], Lookup(snapshot, slug), facts, now);
      var inserted := if d.0.Some? then rest.inserted[slug := d.0.value] else rest.inserted;
      Scan(inserted, [d.1] + rest.statuses)
  }

  /**
   * The scan inserts a row exactly for each listed tool that was not
   * unlocked and that it grants, and that row is the fresh unlock.
   */
  lemma {:induction false} ScanInsertsGranted(order: seq<ToolSlug>, config: map<ToolSlug, ToolConfig>,
                                              snapshot: map<ToolSlug, UnlockRow>, facts: UserFacts, now: int)
    requires forall s :: s in order ==> s in config
    ensures var ins := ScanTools(order, config, snapshot, facts, now).inserted;
      && (forall s :: s in ins <==> s in order && s !in snapshot && Grants(config[s], facts))
      && (forall s :: s in ins ==> ins[s] == NewUnlock(config[s], now))
  {
    if |order| > 0 {
      ScanInsertsGranted(order[1..], config, snapshot, facts, now);
      assert forall s :: s in order <==> s == order[0] || s in order[1..];
    }
  }

  /**
   * getToolUnlockStatuses: the statuses in display order and the unlock
   * store afterwards.
   */
  function GetToolUnlockStatuses(order: seq<ToolSlug>, config: map<ToolSlug, ToolConfig>,
                                 unlocks: map<ToolSlug, UnlockRow>, facts: UserFacts, now: int)
    : (r: (map<ToolSlug, UnlockRow>, seq<ToolStatus>))
    requires forall s :: s in order ==> s in config
    ensures |r.1| == |order|
    ensures forall s :: s in unlocks ==> s in r.0 && r.0[s] == unlocks[s]
    ensures forall s :: s in r.0 <==> s in unlocks || (s in order && Grants(config[s], facts))
    ensures forall s :: s in r.0 && s !in unlocks ==> r.0[s] == NewUnlock(config[s], now)
    ensures forall i :: 0 <= i < |order| ==> r.1[i].slug == order[i] && (r.1[i].unlocked <==> order[i] in r.0)
    ensures forall i :: 0 <= i < |order| ==>
      r.1[i] == Decide(order[i], config[order[i]], Lookup(unlocks, order[i]), facts, now).1
  {
    var scan := ScanTools(order, config, unlocks, facts, now);
    ScanInsertsGranted(order, config, unlocks, facts, now);
    (unlocks + scan.inserted, scan.statuses)
  }

  /**
   * Scanning again finds nothing new to unlock: the store is unchanged and
   * every tool shows the same unlocked flag and unlock method.
   */
  lemma RescanIsIdempotent(order: seq<ToolSlug>, config: map<ToolSlug, ToolConfig>,
                           unlocks: map<ToolSlug, UnlockRow>, facts: UserFacts, now: int, later: int)
    requires forall s :: s in order ==> s in config
    ensures var (store, statuses) := GetToolUnlockStatuses(order, config, unlocks, facts, now);
      var (store2, statuses2) := GetToolUnlockStatuses(order, config, store, facts, later);
      && store2 == store
      && forall i :: 0 <= i < |order| ==>
           statuses2[i].unlocked == statuses[i].unlocked && statuses2[i].via == statuses[i].via
  {
    var r1 := GetToolUnlockStatuses(order, config, unlocks, facts, now);
    RescanKeepsStore(order, config, r1.0, facts, later);
    var r2 := GetToolUnlockStatuses(order, config, r1.0, facts, later);
    forall i | 0 <= i < |order|
      ensures r2.1[i].unlocked == r1.1[i].unlocked && r2.1[i].via == r1.1[i].via
    {
      RescanSameStatus(order, config, unlocks, facts, now, later, i);
    }
  }

  /** A store that already holds every granted listed tool gains nothing from a scan. */
  lemma RescanKeepsStore(order: seq<ToolSlug>, config: map<ToolSlug, ToolConfig>,
                         unlocks: map<ToolSlug, UnlockRow>, facts: UserFacts, now: int)
    requires forall s :: s in order ==> s in config
    requires forall s :: s in order && Grants(config[s], facts) ==> s in unlocks
    ensures GetToolUnlockStatuses(order, config, unlocks, facts, now).0 == unlocks
  {
    var r := GetToolUnlockStatuses(order, config, unlocks, facts, now);
    assert r.0.Keys == unlocks.Keys;
  }

  lemma RescanSameStatus(order: seq<ToolSlug>, config: map<ToolSlug, ToolConfig>,
                         unlocks: map<ToolSlug, UnlockRow>, facts: UserFacts, now: int, later: int, i: nat)
    requires forall s :: s in order ==> s in config
    requires i < |order|
    ensures var r1 := GetToolUnlockStatuses(order, config, unlocks, facts, now);
      var r2 := GetToolUnlockStatuses(order, config, r1.0, facts, later);
      r2.1[i].unlocked == r1.1[i].unlocked && r2.1[i].via == r1.1[i].via
  {
    var r1 := GetToolUnlockStatuses(order, config, unlocks, facts, now);
    var r2 := GetToolUnlockStatuses(order, config, r1.0, facts, later);
    var s := order[i];
    var d1 := Decide(s, config[s], Lookup(unlocks, s), facts, now);
    var d2 := Decide(s, config[s], Lookup(r1.0, s), facts, later);
    assert r1.1[i] == d1.1;
    assert r2.1[i] == d2.1;
  }

  // ---------------------------------------------------------------------------
  // Purchase (unlockToolWithCoins)
  // ---------------------------------------------------------------------------

  datatype UnlockError = ToolNotFound | AlreadyFree | AlreadyUnlocked | InsufficientCoins

  /** The ledger row of a purchase: a non-convertible spend. */
  function SpendRow(cost: int): LedgerEntry {
    LedgerEntry(-cost, CoinSourceType.ToolUnlock, NoSource, false)
  }

  /**
   * unlockToolWithCoins: refuses an unknown tool, a free tool, a tool
   * already unlocked and a balance below the cost, in that order; otherwise
   * deducts the cost from the total balance only, records the spend and the
   * unlock, and reports the new balance.
   */
  function UnlockToolWithCoins(config: map<ToolSlug, ToolConfig>, a: Account,
                               unlocks: map<ToolSlug, UnlockRow>, slug: ToolSlug, now: int)
    : (r: Result<(Account, map<ToolSlug, UnlockRow>, int), UnlockError>)
    ensures slug !in config ==> r == Err(ToolNotFound)
    ensures slug in config && config[slug].isFree ==> r == Err(AlreadyFree)
    ensures slug in config && !config[slug].isFree && slug in unlocks ==> r == Err(AlreadyUnlocked)
    ensures (slug in config && !config[slug].isFree && slug !in unlocks
             && a.profile.totalCoins < config[slug].coinsCost) ==> r == Err(InsufficientCoins)
    ensures r.Ok? ==>
      var cost := config[slug].coinsCost;
      var (a', unlocks', balance) := r.value;
      && slug in config && !config[slug].isFree && slug !in unlocks
      && a.profile.totalCoins >= cost
      && balance == a.profile.totalCoins - cost && balance >= 0
      && a'.profile.totalCoins == balance
      && a'.profile.convertibleCoins == a.profile.convertibleCoins
      && a'.profile.currentTrack == a.profile.currentTrack
      && a'.ledger == a.ledger + [SpendRow(cost)]
      && unlocks' == unlocks[slug := UnlockRow(CoinsUnlock, cost, now)]
  {
    if slug !in config then Err(ToolNotFound)
    else
      var cfg := config[slug];
      if cfg.isFree then Err(AlreadyFree)
      else if slug in unlocks then Err(AlreadyUnlocked)
      else if a.profile.totalCoins < cfg.coinsCost then Err(InsufficientCoins)
      else
        var a' := Post(a, SpendRow(cfg.coinsCost), false);
        Ok((a', unlocks[slug := UnlockRow(CoinsUnlock, cfg.coinsCost, now)], a'.profile.totalCoins))
  }

  /** A purchase keeps the ledger and both balances in step. */
  lemma PurchaseKeepsSync(config: map<ToolSlug, ToolConfig>, a: Account,
                          unlocks: map<ToolSlug, UnlockRow>, slug: ToolSlug, now: int)
    requires InSync(a)
    ensures var r := UnlockToolWithCoins(config, a, unlocks, slug, now);
      r.Ok? ==> InSync(r.value.0)
  {
    var r := UnlockToolWithCoins(config, a, unlocks, slug, now);
    if r.Ok? {
      SumAppend(a.ledger, [SpendRow(config[slug].coinsCost)]);
      assert (a.ledger + [SpendRow(config[slug].coinsCost)])[..|a.ledger|] == a.ledger;
    }
  }

  /** Buying a tool twice fails the second time. */
  lemma SecondPurchaseRefused(config: map<ToolSlug, ToolConfig>, a: Account,
                              unlocks: map<ToolSlug, UnlockRow>, slug: ToolSlug, now: int, later: int)
    requires UnlockToolWithCoins(config, a, unlocks, slug, now).Ok?
    ensures var (a', unlocks', _) := UnlockToolWithCoins(config, a, unlocks, slug, now).value;
      UnlockToolWithCoins(config, a', unlocks', slug, later) == Err(AlreadyUnlocked)
  {
  }

  /** A bought tool shows as unlocked by coins in the next scan. */
  lemma PurchasedToolShowsUnlocked(order: seq<ToolSlug>, config: map<ToolSlug, ToolConfig>, a: Account,
                                   unlocks: map<ToolSlug, UnlockRow>, slug: ToolSlug, facts: UserFacts,
                                   now: int, later: int, i: nat)
    requires forall s :: s in order ==> s in config
    requires UnlockToolWithCoins(config, a, unlocks, slug, now).Ok?
    requires i < |order| && order[i] == slug
    ensures var unlocks' := UnlockToolWithCoins(config, a, unlocks, slug, now).value.1;
      var st := GetToolUnlockStatuses(order, config, unlocks', facts, later).1[i];
      st.unlocked && st.via == Some(CoinsUnlock)
  {
    var unlocks' := UnlockToolWithCoins(config, a, unlocks, slug, now).value.1;
    var scan := ScanTools(order, config, unlocks', facts, later);
    assert scan.statuses[i] == Decide(slug, config[slug], Lookup(unlocks', slug), facts, later).1;
  }

  /**
   * Because a purchase lowers only the total balance, the convertible
   * balance can end up above the total: 100 of each, then a 60-coin tool.
   */
  lemma PurchaseCanLeaveConvertibleAboveTotal()
    ensures var config := map["planner" := ToolConfig("Planner", false, 60, None)];
      var a := Account(Profile(100, 100, None), []);
      var r := UnlockToolWithCoins(config, a, map[], "planner", 0);
      r.Ok? && r.value.0.profile.convertibleCoins > r.value.0.profile.totalCoins
  {
  }
}
