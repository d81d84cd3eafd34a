/**
 * The coin ledger and the profile balances it is written beside.
 *
 * The source keeps `total_coins` and `convertible_coins` on the profile
 * row and appends a `coins_ledger` row separately; nothing ties the two
 * together. `Post` is one append plus one balance update, and each
 * operation says whether its balance update agrees with its ledger row.
 */
module Ledger {
  import opened Common
  import opened Database

  type UserId = nat
  type ContentId = nat
  type QuizId = nat
  type IntentId = nat

  /** The `source_id` column: which entity a ledger row came from, if any. */
  datatype SourceRef =
    | NoSource
    | ContentRef(content: ContentId)
    | QuizRef(quiz: QuizId)
    | MilestoneRef(intent: IntentId, milestone: MilestoneType)

  /** One `coins_ledger` row; a negative amount is a spend. */
  datatype LedgerEntry = LedgerEntry(
    amount: int,
    source: CoinSourceType,
    ref: SourceRef,
    isConvertible: bool)

  /** The balance and progression columns of a `profiles` row. */
  datatype Profile = Profile(
    totalCoins: int,
    convertibleCoins: int,
    currentTrack: Option<TrackSlug>)

  /** One user's profile together with that user's ledger rows, oldest first. */
  datatype Account = Account(profile: Profile, ledger: seq<LedgerEntry>)

  /**
   * Appends `e` to the ledger, adds its amount to the total balance, and
   * adds it to the convertible balance when `creditConvertible` holds. The
   * flag is separate from `e.isConvertible` because the source sets them
   * independently.
   */
  function Post(a: Account, e: LedgerEntry, creditConvertible: bool): (r: Account)
    ensures r.ledger == a.ledger + [e]
    ensures r.profile.totalCoins == a.profile.totalCoins + e.amount
    ensures r.profile.convertibleCoins ==
      a.profile.convertibleCoins + (if creditConvertible then e.amount else 0)
    ensures r.profile.currentTrack == a.profile.currentTrack
  {
    var p := a.profile;
    Account(
      p.(totalCoins := p.totalCoins + e.amount,
         convertibleCoins := if creditConvertible then p.convertibleCoins + e.amount
                             else p.convertibleCoins),
      a.ledger + [e])
  }

  /** Sum of all ledger amounts. */
  function Sum(l: seq<LedgerEntry>): int {
    if |l| == 0 then 0 else Sum(l[..|l| - 1]) + l[|l| - 1].amount
  }

  /** Sum of the amounts of the rows flagged convertible. */
  function ConvertibleSum(l: seq<LedgerEntry>): int {
    if |l| == 0 then 0
    else ConvertibleSum(l[..|l| - 1]) + (if l[|l| - 1].isConvertible then l[|l| - 1].amount else 0)
  }

  /** The profile balances equal what the ledger rows add up to. */
  predicate InSync(a: Account) {
    Sum(a.ledger) == a.profile.totalCoins
    && ConvertibleSum(a.ledger) == a.profile.convertibleCoins
  }

  lemma {:induction false} SumAppend(l: seq<LedgerEntry>, m: seq<LedgerEntry>)
    ensures Sum(l + m) == Sum(l) + Sum(m)
    ensures ConvertibleSum(l + m) == ConvertibleSum(l) + ConvertibleSum(m)
    decreases |m|
  {
    if |m| == 0 {
      assert l + m == l;
    } else {
      var m' := m[..|m| - 1];
      assert (l + m)[..|l + m| - 1] == l + m';
      SumAppend(l, m');
    }
  }

  /** A post whose balance update follows the row's own flag keeps the ledger and balances in sync. */
  lemma PostKeepsSync(a: Account, e: LedgerEntry)
    requires InSync(a)
    ensures InSync(Post(a, e, e.isConvertible))
  {
    assert (a.ledger + [e])[..|a.ledger|] == a.ledger;
  }

  /** A convertible row posted without crediting the convertible balance breaks the sync. */
  lemma PostWithoutConvertibleCreditBreaksSync(a: Account, e: LedgerEntry)
    requires InSync(a) && e.isConvertible && e.amount != 0
    ensures !InSync(Post(a, e, false))
  {
    assert (a.ledger + [e])[..|a.ledger|] == a.ledger;
  }
}
