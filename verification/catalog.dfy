/**
 * The read-only curriculum tables: `tracks` and `daily_content`.
 * Tracks are keyed by slug, which the schema keeps unique.
 */
module Catalog {
  import opened Database
  import opened Ledger

  /** A `tracks` row: whether coins earned on it count as convertible. */
  datatype Track = Track(slug: TrackSlug, name: string, coinsConvertible: bool)

  /** A `daily_content` row. */
  datatype ContentItem = ContentItem(track: TrackSlug, coinsReward: int, isPublished: bool)

  datatype Catalog = Catalog(tracks: map<TrackSlug, Track>, contents: map<ContentId, ContentItem>)

  /** Number of published content items of a track. */
  function PublishedCount(cat: Catalog, t: TrackSlug): nat {
    |set id | id in cat.contents && cat.contents[id].track == t && cat.contents[id].isPublished|
  }

  /**
   * Number of completed items whose content row belongs to track `t`; the
   * join does not look at `is_published`.
   */
  function CompletedCount(cat: Catalog, completed: set<ContentId>, t: TrackSlug): nat {
    |set id | id in completed && id in cat.contents && cat.contents[id].track == t|
  }

  /** Completing nothing on a track counts zero. */
  lemma CompletedCountNone(cat: Catalog, completed: set<ContentId>, t: TrackSlug)
    requires forall id :: id in completed && id in cat.contents ==> cat.contents[id].track != t
    ensures CompletedCount(cat, completed, t) == 0
  {
    var s := set id | id in completed && id in cat.contents && cat.contents[id].track == t;
    assert s == {};
  }
}
