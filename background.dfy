/**
 * The background worker: on install and on browser start-up it makes sure the
 * synced key `quickAddMenuItems` holds a non-empty list.
 */
module Background {
  import opened Wrappers
  import opened Storage

  /** The nine preset labels seeded into storage, in order. */
  const DefaultMenuItems: seq<string> := [
    "【開発】", "【レビュー】", "【CS】", "【MTG】", "【業務改善】",
    "【採用】", "【Help】", "【調査】", "【その他】"
  ]

  /** The synced storage area as far as this extension uses it. */
  class SyncStore {
    /** The value under `quickAddMenuItems`, None while the key was never written. */
    var quickAddMenuItems: Option<StoredValue>
    /** The number of `chrome.storage.sync.set` calls made. */
    ghost var writes: nat

    ghost predicate HoldsNonEmptyList()
      reads this
    {
      quickAddMenuItems.Some? && IsNonEmptyList(quickAddMenuItems.value)
    }

    constructor (initial: Option<StoredValue>)
      ensures quickAddMenuItems == initial && writes == 0
    {
      quickAddMenuItems := initial;
      writes := 0;
    }

    /**
     * `ensureDefaults`: a missing key (read as null), a non-array or an empty array
     * is replaced by the defaults in one write; a non-empty list is left alone and
     * nothing is written. Afterwards the store holds a non-empty list, so a second
     * call writes nothing.
     */
    method EnsureDefaults()
      modifies this
      ensures HoldsNonEmptyList()
      ensures old(HoldsNonEmptyList()) ==>
                quickAddMenuItems == old(quickAddMenuItems) && writes == old(writes)
      ensures !old(HoldsNonEmptyList()) ==>
                quickAddMenuItems == Some(AnArray(DefaultMenuItems)) && writes == old(writes) + 1
    {
      var result := Read(quickAddMenuItems, NotAnArray);
      if !result.AnArray? || |result.items| == 0 {
        quickAddMenuItems := Some(AnArray(DefaultMenuItems));
        writes := writes + 1;
      }
    }
  }

  /** `onInstalled` followed by `onStartup`: only the first call can write. */
  method InstallThenStartup(store: SyncStore)
    modifies store
    ensures store.HoldsNonEmptyList()
    ensures store.writes <= old(store.writes) + 1
  {
    store.EnsureDefaults();
    ghost var afterFirst := store.writes;
    store.EnsureDefaults();
    assert store.writes == afterFirst;
  }
}
