/**
 * The one synced storage key, `quickAddMenuItems`, as the extension sees it.
 * A stored value is either an array of labels or something that is not an array
 * (null, a string, an object, ...); a key that was never written is `None`.
 */
module Storage {
  import opened Wrappers

  datatype StoredValue = NotAnArray | AnArray(items: seq<string>)

  /**
   * `chrome.storage.sync.get({ quickAddMenuItems: fallback })`: the stored value
   * when the key is present, the caller's fallback when it is absent.
   */
  function Read(slot: Option<StoredValue>, fallback: StoredValue): (v: StoredValue)
    ensures slot.Some? ==> v == slot.value
    ensures slot.None? ==> v == fallback
  {
    slot.GetOr(fallback)
  }

  /** The label list a non-empty stored array carries. */
  predicate IsNonEmptyList(v: StoredValue) {
    v.AnArray? && |v.items| > 0
  }
}
