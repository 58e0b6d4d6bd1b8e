# Quick-Add calendar presets — a Dafny model

Quick-Add is a browser extension for a web calendar. A right-click inside the calendar
grid opens a floating menu of preset labels ("【開発】", "【MTG】", ...). Picking one
puts that label into the title field of a new event. A settings popup lets the user
add, edit, delete and drag-reorder the labels. The labels live under the single synced
storage key `quickAddMenuItems`. A background worker seeds nine defaults when that key
holds no usable list.

This project models the three pieces of the extension that have stateful or arithmetic
behaviour, and proves what they promise:

- **Preset editor** (`popup/popup.js`): class `Popup.PresetEditor`. It holds the list
  `menuItems`, the drag session (`startIndex`, `dropIndex` as optional values, and the
  dragged element, placeholder and drag image as flags), `dropOccurred`, and a ghost log `saved` of every list written to
  storage. The pure drag arithmetic sits in module `Reorder`: the row under the pointer,
  the raw drop index, the clamp, the target adjustment and the copy-then-splice move.
  Rows are integer boxes, and "y above a row's midpoint" is `2*y < 2*top + height`.
  `JsText.Trim` is ECMAScript `String.prototype.trim` with its exact white-space set.
- **Context-menu controller** (`content/contentScript.js`): class
  `ContentScript.ContextMenu` (visibility, rendered labels, position and the one-shot
  `lastContextEvent`). The viewport clamp is in module `MenuPosition`. The ordered selector
  lookup is the loop `ContentScript.FirstMatch`, where `document.querySelector` is a
  function parameter. Storage values are normalised by `ContentScript.AsMenuItems`.
- **Default seeding** (`background.js`): class `Background.SyncStore`, with the key's
  value as an optional stored value and a ghost count of writes.

Shared pieces: `Wrappers.Option` stands for `null`. `Storage.StoredValue` is the value
under the key: an array of labels or anything else. `Storage.Read` is
`chrome.storage.sync.get` with a fallback for a missing key.

The drag reorder tracks the drop index during hover. On drop it clamps and adjusts that
index, then moves the label with two splices: one removes it and one inserts it at the
target.

After the last label is deleted the stored list is empty. The popup then shows the nine
defaults on its next load without writing them (`Popup.LoadedItems`), and the background
worker writes them at the next install or browser start-up
(`Background.SyncStore.EnsureDefaults`).

## Model

| member | source | states |
|---|---|---|
| `Popup.DefaultsAgree` | popup/popup.js:1-11 | the popup's default list is exactly the nine labels of the background worker, in the same order |
| `Popup.LoadedItems` | popup/popup.js:125-131 | the loaded list is never empty: the stored list if it is a non-empty array, otherwise the nine defaults (also for a missing key) |
| `Popup.PresetEditor.LoadMenuItems` | popup/popup.js:125-131 | `menuItems` becomes the loaded list and nothing is written to storage |
| `Popup.PresetEditor.constructor` | popup/popup.js:17-26 | the initial state: empty list, no drag session, no drop, nothing saved |
| `Popup.PresetEditor.SaveMenuItems` | popup/popup.js:88-90 | exactly one storage write, holding the current list |
| `Popup.PresetEditor.HandleEdit` | popup/popup.js:92-105 | a cancelled or blank prompt answer changes nothing and saves nothing; otherwise only position `index` changes, to the trimmed answer, the length is kept, and the new list is saved once |
| `Popup.PresetEditor.HandleDelete` | popup/popup.js:107-111 | the list is `splice(index, 1)` of the old one; for an in-range index exactly that element is removed and the others keep their order; one save |
| `Popup.PresetEditor.HandleSubmit` | popup/popup.js:113-123 | a blank input changes nothing; otherwise the trimmed input is appended at the end, the input is cleared and the list is saved once |
| `Popup.PresetEditor.HandleDragStart` | popup/popup.js:144-158 | a NaN or negative row index changes nothing; otherwise the session starts with start and drop index equal to it and `dropOccurred` false |
| `Popup.PresetEditor.HandleDragOver` | popup/popup.js:187-210 | during a session the drop index becomes the data-index of the row under the pointer, or the list length; without one it is untouched |
| `Popup.PresetEditor.HandleDrop` | popup/popup.js:212-238 | without a session nothing changes; otherwise `dropOccurred` is set, and the list becomes the move of the start item to the adjusted target and is saved once, unless that target is the start index (no change, no save); the list is always a permutation of the old one with the same length |
| `Popup.PresetEditor.MoveAndSave` | popup/popup.js:230-234 | the copy, the two splices and the assignment leave the list equal to `Move` of the old list, a permutation of it, and log exactly one save of the new list |
| `Popup.PresetEditor.ResetDragState` | popup/popup.js:317-323 | every session field is null afterwards |
| `Popup.PresetEditor.HandleDragEnd` | popup/popup.js:240-249 | the session is reset and `dropOccurred` cleared whether or not a drop happened; the list and storage are untouched |
| `Popup.DragGesture` | popup/popup.js:144-249 | a full start/hover/drop/end gesture with clamped drop index k leaves the list unchanged for k = start or start+1, puts the item at k for k < start, at k-1 for k > start+1, and last for k = length; the list is `Move` of the old list to the adjusted target, so the other labels keep their relative order; nothing is lost or duplicated and the input field is untouched |
| `Reorder.AfterElement` | popup/popup.js:251-267 | the result is none exactly when no visible row has its midpoint strictly below y; otherwise it is a visible row below y with the largest offset (the nearest), the earliest one on a tie; hidden rows are never chosen |
| `Reorder.DropIndexAt` | popup/popup.js:193-194 | with no row below the pointer the drop index is the list length; otherwise it is the data-index of the visible row below the pointer whose midpoint is nearest to it (largest offset, the earliest such row on a tie), as `getDragAfterElement` returns it |
| `Reorder.Clamp` | popup/popup.js:222 | the raw drop index is forced into [0, length]: unchanged inside, 0 below, length above |
| `Reorder.DropTarget` | popup/popup.js:220-229 | the target is a valid index; it equals the start index exactly when the clamped index is start or start+1; it is the clamped index below start, one less above start+1, and the last index for a drop at the end |
| `Reorder.MoveIsPermutation` | popup/popup.js:229-233 | the copy-then-double-splice keeps the length and the multiset of labels: none lost, none duplicated |
| `Reorder.MoveLandsAndKeepsOrder` | popup/popup.js:230-233 | the moved label ends at the target, and every other label keeps its relative order |
| `Reorder.MoveToEnd` | popup/popup.js:194 | a move to the last index is the list without the item, followed by the item |
| `Reorder.MoveInPlace` | popup/popup.js:229 | moving an item onto its own slot would change nothing, which is why the code skips it |
| `Reorder.DropLanding` | popup/popup.js:221-233 | for clamped raw index k the dragged label lands at k when k < start, at k-1 when k > start+1, and last when k is the length |
| `Reorder.Move` | popup/popup.js:231-232 | the element at `from` is taken out and put back so that it sits at `to`; with `MoveIsPermutation` and `MoveLandsAndKeepsOrder` this is the whole effect |
| `Reorder.Remove` | popup/popup.js:231 | taking one element out keeps those before it in place and shifts those after it left by one |
| `Reorder.Insert` | popup/popup.js:232 | inserting puts the element at the index and shifts the rest right by one |
| `Reorder.SpliceOut` | popup/popup.js:108 | `splice(index, 1)`: removes the element at index for 0 <= index < length, counts a negative index from the end, removes nothing past the end |
| `JsText.SkipLeading` | popup/popup.js:98 | the leading cut ends at the first character from the given position on that is not white space; everything skipped is white space |
| `JsText.SkipTrailing` | popup/popup.js:98 | the trailing cut starts after the last character that is not white space; everything cut off is white space |
| `JsText.Trim` | popup/popup.js:115 | the result is empty exactly when the input is blank; otherwise it neither starts nor ends with white space and is a contiguous piece of the input with only white space before and after it |
| `JsText.TrimIdempotent` | popup/popup.js:98 | trimming an already trimmed label changes nothing |
| `Storage.Read` | content/contentScript.js:340 | a present key reads as its value, a missing key as the caller's fallback |
| `MenuPosition.AdjustAxis` | content/contentScript.js:63-84 | a menu wider (taller) than the viewport minus twice the padding of 12 is pinned at scroll+12; otherwise the position lies in [scroll+12, scroll+viewport-size-12], is the click itself when the click is inside that range, and the nearer end when it is outside |
| `MenuPosition.Place` | content/contentScript.js:56-88 | left and top are each clamped on their own axis; the menu never starts before the padded top-left corner, and a menu that fits on an axis lies wholly inside the viewport on that axis with the padding kept on both sides |
| `ContentScript.FirstMatch` | content/contentScript.js:194-200 | the search returns null exactly when no selector matches; otherwise it returns the match of the earliest selector that has one |
| `ContentScript.FindTitleInput` | content/contentScript.js:203-217 | the title field is the match of the earliest of the four title selectors that matches, or null when none does |
| `ContentScript.FindCreateButton` | content/contentScript.js:187-201 | the "Create" button is the match of the earliest of the four button selectors that matches, or null when none does |
| `ContentScript.AsMenuItems` | content/contentScript.js:341 | a stored array is taken as is; any value that is not an array becomes the empty list |
| `ContentScript.ShouldHandle` | content/contentScript.js:326-337 | a right-click is handled exactly when it has a target, that target is not inside an existing menu, and it lies in a calendar area |
| `ContentScript.SelectTwice` | content/contentScript.js:131-142 | after a handled right-click, the first label click hands over its label with exactly the captured `{target, clientX, clientY}` and a second click hands over nothing |
| `ContentScript.ContextMenu.constructor` | content/contentScript.js:5-8 | before `init` there is no menu element, no list and no captured context |
| `ContentScript.ContextMenu.CreateMenuElement` | content/contentScript.js:10-23 | the menu element exists afterwards; a second call creates nothing new |
| `ContentScript.ContextMenu.RenderMenuItems` | content/contentScript.js:25-54 | the menu exists and shows one button per label of the current list |
| `ContentScript.ContextMenu.ShowMenu` | content/contentScript.js:56-88 | the menu is visible at the clamped position `Place(x, y)` |
| `ContentScript.ContextMenu.HideMenu` | content/contentScript.js:90-95 | the menu is hidden afterwards; before it exists nothing changes; calling it again changes nothing |
| `ContentScript.ContextMenu.HandleContextMenu` | content/contentScript.js:326-359 | outside every calendar area or without a target, the native menu is kept; inside the menu, `handleContextMenu` does not suppress it, but the menu's own listener (content/contentScript.js:17-19) does. In all three cases the menu is hidden and the stored context untouched; otherwise the native menu is suppressed, `{target, clientX, clientY}` is captured, and the menu is re-rendered and shown at the clamped page position |
| `ContentScript.ContextMenu.HandleMenuSelection` | content/contentScript.js:131-142 | the chosen label is handed over with the captured context, which is cleared first, so each one is consumed at most once |
| `ContentScript.ContextMenu.ClickMenuButton` | content/contentScript.js:46-49 | a label click hides the menu and then hands over its label and the captured context once |
| `ContentScript.ContextMenu.OnDocumentClick` | content/contentScript.js:363-367 | a click outside the menu leaves it hidden; a click inside it changes nothing |
| `ContentScript.ContextMenu.OnKeyDown` | content/contentScript.js:371-375 | Escape leaves the menu hidden; any other key changes nothing |
| `ContentScript.ContextMenu.OnScrollBlurOrResize` | content/contentScript.js:368-370 | a scroll, a window blur or a resize leaves the menu hidden |
| `ContentScript.ContextMenu.LoadMenuItems` | content/contentScript.js:339-344 | the list becomes the stored array, or the empty list when the key is missing or holds a non-array, and is rendered, the menu element existing afterwards |
| `ContentScript.ContextMenu.OnStorageChanged` | content/contentScript.js:383-390 | a sync-area change of the key replaces the list (a non-array or removed value by the empty list) and re-renders, the menu element existing afterwards; other changes are ignored |
| `Background.SyncStore.EnsureDefaults` | background.js:13-19 | a missing key, a non-array or an empty array is replaced by the nine defaults in one write; a non-empty list is kept and nothing is written; afterwards the store holds a non-empty list |
| `Background.InstallThenStartup` | background.js:21-27 | the install and start-up listeners, with the first `get` callback finishing before the second read, together leave a non-empty list and write at most once |
| `Background.SyncStore.constructor` | background.js:14 | the store starts with the given value under the key and no writes made |

## Left out

- Rendering and styling: `renderMenu`, the bodies of `renderMenuItems` and `createMenuElement`, the loading overlay (`showLoadingIndicator`, `hideLoadingIndicator`), the placeholder and drag-image clones (only whether they exist is kept), and the reorder animation (`captureItemPositions`, `animateReorder`), and the DOM clean-up of `cleanupDragArtifacts` (removing the placeholder and drag image and un-hiding the row; only the resulting flags are kept). These only build or tear down markup.
- `chrome.storage` and `chrome.runtime` I/O: callback timing and the delivery order of change events are not modelled. A write is an entry in a ghost log or counter. A stored array is assumed to hold strings.
- ContentScript.ContextMenu.HandleContextMenu: `suppressed` is only this listener's own `preventDefault`; the `contextmenu` listener that `createMenuElement` puts on the menu element (content/contentScript.js:17-19), which suppresses the native menu for a right-click inside the menu, is not modelled.
- Background.InstallThenStartup: assumes the two `ensureDefaults` calls run one after the other. If `onInstalled` and `onStartup` both fire at start-up and both `get` callbacks run before either `set`, the code writes the defaults twice.
- The asynchronous bridge to the calendar page: `waitForElement`, `waitForTitleInput`, `prepareEventInput`, `openCreateDialog`, `triggerInlineEditor` and `simulatePrimaryClick`. They race a mutation observer against timers and send synthetic events; the model stops at the context that `handleMenuSelection` hands over.
- CSS selector semantics: `closest`, `contains` and `querySelector` are inputs. An event carries `insideMenu` and `inCalendarArea`, and a lookup receives a `query` function.
- Floating point: coordinates, scroll offsets and sizes are integers, and the midpoint test is doubled instead of dividing by 2. The menu's measured size is an input that does not depend on where it is placed.
- `window.prompt` is modelled as an optional answer (None when cancelled).
- Popup.PresetEditor.HandleEdit: requires an index inside the list. Rows are rendered from the list, and an out-of-range index would make JavaScript grow a sparse array.
- Popup.PresetEditor.HandleDrop: requires the session's start index to lie inside the current list. A stale index would make JavaScript insert `undefined`, which a list of labels cannot hold.
- Popup.PresetEditor.HandleDragStart: takes the parsed `data-index` as input. The `instanceof HTMLElement` check is not modelled, because the listener is only attached to list rows.
