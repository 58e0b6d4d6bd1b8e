/**
 * The settings popup: the editable preset list `menuItems`, the drag session
 * `dragState`/`dropOccurred`, and the handlers that change them. Rendering is
 * not modelled; `saveMenuItems` appends the saved list to a ghost log of writes.
 */
module Popup {
  import opened Wrappers
  import opened Storage
  import opened JsText
  import opened Reorder
  import Background

  /** The nine preset labels the popup falls back to. */
  const DefaultMenuItems: seq<string> := [
    "【開発】", "【レビュー】", "【CS】", "【MTG】", "【業務改善】",
    "【採用】", "【Help】", "【調査】", "【その他】"
  ]

  /** The popup's defaults are the nine labels the background worker seeds, in the same order. */
  lemma DefaultsAgree()
    ensures DefaultMenuItems == Background.DefaultMenuItems
    ensures |DefaultMenuItems| == 9 && DefaultMenuItems[0] == "【開発】" && DefaultMenuItems[8] == "【その他】"
  {
  }

  /**
   * The list `loadMenuItems` shows: the stored list when it is a non-empty array
   * (a missing key reads as the defaults), otherwise the defaults. Never empty.
   */
  function LoadedItems(slot: Option<StoredValue>): (items: seq<string>)
    ensures items != []
    ensures slot.Some? && IsNonEmptyList(slot.value) ==> items == slot.value.items
    ensures !(slot.Some? && IsNonEmptyList(slot.value)) ==> items == DefaultMenuItems
  {
    var stored := Read(slot, AnArray(DefaultMenuItems));
    if IsNonEmptyList(stored) then stored.items else DefaultMenuItems
  }

  class PresetEditor {
    var menuItems: seq<string>
    /** The add form's text input. */
    var inputValue: string
    // dragState: null is None; the three element references are present or not.
    var startIndex: Option<int>
    var dropIndex: Option<int>
    var draggedElement: bool
    var placeholder: bool
    var dragImage: bool
    var dropOccurred: bool
    /** Every list written to storage by `saveMenuItems`, oldest first. */
    ghost var saved: seq<seq<string>>

    /**
     * The drag session is all-or-nothing: either no field is set, or a
     * non-negative start index, a drop index and the three elements all are.
     */
    ghost predicate SessionWellFormed()
      reads this
    {
      && (startIndex.None? ==> dropIndex.None? && !draggedElement && !placeholder && !dragImage)
      && (startIndex.Some? ==> startIndex.value >= 0 && dropIndex.Some? && draggedElement && placeholder && dragImage)
    }

    constructor ()
      ensures menuItems == [] && inputValue == [] && saved == []
      ensures startIndex.None? && dropIndex.None? && !dropOccurred
      ensures SessionWellFormed()
    {
      menuItems := [];
      inputValue := [];
      startIndex, dropIndex := None, None;
      draggedElement, placeholder, dragImage := false, false, false;
      dropOccurred := false;
      saved := [];
    }

    /** `saveMenuItems`: the current list is written to storage. */
    method SaveMenuItems()
      modifies this`saved
      ensures saved == old(saved) + [menuItems]
    {
      saved := saved + [menuItems];
    }

    /** `loadMenuItems`: the list becomes what storage holds, or the defaults; nothing is written. */
    method LoadMenuItems(slot: Option<StoredValue>)
      modifies this`menuItems
      ensures menuItems == LoadedItems(slot)
    {
      menuItems := LoadedItems(slot);
    }

    /**
     * `handleEdit(index)` with the prompt's answer (None when cancelled): a blank or
     * cancelled answer changes nothing and saves nothing; otherwise exactly position
     * `index` becomes the trimmed answer and the list is saved.
     */
    method HandleEdit(index: nat, answer: Option<string>)
      requires index < |menuItems|
      modifies this`menuItems, this`saved
      ensures |menuItems| == |old(menuItems)|
      ensures answer.None? || IsBlank(answer.value) ==>
                menuItems == old(menuItems) && saved == old(saved)
      ensures answer.Some? && !IsBlank(answer.value) ==>
                && menuItems == old(menuItems)[index := Trim(answer.value)]
                && saved == old(saved) + [menuItems]
    {
      if answer.None? {
        return;
      }
      var trimmed := Trim(answer.value);
      if trimmed == [] {
        return;
      }
      menuItems := menuItems[index := trimmed];
      SaveMenuItems();
    }

    /** `handleDelete(index)`: `splice(index, 1)` on the list, then a save. */
    method HandleDelete(index: int)
      modifies this`menuItems, this`saved
      ensures menuItems == SpliceOut(old(menuItems), index)
      ensures 0 <= index < |old(menuItems)| ==>
                |menuItems| == |old(menuItems)| - 1
                && (forall j :: 0 <= j < index ==> menuItems[j] == old(menuItems)[j])
                && (forall j :: index <= j < |menuItems| ==> menuItems[j] == old(menuItems)[j + 1])
      ensures saved == old(saved) + [menuItems]
    {
      menuItems := SpliceOut(menuItems, index);
      SaveMenuItems();
    }

    /**
     * `handleSubmit`: a blank input changes nothing; otherwise the trimmed input is
     * appended, the input is cleared and the list is saved.
     */
    method HandleSubmit()
      modifies this`menuItems, this`inputValue, this`saved
      ensures IsBlank(old(inputValue)) ==>
                menuItems == old(menuItems) && inputValue == old(inputValue) && saved == old(saved)
      ensures !IsBlank(old(inputValue)) ==>
                && menuItems == old(menuItems) + [Trim(old(inputValue))]
                && inputValue == [] && saved == old(saved) + [menuItems]
    {
      var value := Trim(inputValue);
      if value == [] {
        return;
      }
      menuItems := menuItems + [value];
      inputValue := [];
      SaveMenuItems();
    }

    /**
     * `handleDragStart` on the row whose `data-index` parses to `index` (None for NaN):
     * a NaN or negative index is ignored; otherwise a session starts at that index.
     */
    method HandleDragStart(index: Option<int>)
      requires SessionWellFormed()
      modifies this`startIndex, this`dropIndex, this`draggedElement, this`placeholder,
               this`dragImage, this`dropOccurred
      ensures SessionWellFormed()
      ensures index.None? || index.value < 0 ==>
                startIndex == old(startIndex) && dropIndex == old(dropIndex)
                && dropOccurred == old(dropOccurred) && placeholder == old(placeholder)
                && draggedElement == old(draggedElement) && dragImage == old(dragImage)
      ensures index.Some? && index.value >= 0 ==>
                startIndex == index && dropIndex == index && !dropOccurred
    {
      if index.None? || index.value < 0 {
        return;
      }
      startIndex := index;
      dropIndex := index;
      draggedElement := true;
      dropOccurred := false;
      placeholder := true;
      dragImage := true;
    }

    /**
     * `handleDragOver` with the pointer at `y` over `rows`: during a session the drop
     * index becomes the `data-index` of the row below the pointer, or the list length.
     */
    method HandleDragOver(rows: seq<Row>, y: int)
      requires SessionWellFormed()
      modifies this`dropIndex
      ensures SessionWellFormed()
      ensures !placeholder || startIndex.None? ==> dropIndex == old(dropIndex)
      ensures placeholder && startIndex.Some? ==> dropIndex == Some(DropIndexAt(rows, y, |menuItems|))
    {
      if !placeholder || startIndex.None? {
        return;
      }
      var afterElement := AfterElement(rows, y);
      var newDropIndex := if afterElement.Some? then rows[afterElement.value].index else |menuItems|;
      if dropIndex == Some(newDropIndex) {
        return;
      }
      dropIndex := Some(newDropIndex);
    }

    /**
     * `handleDrop`: without a session nothing happens. Otherwise the drop is recorded,
     * and the dragged item moves to the adjusted target, which is saved, unless the
     * target is its own slot, in which case the list is unchanged and nothing is saved.
     * The result is always a permutation of the old list.
     */
    method HandleDrop()
      requires SessionWellFormed()
      requires startIndex.Some? ==> startIndex.value < |menuItems|
      modifies this`menuItems, this`dropOccurred, this`saved
      ensures |menuItems| == |old(menuItems)| && multiset(menuItems) == multiset(old(menuItems))
      ensures startIndex.None? ==>
                menuItems == old(menuItems) && saved == old(saved) && dropOccurred == old(dropOccurred)
      ensures startIndex.Some? ==> dropOccurred
      ensures startIndex.Some? ==>
                var t := DropTarget(startIndex.value, dropIndex.GetOr(startIndex.value), |old(menuItems)|);
                if t == startIndex.value then menuItems == old(menuItems) && saved == old(saved)
                else menuItems == Move(old(menuItems), startIndex.value, t) && saved == old(saved) + [menuItems]
    {
      if startIndex.None? {
        return;
      }
      dropOccurred := true;
      var start := startIndex.value;
      var rawDropIndex := dropIndex.GetOr(start);
      var boundedRawIndex := Clamp(rawDropIndex, |menuItems|);
      var targetIndex := boundedRawIndex;
      if targetIndex > start {
        targetIndex := targetIndex - 1;
      }
      if targetIndex != start {
        MoveAndSave(start, targetIndex);
      }
    }

    /** The copy of `menuItems`, the two splices and the save at the end of `handleDrop`. */
    method MoveAndSave(start: nat, targetIndex: nat)
      requires start < |menuItems| && targetIndex < |menuItems|
      modifies this`menuItems, this`saved
      ensures menuItems == Move(old(menuItems), start, targetIndex)
      ensures multiset(menuItems) == multiset(old(menuItems))
      ensures saved == old(saved) + [menuItems]
    {
      var updated := menuItems;
      var moved := updated[start];
      updated := updated[..start] + updated[start + 1..];
      updated := updated[..targetIndex] + [moved] + updated[targetIndex..];
      MoveIsPermutation(menuItems, start, targetIndex);
      menuItems := updated;
      SaveMenuItems();
    }

    /** `resetDragState`: every session field back to null. */
    method ResetDragState()
      modifies this`startIndex, this`dropIndex, this`draggedElement, this`placeholder, this`dragImage
      ensures startIndex.None? && dropIndex.None? && !draggedElement && !placeholder && !dragImage
      ensures SessionWellFormed()
    {
      startIndex := None;
      dropIndex := None;
      draggedElement := false;
      placeholder := false;
      dragImage := false;
    }

    /**
     * `handleDragEnd`: the session ends whether or not a drop happened; the list and
     * the storage are left as they are (a gesture without a drop keeps the old order).
     */
    method HandleDragEnd()
      modifies this`startIndex, this`dropIndex, this`draggedElement, this`placeholder,
               this`dragImage, this`dropOccurred
      ensures startIndex.None? && dropIndex.None? && !draggedElement && !placeholder && !dragImage
      ensures !dropOccurred && SessionWellFormed()
    {
      ResetDragState();
      dropOccurred := false;
    }
  }

  /**
   * A whole gesture: start on row `from`, hover at `y` over `rows`, drop and end.
   * With `k` the clamped drop index the hover produced, the dragged label lands where
   * `DropLanding` says, nothing is lost or duplicated, and the session is gone.
   */
  method DragGesture(editor: PresetEditor, from: nat, rows: seq<Row>, y: int)
    requires editor.SessionWellFormed() && from < |editor.menuItems|
    requires editor.startIndex.None?
    modifies editor
    ensures editor.startIndex.None? && !editor.dropOccurred && editor.SessionWellFormed()
    ensures |editor.menuItems| == |old(editor.menuItems)|
    ensures multiset(editor.menuItems) == multiset(old(editor.menuItems))
    ensures editor.inputValue == old(editor.inputValue)
    ensures editor.menuItems ==
              Move(old(editor.menuItems), from,
                   DropTarget(from, DropIndexAt(rows, y, |old(editor.menuItems)|), |old(editor.menuItems)|))
    ensures var k := Clamp(DropIndexAt(rows, y, |old(editor.menuItems)|), |old(editor.menuItems)|);
      && (k == from || k == from + 1 ==> editor.menuItems == old(editor.menuItems))
      && (k < from ==> editor.menuItems[k] == old(editor.menuItems)[from])
      && (k > from + 1 ==> editor.menuItems[k - 1] == old(editor.menuItems)[from])
      && (k == |old(editor.menuItems)| ==>
            editor.menuItems == Remove(old(editor.menuItems), from) + [old(editor.menuItems)[from]])
  {
    ghost var s := editor.menuItems;
    editor.HandleDragStart(Some(from));
    editor.HandleDragOver(rows, y);
    editor.HandleDrop();
    DropLanding(s, from, Clamp(DropIndexAt(rows, y, |s|), |s|));
    editor.HandleDragEnd();
  }
}
