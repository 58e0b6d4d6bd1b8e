/**
 * The content script on the calendar page: the floating context menu, the click
 * context captured when it opens and handed over (once) when a label is chosen,
 * the dismiss handlers, the preset list it mirrors from storage, and the ordered
 * selector lookups used to find the event's title field and the "Create" button.
 */
module ContentScript {
  import opened Wrappers
  import opened Storage
  import opened MenuPosition

  /** An element of the host page, known only by identity. */
  datatype Element = Element(handle: nat)

  /** The `{ target, clientX, clientY }` record kept from the right-click. */
  datatype ClickContext = ClickContext(target: Element, clientX: int, clientY: int)

  /**
   * A `contextmenu` event. `insideMenu` says whether the target lies inside the menu
   * element (`menuElement.contains`), `inCalendarArea` whether it has an ancestor
   * matching one of the calendar-area selectors (`closest`).
   */
  datatype ContextMenuEvent = ContextMenuEvent(
    target: Option<Element>, insideMenu: bool, inCalendarArea: bool,
    clientX: int, clientY: int, pageX: int, pageY: int)

  /** A `chrome.storage.onChanged` entry for the key: its new value, None after removal. */
  datatype StorageChange = StorageChange(newValue: Option<StoredValue>)

  /** The selectors `findTitleInput` (and `waitForTitleInput`) try, in order. */
  const TitleInputSelectors: seq<string> := [
    "input[aria-label=\"Title\"]",
    "input[aria-label=\"Add title\"]",
    "input[aria-label=\"タイトル\"]",
    "input[aria-label=\"タイトルを追加\"]"
  ]

  /** The selectors `findCreateButton` tries, in order. */
  const CreateButtonSelectors: seq<string> := [
    "div[role=\"button\"][aria-label^=\"Create\"]",
    "div[role=\"button\"][aria-label^=\"作成\"]",
    "button[aria-label^=\"Create\"]",
    "button[aria-label^=\"作成\"]"
  ]

  /**
   * The early-return `for … of` loop over `selectors` calling `document.querySelector`
   * (here `query`): the match of the earliest selector that has one, or null when
   * none does.
   */
  method FirstMatch(selectors: seq<string>, query: string -> Option<Element>) returns (found: Option<Element>)
    ensures found.None? <==> forall i :: 0 <= i < |selectors| ==> query(selectors[i]).None?
    ensures found.Some? ==>
              exists k :: 0 <= k < |selectors| && query(selectors[k]) == found
                          && forall j :: 0 <= j < k ==> query(selectors[j]).None?
  {
    var i := 0;
    while i < |selectors|
      invariant 0 <= i <= |selectors|
      invariant forall j :: 0 <= j < i ==> query(selectors[j]).None?
    {
      var candidate := query(selectors[i]);
      if candidate.Some? {
        return candidate;
      }
      i := i + 1;
    }
    return None;
  }

  /** `findTitleInput`: the first title-field selector that matches, in list order. */
  method FindTitleInput(query: string -> Option<Element>) returns (input: Option<Element>)
    ensures input.None? <==> forall i :: 0 <= i < 4 ==> query(TitleInputSelectors[i]).None?
    ensures query(TitleInputSelectors[0]).Some? ==> input == query(TitleInputSelectors[0])
    ensures input.Some? ==>
              exists k :: 0 <= k < 4 && query(TitleInputSelectors[k]) == input
                          && forall j :: 0 <= j < k ==> query(TitleInputSelectors[j]).None?
  {
    input := FirstMatch(TitleInputSelectors, query);
  }

  /** `findCreateButton`: the first "Create"-button selector that matches, in list order. */
  method FindCreateButton(query: string -> Option<Element>) returns (button: Option<Element>)
    ensures button.None? <==> forall i :: 0 <= i < 4 ==> query(CreateButtonSelectors[i]).None?
    ensures query(CreateButtonSelectors[0]).Some? ==> button == query(CreateButtonSelectors[0])
    ensures button.Some? ==>
              exists k :: 0 <= k < 4 && query(CreateButtonSelectors[k]) == button
                          && forall j :: 0 <= j < k ==> query(CreateButtonSelectors[j]).None?
  {
    button := FirstMatch(CreateButtonSelectors, query);
  }

  /** A stored value or change notification as the menu's list: an array as is, anything else empty. */
  function AsMenuItems(v: StoredValue): (items: seq<string>)
    ensures v.AnArray? ==> items == v.items
    ensures !v.AnArray? ==> items == []
  {
    if v.AnArray? then v.items else []
  }

  /**
   * `shouldHandleContextMenu`: there is a target, it is not inside the (existing)
   * menu, and it lies in a calendar area.
   */
  predicate ShouldHandle(e: ContextMenuEvent, menuCreated: bool): (handled: bool)
    ensures e.target.None? ==> !handled
    ensures menuCreated && e.insideMenu ==> !handled
    ensures !e.inCalendarArea ==> !handled
    ensures e.target.Some? && e.inCalendarArea && !(menuCreated && e.insideMenu) ==> handled
  {
    if e.target.None? then false
    else if menuCreated && e.insideMenu then false
    else e.inCalendarArea
  }

  class ContextMenu {
    var menuItems: seq<string>
    /** `menuElement` has been created. */
    var menuCreated: bool
    /** The menu element lacks the `hidden` class. */
    var visible: bool
    /** The labels of the buttons currently rendered in the menu. */
    var rendered: seq<string>
    var position: Position
    var lastContextEvent: Option<ClickContext>

    ghost predicate Valid()
      reads this
    {
      visible ==> menuCreated
    }

    constructor ()
      ensures Valid() && !menuCreated && !visible && menuItems == [] && lastContextEvent.None?
    {
      menuItems := [];
      menuCreated := false;
      visible := false;
      rendered := [];
      position := Position(0, 0);
      lastContextEvent := None;
    }

    /** `createMenuElement`: the menu exists afterwards (hidden when newly made). */
    method CreateMenuElement()
      requires Valid()
      modifies this`menuCreated
      ensures Valid() && menuCreated
    {
      if menuCreated {
        return;
      }
      menuCreated := true;
    }

    /** `renderMenuItems`: one button per label of the current list. */
    method RenderMenuItems()
      requires Valid()
      modifies this`menuCreated, this`rendered
      ensures Valid() && menuCreated && rendered == menuItems
    {
      CreateMenuElement();
      rendered := menuItems;
    }

    /** `showMenu(x, y)`: the menu is visible at the clamped position. */
    method ShowMenu(x: int, y: int, view: Viewport, menu: Size)
      requires Valid()
      modifies this`menuCreated, this`visible, this`position
      ensures Valid() && menuCreated && visible
      ensures position == Place(x, y, view, menu)
    {
      CreateMenuElement();
      visible := true;
      var padding := MenuViewportPadding;
      var minLeft := view.scrollX + padding;
      var minTop := view.scrollY + padding;
      var maxLeft := view.scrollX + view.innerWidth - menu.width - padding;
      var maxTop := view.scrollY + view.innerHeight - menu.height - padding;
      var adjustedLeft := x;
      var adjustedTop := y;
      if menu.width + padding * 2 > view.innerWidth {
        adjustedLeft := view.scrollX + padding;
      } else {
        adjustedLeft := Min(Max(adjustedLeft, minLeft), maxLeft);
      }
      if menu.height + padding * 2 > view.innerHeight {
        adjustedTop := view.scrollY + padding;
      } else {
        adjustedTop := Min(Max(adjustedTop, minTop), maxTop);
      }
      position := Position(adjustedLeft, adjustedTop);
    }

    /** `hideMenu`: nothing before the menu exists; afterwards it is hidden, however often it is called. */
    method HideMenu()
      requires Valid()
      modifies this`visible
      ensures Valid() && !visible
      ensures !menuCreated ==> visible == old(visible)
    {
      if !menuCreated {
        return;
      }
      visible := false;
    }

    /**
     * `handleContextMenu`: an event without a target or outside every calendar area
     * hides the menu and leaves the stored context alone, and the native menu is kept.
     * An event inside the menu is treated the same way by this listener, which does not
     * suppress the native menu; the menu element's own `contextmenu` listener does, and
     * that listener is not part of this model. Otherwise the native menu is suppressed,
     * the click context is captured and the menu is shown, freshly rendered, at the
     * clamped page position. `suppressed` is this listener's own `preventDefault`.
     */
    method HandleContextMenu(e: ContextMenuEvent, view: Viewport, menu: Size) returns (suppressed: bool)
      requires Valid()
      modifies this`menuCreated, this`visible, this`position, this`rendered, this`lastContextEvent
      ensures Valid()
      ensures suppressed == ShouldHandle(e, old(menuCreated))
      ensures !suppressed ==>
                && !visible && lastContextEvent == old(lastContextEvent)
                && menuCreated == old(menuCreated) && rendered == old(rendered) && position == old(position)
      ensures suppressed ==>
                && visible && rendered == menuItems && position == Place(e.pageX, e.pageY, view, menu)
                && lastContextEvent == Some(ClickContext(e.target.value, e.clientX, e.clientY))
    {
      if !ShouldHandle(e, menuCreated) {
        HideMenu();
        return false;
      }
      lastContextEvent := Some(ClickContext(e.target.value, e.clientX, e.clientY));
      RenderMenuItems();
      ShowMenu(e.pageX, e.pageY, view, menu);
      return true;
    }

    /**
     * `handleMenuSelection`: the stored context is taken and cleared before it is
     * handed over, and it is handed to the title-field bridge with the chosen label, so each
     * captured context is handed over at most once.
     */
    method HandleMenuSelection(chosen: string) returns (itemLabel: string, context: Option<ClickContext>)
      modifies this`lastContextEvent
      ensures itemLabel == chosen
      ensures context == old(lastContextEvent) && lastContextEvent.None?
    {
      itemLabel := chosen;
      context := lastContextEvent;
      lastContextEvent := None;
    }

    /** A click on a label's button: hide the menu, then hand over the label and the context. */
    method ClickMenuButton(chosen: string) returns (itemLabel: string, context: Option<ClickContext>)
      requires Valid()
      modifies this`visible, this`lastContextEvent
      ensures Valid() && !visible
      ensures itemLabel == chosen
      ensures context == old(lastContextEvent) && lastContextEvent.None?
    {
      HideMenu();
      itemLabel, context := HandleMenuSelection(chosen);
    }

    /** The document `click` listener: a click outside the menu hides it. */
    method OnDocumentClick(insideMenu: bool)
      requires Valid()
      modifies this`visible
      ensures Valid()
      ensures !(menuCreated && insideMenu) ==> !visible
      ensures menuCreated && insideMenu ==> visible == old(visible)
    {
      if !(menuCreated && insideMenu) {
        HideMenu();
      }
    }

    /** The `keydown` listener: Escape hides the menu, other keys do nothing. */
    method OnKeyDown(key: string)
      requires Valid()
      modifies this`visible
      ensures Valid()
      ensures key == "Escape" ==> !visible
      ensures key != "Escape" ==> visible == old(visible)
    {
      if key == "Escape" {
        HideMenu();
      }
    }

    /** The `scroll`, `blur` and `resize` listeners: each just hides the menu. */
    method OnScrollBlurOrResize()
      requires Valid()
      modifies this`visible
      ensures Valid() && !visible
    {
      HideMenu();
    }

    /** `loadMenuItems`: the stored value (an empty array when missing), non-arrays as empty. */
    method LoadMenuItems(slot: Option<StoredValue>)
      requires Valid()
      modifies this`menuItems, this`menuCreated, this`rendered
      ensures Valid() && menuCreated && rendered == menuItems
      ensures slot.Some? && slot.value.AnArray? ==> menuItems == slot.value.items
      ensures !(slot.Some? && slot.value.AnArray?) ==> menuItems == []
    {
      menuItems := AsMenuItems(Read(slot, AnArray([])));
      RenderMenuItems();
    }

    /**
     * The `chrome.storage.onChanged` listener: a change of the key in the sync area
     * replaces the list (a non-array new value, or a removal, by the empty list);
     * any other change is ignored.
     */
    method OnStorageChanged(area: string, change: Option<StorageChange>)
      requires Valid()
      modifies this`menuItems, this`menuCreated, this`rendered
      ensures Valid()
      ensures !(area == "sync" && change.Some?) ==>
                menuItems == old(menuItems) && rendered == old(rendered) && menuCreated == old(menuCreated)
      ensures area == "sync" && change.Some? ==> menuCreated && rendered == menuItems
      ensures area == "sync" && change.Some? && change.value.newValue.Some? && change.value.newValue.value.AnArray? ==>
                menuItems == change.value.newValue.value.items
      ensures area == "sync" && change.Some? && !(change.value.newValue.Some? && change.value.newValue.value.AnArray?) ==>
                menuItems == []
    {
      if area == "sync" && change.Some? {
        menuItems := AsMenuItems(change.value.newValue.GetOr(NotAnArray));
        RenderMenuItems();
      }
    }
  }

  /** A context captured by one right-click is handed over by the first selection only. */
  method SelectTwice(menu: ContextMenu, e: ContextMenuEvent, view: Viewport, size: Size)
    returns (first: Option<ClickContext>, second: Option<ClickContext>)
    requires menu.Valid() && ShouldHandle(e, menu.menuCreated)
    modifies menu
    ensures first == Some(ClickContext(e.target.value, e.clientX, e.clientY))
    ensures second.None? && !menu.visible
  {
    var suppressed := menu.HandleContextMenu(e, view, size);
    var itemLabel;
    itemLabel, first := menu.ClickMenuButton("【開発】");
    itemLabel, second := menu.ClickMenuButton("【開発】");
  }
}
