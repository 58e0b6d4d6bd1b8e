/**
 * Where `showMenu` places the context menu: anchored at the click, then kept
 * `MenuViewportPadding` pixels inside the visible viewport, each axis on its own.
 */
module MenuPosition {

  const MenuViewportPadding: int := 12

  /** The window's scroll offsets and inner size. */
  datatype Viewport = Viewport(scrollX: int, scrollY: int, innerWidth: int, innerHeight: int)

  /** The menu's rendered width and height. */
  datatype Size = Size(width: nat, height: nat)

  datatype Position = Position(left: int, top: int)

  /**
   * One axis of the clamp: a menu too large for the viewport is pinned at
   * `scroll + 12`; otherwise the click coordinate is moved into
   * `[scroll + 12, scroll + viewport - size - 12]`, to the nearest end when outside it
   * and not at all when inside it.
   */
  function AdjustAxis(click: int, scroll: int, viewport: int, size: nat): (pos: int)
    ensures size + MenuViewportPadding * 2 > viewport ==> pos == scroll + MenuViewportPadding
    ensures size + MenuViewportPadding * 2 <= viewport ==>
              scroll + MenuViewportPadding <= pos <= scroll + viewport - size - MenuViewportPadding
    ensures size + MenuViewportPadding * 2 <= viewport ==>
              && (click < scroll + MenuViewportPadding ==> pos == scroll + MenuViewportPadding)
              && (click > scroll + viewport - size - MenuViewportPadding ==>
                    pos == scroll + viewport - size - MenuViewportPadding)
              && (scroll + MenuViewportPadding <= click <= scroll + viewport - size - MenuViewportPadding ==>
                    pos == click)
  {
    var minPos := scroll + MenuViewportPadding;
    var maxPos := scroll + viewport - size - MenuViewportPadding;
    if size + MenuViewportPadding * 2 > viewport then scroll + MenuViewportPadding
    else Min(Max(click, minPos), maxPos)
  }

  function Min(a: int, b: int): int { if a < b then a else b }
  function Max(a: int, b: int): int { if a < b then b else a }

  /**
   * `showMenu(x, y)`: the menu's final `left` and `top`, each clamped on its own
   * axis. The menu never starts before the padded top-left corner, and on an axis
   * where it fits it lies wholly inside the viewport with the padding kept on both
   * sides; where it does not fit it starts at the padded edge, never off-screen.
   */
  function Place(x: int, y: int, view: Viewport, menu: Size): (p: Position)
    ensures p.left >= view.scrollX + MenuViewportPadding
    ensures p.top >= view.scrollY + MenuViewportPadding
    ensures menu.width + 2 * MenuViewportPadding <= view.innerWidth ==>
              p.left + menu.width + MenuViewportPadding <= view.scrollX + view.innerWidth
    ensures menu.height + 2 * MenuViewportPadding <= view.innerHeight ==>
              p.top + menu.height + MenuViewportPadding <= view.scrollY + view.innerHeight
    ensures menu.width + 2 * MenuViewportPadding > view.innerWidth ==>
              p.left == view.scrollX + MenuViewportPadding
    ensures menu.height + 2 * MenuViewportPadding > view.innerHeight ==>
              p.top == view.scrollY + MenuViewportPadding
  {
    Position(AdjustAxis(x, view.scrollX, view.innerWidth, menu.width),
             AdjustAxis(y, view.scrollY, view.innerHeight, menu.height))
  }
}
