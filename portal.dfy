/** portal: the floating copy, menu and backdrop of an item under the internal provider. */
module Portal {
  import opened Common
  import Anchor
  import Provider
  import PortalStyle
  import HoldItem

  /** The copy is active exactly when its item is the provider's current item. */
  function IsActive(currentId: string, name: string): bool
  {
    currentId == name
  }

  /** animatedPortalStyle with the offset supplied by the caller's calculateTransformValue. */
  function AnimatedPortalStyle(k: Constants, currentId: string, name: string, disableMove: bool, tY: real,
                               itemRectX: real, itemRectY: real, itemRectWidth: real, itemRectHeight: real,
                               itemScale: Anim): (s: PortalStyle.PortalStyle)
    ensures disableMove ==> s.translateY == Assign(0.0)
    ensures !disableMove && IsActive(currentId, name) ==> s.translateY == Spring(tY)
    ensures !disableMove && !IsActive(currentId, name) ==> s.translateY == Timing(-0.1, k.transformDuration, false)
    ensures IsActive(currentId, name) ==> Settles(s.opacity) == 1.0 && Settles(s.scale) == 1.0
    ensures !IsActive(currentId, name) ==> s.scale == itemScale && Settles(s.opacity) == 0.0
    ensures s.top == itemRectY && s.left == itemRectX && s.width == itemRectWidth && s.height == itemRectHeight
  {
    PortalStyle.AnimatedPortalStyle(k, IsActive(currentId, name), disableMove, tY,
                                    itemRectX, itemRectY, itemRectWidth, itemRectHeight, itemScale)
  }

  /** animatedPortalProps: touches reach the children only while active. */
  function AnimatedPortalProps(currentId: string, name: string): (p: PointerEvents)
    ensures p == BoxNone <==> IsActive(currentId, name)
    ensures p != BoxNone ==> p == NoEvents
  {
    if IsActive(currentId, name) then BoxNone else NoEvents
  }

  /** The anchor handed to Menu: `menuAnchorPosition || 'top-left'`. */
  function MenuAnchor(menuAnchorPosition: Option<string>): (anchor: string)
    ensures menuAnchorPosition.None? || menuAnchorPosition == Some("") ==> anchor == Anchor.TopLeft
    ensures menuAnchorPosition.Some? && menuAnchorPosition.value != "" ==> anchor == menuAnchorPosition.value
  {
    Anchor.OrTopLeft(menuAnchorPosition)
  }

  /**
   * The item in place and its floating copy settle at complementary
   * opacities, so exactly one of them is visible: no double image.
   */
  lemma NoDoubleImage(k: Constants, currentId: string, activeId: string, name: string, disableMove: bool,
                      tY: real, r: Rect, itemScale: Anim)
    ensures Settles(HoldItem.AnimatedContainerStyle(k, currentId, activeId, name, itemScale).opacity)
          + Settles(AnimatedPortalStyle(k, currentId, name, disableMove, tY, r.x, r.y, r.width, r.height,
                                        itemScale).opacity) == 1.0
  {
  }

  /** onMenuLayout: record the laid-out size of the menu and nothing else. */
  method OnMenuLayout(internal: Provider.InternalState, height: real, width: real)
    modifies internal`menuHeight, internal`menuWidth
    ensures internal.menuHeight == height && internal.menuWidth == width
  {
    internal.menuHeight := height;
    internal.menuWidth := width;
  }
}
