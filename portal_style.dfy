/**
 * The style of the floating copy of an item rendered in the portal. The
 * same decision table appears in HoldItemModal, HoldItemPortal and portal;
 * each of those supplies its own `isActive` and vertical offset.
 */
module PortalStyle {
  import opened Common

  datatype PortalStyle = PortalStyle(
    top: real, left: real, width: real, height: real,
    opacity: Anim, translateY: Anim, scale: Anim)

  /**
   * animatedPortalStyle: the copy covers the measured rectangle exactly; it
   * is shown at full scale while active, springs to the offset `tY` unless
   * moving is disabled, and otherwise follows the item's scale and is hidden
   * once the transform duration has passed.
   */
  function AnimatedPortalStyle(k: Constants, isActive: bool, disableMove: bool, tY: real,
                               itemRectX: real, itemRectY: real, itemRectWidth: real,
                               itemRectHeight: real, itemScale: Anim): (s: PortalStyle)
    ensures s.top == itemRectY && s.left == itemRectX
    ensures s.width == itemRectWidth && s.height == itemRectHeight
    ensures disableMove ==> s.translateY == Assign(0.0)
    ensures !disableMove && isActive ==> s.translateY == Spring(tY)
    ensures !disableMove && !isActive ==> s.translateY == Timing(-0.1, k.transformDuration, false)
    ensures Settles(s.opacity) == (if isActive then 1.0 else 0.0)
    ensures !isActive ==> s.opacity == Delay(k.transformDuration, Timing(0.0, 0.0, false))
    ensures isActive ==> s.scale == Timing(1.0, k.transformDuration, false)
    ensures !isActive ==> s.scale == itemScale
  {
    var transformAnimation :=
      if disableMove then Assign(0.0)
      else if isActive then Spring(tY)
      else Timing(-0.1, k.transformDuration, false);
    PortalStyle(
      itemRectY, itemRectX, itemRectWidth, itemRectHeight,
      if isActive then Assign(1.0) else Delay(k.transformDuration, Timing(0.0, 0.0, false)),
      transformAnimation,
      if isActive then Timing(1.0, k.transformDuration, false) else itemScale)
  }
}
