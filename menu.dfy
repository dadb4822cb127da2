/** Menu: the wrapper that positions the menu against the activated item. */
module Menu {
  import opened Common
  import Anchor

  /** The gap between the item and the menu wrapper. */
  const Gap: real := 8.0

  datatype WrapperStyle = WrapperStyle(top: real, left: real, width: real, translateY: Anim)

  /**
   * wrapperStyles: a "top" anchor puts the wrapper one gap below the item's
   * bottom edge, any other anchor one gap above the item's top edge; the
   * wrapper spans the item horizontally; the vertical correction springs in
   * while the menu is active and tweens back to 0 otherwise.
   */
  function WrapperStyles(k: Constants, menuAnchorPosition: string, state: MenuState,
                         itemRectX: real, itemRectY: real, itemRectWidth: real, itemRectHeight: real,
                         transformValue: real): (s: WrapperStyle)
    ensures Anchor.VerticalToken(menuAnchorPosition) == "top" ==>
      s.top - (itemRectY + itemRectHeight) == Gap
    ensures Anchor.VerticalToken(menuAnchorPosition) != "top" ==>
      itemRectY - s.top == Gap
    ensures s.left == itemRectX && s.width == itemRectWidth
    ensures Settles(s.translateY) == (if state == Active then transformValue else 0.0)
    ensures s.translateY.Spring? <==> state == Active
    ensures !s.translateY.Spring? ==> s.translateY == Timing(0.0, k.transformDuration, false)
  {
    var anchorPositionVertical := Anchor.VerticalToken(menuAnchorPosition);
    var top := if anchorPositionVertical == "top" then itemRectHeight + itemRectY + Gap
               else itemRectY - Gap;
    var tY := transformValue;
    WrapperStyle(
      top, itemRectX, itemRectWidth,
      if state == Active then Spring(tY) else Timing(0.0, k.transformDuration, false))
  }

  /**
   * On the standard anchors the wrapper's rule for "top" (the first token)
   * agrees with the rule calculateTransformValue uses (the name includes "top"),
   * and a top anchor opens the menu strictly below the item.
   */
  lemma StandardAnchorPlacement(k: Constants, v: Anchor.Vertical, h: Anchor.Horizontal, state: MenuState,
                                x: real, y: real, w: real, ht: real, tY: real)
    ensures Anchor.VerticalToken(Anchor.Name(v, h)) == "top" <==> Anchor.Includes(Anchor.Name(v, h), "top")
    ensures v == Anchor.Top ==> WrapperStyles(k, Anchor.Name(v, h), state, x, y, w, ht, tY).top > y + ht
    ensures v == Anchor.Bottom ==> WrapperStyles(k, Anchor.Name(v, h), state, x, y, w, ht, tY).top < y
  {
    Anchor.StandardAnchor(v, h);
  }
}
