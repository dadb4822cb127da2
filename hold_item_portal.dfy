/** HoldItemPortal: the floating copy of an item under the hold-item provider. */
module HoldItemPortal {
  import opened Common
  import Anchor
  import TransformValue
  import PortalStyle
  import Provider

  /** The offset computation written inline in the component, over the values it reads. */
  function InlineTransformValue(k: Constants, deviceOrientation: Orientation, transformOrigin: string,
                                disableMove: bool, itemRectY: real, itemRectHeight: real,
                                menuHeight: real, safeAreaInsets: Option<Insets>): (tY: real)
    ensures tY == TransformValue.CalculateTransformValue(k, deviceOrientation, transformOrigin, disableMove,
                                                         itemRectY, itemRectHeight, menuHeight, safeAreaInsets)
  {
    var height := if deviceOrientation == Portrait then k.windowHeight else k.windowWidth;
    var isAnchorPointTop := Anchor.Includes(transformOrigin, "top");
    if disableMove then 0.0
    else if isAnchorPointTop then
      var topTransform := itemRectY + itemRectHeight + menuHeight + k.spacing +
        (if safeAreaInsets.Some? then safeAreaInsets.value.bottom else 0.0);
      if topTransform > height then height - topTransform else 0.0
    else
      var bottomTransform := itemRectY - menuHeight -
        (if safeAreaInsets.Some? then safeAreaInsets.value.top else 0.0);
      if bottomTransform < 0.0 then -bottomTransform + k.spacing * 2.0 else 0.0
  }

  /** animatedPortalStyle: the shared portal style with the inline offset. */
  function AnimatedPortalStyle(k: Constants, deviceOrientation: Orientation, isActive: bool, disableMove: bool,
                               transformOrigin: string, r: Rect, menuHeight: real,
                               safeAreaInsets: Option<Insets>, itemScale: Anim): (s: PortalStyle.PortalStyle)
    ensures disableMove ==> s.translateY == Assign(0.0)
    ensures !disableMove && isActive ==>
      s.translateY == Spring(TransformValue.CalculateTransformValue(
        k, deviceOrientation, transformOrigin, false, r.y, r.height, menuHeight, safeAreaInsets))
    ensures !disableMove && !isActive ==> Settles(s.translateY) == -0.1
    ensures Settles(s.opacity) == (if isActive then 1.0 else 0.0)
    ensures Settles(s.scale) == (if isActive then 1.0 else Settles(itemScale))
    ensures s.top == r.y && s.left == r.x && s.width == r.width && s.height == r.height
  {
    var tY := InlineTransformValue(k, deviceOrientation, transformOrigin, disableMove,
                                   r.y, r.height, menuHeight, safeAreaInsets);
    PortalStyle.AnimatedPortalStyle(k, isActive, disableMove, tY, r.x, r.y, r.width, r.height, itemScale)
  }

  /** animatedPortalProps: the copy takes touches only while active. */
  function AnimatedPortalProps(isActive: bool): (p: PointerEvents)
    ensures p == Auto <==> isActive
    ensures p != Auto ==> p == NoEvents
  {
    if isActive then Auto else NoEvents
  }

  /** The overlay tap handler: with close-on-tap it dismisses, otherwise it does nothing. */
  method OnOverlayTap(internal: Provider.InternalState, closeOnTap: bool)
    modifies internal`state
    ensures internal.state == if closeOnTap then End else old(internal.state)
  {
    if closeOnTap {
      internal.state := End;
    }
  }
}
