/**
 * HoldItemModal: the object that presents and dismisses one item's menu by
 * writing the shared cells in place. The internal context supplies `state`;
 * the hold-item context supplies the item cells; the modal keeps its own
 * re-entrancy lock and the `menuProps` cell it writes.
 */
module HoldItemModal {
  import opened Common
  import T = ModalTransitions
  import TransformValue
  import PortalStyle
  import Provider
  import HoldItemProvider

  /** animatedPortalStyle of the modal's floating copy, with the inline offset. */
  function AnimatedPortalStyle(v: T.Cells, c: T.Config, k: Constants, deviceOrientation: Orientation): (s: PortalStyle.PortalStyle)
    ensures c.disableMove ==> s.translateY == Assign(0.0)
    ensures !c.disableMove && T.IsActive(v, c) ==>
      s.translateY == Spring(TransformValue.CalculateTransformValue(
        k, deviceOrientation, v.transformOrigin, false, v.itemRect.y, v.itemRect.height,
        v.menuHeight, c.safeAreaInsets))
    ensures !c.disableMove && !T.IsActive(v, c) ==> Settles(s.translateY) == -0.1
    ensures Settles(s.opacity) == (if T.IsActive(v, c) then 1.0 else 0.0)
    ensures !T.IsActive(v, c) ==> s.scale == v.itemScale
    ensures s.top == v.itemRect.y && s.left == v.itemRect.x
    ensures s.width == v.itemRect.width && s.height == v.itemRect.height
  {
    PortalStyle.AnimatedPortalStyle(k, T.IsActive(v, c), c.disableMove,
                                    T.CalculateTransformValue(v, c, k, deviceOrientation),
                                    v.itemRect.x, v.itemRect.y, v.itemRect.width, v.itemRect.height,
                                    v.itemScale)
  }

  /** animatedPortalProps: the copy takes touches exactly while active. */
  function AnimatedPortalProps(v: T.Cells, c: T.Config): (p: PointerEvents)
    ensures p == Auto <==> T.IsActive(v, c)
    ensures p != Auto ==> p == NoEvents
  {
    if T.IsActive(v, c) then Auto else NoEvents
  }

  class Modal {
    const config: T.Config
    const k: Constants
    const internal: Provider.InternalState
    const hold: HoldItemProvider.HoldItemState
    var isAnimationStarted: bool
    var menuProps: T.MenuProps

    /** The current values of the cells this modal reads and writes. */
    function Cells(): T.Cells
      reads this, internal, hold
    {
      T.Cells(internal.state, hold.currentId, hold.animatedActiveId, isAnimationStarted,
              hold.transformOrigin, hold.transformValue, menuProps, hold.itemScale,
              Rect(hold.itemRectX, hold.itemRectY, hold.itemRectWidth, hold.itemRectHeight),
              hold.menuHeight)
    }

    /** A modal starts unlocked; `menuProps` starts at whatever its context holds. */
    constructor (config: T.Config, k: Constants, internal: Provider.InternalState,
                 hold: HoldItemProvider.HoldItemState, menuProps: T.MenuProps)
      ensures this.config == config && this.k == k
      ensures this.internal == internal && this.hold == hold
      ensures !isAnimationStarted && this.menuProps == menuProps
    {
      this.config := config;
      this.k := k;
      this.internal := internal;
      this.hold := hold;
      isAnimationStarted := false;
      this.menuProps := menuProps;
    }

    method ActivateAnimation(deviceOrientation: Orientation, getTransformOrigin: T.OriginFn)
      modifies hold`transformOrigin
      ensures Cells() == T.ActivateAnimation(old(Cells()), config, k, deviceOrientation, getTransformOrigin)
    {
      if T.NoAnchorOverride(config) {
        var position := getTransformOrigin(hold.itemRectX, hold.itemRectWidth,
                                           T.ScreenWidth(k, deviceOrientation), config.bottom);
        hold.transformOrigin := position;
      }
    }

    method SetMenuProps()
      modifies this`menuProps
      ensures Cells() == T.SetMenuProps(old(Cells()))
    {
      menuProps := T.MenuProps(hold.itemRectHeight, hold.itemRectWidth, hold.itemRectY, hold.itemRectX,
                               hold.transformOrigin, hold.menuHeight, hold.transformValue);
    }

    method ScaleBack()
      modifies hold`itemScale
      ensures Cells() == T.ScaleBack(old(Cells()), k)
    {
      hold.itemScale := Timing(1.0, k.transformDuration / 2.0, false);
    }

    method ScaleHold()
      modifies hold`itemScale
      ensures Cells() == T.ScaleHold(old(Cells()), k)
    {
      hold.itemScale := Timing(k.scaleDownValue, k.scaleDownDuration, true);
    }

    method ScaleTap()
      modifies this`isAnimationStarted, hold`itemScale
      ensures Cells() == T.ScaleTap(old(Cells()), k)
    {
      isAnimationStarted := true;
      hold.itemScale := T.TapSequence(k);
    }

    /** The completion callback of the press animation. */
    method OnCompletion(finished: bool)
      modifies internal`state, hold`currentId, hold`itemScale, this`isAnimationStarted
      ensures Cells() == T.OnCompletion(old(Cells()), config, k, finished)
    {
      if finished {
        internal.state := Active;
        hold.currentId := config.id;
        ScaleBack();
      }
      isAnimationStarted := false;
    }

    /** present(isTap), with the orientation and getTransformOrigin of the moment. */
    method Present(isTap: bool, deviceOrientation: Orientation, getTransformOrigin: T.OriginFn)
      modifies this`isAnimationStarted, this`menuProps
      modifies hold`animatedActiveId, hold`transformOrigin, hold`transformValue, hold`itemScale
      ensures Cells() == T.Present(old(Cells()), config, k, deviceOrientation, getTransformOrigin, isTap)
    {
      hold.animatedActiveId := config.id;
      if T.CanCallActivateFunctions(isTap, isAnimationStarted) {
        ActivateAnimation(deviceOrientation, getTransformOrigin);
        hold.transformValue := T.CalculateTransformValue(Cells(), config, k, deviceOrientation);
        SetMenuProps();
        if !T.IsActive(Cells(), config) {
          if !isTap {
            ScaleHold();
          } else {
            ScaleTap();
          }
        }
      }
    }

    /** dismiss() */
    method Dismiss()
      modifies internal`state
      ensures Cells() == T.Dismiss(old(Cells()))
    {
      internal.state := End;
    }

    /** The overlay's tap handler. */
    method OnOverlayTap()
      modifies internal`state
      ensures Cells() == T.OverlayTap(old(Cells()), config)
    {
      if config.closeOnTap {
        internal.state := End;
      }
    }
  }
}
