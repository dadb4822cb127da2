/** HoldItemProvider: the hold-item context shared by the modals under it. */
module HoldItemProvider {
  import opened Common
  import Anchor

  /** The shared values the hold-item provider creates. */
  class HoldItemState {
    var currentId: Option<string>
    var itemRectY: real
    var itemRectX: real
    var itemRectWidth: real
    var itemRectHeight: real
    var itemScale: Anim
    var transformValue: real
    var transformOrigin: string
    var visible: bool
    var menuHeight: real
    var animatedActiveId: Option<string>

    /** The initial values: no current or pressed item, nothing measured, top-right anchor. */
    constructor ()
      ensures currentId == None && animatedActiveId == None
      ensures itemRectY == 0.0 && itemRectX == 0.0 && itemRectWidth == 0.0 && itemRectHeight == 0.0
      ensures itemScale == Assign(1.0) && transformValue == 0.0
      ensures transformOrigin == Anchor.TopRight
      ensures !visible && menuHeight == 0.0
    {
      currentId := None;
      itemRectY := 0.0;
      itemRectX := 0.0;
      itemRectWidth := 0.0;
      itemRectHeight := 0.0;
      itemScale := Assign(1.0);
      transformValue := 0.0;
      transformOrigin := Anchor.TopRight;
      visible := false;
      menuHeight := 0.0;
      animatedActiveId := None;
    }
  }
}
