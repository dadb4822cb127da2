/** Provider: the internal context shared by every item under one HoldMenuProvider. */
module Provider {
  import opened Common
  import Anchor

  /** The shared values the provider creates. */
  class InternalState {
    var currentId: string
    var activeId: string
    var state: MenuState
    var itemRectY: real
    var itemRectX: real
    var itemRectWidth: real
    var itemRectHeight: real
    var itemScale: Anim
    var transformOrigin: string
    var menuHeight: real
    var menuWidth: real

    /** The initial values: no item named, nothing measured, full scale, top-left anchor. */
    constructor ()
      ensures currentId == "" && activeId == ""
      ensures state == Undetermined
      ensures itemRectY == 0.0 && itemRectX == 0.0 && itemRectWidth == 0.0 && itemRectHeight == 0.0
      ensures itemScale == Assign(1.0)
      ensures transformOrigin == Anchor.TopLeft
      ensures menuHeight == 0.0 && menuWidth == 0.0
    {
      currentId := "";
      activeId := "";
      state := Undetermined;
      itemRectY := 0.0;
      itemRectX := 0.0;
      itemRectWidth := 0.0;
      itemRectHeight := 0.0;
      itemScale := Assign(1.0);
      transformOrigin := Anchor.TopLeft;
      menuHeight := 0.0;
      menuWidth := 0.0;
    }

    /** The measured item rectangle. */
    function ItemRect(): Rect
      reads this
    {
      Rect(itemRectX, itemRectY, itemRectWidth, itemRectHeight)
    }
  }
}
