/** useInitValue: the state a single menu starts from. */
module InitValue {
  import opened Common
  import Anchor

  /** The per-menu values useInitValue creates. */
  class InitValue {
    var state: MenuState
    var itemRectY: real
    var itemRectX: real
    var itemRectWidth: real
    var itemRectHeight: real
    var itemScale: Anim
    var transformOrigin: string
    var menuHeight: real
    var menuWidth: real

    /** The initial values; the anchor is the one supplied, or "top-left" when it is absent or empty. */
    constructor (menuAnchorPosition: Option<string>)
      ensures state == Undetermined
      ensures itemRectY == 0.0 && itemRectX == 0.0 && itemRectWidth == 0.0 && itemRectHeight == 0.0
      ensures itemScale == Assign(1.0)
      ensures transformOrigin == Anchor.OrTopLeft(menuAnchorPosition)
      ensures menuAnchorPosition.Some? && menuAnchorPosition.value != "" ==>
        transformOrigin == menuAnchorPosition.value
      ensures menuAnchorPosition.None? ==> transformOrigin == Anchor.TopLeft
      ensures menuHeight == 0.0 && menuWidth == 0.0
    {
      state := Undetermined;
      itemRectY := 0.0;
      itemRectX := 0.0;
      itemRectWidth := 0.0;
      itemRectHeight := 0.0;
      itemScale := Assign(1.0);
      transformOrigin := Anchor.OrTopLeft(menuAnchorPosition);
      menuHeight := 0.0;
      menuWidth := 0.0;
    }
  }
}
