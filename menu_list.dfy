/** MenuList: the menu body, its reveal animation and its horizontal offset. */
module MenuList {
  import opened Common
  import Anchor
  import MenuCalculations

  /** One horizontal and one vertical translation. */
  datatype Translate = Translate(translateX: real, translateY: real)

  /** What menuAnimationAnchor returns: the translations around the reveal scale. */
  datatype AnchorTransforms = AnchorTransforms(beginning: Translate, ending: Translate)

  /** One entry of a view's `transform` list. */
  datatype Transform = TranslateX(x: real) | TranslateY(y: real) | Scale(scale: Anim)

  datatype MessageStyle = MessageStyle(left: real, height: real, width: real, opacity: Anim,
                                       transform: seq<Transform>)

  /** The default parameter `menuAnchorPosition = 'top-left'`: it replaces only an absent value. */
  function DefaultAnchor(menuAnchorPosition: Option<string>): (anchor: string)
    ensures menuAnchorPosition.None? ==> anchor == Anchor.TopLeft
    ensures menuAnchorPosition.Some? ==> anchor == menuAnchorPosition.value
  {
    if menuAnchorPosition.Some? then menuAnchorPosition.value else Anchor.TopLeft
  }

  /** A list without an owner follows the shared state; an owned list follows `currentId`. */
  function IsActive(id: Option<string>, state: MenuState, currentId: Option<string>): (active: bool)
    ensures id.None? ==> (active <==> state == Active)
    ensures id.Some? ==> (active <==> currentId == id)
  {
    if id.None? then state == Active else currentId == id
  }

  /** Two lists owned by different items are never active together. */
  lemma AtMostOneOwnedListActive(a: string, b: string, state: MenuState, currentId: Option<string>)
    requires a != b
    ensures !(IsActive(Some(a), state, currentId) && IsActive(Some(b), state, currentId))
  {
  }

  /**
   * messageStyles: the list sits at leftOrRight's offset with the measured
   * menu size, and scales and fades to 1 while active and to 0 otherwise; the
   * reveal scale sits between the anchor's beginning and ending translations.
   */
  function MessageStyles(
    k: Constants,
    menuAnchorPosition: Option<string>,
    state: MenuState,
    itemRectWidth: real,
    menuHeight: real,
    menuWidth: real,
    currentId: Option<string>,
    id: Option<string>,
    menuAnimationAnchor: (string, real, real, real) -> AnchorTransforms): (s: MessageStyle)
    ensures s.left == MenuCalculations.LeftOrRight(DefaultAnchor(menuAnchorPosition), itemRectWidth, menuWidth)
    ensures s.height == menuHeight && s.width == menuWidth
    ensures Settles(s.opacity) == (if IsActive(id, state, currentId) then 1.0 else 0.0)
    ensures |s.transform| == 5 && s.transform[2].Scale?
    ensures Settles(s.transform[2].scale) == (if IsActive(id, state, currentId) then 1.0 else 0.0)
    ensures s.transform[2].scale.Spring? <==> IsActive(id, state, currentId)
    ensures var t := menuAnimationAnchor(DefaultAnchor(menuAnchorPosition), itemRectWidth, menuHeight, menuWidth);
            s.transform[..2] == [TranslateX(t.beginning.translateX), TranslateY(t.beginning.translateY)] &&
            s.transform[3..] == [TranslateX(t.ending.translateX), TranslateY(t.ending.translateY)]
  {
    var anchor := DefaultAnchor(menuAnchorPosition);
    var translate := menuAnimationAnchor(anchor, itemRectWidth, menuHeight, menuWidth);
    var leftPosition := MenuCalculations.LeftOrRight(anchor, itemRectWidth, menuWidth);
    var isActive := IsActive(id, state, currentId);
    var menuScale := if isActive then Spring(1.0) else Timing(0.0, k.transformDuration, false);
    var opacity := Timing(if isActive then 1.0 else 0.0, k.transformDuration, false);
    MessageStyle(
      leftPosition, menuHeight, menuWidth, opacity,
      [ TranslateX(translate.beginning.translateX),
        TranslateY(translate.beginning.translateY),
        Scale(menuScale),
        TranslateX(translate.ending.translateX),
        TranslateY(translate.ending.translateY) ])
  }

  /** An omitted anchor places the list as "top-left" does: left edges aligned. */
  lemma OmittedAnchorAlignsLeft(k: Constants, state: MenuState, itemRectWidth: real, menuHeight: real,
                                menuWidth: real, currentId: Option<string>, id: Option<string>,
                                menuAnimationAnchor: (string, real, real, real) -> AnchorTransforms)
    ensures MessageStyles(k, None, state, itemRectWidth, menuHeight, menuWidth, currentId, id,
                          menuAnimationAnchor).left == 0.0
  {
    Anchor.StandardAnchor(Anchor.Top, Anchor.Left);
  }
}
