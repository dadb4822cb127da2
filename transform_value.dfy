/**
 * calculateTransformValue: the vertical translation that keeps the menu of
 * an activated item on screen.
 */
module TransformValue {
  import opened Common
  import Anchor

  /** The screen extent along the vertical axis for the current orientation. */
  function ScreenHeight(k: Constants, deviceOrientation: Orientation): real
  {
    if deviceOrientation == Portrait then k.windowHeight else k.windowWidth
  }

  /** `safeAreaInsets?.bottom || 0` */
  function InsetBottom(safeAreaInsets: Option<Insets>): real
  {
    if safeAreaInsets.Some? then safeAreaInsets.value.bottom else 0.0
  }

  /** `safeAreaInsets?.top || 0` */
  function InsetTop(safeAreaInsets: Option<Insets>): real
  {
    if safeAreaInsets.Some? then safeAreaInsets.value.top else 0.0
  }

  /** Where a menu that opens below the item (a top anchor) would end, bottom inset included. */
  function TopTransform(k: Constants, itemRectY: real, itemRectHeight: real, menuHeight: real,
                        safeAreaInsets: Option<Insets>): real
  {
    itemRectY + itemRectHeight + menuHeight + k.spacing + InsetBottom(safeAreaInsets)
  }

  /** Where a menu that opens above the item (any other anchor) would start, top inset included. */
  function BottomTransform(itemRectY: real, menuHeight: real, safeAreaInsets: Option<Insets>): real
  {
    itemRectY - menuHeight - InsetTop(safeAreaInsets)
  }

  /**
   * The vertical offset `tY`. A menu that opens downwards is pulled up by
   * exactly its overflow past the screen bottom; a menu that opens upwards
   * is pushed down past the screen top, with twice the spacing as margin.
   */
  function CalculateTransformValue(
    k: Constants,
    deviceOrientation: Orientation,
    transformOrigin: string,
    disableMove: bool,
    itemRectY: real,
    itemRectHeight: real,
    menuHeight: real,
    safeAreaInsets: Option<Insets>): (tY: real)
    ensures disableMove ==> tY == 0.0
    ensures !disableMove && Anchor.Includes(transformOrigin, "top") ==>
      tY <= 0.0 &&
      TopTransform(k, itemRectY, itemRectHeight, menuHeight, safeAreaInsets) + tY
        <= ScreenHeight(k, deviceOrientation)
    ensures !disableMove && !Anchor.Includes(transformOrigin, "top") && k.spacing >= 0.0 ==>
      tY >= 0.0 && BottomTransform(itemRectY, menuHeight, safeAreaInsets) + tY >= 0.0
  {
    var height := ScreenHeight(k, deviceOrientation);
    var isAnchorPointTop := Anchor.Includes(transformOrigin, "top");
    if disableMove then 0.0
    else if isAnchorPointTop then
      var topTransform := TopTransform(k, itemRectY, itemRectHeight, menuHeight, safeAreaInsets);
      if topTransform > height then height - topTransform else 0.0
    else
      var bottomTransform := BottomTransform(itemRectY, menuHeight, safeAreaInsets);
      if bottomTransform < 0.0 then -bottomTransform + k.spacing * 2.0 else 0.0
  }

  /** Top anchor: the correction is the exact overflow, and none at all without one (strict `>`). */
  lemma TopAnchorOffset(k: Constants, o: Orientation, origin: string,
                        y: real, h: real, menuH: real, insets: Option<Insets>)
    requires Anchor.Includes(origin, "top")
    ensures var tY := CalculateTransformValue(k, o, origin, false, y, h, menuH, insets);
            var sum := TopTransform(k, y, h, menuH, insets);
            (sum > ScreenHeight(k, o) ==> tY + sum == ScreenHeight(k, o) && tY < 0.0) &&
            (sum <= ScreenHeight(k, o) ==> tY == 0.0)
  {
  }

  /** Any other anchor: the correction lands the menu top at twice the spacing (strict `<`). */
  lemma BottomAnchorOffset(k: Constants, o: Orientation, origin: string,
                           y: real, menuH: real, insets: Option<Insets>, h: real)
    requires !Anchor.Includes(origin, "top")
    ensures var tY := CalculateTransformValue(k, o, origin, false, y, h, menuH, insets);
            var start := BottomTransform(y, menuH, insets);
            (start < 0.0 ==> start + tY == 2.0 * k.spacing && tY == -start + 2.0 * k.spacing) &&
            (start >= 0.0 ==> tY == 0.0)
  {
  }

  /** Positive spacing makes every upward correction strictly positive. */
  lemma BottomCorrectionPositive(k: Constants, o: Orientation, origin: string,
                                 y: real, menuH: real, insets: Option<Insets>, h: real)
    requires !Anchor.Includes(origin, "top") && k.spacing >= 0.0
    requires BottomTransform(y, menuH, insets) < 0.0
    ensures CalculateTransformValue(k, o, origin, false, y, h, menuH, insets) > 0.0
  {
  }

  /** Portrait reads WINDOW_HEIGHT only; landscape reads WINDOW_WIDTH in its place. */
  lemma OrientationPicksScreenAxis(k: Constants, w: real, origin: string, disableMove: bool,
                                   y: real, h: real, menuH: real, insets: Option<Insets>)
    ensures CalculateTransformValue(k, Portrait, origin, disableMove, y, h, menuH, insets)
         == CalculateTransformValue(k.(windowWidth := w), Portrait, origin, disableMove, y, h, menuH, insets)
    ensures CalculateTransformValue(k, Landscape, origin, disableMove, y, h, menuH, insets)
         == CalculateTransformValue(k.(windowHeight := k.windowWidth), Portrait, origin, disableMove, y, h, menuH, insets)
  {
  }

  /** Absent safe-area insets behave as all-zero insets. */
  lemma MissingInsetsAreZero(k: Constants, o: Orientation, origin: string, disableMove: bool,
                             y: real, h: real, menuH: real)
    ensures CalculateTransformValue(k, o, origin, disableMove, y, h, menuH, None)
         == CalculateTransformValue(k, o, origin, disableMove, y, h, menuH, Some(Insets(0.0, 0.0, 0.0, 0.0)))
  {
  }

  /** Item at y=500, h=40, menu 120 high, spacing 8, bottom inset 50, top-right anchor. */
  lemma TopRightScenario(k: Constants)
    requires k.spacing == 8.0
    ensures k.windowHeight == 800.0 ==>
      CalculateTransformValue(k, Portrait, Anchor.TopRight, false, 500.0, 40.0, 120.0,
                              Some(Insets(0.0, 0.0, 50.0, 0.0))) == 0.0
    ensures k.windowHeight == 700.0 ==>
      CalculateTransformValue(k, Portrait, Anchor.TopRight, false, 500.0, 40.0, 120.0,
                              Some(Insets(0.0, 0.0, 50.0, 0.0))) == -18.0
  {
    Anchor.StandardAnchor(Anchor.Top, Anchor.Right);
  }
}
