/** The menu's horizontal placement and the colour of a menu entry. */
module MenuCalculations {
  import opened Common
  import Anchor

  /**
   * leftOrRight: the menu's left position relative to the item, chosen by
   * the horizontal token of the anchor name.
   */
  function LeftOrRight(menuAnchorPosition: string, itemWidth: real, menuWidth: real): (leftPosition: real)
    ensures Anchor.HorizontalToken(menuAnchorPosition) == Some("right") ==>
      leftPosition + menuWidth == itemWidth
    ensures Anchor.HorizontalToken(menuAnchorPosition) == Some("left") ==>
      leftPosition == 0.0
    ensures Anchor.HorizontalToken(menuAnchorPosition) !in {Some("right"), Some("left")} ==>
      leftPosition + menuWidth / 2.0 == -(itemWidth / 2.0)
  {
    var anchorPositionHorizontal := Anchor.HorizontalToken(menuAnchorPosition);
    if anchorPositionHorizontal == Some("right") then -menuWidth + itemWidth
    else if anchorPositionHorizontal == Some("left") then 0.0
    else -itemWidth - menuWidth / 2.0 + itemWidth / 2.0
  }

  /** On the four standard anchors, right anchors align right edges and left anchors left edges. */
  lemma StandardAnchorAlignment(v: Anchor.Vertical, h: Anchor.Horizontal, itemWidth: real, menuWidth: real)
    ensures h == Anchor.Right ==> LeftOrRight(Anchor.Name(v, h), itemWidth, menuWidth) + menuWidth == itemWidth
    ensures h == Anchor.Left ==> LeftOrRight(Anchor.Name(v, h), itemWidth, menuWidth) == 0.0
  {
    Anchor.StandardAnchor(v, h);
  }

  /** A name without '-' has no horizontal token and takes the centring branch. */
  lemma NoSeparatorCentres(menuAnchorPosition: string, itemWidth: real, menuWidth: real)
    requires '-' !in menuAnchorPosition
    ensures LeftOrRight(menuAnchorPosition, itemWidth, menuWidth) == -itemWidth - menuWidth / 2.0 + itemWidth / 2.0
  {
    Anchor.SplitJoin([menuAnchorPosition], '-');
  }

  datatype Theme = Light | Dark

  /** The five colour constants of the menu. */
  datatype MenuColor =
    | TitleColor
    | TextDestructiveColorDark
    | TextDestructiveColorLight
    | TextDarkColor
    | TextLightColor

  predicate IsDestructiveColor(c: MenuColor)
  {
    c == TextDestructiveColorDark || c == TextDestructiveColorLight
  }

  predicate IsDarkThemeColor(c: MenuColor)
  {
    c == TextDestructiveColorDark || c == TextDarkColor
  }

  /**
   * getColor: a title is always the title colour; any other entry takes the
   * destructive colour exactly when destructive, in the variant of the theme.
   */
  function GetColor(isTitle: bool, isDestructive: bool, themeValue: Theme): (c: MenuColor)
    ensures isTitle <==> c == TitleColor
    ensures !isTitle ==> (IsDestructiveColor(c) <==> isDestructive)
    ensures !isTitle ==> (IsDarkThemeColor(c) <==> themeValue == Dark)
  {
    if isTitle then TitleColor
    else if isDestructive then
      (if themeValue == Dark then TextDestructiveColorDark else TextDestructiveColorLight)
    else if themeValue == Dark then TextDarkColor
    else TextLightColor
  }

  /** The title flag wins over the destructive flag and the theme. */
  lemma TitleWins(isDestructive: bool, themeValue: Theme, isDestructive': bool, themeValue': Theme)
    ensures GetColor(true, isDestructive, themeValue) == GetColor(true, isDestructive', themeValue')
  {
  }
}
