/**
 * The activation state machine of HoldItemModal, as functions on the values
 * of the cells the modal reads and writes. The class in module HoldItemModal
 * performs the same transitions in place and is specified by these functions.
 */
module ModalTransitions {
  import opened Common
  import Anchor
  import TransformValue

  /** The props a modal is created with, and the safe-area insets it reads. */
  datatype Config = Config(
    id: Option<string>,
    disableMove: bool,
    closeOnTap: bool,
    menuAnchorPosition: Option<string>,
    bottom: bool,
    safeAreaInsets: Option<Insets>)

  /** The snapshot written to `menuProps`. */
  datatype MenuProps = MenuProps(
    itemHeight: real,
    itemWidth: real,
    itemY: real,
    itemX: real,
    anchorPosition: string,
    menuHeight: real,
    transformValue: real)

  /** getTransformOrigin(itemX, itemWidth, screenWidth, bottom), which is not part of this model. */
  type OriginFn = (real, real, real, bool) -> string

  /** The values of the cells a modal reads and writes. */
  datatype Cells = Cells(
    state: MenuState,
    currentId: Option<string>,
    animatedActiveId: Option<string>,
    isAnimationStarted: bool,
    transformOrigin: string,
    transformValue: real,
    menuProps: MenuProps,
    itemScale: Anim,
    itemRect: Rect,
    menuHeight: real)

  /** `currentId.value === id`: derived, never stored. */
  function IsActive(v: Cells, c: Config): bool
  {
    v.currentId == c.id
  }

  /** Two modals with different ids are never active at the same time. */
  lemma AtMostOneActive(v: Cells, c1: Config, c2: Config)
    requires c1.id != c2.id
    ensures !(IsActive(v, c1) && IsActive(v, c2))
  {
  }

  /**
   * `undefined === undefined`: a modal created without an id counts as
   * active while no item is current, as under a fresh hold-item provider.
   */
  lemma UnnamedModalActiveWhileNoneCurrent(v: Cells, c: Config)
    requires c.id.None?
    ensures IsActive(v, c) <==> v.currentId.None?
  {
  }

  /** `!menuAnchorPosition`: no override, or an empty one. */
  predicate NoAnchorOverride(c: Config)
  {
    c.menuAnchorPosition.None? || c.menuAnchorPosition.value == ""
  }

  /** canCallActivateFunctions: only a tap during a started tap animation is refused. */
  function CanCallActivateFunctions(isTap: bool, isAnimationStarted: bool): (can: bool)
    ensures can <==> !(isTap && isAnimationStarted)
  {
    (isTap && !isAnimationStarted) || !isTap
  }

  /** The screen extent passed to getTransformOrigin: the horizontal one for the orientation. */
  function ScreenWidth(k: Constants, deviceOrientation: Orientation): real
  {
    if deviceOrientation == Portrait then k.windowWidth else k.windowHeight
  }

  /** activateAnimation: recompute the anchor unless one is configured. */
  function ActivateAnimation(v: Cells, c: Config, k: Constants, deviceOrientation: Orientation,
                             getTransformOrigin: OriginFn): (r: Cells)
    ensures NoAnchorOverride(c) ==>
      r == v.(transformOrigin := getTransformOrigin(v.itemRect.x, v.itemRect.width,
                                                    ScreenWidth(k, deviceOrientation), c.bottom))
    ensures !NoAnchorOverride(c) ==> r == v
  {
    if NoAnchorOverride(c) then
      var position := getTransformOrigin(v.itemRect.x, v.itemRect.width,
                                         ScreenWidth(k, deviceOrientation), c.bottom);
      v.(transformOrigin := position)
    else v
  }

  /** The offset computation written inline in the modal, over the cells it reads. */
  function CalculateTransformValue(v: Cells, c: Config, k: Constants, deviceOrientation: Orientation): (tY: real)
    ensures tY == TransformValue.CalculateTransformValue(
      k, deviceOrientation, v.transformOrigin, c.disableMove,
      v.itemRect.y, v.itemRect.height, v.menuHeight, c.safeAreaInsets)
  {
    var height := if deviceOrientation == Portrait then k.windowHeight else k.windowWidth;
    var isAnchorPointTop := Anchor.Includes(v.transformOrigin, "top");
    if c.disableMove then 0.0
    else if isAnchorPointTop then
      var topTransform := v.itemRect.y + v.itemRect.height + v.menuHeight + k.spacing +
        (if c.safeAreaInsets.Some? then c.safeAreaInsets.value.bottom else 0.0);
      if topTransform > height then height - topTransform else 0.0
    else
      var bottomTransform := v.itemRect.y - v.menuHeight -
        (if c.safeAreaInsets.Some? then c.safeAreaInsets.value.top else 0.0);
      if bottomTransform < 0.0 then -bottomTransform + k.spacing * 2.0 else 0.0
  }

  /** The menuProps snapshot of the current cells. */
  function Snapshot(v: Cells): MenuProps
  {
    MenuProps(v.itemRect.height, v.itemRect.width, v.itemRect.y, v.itemRect.x,
              v.transformOrigin, v.menuHeight, v.transformValue)
  }

  /**
   * setMenuProps: the menu receives the item's rectangle, the anchor and the
   * offset as they stand now; no other cell is written.
   */
  function SetMenuProps(v: Cells): (r: Cells)
    ensures r.menuProps.anchorPosition == v.transformOrigin && r.menuProps.transformValue == v.transformValue
    ensures r.menuProps.itemY == v.itemRect.y && r.menuProps.itemX == v.itemRect.x
    ensures r.menuProps.itemHeight == v.itemRect.height && r.menuProps.itemWidth == v.itemRect.width
    ensures r.menuProps.menuHeight == v.menuHeight
    ensures r.(menuProps := v.menuProps) == v
  {
    v.(menuProps := Snapshot(v))
  }

  /** scaleBack: tween the item back to full scale in half the transform duration. */
  function ScaleBack(v: Cells, k: Constants): (r: Cells)
    ensures Settles(r.itemScale) == 1.0 && !CallsBack(r.itemScale)
    ensures r.itemScale.Timing? && r.itemScale.duration == k.transformDuration / 2.0
    ensures r.(itemScale := v.itemScale) == v
  {
    v.(itemScale := Timing(1.0, k.transformDuration / 2.0, false))
  }

  /** scaleHold: shrink the item; its completion calls onCompletion. */
  function ScaleHold(v: Cells, k: Constants): (r: Cells)
    ensures Settles(r.itemScale) == k.scaleDownValue && CallsBack(r.itemScale)
    ensures r.itemScale.Timing? && r.itemScale.duration == k.scaleDownDuration
    ensures r.(itemScale := v.itemScale) == v
  {
    v.(itemScale := Timing(k.scaleDownValue, k.scaleDownDuration, true))
  }

  /** The down-then-up scale sequence of a tap; the second step calls onCompletion. */
  function TapSequence(k: Constants): Anim
  {
    Sequence(Timing(k.scaleDownValue, k.scaleDownDuration, false),
             Timing(1.0, k.transformDuration / 2.0, true))
  }

  /** scaleTap: take the re-entrancy lock and run the tap sequence. */
  function ScaleTap(v: Cells, k: Constants): (r: Cells)
    ensures r.isAnimationStarted
    ensures r.itemScale.Sequence? && Settles(r.itemScale.first) == k.scaleDownValue
    ensures Settles(r.itemScale) == 1.0
    ensures !CallsBack(r.itemScale.first) && CallsBack(r.itemScale.second)
    ensures r.(itemScale := v.itemScale, isAnimationStarted := v.isAnimationStarted) == v
  {
    v.(isAnimationStarted := true, itemScale := TapSequence(k))
  }

  /**
   * onCompletion: a finished press activates this modal's item and scales it
   * back; an interrupted one changes neither the state nor the current item.
   * Either way the lock is released.
   */
  function OnCompletion(v: Cells, c: Config, k: Constants, finished: bool): (r: Cells)
    ensures !r.isAnimationStarted
    ensures finished ==> r.state == Active && r.currentId == c.id &&
                         r.itemScale == Timing(1.0, k.transformDuration / 2.0, false)
    ensures !finished ==> r == v.(isAnimationStarted := false)
    ensures r.animatedActiveId == v.animatedActiveId && r.transformOrigin == v.transformOrigin
    ensures r.transformValue == v.transformValue && r.menuProps == v.menuProps
    ensures r.itemRect == v.itemRect && r.menuHeight == v.menuHeight
  {
    var v1 := if finished then ScaleBack(v.(state := Active, currentId := c.id), k) else v;
    v1.(isAnimationStarted := false)
  }

  /** After a finished press exactly the modals with this id are active. */
  lemma CompletionMakesSoleActive(v: Cells, c: Config, k: Constants, other: Config)
    ensures IsActive(OnCompletion(v, c, k, true), other) <==> other.id == c.id
  {
  }

  /**
   * present: record the pressed id; unless the lock refuses a tap, place the
   * menu (anchor, then offset from that anchor, then the snapshot of both)
   * and, for an item that is not yet active, start the press animation.
   */
  function Present(v: Cells, c: Config, k: Constants, deviceOrientation: Orientation,
                   getTransformOrigin: OriginFn, isTap: bool): (r: Cells)
    ensures r.animatedActiveId == c.id
    ensures r.state == v.state && r.currentId == v.currentId
    ensures r.itemRect == v.itemRect && r.menuHeight == v.menuHeight
    ensures !CanCallActivateFunctions(isTap, v.isAnimationStarted) ==> r == v.(animatedActiveId := c.id)
    ensures CanCallActivateFunctions(isTap, v.isAnimationStarted) ==>
      r.transformOrigin ==
        (if NoAnchorOverride(c)
         then getTransformOrigin(v.itemRect.x, v.itemRect.width, ScreenWidth(k, deviceOrientation), c.bottom)
         else v.transformOrigin) &&
      r.transformValue == TransformValue.CalculateTransformValue(
        k, deviceOrientation, r.transformOrigin, c.disableMove,
        v.itemRect.y, v.itemRect.height, v.menuHeight, c.safeAreaInsets) &&
      r.menuProps.transformValue == r.transformValue &&
      r.menuProps.anchorPosition == r.transformOrigin &&
      r.menuProps == MenuProps(v.itemRect.height, v.itemRect.width, v.itemRect.y, v.itemRect.x,
                               r.transformOrigin, v.menuHeight, r.transformValue)
    ensures CanCallActivateFunctions(isTap, v.isAnimationStarted) && IsActive(v, c) ==>
      r.itemScale == v.itemScale && r.isAnimationStarted == v.isAnimationStarted
    ensures CanCallActivateFunctions(isTap, v.isAnimationStarted) && !IsActive(v, c) && !isTap ==>
      r.itemScale == Timing(k.scaleDownValue, k.scaleDownDuration, true) &&
      r.isAnimationStarted == v.isAnimationStarted
    ensures CanCallActivateFunctions(isTap, v.isAnimationStarted) && !IsActive(v, c) && isTap ==>
      r.itemScale == TapSequence(k) && r.isAnimationStarted
  {
    var v1 := v.(animatedActiveId := c.id);
    if CanCallActivateFunctions(isTap, v1.isAnimationStarted) then
      var v2 := ActivateAnimation(v1, c, k, deviceOrientation, getTransformOrigin);
      var v3 := v2.(transformValue := CalculateTransformValue(v2, c, k, deviceOrientation));
      var v4 := SetMenuProps(v3);
      if !IsActive(v4, c) then
        (if !isTap then ScaleHold(v4, k) else ScaleTap(v4, k))
      else v4
    else v1
  }

  /** A hold is never refused by the lock and never takes it. */
  lemma HoldNeverBlocked(v: Cells, c: Config, k: Constants, deviceOrientation: Orientation,
                         getTransformOrigin: OriginFn)
    ensures var r := Present(v, c, k, deviceOrientation, getTransformOrigin, false);
            r.isAnimationStarted == v.isAnimationStarted &&
            r.menuProps.transformValue == r.transformValue &&
            (!IsActive(v, c) ==> CallsBack(r.itemScale))
  {
  }

  /**
   * The hold path end to end: a hold on an item that is not active, then the
   * finished completion of its animation, opens this item's menu with the
   * placement computed at the press.
   */
  lemma HoldThenCompletionActivates(v: Cells, c: Config, k: Constants, deviceOrientation: Orientation,
                                    getTransformOrigin: OriginFn)
    requires !IsActive(v, c)
    ensures var p := Present(v, c, k, deviceOrientation, getTransformOrigin, false);
            var r := Run(v, c, k, getTransformOrigin, [PresentCall(false, deviceOrientation), Completion(true)]);
            r.state == Active && IsActive(r, c) && !r.isAnimationStarted &&
            r.animatedActiveId == c.id && r.menuProps == p.menuProps &&
            r.menuProps.transformValue == r.transformValue &&
            r.itemScale == Timing(1.0, k.transformDuration / 2.0, false)
  {
    var events := [PresentCall(false, deviceOrientation), Completion(true)];
    var p := Present(v, c, k, deviceOrientation, getTransformOrigin, false);
    assert events[1..] == [Completion(true)];
    assert Run(v, c, k, getTransformOrigin, events) == Run(p, c, k, getTransformOrigin, [Completion(true)]);
    assert [Completion(true)][1..] == [];
  }

  /** dismiss: end the menu; the current item stays recorded. */
  function Dismiss(v: Cells): (r: Cells)
    ensures r.state == End
    ensures r.currentId == v.currentId
    ensures r.(state := v.state) == v
  {
    v.(state := End)
  }

  /** The overlay tap: with close-on-tap it ends the menu, otherwise it changes nothing. */
  function OverlayTap(v: Cells, c: Config): (r: Cells)
    ensures c.closeOnTap ==> r == Dismiss(v)
    ensures !c.closeOnTap ==> r == v
  {
    if c.closeOnTap then v.(state := End) else v
  }

  /** The calls that reach one modal, in the order they happen. */
  datatype Event =
    | PresentCall(isTap: bool, deviceOrientation: Orientation)
    | Completion(finished: bool)
    | DismissCall
    | OverlayTapEvent

  function Step(v: Cells, c: Config, k: Constants, getTransformOrigin: OriginFn, e: Event): Cells
  {
    match e
    case PresentCall(isTap, o) => Present(v, c, k, o, getTransformOrigin, isTap)
    case Completion(finished) => OnCompletion(v, c, k, finished)
    case DismissCall => Dismiss(v)
    case OverlayTapEvent => OverlayTap(v, c)
  }

  /** The cells after a sequence of calls. */
  function Run(v: Cells, c: Config, k: Constants, getTransformOrigin: OriginFn, events: seq<Event>): Cells
    decreases |events|
  {
    if events == [] then v
    else Run(Step(v, c, k, getTransformOrigin, events[0]), c, k, getTransformOrigin, events[1..])
  }

  predicate IsTapPresent(e: Event)
  {
    e.PresentCall? && e.isTap
  }

  /**
   * The re-entrancy lock: while a tap animation runs, any number of further
   * taps only re-record the pressed id.
   */
  lemma {:induction false} RepeatedTapsIgnored(v: Cells, c: Config, k: Constants, getTransformOrigin: OriginFn,
                                               events: seq<Event>)
    requires v.isAnimationStarted
    requires |events| > 0
    requires forall i :: 0 <= i < |events| ==> IsTapPresent(events[i])
    ensures Run(v, c, k, getTransformOrigin, events) == v.(animatedActiveId := c.id)
    decreases |events|
  {
    var v1 := Step(v, c, k, getTransformOrigin, events[0]);
    assert v1 == v.(animatedActiveId := c.id);
    if |events| > 1 {
      RepeatedTapsIgnored(v1, c, k, getTransformOrigin, events[1..]);
      assert v1.(animatedActiveId := c.id) == v1;
    }
  }

  /** Only a completion call releases the lock. */
  lemma {:induction false} LockHeldUntilCompletion(v: Cells, c: Config, k: Constants, getTransformOrigin: OriginFn,
                                                   events: seq<Event>)
    requires v.isAnimationStarted
    requires forall i :: 0 <= i < |events| ==> !events[i].Completion?
    ensures Run(v, c, k, getTransformOrigin, events).isAnimationStarted
    decreases |events|
  {
    if events != [] {
      LockHeldUntilCompletion(Step(v, c, k, getTransformOrigin, events[0]), c, k, getTransformOrigin, events[1..]);
    }
  }

  /** Whether a finished completion occurs among the calls. */
  predicate SomeFinished(events: seq<Event>)
  {
    exists i :: 0 <= i < |events| && events[i] == Completion(true)
  }

  /**
   * Whatever calls reach a modal, the current item is the one it started
   * with or the modal's own, the state never returns to UNDETERMINED, and
   * without a finished completion neither the current item changes nor does
   * the menu become active.
   */
  lemma {:induction false} RunOwnership(v: Cells, c: Config, k: Constants, getTransformOrigin: OriginFn,
                                        events: seq<Event>)
    ensures var r := Run(v, c, k, getTransformOrigin, events);
            (r.currentId == v.currentId || r.currentId == c.id) &&
            (r.state == v.state || r.state == Active || r.state == End) &&
            (!SomeFinished(events) ==> r.currentId == v.currentId && (r.state == Active ==> v.state == Active))
    decreases |events|
  {
    if events != [] {
      var v1 := Step(v, c, k, getTransformOrigin, events[0]);
      RunOwnership(v1, c, k, getTransformOrigin, events[1..]);
      if !SomeFinished(events) {
        assert events[0] != Completion(true);
        assert !SomeFinished(events[1..]) by {
          forall i | 0 <= i < |events[1..]|
            ensures events[1..][i] != Completion(true)
          {
            assert events[1..][i] == events[i + 1];
          }
        }
      }
    }
  }
}
