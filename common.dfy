/** Types shared by every part of the hold-menu model. */
module Common {

  /** A value that may be absent (`undefined` in the source). */
  datatype Option<T> = None | Some(value: T)

  /** CONTEXT_MENU_STATE: the activation state of a menu. */
  datatype MenuState = Undetermined | Active | End

  /** What `useDeviceOrientation` reports. */
  datatype Orientation = Portrait | Landscape

  /** Safe-area insets of the device. */
  datatype Insets = Insets(top: real, right: real, bottom: real, left: real)

  /** A laid-out rectangle in page coordinates. */
  datatype Rect = Rect(x: real, y: real, width: real, height: real)

  /**
   * The constants the components import from modules outside this model:
   * WINDOW_HEIGHT, WINDOW_WIDTH, styleGuide.spacing, HOLD_ITEM_SCALE_DOWN_VALUE,
   * HOLD_ITEM_SCALE_DOWN_DURATION and HOLD_ITEM_TRANSFORM_DURATION.
   */
  datatype Constants = Constants(
    windowHeight: real,
    windowWidth: real,
    spacing: real,
    scaleDownValue: real,
    scaleDownDuration: real,
    transformDuration: real)

  /**
   * What a write to an animated value asks the animation engine for.
   * Time is not modelled: an animation is its target and its shape.
   *   Assign    a value written directly, without animation
   *   Timing    withTiming(to, {duration}); `callsBack` says whether the
   *             item's completion callback (onCompletion) is attached
   *   Spring    withSpring(to, config)
   *   Delay     withDelay(delay, inner)
   *   Sequence  withSequence(first, second)
   */
  datatype Anim =
    | Assign(to: real)
    | Timing(to: real, duration: real, callsBack: bool)
    | Spring(to: real)
    | Delay(delay: real, inner: Anim)
    | Sequence(first: Anim, second: Anim)

  /** The value an animation comes to rest at. */
  function Settles(a: Anim): real
  {
    match a
    case Assign(v) => v
    case Timing(v, _, _) => v
    case Spring(v) => v
    case Delay(_, inner) => Settles(inner)
    case Sequence(_, second) => Settles(second)
  }

  /** Whether the completion callback is attached somewhere in the animation. */
  predicate CallsBack(a: Anim)
  {
    match a
    case Assign(_) => false
    case Timing(_, _, cb) => cb
    case Spring(_) => false
    case Delay(_, inner) => CallsBack(inner)
    case Sequence(first, second) => CallsBack(first) || CallsBack(second)
  }

  /** The `pointerEvents` prop of an animated view. */
  datatype PointerEvents = Auto | BoxNone | NoEvents
}
