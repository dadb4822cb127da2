# react-native-hold-menu: placement geometry and activation state machine

This project models the core of react-native-hold-menu, a React Native
library for context menus. A long press or a tap on a registered item
shrinks the item. The item is then lifted into a floating copy above a
dimmed backdrop, and a menu opens next to it. The model covers two things.

**Placement.**
- The menu opens at an anchor such as "top-left" or "bottom-right".
- `calculateTransformValue` computes the vertical correction `tY`. It keeps a downward menu above the screen bottom and an upward menu below the screen top.
- `leftOrRight` aligns the menu horizontally.
- `Menu` places the menu wrapper.
- `MenuList` builds the menu's own style.
- `getColor` picks the text colour of a menu entry.

**Activation and dismissal.**
- `HoldItemModal` has `present(isTap)`, a re-entrancy lock against repeated taps, and the completion callback that makes an item active.
- `dismiss` ends the menu, and so does the overlay tap.
- The backdrop's tap gesture closes the menu on a short tap.
- The providers initialise the shared cells.
- Every component derives its styles from those cells.

## How the model is organised

**Values.** Numbers are `real`. An absent value (`undefined`) is
`Common.Option`. JavaScript falsiness is written out where the source relies
on it:
- `x || 'top-left'` also replaces the empty string.
- `backDropOpacity || 0.6` also replaces 0.
- A default parameter (`menuAnchorPosition = 'top-left'`) replaces only an absent value.

**Shared cells.** Shared values that components write in place are fields of classes:
- `Provider.InternalState` holds the cells of the hold-menu provider, `useInternal`.
- `HoldItemProvider.HoldItemState` holds the cells of the per-item provider, `useHoldItem`.
- `InitValue.InitValue` holds the cells of `useInitValue`.

**Event handlers.** Handlers that write cells are methods, with field-level
`modifies` frames.

**HoldItemModal.** Its transition logic is written twice, each form proved against the other:
- `ModalTransitions` gives it as pure functions over a `Cells` value.
- The class `HoldItemModal.Modal` performs the same writes in place. Each of its methods ensures `Cells() == ModalTransitions.X(old(Cells()), …)`.
- Trace lemmas over sequences of calls (`ModalTransitions.Run`) state the lock and ownership properties.

**Animations.** An animated value is described by the request written to it
(`Common.Anim`), not by its motion in time:
- `Assign` is a direct write.
- `Timing` is `withTiming`, and records whether the completion callback is attached.
- `Spring`, `Delay` and `Sequence` are `withSpring`, `withDelay` and `withSequence`.
- `Settles` is the value an animation comes to rest at.

The completion callback of the press animation is the method
`Modal.OnCompletion(finished)`. It is called explicitly, with the engine's
`finished` flag as its argument.

**Anchors.** `includes('top')` is `Anchor.Includes`, which is specified by an
occurrence predicate. `split('-')` is `Anchor.Split`, with its inverse
`Anchor.Join` and a proved round trip.

**Context variants.** The providers and their consumers do not agree on which
context holds which cells:
- `HoldItemModal` takes `menuProps`, `state` and `safeAreaInsets` from `useInternal`, but `Provider.tsx` creates no `menuProps`.
- `Backdrop` takes `state` from `useHoldItem`, but `HoldItemProvider.tsx` creates no `state`.
- `HoldItem` reads `currentId`, `activeId` and `itemScale` from `useInternal` and writes the measured rectangle there (HoldItem.tsx:26-34, 71-86). `HoldItemModal` instead writes `currentId`, `animatedActiveId` and `itemScale` of `useHoldItem` and reads the rectangle from there (HoldItemModal.tsx:55-66). The modal never writes `activeId`, so its press never triggers a measurement. The measured rectangle never reaches the modal's placement. Making the modal's item current does not hide the item in place, which reads the other `currentId`.

The model follows what each consumer reads:
- `state` lives in `Provider.InternalState`.
- The modal's `menuProps` is a field of the modal, initialised from its context.
- `safeAreaInsets` is part of the modal's configuration.
- `HoldItem.HoldItem` holds a `Provider.InternalState`, and `HoldItemModal.Modal` holds a `HoldItemProvider.HoldItemState`, as each component reads.

## Model

| member | source | states |
|---|---|---|
| Anchor.OrTopLeft | src/hooks/useInitValue.ts:21-23 | an absent or empty anchor falls back to "top-left"; any other anchor is kept; the result is never empty |
| Anchor.Includes | src/utils/calculateTransformValue.ts:32 | `includes` holds exactly when the substring occurs at some index of the string |
| Anchor.Split | src/components/menu/calculations.ts:17 | `split` returns at least one part; no part contains the separator; joining the parts with the separator gives back the input |
| Anchor.SplitJoin | src/components/menu/calculations.ts:17 | splitting a join of separator-free parts gives back exactly those parts (the inverse of the round trip above) |
| Anchor.VerticalToken | src/components/menu/Menu.tsx:45 | `split('-')[0]` contains no '-' and is the prefix of the anchor up to its first '-' or its end |
| Anchor.HorizontalToken | src/components/menu/calculations.ts:17 | `split('-')[1]` exists exactly when the anchor contains a '-'; it contains no '-' and is the text between the first '-' and the next '-' or the end |
| Anchor.TwoTokens | src/components/menu/Menu.tsx:45 | for a "v-h" name built from two separator-free words, `split('-')` is [v, h], token 0 is v and token 1 is h |
| Anchor.StandardAnchor | src/utils/calculateTransformValue.ts:32 | for the four standard anchors, the tokens are the vertical and horizontal names, and `includes('top')` holds exactly for the top anchors |
| TransformValue.CalculateTransformValue | src/utils/calculateTransformValue.ts:5-52 | disableMove gives 0; with a top anchor the offset is never positive and it brings the menu's lower end (bottom inset included) within the screen; with any other anchor and non-negative spacing the offset is never negative and it brings the menu's upper end (top inset included) to or below the screen top |
| TransformValue.TopAnchorOffset | src/utils/calculateTransformValue.ts:37-44 | beyond the screen bottom the correction is exactly the overflow and is negative; at or within it (strict `>` comparison) there is no correction |
| TransformValue.BottomAnchorOffset | src/utils/calculateTransformValue.ts:46-48 | above the screen top the correction leaves the menu top at twice the spacing; at or below it (strict `<` comparison) there is no correction |
| TransformValue.BottomCorrectionPositive | src/utils/calculateTransformValue.ts:46-48 | with non-negative spacing, an upward menu that would start above the screen top is always moved down by a positive amount |
| TransformValue.OrientationPicksScreenAxis | src/utils/calculateTransformValue.ts:29-30 | portrait depends only on WINDOW_HEIGHT; landscape is portrait with WINDOW_WIDTH in place of WINDOW_HEIGHT |
| TransformValue.MissingInsetsAreZero | src/utils/calculateTransformValue.ts:42-47 | absent safe-area insets give the same offset as all-zero insets (`?.x \|\| 0`) |
| TransformValue.TopRightScenario | src/utils/calculateTransformValue.ts:37-44 | an item at y=500 with height 40, a 120-high menu, spacing 8, bottom inset 50 and a top-right anchor: offset 0 on an 800-high screen and -18 on a 700-high one |
| MenuCalculations.LeftOrRight | src/components/menu/calculations.ts:10-27 | a "right" horizontal token right-aligns the menu with the item (left + menuWidth = itemWidth); "left" gives 0; any other token, or none, places the menu centre at -itemWidth/2 |
| MenuCalculations.StandardAnchorAlignment | src/components/menu/calculations.ts:20-23 | on the standard anchors, a right anchor right-aligns and a left anchor left-aligns |
| MenuCalculations.NoSeparatorCentres | src/components/menu/calculations.ts:17-24 | an anchor without '-' has no horizontal token and takes the centring branch |
| MenuCalculations.GetColor | src/components/menu/calculations.ts:29-44 | the title colour appears exactly for titles; for other entries a destructive colour appears exactly when the entry is destructive, and a dark-theme colour exactly when the theme is dark |
| MenuCalculations.TitleWins | src/components/menu/calculations.ts:35-36 | a title's colour does not depend on the destructive flag or the theme |
| Menu.WrapperStyles | src/components/menu/Menu.tsx:44-68 | a "top" vertical token puts the wrapper 8 below the item's lower edge, any other token 8 above its top; left and width are the item's; translateY springs to the offset exactly when the state is ACTIVE and otherwise times back to 0 |
| Menu.StandardAnchorPlacement | src/components/menu/Menu.tsx:45-50 | on the standard anchors, the token test agrees with the `includes('top')` test that computes the offset; top anchors open below the item and bottom anchors above it |
| MenuList.DefaultAnchor | src/components/menu/MenuList.tsx:23 | the default parameter replaces only an absent anchor with "top-left" |
| MenuList.IsActive | src/components/menu/MenuList.tsx:46-49 | a list without an id follows the ACTIVE state; a list with an id is active exactly when it is current |
| MenuList.AtMostOneOwnedListActive | src/components/menu/MenuList.tsx:46-49 | two lists with different ids are never active together |
| MenuList.MessageStyles | src/components/menu/MenuList.tsx:32-78 | left is `leftOrRight` of the defaulted anchor; height and width are the menu's; opacity and scale settle at 1 exactly when active and at 0 otherwise; the scale springs exactly when active; the transform is the 5-step list (begin translations, scale, end translations) built from the anchor animation |
| MenuList.OmittedAnchorAlignsLeft | src/components/menu/MenuList.tsx:23 | a list created without an anchor is left-aligned with its item |
| Provider.InternalState.constructor | src/components/provider/Provider.tsx:13-30 | the provider starts with empty current and active ids, UNDETERMINED state, a zero rectangle, scale 1, anchor "top-left" and a zero menu size |
| HoldItemProvider.HoldItemState.constructor | src/components/holdItem/HoldItemProvider.tsx:9-23 | the hold-item provider starts with no current and no animated id, a zero rectangle, scale 1, offset 0, anchor "top-right", not visible and menu height 0 |
| InitValue.InitValue.constructor | src/hooks/useInitValue.ts:11-26 | the initial cells: UNDETERMINED state, a zero rectangle, scale 1, the given anchor or "top-left", and a zero menu size |
| HoldItem.IsActive | src/components/holdItem/HoldItem.tsx:38 | the item is active exactly when its name is the provider's current id; the flag is derived, never stored |
| HoldItem.HoldItem.Active | src/components/holdItem/HoldItem.tsx:38 | the item's `isActive`, read from its provider's current cells |
| HoldItem.MountUnderFreshProvider | src/components/holdItem/HoldItem.tsx:38 | an item mounted under a newly created provider (current id "", state UNDETERMINED) is active exactly when its name is "" |
| HoldItem.AnimatedContainerStyle | src/components/holdItem/HoldItem.tsx:46-62 | the item in place settles invisible exactly while active and reappears after the transform duration otherwise; while active it scales to 1; an inactive pressed item follows the shared scale; every other item rests at scale 1 with no completion callback |
| HoldItem.HoldItem.OnActiveIdChange | src/components/holdItem/HoldItem.tsx:71-86 | when this item becomes the active id and is measured, the shared rectangle becomes its page rectangle; otherwise, including a failed measurement, the rectangle is unchanged |
| Backdrop.ShouldClose | src/components/backdrop/Backdrop.tsx:45-49 | a gesture closes exactly when its squared drag is below 100 |
| Backdrop.ShouldCloseMatchesDistance | src/components/backdrop/Backdrop.tsx:45-49 | for the true drag length d, the squared test is the source's `d < 10` |
| Backdrop.DragOfTenKeepsOpen | src/components/backdrop/Backdrop.tsx:49 | drags of exactly 10 points (6-8 and 10-0) do not close |
| Backdrop.OpacityOrDefault | src/components/backdrop/Backdrop.tsx:73 | an absent or zero opacity becomes 0.6, any other is kept; the result is never 0 |
| Backdrop.AnimatedContainerStyle | src/components/backdrop/Backdrop.tsx:60-83 | while ACTIVE the backdrop sits at top 0; otherwise it jumps to the screen height after the transform duration; its opacity is a timing of the transform duration that settles non-zero exactly while ACTIVE, at the defaulted opacity |
| Backdrop.TapGesture.OnStart | src/components/backdrop/Backdrop.tsx:38-40 | the gesture records its start position and writes no shared cell |
| Backdrop.TapGesture.OnCancel | src/components/backdrop/Backdrop.tsx:41-43 | a cancelled gesture sets the state to END |
| Backdrop.TapGesture.OnEnd | src/components/backdrop/Backdrop.tsx:44-55 | the state becomes END exactly when the drag is short and the state was ACTIVE; otherwise it is unchanged |
| PortalStyle.AnimatedPortalStyle | src/components/holdItem/HoldItemModal.tsx:228-259 | the floating copy covers the item's rectangle; translateY is 0 under disableMove, otherwise a spring to the offset while active and a timing to -0.1 when inactive; opacity settles at 1 while active and at 0 after the transform duration otherwise; scale times to 1 while active and follows the shared scale otherwise |
| Portal.IsActive | src/components/holdItem/portal.tsx:42 | the copy is active exactly when its name is the provider's current id; derived, never stored |
| Portal.AnimatedPortalStyle | src/components/holdItem/portal.tsx:45-76 | the same style with the caller's offset: translateY is 0 under disableMove, otherwise a spring to the caller's offset while active and a timing to -0.1 when inactive; opacity and scale settle at 1 while active, the shared scale and opacity 0 otherwise; the item's rectangle |
| Portal.AnimatedPortalProps | src/components/holdItem/portal.tsx:78-80 | pointer events are box-none exactly while active and none otherwise |
| Portal.MenuAnchor | src/components/holdItem/portal.tsx:113 | the menu gets the configured anchor, or "top-left" when it is absent or empty |
| Portal.NoDoubleImage | src/components/holdItem/portal.tsx:64 | the item in place and its floating copy settle at opacities that add up to 1, so exactly one of them is visible |
| Portal.OnMenuLayout | src/components/holdItem/portal.tsx:87-91 | the laid-out height and width become the menu size and nothing else is written |
| HoldItemPortal.InlineTransformValue | src/components/holdItem/HoldItemPortal.tsx:53-80 | the inline copy of the computation returns the same offset as `calculateTransformValue` on every input |
| HoldItemPortal.AnimatedPortalStyle | src/components/holdItem/HoldItemPortal.tsx:49-109 | translateY is 0 under disableMove, a spring to `calculateTransformValue` while active, and settles at -0.1 otherwise; opacity and scale settle at 1 while active; when inactive, opacity settles at 0 and scale at the shared scale's target; the item's rectangle |
| HoldItemPortal.AnimatedPortalProps | src/components/holdItem/HoldItemPortal.tsx:116-118 | pointer events are auto exactly while active and none otherwise |
| HoldItemPortal.OnOverlayTap | src/components/holdItem/HoldItemPortal.tsx:120-127 | with close-on-tap an overlay tap sets the state to END; otherwise the state is unchanged |
| ModalTransitions.IsActive | src/components/holdItem/HoldItemModal.tsx:72 | the modal is active exactly when its id is the current id; derived from the cells, never stored |
| ModalTransitions.AtMostOneActive | src/components/holdItem/HoldItemModal.tsx:72 | two modals with different ids are never active at the same time |
| ModalTransitions.UnnamedModalActiveWhileNoneCurrent | src/components/holdItem/HoldItemModal.tsx:72 | a modal without an id is active exactly while no item is current (`undefined === undefined`) |
| ModalTransitions.CanCallActivateFunctions | src/components/holdItem/HoldItemModal.tsx:186-194 | the lock refuses exactly a tap made while the animation is started; holds always pass |
| ModalTransitions.ActivateAnimation | src/components/holdItem/HoldItemModal.tsx:76-87 | without a configured anchor (absent or empty) the anchor becomes getTransformOrigin of the item's x and width, the screen width of the orientation, and `bottom`; with one, nothing changes |
| ModalTransitions.CalculateTransformValue | src/components/holdItem/HoldItemModal.tsx:89-116 | the modal's inline computation over its cells returns the same offset as `calculateTransformValue` |
| ModalTransitions.SetMenuProps | src/components/holdItem/HoldItemModal.tsx:118-130 | the snapshot holds the current rectangle, anchor, menu height and offset; no other cell changes |
| ModalTransitions.ScaleBack | src/components/holdItem/HoldItemModal.tsx:132-137 | the scale tweens to 1 in half the transform duration with no callback; no other cell changes |
| ModalTransitions.ScaleHold | src/components/holdItem/HoldItemModal.tsx:154-161 | the scale tweens to the scale-down value over the scale-down duration with the completion callback attached; no other cell changes |
| ModalTransitions.ScaleTap | src/components/holdItem/HoldItemModal.tsx:163-179 | the lock is taken; the scale runs down to the scale-down value, then back to 1, with the callback only on the second step; no other cell changes |
| ModalTransitions.OnCompletion | src/components/holdItem/HoldItemModal.tsx:139-152 | the lock is always released; a finished animation makes the state ACTIVE, the modal's id current and the scale tween back to 1 in half the transform duration; an interrupted one changes nothing else; placement cells are untouched |
| ModalTransitions.CompletionMakesSoleActive | src/components/holdItem/HoldItemModal.tsx:142-147 | after a finished completion, exactly the modals with this id are active |
| ModalTransitions.Present | src/components/holdItem/HoldItemModal.tsx:198-217 | the pressed id is always recorded; state, current item and rectangle never change; a refused tap changes nothing else; otherwise the anchor is recomputed, the offset is computed from the new anchor, the snapshot holds both, and an inactive item starts the press animation (hold: scale down with the callback; tap: take the lock and run the down-up sequence) while an active one keeps its scale and lock |
| ModalTransitions.HoldNeverBlocked | src/components/holdItem/HoldItemModal.tsx:154-161 | a hold never changes the lock, always snapshots the offset it wrote, and on an inactive item attaches the completion callback |
| ModalTransitions.HoldThenCompletionActivates | src/components/holdItem/HoldItemModal.tsx:198-217 | a hold on an inactive item followed by a finished completion leaves the menu ACTIVE, the item current, the lock free, the snapshot from the press and the scale tweening back to 1 |
| ModalTransitions.Dismiss | src/components/holdItem/HoldItemModal.tsx:219-222 | dismiss sets the state to END and changes nothing else; the current item stays recorded |
| ModalTransitions.OverlayTap | src/components/holdItem/HoldItemModal.tsx:274-276 | with close-on-tap an overlay tap is a dismiss; otherwise nothing changes |
| ModalTransitions.RepeatedTapsIgnored | src/components/holdItem/HoldItemModal.tsx:181-194 | while the lock is held, any non-empty run of taps only re-records the pressed id |
| ModalTransitions.LockHeldUntilCompletion | src/components/holdItem/HoldItemModal.tsx:149 | once taken, the lock stays taken through any calls that are not a completion |
| ModalTransitions.RunOwnership | src/components/holdItem/HoldItemModal.tsx:139-152 | after any calls, the current item is the initial one or the modal's own and the state is the initial one, ACTIVE or END; without a finished completion the current item is unchanged and the menu does not become ACTIVE |
| HoldItemModal.AnimatedPortalStyle | src/components/holdItem/HoldItemModal.tsx:228-259 | the modal's floating copy: 0 under disableMove, a spring to `calculateTransformValue` of its cells while active, settles at -0.1 otherwise; opacity settles at 1 exactly while active; inactive, it follows the shared scale; the item's rectangle |
| HoldItemModal.AnimatedPortalProps | src/components/holdItem/HoldItemModal.tsx:261-263 | pointer events are auto exactly while active and none otherwise |
| HoldItemModal.Modal.constructor | src/components/holdItem/HoldItemModal.tsx:69 | a modal starts with the lock free |
| HoldItemModal.Modal.ActivateAnimation | src/components/holdItem/HoldItemModal.tsx:76-87 | writes only the anchor cell, as `ModalTransitions.ActivateAnimation` states |
| HoldItemModal.Modal.SetMenuProps | src/components/holdItem/HoldItemModal.tsx:118-130 | writes the snapshot of the rectangle, anchor, menu height and offset, and nothing else |
| HoldItemModal.Modal.ScaleBack | src/components/holdItem/HoldItemModal.tsx:132-137 | the scale tweens to 1 in half the transform duration, with no callback |
| HoldItemModal.Modal.ScaleHold | src/components/holdItem/HoldItemModal.tsx:154-161 | the scale tweens down with the completion callback attached |
| HoldItemModal.Modal.ScaleTap | src/components/holdItem/HoldItemModal.tsx:163-179 | the lock is taken and the scale runs down then up, with the callback on the second step |
| HoldItemModal.Modal.OnCompletion | src/components/holdItem/HoldItemModal.tsx:139-152 | performs `ModalTransitions.OnCompletion` in place on the provider cells and the lock |
| HoldItemModal.Modal.Present | src/components/holdItem/HoldItemModal.tsx:198-217 | performs `ModalTransitions.Present` in place, with writes limited to the pressed id, anchor, offset, snapshot, scale and lock |
| HoldItemModal.Modal.Dismiss | src/components/holdItem/HoldItemModal.tsx:219-222 | performs `ModalTransitions.Dismiss` in place, writing only the state |
| HoldItemModal.Modal.OnOverlayTap | src/components/holdItem/HoldItemModal.tsx:270-277 | performs `ModalTransitions.OverlayTap` in place, writing only the state |

## Left out

- Rendering: JSX trees, `StyleSheet` entries, `zIndex` and `position`, `Portal` hosts and `nanoid` keys produce no state the model reasons about.
- The animation engine: time, easing, spring configurations and interpolation between frames are not modelled. An animation is its request, and the completion callback is an explicit call.
- `measure(containerRef)` is an input of `HoldItem.HoldItem.OnActiveIdChange`, because layout is native.
- Gesture recognition is not modelled: the gesture callbacks are methods called with their events.
- `useDeviceOrientation` is an input, because the orientation comes from the device.
- `getTransformOrigin` and `menuAnimationAnchor` are function parameters, and their bodies are not part of this model. `utils/calculations.ts` is not part of this model.
- WINDOW_HEIGHT, WINDOW_WIDTH, styleGuide.spacing and the hold-item durations and scale value are fields of `Common.Constants`. The constants module is not part of this model.
- Backdrop.ShouldClose: `Math.hypot(dx, dy) < 10` is compared as `dx² + dy² < 100`, because reals have no square root here. `Backdrop.ShouldCloseMatchesDistance` shows the two agree for the true length.
- Backdrop.TapGesture.OnEnd: requires a recorded start position, which the gesture system guarantees because `onStart` precedes `onEnd`.
- Threads: the split between the JavaScript thread and the UI thread (worklets, `useDerivedValue` recomputation) is not modelled. Derived values are recomputed from the cells at each read.
- Menu entry rendering and menu item press handling lie outside the placement and activation core.
- `types.d.ts`, `context.ts` and `internal.ts` declare types and contexts only.
- The website footer is not part of the library.
- The measure-then-place flow is not connected. `HoldItem.HoldItem.OnActiveIdChange` writes the rectangle into `Provider.InternalState`, but `HoldItemModal.Modal` places from `HoldItemProvider.HoldItemState`, because that is what each component reads.
- Portal.NoDoubleImage: covers only the `portal.tsx` copy, which reads the same `currentId` as the item in place. It does not cover the `HoldItemModal` copy. On that path, activating the modal leaves the item in place visible too, so both settle at opacity 1.
- Numbers are exact reals rather than IEEE doubles. Equalities such as "the offset plus the menu's lower end equals the screen height" hold exactly only in the model.
- Optional booleans (`isTap?`, `isFinised?`, `disableMove?`, `closeOnTap?`, `bottom?`) are `bool`. Where only their truthiness is tested, this is exact. `bottom` is also passed to `getTransformOrigin` (HoldItemModal.tsx:83), where undefined and false are different arguments; the model cannot tell them apart.
- Strings are `seq<char>` rather than UTF-16 code units. Ids are only compared for equality, and anchors are only split at and searched for ASCII text. Both mean the same on either representation.
