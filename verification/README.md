# Bottom-sheet drawer: release decisions and position arithmetic

This project models the pure arithmetic of a draggable "bottom drawer" that
shares the screen with a scrollable content region. Two variants are modelled:

- **Three-snap drawer** (`App.js`). The drawer rests at 50, 300 or 500 points
  from the top. On release, the handler projects where the drawer would land.
  The projection is the last snap, plus the drag net of the latched scroll
  offset, plus 0.05 times the velocity. The handler then picks the nearest snap
  point with a linear scan. Ties go to the earlier entry.
- **Two-state drawer** (`test.js`). The drawer is open (50) or hidden (300).
  On release it projects `translationY + 0.05·velocityY`. A hidden drawer opens
  only below −150. An open drawer stays open only below +150. Between these
  two cutoffs the drawer keeps its current state (hysteresis).

Both variants also model the clamped drawer translation and the master pan
handler's `maxDeltaY` travel bound. The three-snap variant also models the
`_showScroll` step value; the component computes `_showScroll` but never
reads it (scrolling is gated by the master handler instead). The shared `getStateNameFromEnum` diagnostic is
modelled once.

Modules:

- `Options`: an optional spring target.
- `GestureStates`: the handler states, plus an `Unrecognized(code)` case for any
  other value. Also the handler event, the state's diagnostic name and the
  decimal rendering of integers.
- `Interpolation`: two-point `interpolate` with `extrapolate: 'clamp'`.
- `NearestSnap`: the argmin scan. It has a recursive form, the loop method that
  mirrors the `for` loop of `_onHandlerStateChange` in App.js, and the predicate `IsNearestAt` that says which index is the earliest nearest one.
- `ThreeSnapDrawer`: the `App.js` component logic.
- `BinaryDrawer`: the `test.js` component logic.

JavaScript numbers are modelled as exact reals, so `0.05` is exactly 1/20.

Two details of the release handlers:

- Every transition out of ACTIVE runs the release decision, including
  ACTIVE→CANCELLED and ACTIVE→FAILED (App.js:70, test.js:90).
- The three-snap projection subtracts the scroll offset latched when a scroll
  drag begins, `_lastScrollYValue` (App.js:72).

## Model

| member | source | states |
|---|---|---|
| GestureStates.StateName | App.js:148-165 | Known states get their fixed names. Any other value gets "Invalid gesture state: " followed by a canonical decimal numeral (optional minus, no superfluous leading zero, never "-0") that reads back as that value. The function is total and never fails. |
| GestureStates.EndsActive | App.js:70 | A callback reaches the release decision exactly when the diagnostic name of its old state is "ACTIVE", whatever the new state is. |
| GestureStates.NatToDecimal | test.js:211 | The numeral of a natural number is a non-empty digit string with no superfluous leading zero; it starts with '0' exactly when the number is 0. |
| GestureStates.IntToDecimal | App.js:163 | The numeral of an integer is canonical: a minus sign exactly for negatives, followed by a canonical numeral of the magnitude. |
| GestureStates.CanonicalNatUnique | test.js:211 | Every canonical natural numeral is the one written for its value, so the rendering is determined exactly. |
| GestureStates.CanonicalIntUnique | App.js:163 | Every canonical integer numeral, sign included, is the one written for its value. |
| GestureStates.StateNamesDistinct | test.js:196-213 | Two states with the same diagnostic name are the same state. |
| GestureStates.StateNameRoundTrip | test.js:196-213 | Reading a state's name back yields that state. |
| GestureStates.NatDecimalRoundTrip | test.js:211 | The decimal numeral of a natural number reads back as that number. |
| GestureStates.IntDecimalRoundTrip | test.js:211 | The numeral of an integer, with its minus sign, reads back as that integer. |
| Interpolation.Ramp | App.js:57-61 | The linear map of an in-range input lies between the output ends, sends the input ends to the output ends, and lies on the straight line through them. |
| Interpolation.Interpolate | App.js:63-67 | The result lies between the two output ends. Inputs at or below the input range give the first output. Inputs at or above it give the second. Inside the range the result is on the straight line through the two endpoint pairs. |
| Interpolation.InterpolateIdentity | App.js:57-61 | An interpolation whose input and output ranges are equal is a clamp to that range. |
| NearestSnap.ArgminFrom | App.js:78-84 | Continuing the scan from any prefix whose best is correct ends at the earliest index of minimal distance. |
| NearestSnap.Nearest | App.js:77-84 | The chosen point is a snap point. No snap point is nearer the target. It sits at the earliest index of minimal distance. |
| NearestSnap.NearestAtUnique | App.js:81 | Only one index can be the earliest nearest one, so strict-`<` replacement fixes the tie-break. |
| NearestSnap.NearestIsEarliestClosest | App.js:77-84 | Whichever index is earliest among the nearest, its point is the one chosen. |
| NearestSnap.NearestOfSnapPoint | App.js:77-84 | A target equal to a snap point selects that snap point. |
| NearestSnap.ResolveSnap | App.js:77-84 | The loop returns a snap point no farther from the target than any other. It is the same point as `Nearest`. |
| ThreeSnapDrawer.Initial | App.js:19-24 | The drawer starts on a snap point, the lowest one (END). |
| ThreeSnapDrawer.EndOffsetY | App.js:71-75 | With zero velocity, the projection is the resting snap moved by the drag net of the scroll offset. With no net drag, it is the snap moved by velocity/20. |
| ThreeSnapDrawer.OnHandlerStateChange | App.js:69-85 | A transition that does not leave ACTIVE changes nothing and starts no spring. Leaving ACTIVE sets `lastSnap` to a snap point no farther from the projection than any other, the earliest such in array order, and springs to it. |
| ThreeSnapDrawer.NearestSnapClosedForm | App.js:13 | For [50, 300, 500] the chosen snap is 50 up to 175, 300 up to 400, and 500 beyond. |
| ThreeSnapDrawer.TiesGoToUpperSnap | App.js:77-84 | A projection of 175 goes to 50, and one of 400 goes to 300. On a tie, the earlier (upper) snap wins. |
| ThreeSnapDrawer.NearestSnapMonotone | App.js:74-84 | A larger projected offset never selects a higher snap point. |
| ThreeSnapDrawer.ReleaseInPlaceKeepsSnap | App.js:71-85 | A release with drag equal to the latched scroll offset and zero velocity keeps `lastSnap` unchanged. |
| ThreeSnapDrawer.RunStaysAtSnapPoint | App.js:85 | From a snap point, `lastSnap` is still a snap point after any sequence of callbacks. |
| ThreeSnapDrawer.ReachableStatesAtSnapPoint | App.js:13-24 | Every state reachable from construction has `lastSnap` among the snap points. |
| ThreeSnapDrawer.ReleaseScenarios | App.js:69-85 | From 500, a release at +250 stays at 500 and a release at −250 goes to 300. |
| ThreeSnapDrawer.MaxDeltaY | App.js:105 | For a snap-point `lastSnap`, the bound lies in [0, 450]. It is 0 exactly when the drawer rests at the top snap. |
| ThreeSnapDrawer.TranslateY | App.js:48-61 | The translation lies in [50, 500]. It equals offset + drag − scroll when that sum is in range, and sticks to the nearer end otherwise. |
| ThreeSnapDrawer.ShowScroll | App.js:63-67 | The value lies in [0, 1]. It is 1 exactly when the translation is ≤ 50, and 0 exactly when it is ≥ 51. |
| ThreeSnapDrawer.ScrollShownOnlyWhenOpen | App.js:54-67 | The composed `_showScroll` value is 1 exactly when the unclamped offset + drag − scroll reaches the top snap. |
| BinaryDrawer.Initial | test.js:84-86 | The drawer starts hidden. |
| BinaryDrawer.EndOffsetY | test.js:91-93 | With zero velocity, the projection is the translation. With zero translation, it is velocity/20. It takes no drawer state. |
| BinaryDrawer.Decide | test.js:95-111 | The spring target is the resting offset of the new state. A hidden drawer opens iff the projection is < −150. An open drawer stays open iff it is < 150. |
| BinaryDrawer.Hysteresis | test.js:99-111 | For projections in [−150, 150) the new hidden flag and target equal the old state's. |
| BinaryDrawer.DecisionOutsideBand | test.js:99-111 | Outside [−150, 150) the decision does not depend on the previous state. |
| BinaryDrawer.DecideIdempotent | test.js:95-118 | Deciding again from the resulting state with the same projection gives the same decision. |
| BinaryDrawer.OnHandlerStateChange | test.js:89-118 | A transition that does not leave ACTIVE changes nothing. Leaving ACTIVE, even to CANCELLED, springs to the new state's resting offset. The drawer ends open iff the projection is below the cutoff for its previous state. |
| BinaryDrawer.MaxDeltaY | test.js:150 | The bound is the distance from the resting offset up to the open position. It is ≥ 0, and 0 exactly when the drawer is open. |
| BinaryDrawer.TranslateY | test.js:74-82 | The translation lies in [50, 500]. It equals drag term + offset when that sum is in range, and the nearer end otherwise. |
| BinaryDrawer.RestingOffsetsInRange | test.js:95-111 | Both spring targets lie in the translation range, so resting there is not clamped. |
| BinaryDrawer.OpenScenario | test.js:99-104 | A hidden drawer released at −200 with no velocity opens: target 50, not hidden. |

## Left out

- Rendering, styles, the header view and the lorem-ipsum text. They are presentation only.
- Recognizer arbitration (`waitFor`, `simultaneousHandlers`, `minDeltaY`, `disallowInterruption`). The gesture-handler runtime evaluates these props and is not modelled. Only the `maxDeltaY` arithmetic is.
- The spring animation (`Animated.spring`, tension 68, friction 12). It is time-stepped floating-point physics inside the animation library.
- The offset commit on release (`extractOffset`, `setValue`, `flattenOffset`, resetting the drag value). This is animation-library behaviour. The model therefore says nothing about where the drawer visually settles, or whether the translation is continuous at release.
- The scroll listeners that latch `_lastScrollYValue` and the `_lastScrollY` value. The latched scroll offset is a parameter of the release handler and of `TranslateY`.
- The `test.js` scroll locks (`_drawerDragLock`, `_masterDrawerDragLock`) and `_dragUnlocked`. `_dragUnlocked` multiplies by the undefined field `_drawerDragLog`. `BinaryDrawer.TranslateY` takes that term as a parameter.
- `console.log` tracing and the `_logState` wrappers.
- The numeric codes of the library's `State` enum. States are a datatype. `Unrecognized(code)` stands for any value that matches none of the six known states.
- Floating-point rounding and non-finite values. Offsets and velocities are exact reals, so `0.05` is exactly 1/20 and sums do not round; NaN and ±Infinity are not modelled (with an infinite velocity every distance comparison in the scan is false and the JavaScript component keeps the first snap).
- GestureStates.StateName: renders an unrecognized code of any size with all its digits; JavaScript writes numbers of magnitude 10^21 or more in exponent form and cannot hold integers above 2^53 exactly, so the name agrees with the JavaScript component only for codes of smaller magnitude.
- Interpolation.Interpolate: models only the two-point, clamped, non-degenerate case (input range strictly increasing). The library's easing and other extrapolation modes are not used by these files.
