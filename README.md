# Bee game physics and collisions, modelled in Dafny

This project models the physics-and-collision core of a small canvas game in which a bee flies around a track of leaves. The game exists in two generations:

- The `src/js/bee.js` prototype. It holds a `Geometry` helper, `Util` helpers, a keyboard `Controller`, a `PhysicalModel` that moves the bee once per tick, an `Interaction` resolver that tests the bee's collision box against the track, and the `Track` data.
- The newer TypeScript modules:
  - `src/js/geometry.ts`: interval and rectangle geometry. Its code matches the prototype's `Geometry` and is modelled once.
  - `src/js/control.ts`: pointer and arrow-key latches.
  - `src/js/physics.ts`: operation tables, speed clamp and position integration.

Layout:

- `wrappers.dfy` (`Wrappers`): `Option` and `Result`. They stand for JavaScript's `null` and for a thrown exception.
- `geometry.dfy` (`Geometry`): interval intersection, the inclusive overlap test, rectangle intersection and side-tagged touching.
- `control.dfy` (`Control`): the zone enums and the pointer-zone search. Class `Control` holds the two latches its handlers overwrite.
- `physics.dfy` (`Physics`): the operation-to-direction tables, `getSpeed` and `getPosition`. Class `Physics` holds `currentSpeed`/`currentPosition`, and its `GetMovement` updates them.
- `bee_util.dfy` (`BeeUtil`): the key-code table, `inArray`, and `mergeObj` writing into an object in place.
- `bee_controller.dfy` (`BeeController`): the pressed-key list. It covers `inKeyArray`, `getKeyInfo`, and the push/splice done by the keydown and keyup handlers.
- `bee_track.dfy` (`BeeTrack`): the track data and the bee's collision envelope.
- `bee_interaction.dfy` (`BeeInteraction`): `isOutsideOf` and `isTouchedOf`.
- `bee_physics.dfy` (`BeePhysics`): sliding and friction gating, the speed clamp, the collision and sliding lists, the collision response, and one `setMovementImage` tick. The latter two are methods of `PhysicalModel` acting on the bee's state `BeeState` (the prototype's `Current`).

Conventions:

- Numbers are `real`s.
- Square roots, `sin`, `cos` and `atan` are never computed. A norm `n` of a vector `v` is an input, given with `Physics.IsNorm(n, v)` (`n >= 0` and `n * n` equal to the squared length of `v`). The pointer angle and pi are inputs as well.
- The prototype's acceleration is turned into a length and an angle, then back into components. The model takes the component sum `(accX, accY)` as input. In exact arithmetic the round trip through the angle and back changes the speed by `(accX, -accY)` (`BeePhysics.DeltaRoundTrip`).

Two boundary cases of the code:

- For rectangles of positive width and height, rectangle intersection returns `null` when they only share an edge. It does not return a rectangle of zero width (`Geometry.RectTestsDisagreeOnSharedEdge`). A rectangle of zero width can still come back as the intersection.
- For segments of positive length, `Geometry.LineIntersection` returns `null` when they only meet at an end point. It does not return an interval of length zero. A segment of length zero can still come back as the intersection (`Geometry.LineIntersectionAsymmetricOnPoint`).

## Model

Some functions carry no contract of their own and are stated by the row of a lemma or method about them: `Geometry.IsRectIntersection` by `IsRectIntersectionSymmetric` and `IsRectIntersectionInclusive`, `Control.PointerZone` by `PointerZoneSpec` and `PointerZoneDirections`, and `BeePhysics.Collisions` and `BeePhysics.SlidingSides` by `PhysicalModel.GetCollision` and `PhysicalModel.GetSliding`.

| member | source | states |
|---|---|---|
| `Geometry.LineIntersection` | src/js/geometry.ts:61-100 | A result runs from the larger start to the smaller end; segments overlapping by a positive length always have one |
| `Geometry.LineIntersectionInside` | src/js/geometry.ts:61-100 | For well-formed segments a result is well-formed and lies inside both inputs |
| `Geometry.LineIntersectionProper` | src/js/geometry.ts:63-97 | For segments of positive length: a result exists iff they overlap by a positive length (strict comparisons) |
| `Geometry.LineIntersectionNoneWhenApart` | src/js/geometry.ts:76-97 | For segments of positive length, segments that are apart or share only an end point give `null` |
| `Geometry.LineIntersectionAsymmetricOnPoint` | src/js/geometry.ts:63-97 | On a zero-length segment the test depends on argument order |
| `Geometry.RectTouching` | src/js/geometry.ts:109-133 | A result names the first side, in the order left, right, top, bottom, whose edge gap is within `pixel`, and carries that side's perpendicular overlap; no gap within `pixel` gives `null` |
| `Geometry.RectTouchingFirstSideDecides` | src/js/geometry.ts:112-132 | The first close side alone decides the result; an empty overlap there gives `null` even if later sides would touch |
| `Geometry.IsRectIntersectionSymmetric` | src/js/geometry.ts:141-148 | The inclusive overlap test is symmetric |
| `Geometry.IsRectIntersectionInclusive` | src/js/geometry.ts:141-148 | For well-formed rectangles the test passes iff the closed spans overlap on both axes; in particular rectangles sharing only an edge (any of the four) or a corner count as intersecting |
| `Geometry.RectIntersection` | src/js/geometry.ts:156-174 | `null` iff the x or the y interval intersection is `null`; otherwise the x bounds come from the x intersection and the y bounds from the y intersection |
| `Geometry.RectIntersectionImpliesIsRectIntersection` | src/js/geometry.ts:141-174 | For well-formed rectangles a non-null intersection implies the inclusive test |
| `Geometry.RectTestsDisagreeOnSharedEdge` | src/js/geometry.ts:141-174 | For proper rectangles the inclusive test holds while the intersection is `null` exactly when they only share an edge line |
| `Control.MoveDirectionOf` | src/js/control.ts:1-8 | The enum is numbered 0 to 5; any other number, such as -1, is no member |
| `Control.OrdinalRoundTrip` | src/js/control.ts:1-8 | Every member is recovered from its number |
| `Control.AreasIncreasing` | src/js/control.ts:38-41 | For any pi > 0 the six zone edges are -pi/2, -3pi/10, -pi/10, pi/10, 3pi/10, pi/2 and strictly increasing |
| `Control.FindZone` | src/js/control.ts:42-44 | The search returns the first index whose zone holds the angle, or -1 when none does; the last index never matches |
| `Control.ZoneUnique` | src/js/control.ts:42-44 | On increasing edges at most one zone holds an angle |
| `Control.FindZoneOnIncreasing` | src/js/control.ts:42-44 | On increasing edges the search fails exactly below the first edge or at or above the last |
| `Control.PointerZoneSpec` | src/js/control.ts:37-45 | The zone number is -1 iff the angle is below -pi/2 or at least pi/2, otherwise the unique index 0..4 whose zone holds it |
| `Control.PointerZoneDirections` | src/js/control.ts:1-45 | Zones 0..4 are LeftTop, LeftBottom, Down, RightBottom, RightTop from left to right; angle pi/2 gives -1, which is no member |
| `Control.Control.constructor` | src/js/control.ts:23-24 | Both latches start at None |
| `Control.Control.OnPointerMove` | src/js/control.ts:27-47 | A pointer at or above the centre changes nothing; below it the zone number, -1 included, is stored; `stepDirection` is untouched |
| `Control.Control.OnKeyDown` | src/js/control.ts:48-58 | ArrowLeft, ArrowRight and ArrowUp set Left, Right and Up; any other key changes nothing; `moveDirection` is untouched |
| `Control.Control.OnKeyUp` | src/js/control.ts:59-61 | Every key release sets `stepDirection` to None and leaves `moveDirection` alone |
| `Physics.FrictionOpposesThrust` | src/js/physics.ts:143-155 | For the four sideways operations friction points opposite to the thrust |
| `Physics.UnlistedOperationsGetNone` | src/js/physics.ts:136-155 | Stand, and any operation missing from a table, gets None from it |
| `Physics.DirectionsOf` | src/js/physics.ts:136-155 | No operation gets both gravity and thrust, gravity never points sideways or up, and any friction is opposite to the thrust |
| `Physics.DirectionsShape` | src/js/physics.ts:136-155 | Only the five slope slides get gravity, only the four sideways operations get friction, MoveUp gets thrust Up alone |
| `Physics.GetSpeed` | src/js/physics.ts:97-112 | A sum below `minSpeed` in length becomes zero; a length between `minSpeed` and `maxSpeed` keeps the plain sum |
| `Physics.SpeedClamp` | src/js/physics.ts:102-106 | Above `maxSpeed` the result has length exactly `maxSpeed`, is parallel to the sum and keeps each component's sign; no result is longer than `maxSpeed` |
| `Physics.GetPosition` | src/js/physics.ts:119-125 | The new position minus the old one is the speed |
| `Physics.RestIsStable` | src/js/physics.ts:97-125 | At rest with no acceleration the speed stays zero and the position stays put |
| `Physics.Physics.constructor` | src/js/physics.ts:69-76 | Speed and position start at zero |
| `Physics.Physics.GetMovement` | src/js/physics.ts:135-164 | The speed becomes `getSpeed` of the old speed and the acceleration of the operation's directions, the position moves by the new speed and is returned, and the speed never exceeds `maxSpeed` |
| `BeeUtil.KeyCodesDistinct` | src/js/bee.js:7-13 | No two key-code entries share a name or a code; ESCAPE is 27 |
| `BeeUtil.InArray` | src/js/bee.js:39-49 | True exactly when the array holds the element |
| `BeeUtil.MergeObj` | src/js/bee.js:56-60 | The object gains every property of the second one, with its value, and keeps its other properties |
| `BeeController.KeyInfo` | src/js/bee.js:440-452 | Over any key-code table: a record exists iff some entry has this code and a control under its name; it is `{which: code}` overwritten by that control |
| `BeeController.KeyInfoOfEntry` | src/js/bee.js:440-452 | The record of a controlled key is built from that key's own control |
| `BeeController.KeyInfoKeepsCode` | src/js/bee.js:440-452 | When no control carries a `which` of its own, the record's `which` is the key code |
| `BeeController.Controller.InKeyArray` | src/js/bee.js:426-433 | True exactly when some pressed key has a loosely equal `which` |
| `BeeController.Controller.GetKeyInfo` | src/js/bee.js:440-452 | Scanning the table it is given and merging into a fresh record yields exactly the record `KeyInfo` describes for that table |
| `BeeController.RemoveFirst` | src/js/bee.js:871-876 | The released list is at most one shorter than the held list, and shorter exactly when some held key has the code |
| `BeeController.RemoveFirstNoMatch` | src/js/bee.js:871-876 | Releasing a key that is not pressed leaves the list as it is |
| `BeeController.RemoveFirstAt` | src/js/bee.js:871-876 | Releasing drops exactly the first matching entry and keeps the others in order |
| `BeeController.RemoveFirstSubset` | src/js/bee.js:871-876 | Releasing removes at most one entry and adds none |
| `BeeController.RemoveFirstReleases` | src/js/bee.js:871-876 | On a list without duplicates, releasing keeps it without duplicates and leaves no entry with that code |
| `BeeController.Controller.constructor` | src/js/bee.js:410-419 | The controller keeps the given controls and starts with no key pressed |
| `BeeController.Controller.OnKeyDown` | src/js/bee.js:847-858 | Escape leaves the list alone; a key with a control that is not yet pressed is appended; anything else changes nothing; the list stays free of duplicates |
| `BeeController.Controller.OnKeyUp` | src/js/bee.js:867-876 | The first entry with the released code is spliced out; the list stays free of duplicates and no longer holds that code |
| `BeeTrack.BeeBox` | src/js/bee.js:668-673 | The collision box around a centre is well-formed and contains the centre |
| `BeeTrack.TrackLayout` | src/js/bee.js:746-766 | Track 1 is the only track; its leaves are proper, strictly inside the border and pairwise apart |
| `BeeInteraction.HitSide` | src/js/bee.js:678-696 | A side is named only when the overlap exceeds `pixel` on some axis. Top exactly when the overlap is wider than tall and its top edge is further from the centre than its bottom edge, bottom when nearer; left exactly when it is not wider than tall and its left edge is further from the centre than its right edge, right when nearer |
| `BeeInteraction.HitSideTie` | src/js/bee.js:679-696 | Equal distances to the two overlap edges along the deciding axis match neither side |
| `BeeInteraction.LeafVerdict` | src/js/bee.js:675-698 | One leaf throws exactly when the inclusive test passes and the intersection is `null`; no contact gives false; with contact it reports true exactly when the side pushed into is one the wall asks for |
| `BeeInteraction.LeafsOutside` | src/js/bee.js:674-700 | The leaf loop answers false iff every leaf says no |
| `BeeInteraction.LeafsOutsideFirst` | src/js/bee.js:674-700 | When the loop does not answer false, its answer is the verdict of the first leaf that does not say no, and every earlier leaf says no |
| `BeeInteraction.IsOutsideOf` | src/js/bee.js:653-701 | A crossed border side the wall asks for gives true; with none, the leaf loop decides |
| `BeeInteraction.OutsideThrowsOnSharedEdge` | src/js/bee.js:676-678 | When the check throws, some leaf overlaps the box only along an edge, so the intersection test passes and the intersection is null |
| `BeeInteraction.VerdictAny` | src/js/bee.js:676-696 | For one leaf, `'any'` hits iff some side hits, and throwing does not depend on the wall |
| `BeeInteraction.LeafsOutsideAny` | src/js/bee.js:674-700 | For the leaf loop, `'any'` answers true iff some side does, and throws only where every side throws |
| `BeeInteraction.OutsideAnyIsDisjunction` | src/js/bee.js:653-701 | `isOutsideOf('any')` is true iff it is true for some side, and throws only where every side throws |
| `BeeInteraction.BorderAsymmetry` | src/js/bee.js:655-666 | On track 1 a box exactly on the bottom border line is outside, one exactly on the top line is not |
| `BeeInteraction.RestingOnLeafThrows` | src/js/bee.js:676-678 | A bee resting exactly on top of leaf 0 makes `isOutsideOf` throw, with pixel 1 as well as 0 |
| `BeeInteraction.LeafsTouched` | src/js/bee.js:731-737 | The leaf loop of `isTouchedOf` is true iff some leaf touches the box on a side the wall asks for |
| `BeeInteraction.IsTouchedOf` | src/js/bee.js:710-739 | True iff a border side the wall asks for is within `pixel`, or some leaf touches on such a side |
| `BeeInteraction.TouchedAnyIsDisjunction` | src/js/bee.js:710-739 | `isTouchedOf('any')` is true iff it is true for some side |
| `BeeInteraction.RestingOnLeafTouchesBottom` | src/js/bee.js:710-739 | A bee resting on leaf 0 touches with its bottom side and not with its top |
| `BeePhysics.Name` | src/js/bee.js:560-569 | No side name has length 2 |
| `BeePhysics.GateAcceleration` | src/js/bee.js:498-506 | Sliding left gives `accX >= 0`, right `accX <= 0`, top `accY <= 0`, bottom `accY >= 0`; on a bottom wall with speed beyond `minspeed` friction opposes the speed's sign; without sliding nothing changes |
| `BeePhysics.GateAccelerationExact` | src/js/bee.js:498-506 | A component comes out zero exactly when it was zero or pushes into a wall slid on (`accY` up into top, down into bottom; the friction-adjusted `accX` into left or right), and is kept otherwise |
| `BeePhysics.ZeroSmall` | src/js/bee.js:555-556 | A speed component below `minspeed` in size becomes zero, any other is kept |
| `BeePhysics.DeltaRoundTrip` | src/js/bee.js:507-523 | With sine and cosine of the direction `getAcceleration` picks, `accelerateImage` (src/js/bee.js:534-535) changes the speed by exactly `Delta(acc)`: `accX` across and `accY` up |
| `BeePhysics.ClampAsWritten` | src/js/bee.js:536-539 | The clamp as written leaves a speed no longer than `maxspeed` unchanged, and rescales `x` as intended |
| `BeePhysics.ClampAsWrittenOvershootsAlways` | src/js/bee.js:536-539 | Whenever the clamp as written fires on a speed with both components non-zero, the result is longer than `maxspeed`; along an axis it agrees with the intended clamp |
| `BeePhysics.OvershootOffAxis` | src/js/bee.js:536-539 | The off-axis half of the overshoot: both components non-zero and the clamp firing give a result longer than `maxspeed` |
| `BeePhysics.ClampAsWrittenOvershoots` | src/js/bee.js:536-539 | The clamp as written turns speed (12, 5) into one longer than `maxspeed` |
| `BeePhysics.Clamp` | src/js/bee.js:536-539 | A speed no longer than `maxspeed` is kept |
| `BeePhysics.ClampBounded` | src/js/bee.js:536-539 | The intended clamp never exceeds `maxspeed`; when it rescales, the length is exactly `maxspeed` and the direction and signs are kept |
| `BeePhysics.Listed` | src/js/bee.js:584-621 | The pushed array holds exactly the flagged sides, in the order top, bottom, left, right |
| `BeePhysics.CollisionList` | src/js/bee.js:584-599 | Throws iff a side test throws; otherwise lists exactly the sides crossed while moving towards them, in list order, never top with bottom nor left with right, at most two |
| `BeePhysics.Respond` | src/js/bee.js:560-572 | A single top/bottom collision reflects and halves `y` only, a single left/right one `x` only, two reflect both, none changes nothing |
| `BeePhysics.RespondDamps` | src/js/bee.js:560-572 | A collision response never increases a speed component or the speed's length |
| `BeePhysics.BeeState.constructor` | src/js/bee.js:259-264 | The bee's current position and speed start as given |
| `BeePhysics.PhysicalModel.constructor` | src/js/bee.js:478 | The model starts sliding on nothing |
| `BeePhysics.PhysicalModel.GetCollision` | src/js/bee.js:584-599 | The pushed list is the collision list at that position and speed |
| `BeePhysics.PhysicalModel.GetSliding` | src/js/bee.js:605-621 | The pushed list holds the sides touched within one pixel while the speed across them is below `minspeed`, in list order |
| `BeePhysics.PhysicalModel.AccelerateImage` | src/js/bee.js:533-545 | With the intended clamp: the speed becomes the clamped sum, the position is kept, the returned position is one tick ahead, and the speed is at most `maxspeed` |
| `BeePhysics.PhysicalModel.SetMovementImage` | src/js/bee.js:551-575 | A throwing collision test ends the tick with the accelerated speed and nothing else changed. Otherwise: sliding is recomputed at the new position, the speed is reflected, and the bee moves only when `isOutsideOf('any', newPos, 1)` is false. The speed always stays within `maxspeed` |

## Left out

- Square roots, `sin`, `cos` and `atan` are not computed. Norms, the pointer angle and pi are inputs, so floating-point rounding is not modelled.
- The acceleration sum in the prototype's `getAcceleration` (src/js/bee.js:486-496) is an input. Its conversion into a magnitude and an angle (src/js/bee.js:507-523) is not computed: `atan`, `sin` and `cos` are replaced by inputs that `BeePhysics.IsDirectionOf` constrains, and `BeePhysics.DeltaRoundTrip` proves that in exact arithmetic the conversion and `accelerateImage` together change the speed by `Delta(acc)`, which the tick applies. Floating-point error in that round trip is not modelled.
- `physics.ts` `getAcceleration` and `applyMovement` are not modelled. They depend on `Mediator.getCoord`/`addCoords`, which the shown geometry does not define, and on drawing. `Physics.Physics.GetMovement` takes the acceleration as a function of the three directions instead.
- The `physics.ts` tables are keyed by `MoveDirection.Left`, `Right` and `Up`, which `control.ts` does not declare. The model uses its own `Heading` enum with those names.
- `physics.ts` imports a `switching` helper from `./utility`, but `src/js/utility.ts` does not define it, so its definition is not part of this model. `Physics.Switching` models it as a map lookup with a default.
- `BeeController.Controller.OnKeyDown` and `OnKeyUp` model only the list update. These handler actions are left out as rendering and timer work:
  - `preventDefault`
  - the timer clears
  - `smoothRotateImage`
  - the new `setMovementImage` tick
  - the control callbacks (`keydown`/`keyup` records)
- `BeePhysics.PhysicalModel.SetMovementImage` is one tick. The `setTimeout` that schedules the next tick is left out, and so is the `angle` passed to `moveImage`, which the move leaves unchanged.
- `BeePhysics.PhysicalModel.AccelerateImage` uses the corrected clamp `BeePhysics.Clamp`, not the clamp as written, so its `maxspeed` bound is the corrected program's (see Findings).
- `BeePhysics.PhysicalModel.SetMovementImage` uses the corrected clamp `BeePhysics.Clamp`, not the clamp as written (see Findings).
- `BeePhysics.ClampAsWritten` requires the second norm to be positive. This follows from the first norm exceeding `maxspeed`, but the model states it rather than derives it.
- JavaScript loose equality in `inKeyArray` and in the keyup loop is modelled only on the values key records hold: numbers, `null`, `undefined` and callback records.
- `mergeObj` copies inherited enumerable properties too. Objects here have none, so a map models them.
- These parts of the repository are not part of this model, being rendering, timers, DOM wiring or build configuration:
  - `GraphicalEngine`, `Util.timeout`/`Util.timer`, `Util.addition`, `getAngleByKeys`, `BeeGame`
  - `src/js/graphics.ts`, `src/js/utility.ts`, `src/js/mediator.ts`, `src/index.ts`
  - `webpack.config.js`
- The prototype's `Geometry` (src/js/bee.js:82-206) matches `src/js/geometry.ts` and is modelled once, in `Geometry`.

## Findings

| source | as written | input that shows it | evidently intended | confidence | as-written member | corrected member |
|---|---|---|---|---|---|---|
| src/js/bee.js:536-539 | `x` is rescaled first; `y` is then rescaled with the length of the half-updated vector `(x', y)` | any speed longer than 6 with both components non-zero; e.g. speed (12, 5), length 13 > 6: `x' = 72/13`, length of `(x', 5)` is 97/13, `y' = 390/97`, squared length about 46.8 > 36 | both components scaled by `maxspeed / length` of the original speed, so the result has length `maxspeed` | not executed | `BeePhysics.ClampAsWrittenOvershootsAlways` | `BeePhysics.ClampBounded` |
