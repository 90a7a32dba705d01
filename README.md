# Multitouch: pointer tracking and photograph gestures

Multitouch is an Android activity that shows a stack of photographs. The user can
drag, rotate and scale them with one or two fingers. This project models its
tracking core in Dafny and proves properties of it. The core has three parts.

- **Pointer records** (`TouchPoint.java`, module `TouchPoints`). A record is a
  small mutable object: a position, a pointer id and index, a payload (`extra`,
  the tag of the photograph it is bound to) and two flags, `valid` and `isDown`.
  The class `TouchPoints.TouchPoint` has the same fields and setters. The
  datatype `TouchPointState` is its value.
- **Photographs** (`Photograph.java`, modules `Geometry` and `Photographs`).
  - Each photograph keeps three contact slots (`ptsOfContact`, an `array`).
  - It keeps its affine fields `angleBmp`, `sx`, `sy`, `tx`, `ty` and the
    `isHighQuality`, `isMarked` and `isLocked` flags.
  - It also caches the four corners of its drawn region of interest (ROI). Hit
    tests read that cache. It is recomputed by the geometric part of `onDraw`.
  - The class `Photographs.Photograph` mirrors the Java object. Its methods are
    proved against functions on the value `PhotoState`. The slot operations are
    loops over the array.
  - The hit test `InRegion` is the exact integer cross-product test of
    `isPointInROI`.
- **The activity's tracker** (`MultiTouchActivity.java`, modules
  `PointerTracking`, `TrackingInvariants`, `TrackingProperties` and
  `MultiTouch`).
  - `PointerTracking` states each handler as a function on a `World`. A World is
    the pointer map plus the parent's photographs in child order, front-most last.
    A handler returns `None` where the Java code throws.
  - `MultiTouch.Tracker` is the imperative counterpart. It holds a
    `map<int, TouchPoint>` of record objects and a `seq<Photograph>` of children,
    and updates them step by step as the handlers do.
  - A ghost `model` is kept equal to the state of those objects. Every handler
    method is proved to move `model` exactly as the matching function moves the
    World.
  - `TrackingInvariants` proves that every Up, Move and redraw, and every Down
    of a pointer not already down, preserves an invariant that ties the map to
    the contact slots (a Down of a pointer still down after `ACTION_CANCEL`
    breaks it, see Findings):
    - every contact belongs to a valid record bound to that photograph;
    - the ids within a photograph are distinct;
    - the tags are distinct;
    - every valid record names an existing photograph.
  - `TrackingProperties` proves what the handlers do, under that invariant and
    without it.
  - Android redraws a photograph some time after `setAngle`, `setScale` or
    `translate` has called `invalidate`. The redraw recomputes the ROI that the
    next hit test reads. `PointerTracking.Input` is a touch event or such a
    redraw, and `Run` takes any interleaving of the two.

Floating-point values are modelled as `real`. `Math.sqrt`, `Math.atan`,
`Math.cos` and `Math.sin` are passed in as the fields of a `JavaMath` value. They
are not modelled. Java's `(int)` cast of a float is `Base.JavaInt`, which
truncates toward zero.

### Behaviour of the Java code the model keeps
- **A third and a fourth finger.** A photograph has three contact slots
  (Photograph.java:44). A third finger is stored; the count reaches 3, which
  toggles the mark and the lock (MultiTouchActivity.java:238-242). A fourth
  finger finds no free slot. Its record is still valid and bound to the photograph,
  the count is still 3, and both flags toggle again.
- **Missing records.** An Up or a Move for a pointer with no record dereferences
  null (`tp.isValid()` at MultiTouchActivity.java:271, `tp.putXY` at :367) and
  throws. The model returns `None` in both cases.
- **Moves of invalid records.** A Move of an invalid record still stores the new
  position (MultiTouchActivity.java:367).
- **The lock and the angle.** `setAngle` (Photograph.java:524-528) does not look
  at `isLocked`, while `setScale` and `translate` do, so a locked photograph still
  rotates.
- **Cancelled gestures.** The switch of `onTouch` (MultiTouchActivity.java:186-198)
  handles Down, Move and Up only, so an `ACTION_CANCEL` changes nothing and leaves
  its pointers down (see Findings).
- **A null first slot.** The fixed finger of a two-finger gesture is read from
  slot 0, then slot 1 (MultiTouchActivity.java:334-335). A null slot 0 throws, and
  the catch at :357-359 leaves the photograph as it was (see Findings).

## Model

| member | source | states |
|---|---|---|
| `Base.JavaInt` | Multitouch/src/com/asim/learning/MultiTouchActivity.java:224-225 | the `(int)` cast of a float truncates toward zero on either sign: the result is within one of the input, on the zero side |
| `Base.Abs` | Multitouch/src/com/asim/learning/MultiTouchActivity.java:312 | `Math.abs` of an int is non-negative and equals the input or its negation |
| `Base.AbsReal` | Multitouch/src/com/asim/learning/MultiTouchActivity.java:350 | `Math.abs` of a float is non-negative and equals the input or its negation |
| `Geometry.ScaledPoint` | Multitouch/src/com/asim/learning/Photograph.java:404-417 | the offset from the pivot is multiplied by (sx, sy); unit scale returns the point exactly; the pivot maps to itself |
| `Geometry.RotatedPoint` | Multitouch/src/com/asim/learning/Photograph.java:430-453 | a zero angle returns the input point exactly; any angle yields integral coordinates (the int casts) |
| `Geometry.OrientationOfEndpoints` | Multitouch/src/com/asim/learning/Photograph.java:467-484 | both end points of a line have orientation 0 about it |
| `Geometry.OrientationAntisymmetric` | Multitouch/src/com/asim/learning/Photograph.java:467-484 | reversing the line negates the orientation of every point |
| `Geometry.AxisAlignedRegion` | Multitouch/src/com/asim/learning/Photograph.java:490-513 | for an axis-aligned quad of positive size, the four-edge orientation test holds exactly when left <= x <= right and top <= y <= bottom |
| `Geometry.TransformedROI` | Multitouch/src/com/asim/learning/Photograph.java:316-336 | with no rotation and unit scale the transformed corners are the corners of the base rectangle |
| `Geometry.IdentityTransformHit` | Multitouch/src/com/asim/learning/Photograph.java:316-336 | with no rotation and unit scale, the hit test on the transformed ROI is containment in the base rectangle, whatever the pivot |
| `TouchPoints.NewTouchPoint` | Multitouch/src/com/asim/learning/TouchPoint.java:39-42 | the five-argument constructor sets position, id, index and payload, with both flags false |
| `TouchPoints.TouchPoint.constructor` | Multitouch/src/com/asim/learning/TouchPoint.java:23-30 | the default constructor gives ids -1, no payload, both flags false, at (0, 0) |
| `TouchPoints.TouchPoint.WithValues` | Multitouch/src/com/asim/learning/TouchPoint.java:39-42 | the five-argument constructor is setValues applied to a default record |
| `TouchPoints.TouchPoint.SetValues` | Multitouch/src/com/asim/learning/TouchPoint.java:51-58 | sets x, y, pointerId, pointerIndex and extra and leaves valid and isDown untouched |
| `TouchPoints.TouchPoint.PutXY` | Multitouch/src/com/asim/learning/TouchPoint.java:60-71 | afterwards getX() and getY() return the new coordinates and no other field changed |
| `TouchPoints.TouchPoint.SetValidity` | Multitouch/src/com/asim/learning/TouchPoint.java:73-79 | afterwards isValid() returns the value and no other field changed |
| `Photographs.FirstFree` | Multitouch/src/com/asim/learning/Photograph.java:595-600 | the index found is the lowest null slot, or the length when every slot is taken |
| `Photographs.FirstWithId` | Multitouch/src/com/asim/learning/Photograph.java:610-617 | the index found is the lowest slot holding the id, or the length when none does |
| `Photographs.CountContacts` | Multitouch/src/com/asim/learning/Photograph.java:622-629 | the number of non-null slots never exceeds the number of slots (0..3) |
| `Photographs.CountFullIffNoFree` | Multitouch/src/com/asim/learning/Photograph.java:622-629 | the count equals the capacity exactly when no slot is null |
| `Photographs.CountAfterUpdate` | Multitouch/src/com/asim/learning/Photograph.java:622-629 | overwriting one slot changes the count by what came in minus what left |
| `Photographs.AddContactPlacement` | Multitouch/src/com/asim/learning/Photograph.java:593-601 | addTouchPoint stores the point in the lowest null slot and changes no other slot; with all slots full the array is unchanged |
| `Photographs.CountAfterAdd` | Multitouch/src/com/asim/learning/Photograph.java:593-601 | adding raises the count by one exactly when it was below the capacity |
| `Photographs.WithContactSlots` | Multitouch/src/com/asim/learning/Photograph.java:593-601 | after adding, every slot holds its old value or the new point |
| `Photographs.WithContactKeepsDistinct` | Multitouch/src/com/asim/learning/Photograph.java:593-601 | adding a point whose id is absent keeps the ids in the slots distinct |
| `Photographs.RemoveContactPlacement` | Multitouch/src/com/asim/learning/Photograph.java:608-618 | removeTouchPoint nulls only the first slot holding the id; with no match the array is unchanged |
| `Photographs.CountAfterRemove` | Multitouch/src/com/asim/learning/Photograph.java:608-618 | removing lowers the count by one exactly when some slot held the id |
| `Photographs.WithoutContactClears` | Multitouch/src/com/asim/learning/Photograph.java:608-618 | with distinct ids, after removing no slot holds the id, ids stay distinct and every other slot is kept |
| `Photographs.RemoveAfterAdd` | Multitouch/src/com/asim/learning/Photograph.java:593-618 | adding a point with a new id and then removing that id gives the contact array back |
| `Photographs.ScaleStep` | Multitouch/src/com/asim/learning/Photograph.java:550-554 | an axis takes the step exactly when the result exceeds 0.5 and is kept otherwise, so a scale above 0.5 stays above it |
| `Photographs.SetScaleKeepsFloor` | Multitouch/src/com/asim/learning/Photograph.java:548-558 | setScale keeps both sx and sy above 0.5 |
| `Photographs.LockedIgnoresTranslateAndScale` | Multitouch/src/com/asim/learning/Photograph.java:548-577 | on a locked photograph translate and setScale change nothing |
| `Photographs.TranslateRoundTrip` | Multitouch/src/com/asim/learning/Photograph.java:571-577 | translate(x, y) followed by translate(-x, -y) restores tx and ty and every field except isHighQuality |
| `Photographs.SetAngleIgnoresLock` | Multitouch/src/com/asim/learning/Photograph.java:524-528 | setAngle sets the angle and isHighQuality even when locked, and changes nothing else |
| `Photographs.Photograph.constructor` | Multitouch/src/com/asim/learning/Photograph.java:57-91 | unit scale, no translation, empty slots, all flags false, ROI not yet computed, base rectangle at the origin of the not-yet-laid-out view |
| `Photographs.PhotoState.Draw` | Multitouch/src/com/asim/learning/Photograph.java:168-173 | a redraw keeps the bitmap's width and height as the size of the base rectangle, always leaves an ROI, and changes nothing but the base rectangle and the ROI |
| `Photographs.Photograph.InitCoordinates` | Multitouch/src/com/asim/learning/Photograph.java:96-102 | the new state is `Placed` of the old: the base rectangle is centred in the view, shifted by the translation and cast to int; nothing else changes |
| `Photographs.Photograph.TransformROI` | Multitouch/src/com/asim/learning/Photograph.java:316-336 | the new state is `WithROI` of the old: the ROI corners are the base corners rotated and then scaled about the pivot; nothing else changes |
| `Photographs.Photograph.UpdateGeometry` | Multitouch/src/com/asim/learning/Photograph.java:162-174 | the new state is `Draw` of the old: the base rectangle, then the ROI about the rectangle's centre |
| `Photographs.Photograph.SetAngle` | Multitouch/src/com/asim/learning/Photograph.java:524-528 | the new state is the setAngle value of the old one, and the scale floor still holds |
| `Photographs.Photograph.SetScale` | Multitouch/src/com/asim/learning/Photograph.java:548-558 | the new state is the setScale value of the old one: locked, nothing changes; unlocked, each axis steps only above 0.5 |
| `Photographs.Photograph.SetMarker` | Multitouch/src/com/asim/learning/Photograph.java:561-564 | only isMarked changes |
| `Photographs.Photograph.Translate` | Multitouch/src/com/asim/learning/Photograph.java:571-577 | the new state is the translate value of the old one: locked, nothing changes |
| `Photographs.Photograph.AddTouchPoint` | Multitouch/src/com/asim/learning/Photograph.java:593-601 | the array becomes WithContact of its old contents (lowest null slot); no other field changes |
| `Photographs.Photograph.RemoveTouchPoint` | Multitouch/src/com/asim/learning/Photograph.java:608-618 | the array becomes WithoutContact of its old contents (first slot with the id); no other field changes |
| `Photographs.Photograph.GetCountPointsOfContact` | Multitouch/src/com/asim/learning/Photograph.java:622-629 | returns the number of non-null slots |
| `PointerTracking.ResolveAction` | Multitouch/src/com/asim/learning/MultiTouchActivity.java:176-177 | the code is masked with 0xff, masked 5 and 6 become 0 and 1 and all other values are kept; Down, Up and Move are recognised exactly for their codes |
| `PointerTracking.PointerIndex` | Multitouch/src/com/asim/learning/MultiTouchActivity.java:181 | bits 8..15 of the action when more than one pointer is down, 0 otherwise |
| `PointerTracking.TouchedView` | Multitouch/src/com/asim/learning/MultiTouchActivity.java:379-397 | the last child whose ROI holds the point, with no later child hit; -1 (the parent) when none is hit |
| `PointerTracking.IndexOfTag` | Multitouch/src/com/asim/learning/MultiTouchActivity.java:272 | the first child carrying the tag, or -1 when no child does |
| `PointerTracking.BoundPhoto` | Multitouch/src/com/asim/learning/MultiTouchActivity.java:272 | a photograph found by a record's payload carries that tag; null and the parent's tag find none; any other tag finds the first child carrying it, and finds one whenever some child carries it |
| `PointerTracking.BringToFront` | Multitouch/src/com/asim/learning/MultiTouchActivity.java:244 | the child moves to the end and the others keep their relative order |
| `PointerTracking.Inclination` | Multitouch/src/com/asim/learning/MultiTouchActivity.java:410-417 | a vertical line has inclination exactly 90 |
| `PointerTracking.ClampTheta` | Multitouch/src/com/asim/learning/MultiTouchActivity.java:349-350 | a change above 100 degrees in magnitude becomes 0, any other is kept |
| `PointerTracking.FixedContactAsWritten` | Multitouch/src/com/asim/learning/MultiTouchActivity.java:334-335 | the fixed finger is slot 0 when it holds another pointer, slot 1 when slot 0 holds the moving one; none (the NullPointerException) exactly when slot 0 is null, or slot 0 is the moving pointer and slot 1 is null |
| `TrackingInvariants.InvalidIsUntouched` | Multitouch/src/com/asim/learning/MultiTouchActivity.java:229-247 | a pointer without a valid record is no photograph's contact |
| `TrackingInvariants.BringToFrontKeeps` | Multitouch/src/com/asim/learning/MultiTouchActivity.java:244 | bringToFront keeps every photograph well formed and bound, keeps the tags distinct and loses no tag |
| `TrackingInvariants.GestureKeepsShape` | Multitouch/src/com/asim/learning/MultiTouchActivity.java:320-356 | a gesture changes none of the contacts, the tag, the ROI cache, the mark and the lock, and keeps the scale floor |
| `TrackingInvariants.DownKeepsInvariant` | Multitouch/src/com/asim/learning/MultiTouchActivity.java:221-252 | Down of a pointer that is not already down keeps the tracking invariant |
| `TrackingInvariants.UpKeepsInvariant` | Multitouch/src/com/asim/learning/MultiTouchActivity.java:263-281 | Up keeps the tracking invariant whenever it does not throw |
| `TrackingInvariants.MovePointerKeepsInvariant` | Multitouch/src/com/asim/learning/MultiTouchActivity.java:296-369 | one pointer of a Move keeps the tracking invariant whenever it does not throw |
| `TrackingInvariants.MoveKeepsInvariant` | Multitouch/src/com/asim/learning/MultiTouchActivity.java:292-371 | a whole Move keeps the tracking invariant whenever it does not throw |
| `TrackingInvariants.OnTouchKeepsInvariant` | Multitouch/src/com/asim/learning/MultiTouchActivity.java:157-198 | an event that does not throw keeps the tracking invariant, provided that a Down is for a pointer not already down (`DownIsFresh`) |
| `TrackingInvariants.DrawKeepsInvariant` | Multitouch/src/com/asim/learning/Photograph.java:168-174 | a redraw of any child keeps the tracking invariant |
| `TrackingInvariants.StepKeepsInvariant` | Multitouch/src/com/asim/learning/MultiTouchActivity.java:157-198 | a redraw, or a touch event under `DownIsFresh`, keeps the tracking invariant whenever it does not throw |
| `TrackingInvariants.RunKeepsInvariant` | Multitouch/src/com/asim/learning/MultiTouchActivity.java:157-198 | the invariant holds after any interleaving of touch events and redraws that does not throw and whose every Down is fresh in the state it arrives in (`FreshDowns`) |
| `TrackingInvariants.InitialInvariant` | Multitouch/src/com/asim/learning/MultiTouchActivity.java:99-115 | an empty map over photographs with distinct tags and no contacts satisfies the invariant |
| `TrackingProperties.ActionCodeExamples` | Multitouch/src/com/asim/learning/MultiTouchActivity.java:176-182 | 0x0105 is a Down of index 1, 0x0206 an Up of index 2, 2 a Move of index 0, and 3 none of the three |
| `TrackingProperties.DownStoresRecord` | Multitouch/src/com/asim/learning/MultiTouchActivity.java:228-251 | Down stores a record at (x, y) with isDown, valid exactly when a photograph was hit, with that photograph's tag (the parent's otherwise); no other record changes |
| `TrackingProperties.DownChildren` | Multitouch/src/com/asim/learning/MultiTouchActivity.java:232-249 | Down on the parent changes no photograph; on a photograph, that photograph is pressed and moved to the front with the others in order |
| `TrackingProperties.BringToFrontPermutes` | Multitouch/src/com/asim/learning/MultiTouchActivity.java:244 | bringToFront is a permutation of the children |
| `TrackingProperties.DownOnPhotoEffect` | Multitouch/src/com/asim/learning/MultiTouchActivity.java:235-242 | the snapshot goes into the lowest free slot, the count rises to at most 3, the photograph becomes high quality, and mark and lock toggle exactly when the count is then 3 |
| `TrackingProperties.UpRecord` | Multitouch/src/com/asim/learning/MultiTouchActivity.java:269-280 | Up throws exactly for an unknown pointer or a valid record whose photograph is not found; otherwise the record keeps its position, becomes invalid and not down, and no other record changes |
| `TrackingProperties.UpReleasesContact` | Multitouch/src/com/asim/learning/MultiTouchActivity.java:271-276 | under the invariant, Up of a valid record removes its contact from its photograph only, which becomes low quality and loses one contact when the pointer held a slot (a fourth finger holds none) |
| `TrackingProperties.UpSucceeds` | Multitouch/src/com/asim/learning/MultiTouchActivity.java:269-276 | under the invariant, Up of a known pointer never throws |
| `TrackingProperties.MoveWithoutGesture` | Multitouch/src/com/asim/learning/MultiTouchActivity.java:302-312 | an unknown pointer throws; a valid unmoved record is skipped; an invalid or sub-threshold record only gets its new position |
| `TrackingProperties.MoveStoresPosition` | Multitouch/src/com/asim/learning/MultiTouchActivity.java:366-368 | every record that is not skipped ends at the new (int) position with its validity and binding kept; no other record changes |
| `TrackingProperties.MoveKeepsContacts` | Multitouch/src/com/asim/learning/MultiTouchActivity.java:296-369 | a Move never changes a contact slot, a tag, a lock or the child order, so the fixed finger sits at its Down position |
| `TrackingProperties.MoveDispatch` | Multitouch/src/com/asim/learning/MultiTouchActivity.java:312-359 | a valid record past the threshold transforms its own photograph only: translate by (dx, dy) with one contact; with two, rotate and scale about the contact the Java code selects (the other finger when the ids are distinct), or nothing where that selection throws; nothing with any other count |
| `TrackingProperties.RotateScaleEffect` | Multitouch/src/com/asim/learning/MultiTouchActivity.java:338-354 | the angle moves by at most 100 degrees; the scale floor holds; the translation, contacts and flags are kept; a locked photograph keeps its scale |
| `TrackingProperties.VerticalPairKeepsAngle` | Multitouch/src/com/asim/learning/MultiTouchActivity.java:345-350 | with both lines vertical the inclinations are both 90 and the angle is unchanged |
| `TrackingProperties.LockedPhotoKeepsPlacement` | Multitouch/src/com/asim/learning/MultiTouchActivity.java:322-354 | a locked photograph keeps its translation and scale through any gesture; only its angle may change |
| `TrackingProperties.MoveSucceeds` | Multitouch/src/com/asim/learning/MultiTouchActivity.java:296-369 | under the invariant, a Move whose pointers all have records never throws |
| `TrackingProperties.ContactExclusive` | Multitouch/src/com/asim/learning/MultiTouchActivity.java:232-247 | under the invariant a pointer is a contact of at most one photograph, in at most one slot |
| `TrackingProperties.FixedContactsAgree` | Multitouch/src/com/asim/learning/MultiTouchActivity.java:334-335 | where the selection as written picks a contact, the intended selection (the other contact, in any slot) picks the same one |
| `TrackingProperties.FixedContactOfTwo` | Multitouch/src/com/asim/learning/MultiTouchActivity.java:325-335 | with two contacts of distinct ids the intended selection always finds the other finger |
| `TrackingProperties.FixedContactAsWrittenMissesSlots` | Multitouch/src/com/asim/learning/MultiTouchActivity.java:334-335 | three fingers land and the first lifts: the contacts are in slots 1 and 2, the selection as written reads the null slot 0, while the intended one finds the other finger |
| `TrackingProperties.GestureAgrees` | Multitouch/src/com/asim/learning/MultiTouchActivity.java:320-359 | with distinct ids, the gesture as written is the intended gesture wherever its selection does not throw |
| `TrackingProperties.GestureIntendedTwoFingers` | Multitouch/src/com/asim/learning/MultiTouchActivity.java:320-356 | the intended two-finger gesture always rotates and scales about the other finger, a contact of the photograph |
| `TrackingProperties.GestureLostAfterFirstLift` | Multitouch/src/com/asim/learning/MultiTouchActivity.java:334-359 | with the contacts in slots 1 and 2, the gesture as written leaves the photograph unchanged while the intended one rotates and scales about the finger in slot 2 |
| `TrackingProperties.DownOnFullPhotoLeavesNoSlot` | Multitouch/src/com/asim/learning/MultiTouchActivity.java:232-247 | a fourth finger on a photograph gets a valid record bound to it, the invariant holds, but no slot holds its id and the contacts are unchanged |
| `TrackingProperties.RepeatedDownDuplicatesContact` | Multitouch/src/com/asim/learning/MultiTouchActivity.java:186-251 | Down of pointer 0 on a photograph, a cancel, and Down of pointer 0 again: the run does not throw, slots 0 and 1 both hold pointer 0, and the invariant fails |
| `TrackingProperties.DownTwice` | Multitouch/src/com/asim/learning/MultiTouchActivity.java:221-251 | two Downs of the same pointer on the same spot with no Up between store two contacts with its id |
| `TrackingProperties.DownCorrectedKeepsInvariant` | Multitouch/src/com/asim/learning/MultiTouchActivity.java:221-251 | the intended Down, which first releases a press still down, keeps the invariant in every state that satisfies it, and is the Down as written for a pointer not already down |
| `TrackingProperties.DragScenario` | Multitouch/src/com/asim/learning/MultiTouchActivity.java:306-323 | a finger down at (150, 150) on a photo over (100, 100)..(300, 300), moved to (160, 170), translates it by (10, 20); a finger at (50, 50) hits the parent |
| `TrackingProperties.DragThenRedrawScenario` | Multitouch/src/com/asim/learning/Photograph.java:96-102 | a photo dragged by (150, 0) is hit at (350, 150) only after it is redrawn, when its ROI becomes (250, 100)..(450, 300) |
| `MultiTouch.Tracker.constructor` | Multitouch/src/com/asim/learning/MultiTouchActivity.java:89-119 | the tracker starts with an empty map over the given photographs |
| `MultiTouch.Tracker.GetTouchedView` | Multitouch/src/com/asim/learning/MultiTouchActivity.java:379-397 | the backward scan returns TouchedView of the children |
| `MultiTouch.Tracker.FindPhoto` | Multitouch/src/com/asim/learning/MultiTouchActivity.java:272 | the lookup by tag returns BoundPhoto of the children |
| `MultiTouch.Tracker.FixedContactOf` | Multitouch/src/com/asim/learning/MultiTouchActivity.java:334-335 | reading slot 0 and then slot 1 returns FixedContactAsWritten of the contact array |
| `MultiTouch.Tracker.StoreRecord` | Multitouch/src/com/asim/learning/MultiTouchActivity.java:251 | `ptrMap.put` replaces the model record of the id and nothing else |
| `MultiTouch.Tracker.ReleaseRecord` | Multitouch/src/com/asim/learning/MultiTouchActivity.java:278-280 | the record becomes invalid and not down; nothing else changes |
| `MultiTouch.Tracker.MoveRecord` | Multitouch/src/com/asim/learning/MultiTouchActivity.java:367-368 | the record takes the new position; nothing else changes |
| `MultiTouch.Tracker.PressPhoto` | Multitouch/src/com/asim/learning/MultiTouchActivity.java:235-242 | the photograph becomes DownOnPhoto of its old state |
| `MultiTouch.Tracker.DownOnChild` | Multitouch/src/com/asim/learning/MultiTouchActivity.java:234-242 | the k-th child is pressed; no other child or record changes |
| `MultiTouch.Tracker.ReleaseOnChild` | Multitouch/src/com/asim/learning/MultiTouchActivity.java:272-274 | the k-th child loses the pointer's contact and becomes low quality; nothing else changes |
| `MultiTouch.Tracker.BringChildToFront` | Multitouch/src/com/asim/learning/MultiTouchActivity.java:244 | the child list and its model become BringToFront of the old ones |
| `MultiTouch.Tracker.RotateAndScale` | Multitouch/src/com/asim/learning/MultiTouchActivity.java:338-354 | the photograph becomes RotateScale of its old state |
| `MultiTouch.Tracker.GestureOn` | Multitouch/src/com/asim/learning/MultiTouchActivity.java:316-359 | the photograph becomes Gesture of its old state, unchanged where the selection of the fixed finger throws |
| `MultiTouch.Tracker.GestureOnChild` | Multitouch/src/com/asim/learning/MultiTouchActivity.java:315-359 | the gesture applies to the k-th child only |
| `MultiTouch.Tracker.GestureAndRecord` | Multitouch/src/com/asim/learning/MultiTouchActivity.java:315-368 | the gesture applies to the k-th child, then the record takes the new position; nothing else changes |
| `MultiTouch.Tracker.DrawChild` | Multitouch/src/com/asim/learning/Photograph.java:168-174 | the model becomes `Draw` of the old model for the k-th child; the invariant, when it held, is kept |
| `MultiTouch.Tracker.PressedRecord` | Multitouch/src/com/asim/learning/MultiTouchActivity.java:228-230 | a fresh record at (x, y) with the hit view's tag, down but not yet valid |
| `MultiTouch.Tracker.BindRecord` | Multitouch/src/com/asim/learning/MultiTouchActivity.java:246-247 | the record takes the photograph's tag and becomes valid |
| `MultiTouch.Tracker.PressChild` | Multitouch/src/com/asim/learning/MultiTouchActivity.java:232-248 | the touched child is pressed with a snapshot and brought to the front, and the record is bound to its tag |
| `MultiTouch.Tracker.HandleActionDown` | Multitouch/src/com/asim/learning/MultiTouchActivity.java:221-252 | the model becomes Down of the old model; the tracking invariant, when it held, is kept when the pointer was not already down |
| `MultiTouch.Tracker.HandleActionUp` | Multitouch/src/com/asim/learning/MultiTouchActivity.java:263-282 | succeeds exactly when Up does not throw and then becomes Up of the old model; on failure nothing changed; the invariant, when it held, is kept |
| `MultiTouch.Tracker.MoveOnePointer` | Multitouch/src/com/asim/learning/MultiTouchActivity.java:298-368 | succeeds exactly when MovePointer does not throw and then becomes its value |
| `MultiTouch.Tracker.HandleActionMove` | Multitouch/src/com/asim/learning/MultiTouchActivity.java:292-371 | the loop over pointer indices succeeds exactly when Move does not throw and then becomes its value; on success the invariant, when it held, is kept |
| `MultiTouch.Tracker.OnTouch` | Multitouch/src/com/asim/learning/MultiTouchActivity.java:157-207 | succeeds exactly when the OnTouch function does not throw and then becomes its value; on success the invariant, when it held, is kept for an event under `DownIsFresh` |
| `MultiTouch.Tracker.Handle` | Multitouch/src/com/asim/learning/MultiTouchActivity.java:157-207 | a touch event or a redraw: succeeds exactly when Step does not throw and then becomes its value; the invariant is kept as by StepKeepsInvariant |

## Left out

- Integers are unbounded. Java's 32-bit wrap-around is not modelled, because screen
  coordinates and counts stay far from it.
- Floats are exact reals. Rounding to 32 bits is not modelled.
- `Base.JavaInt` does not model the narrowing of a float that is NaN or beyond
  the int range. Such a float needs `Math.sqrt` or `atan` results that the model
  leaves abstract.
- `Math.sqrt`, `Math.atan`, `Math.cos` and `Math.sin` are parameters, not
  definitions. The degree-to-radian conversions are folded into them.
- Painting is left out: the canvas work of `onDraw`, `debugDraw`,
  `setAreaToInvalidate`, the bitmaps, `setLabel`, `getCenterImage` and
  `getTranslatedPoint`. These only paint. The geometric part of `onDraw` is the
  `Redraw` input.
- When Android redraws is left out. `invalidate()` and `refresh()` only schedule
  a redraw, so the model lets a `Redraw` of any child come between any two touch
  events, or not at all.
- The marker overlay `drawingSurface` (Slate.java) is not part of this model,
  and neither is the timer Stopwatch.java.
- `Log` calls and `logHeap` are left out. They only report.
- Activity setup is left out: `addDrawableToParent`, the animation listeners,
  `onClick` and `Random`. The tracker starts from photographs that are already
  created, tagged and drawn.
- The `isInteractive` gate of `onTouch` is left out. The model handles the
  events that the gate lets through.
- The photograph's `border`, `aspectRatio`, `label`, `isHighlighted` and
  `isPlayable` are left out. They only affect drawing. The height `hBmp` is
  passed to the constructor already computed from the aspect ratio.
- The view size (`getWidth()`, `getHeight()`) is a parameter of
  `InitCoordinates` and `UpdateGeometry`. It is Android layout state.
- The constructor writes `tx = 0; tx = 0;`. It never assigns `ty`, which keeps
  Java's default 0, so the model starts `ty` at 0.
- The `try/catch` around the gesture math (MultiTouchActivity.java:320-359) is
  modelled only for the null slot read by the selection of the fixed finger. With
  the math functions abstract, that is the only exception it can catch. There
  `FixedContactAsWritten` returns no contact and `Gesture` leaves the photograph
  as it was, as the catch does.
- `handleActionUp` reads the pointer's coordinates into `x` and `y` and never
  uses them, so they are left out.
- The Android view hierarchy is a sequence of Photograph children, front-most
  last. `findViewWithTag` is the first child with the tag, and `bringToFront`
  moves a child to the end. The parent holds no other views.
- `GetX`, `GetY`, `IsValid`, `GetAngle` and `IsPointInROI` are plain field reads
  or a call of `InRegion`. `getPointsOfContact` is the direct read of
  `ptsOfContact` in `FixedContactOf`. These carry no contract of their own.
- A handler that throws returns `false`. The state it leaves is stated only for
  `HandleActionUp` (unchanged). For `HandleActionMove` the pointers before the
  failing one have been handled, and the model leaves that state otherwise
  unspecified, as Java leaves it mid-loop.
- PointerTracking.TouchedView: a photograph whose ROI has never been computed
  counts as not hit, where Java would throw a NullPointerException. The tracker
  invariant requires every photograph to have been drawn, so the case does not
  arise under it.
- MultiTouch.Tracker.GetTouchedView: skips a photograph never drawn, for the
  same reason.
- OnTouchKeepsInvariant: is proved only for an event that respects `DownIsFresh`.
  A Down for a pointer still down after `ACTION_CANCEL` breaks the invariant
  (`RepeatedDownDuplicatesContact`, see Findings).
- StepKeepsInvariant: is proved under `DownIsFresh` for a touch event, likewise.
- RunKeepsInvariant: is proved only for streams whose Downs are all fresh
  (`FreshDowns`), likewise.
- MultiTouch.Tracker.HandleActionDown: promises the invariant only for a pointer
  not already down, likewise.
- MultiTouch.Tracker.OnTouch: promises the invariant only under `DownIsFresh`,
  likewise.
- TrackingProperties.ContactExclusive: says at most one contact per pointer. A
  valid, bound record may hold no slot at all (`DownOnFullPhotoLeavesNoSlot`).
- Snapshots in the contact slots (`Photographs.Slots`) are stored as
  values. The Java code stores fresh `TouchPoint` objects that nothing ever
  mutates, so a value behaves the same.

## Findings

The handlers follow the Java code as written. In each row the corrected definition
stands beside them, with the intended property proved about it.

| source | as written | input that shows it | evidently intended | confidence | as-written member | corrected member |
|---|---|---|---|---|---|---|
| Multitouch/src/com/asim/learning/MultiTouchActivity.java:334-335 | the fixed finger of a two-finger gesture is taken from slot 0, or from slot 1 when slot 0 is the moving pointer | fingers A, B, C land on a photograph and A lifts: the contacts are in slots 1 and 2, so when B moves slot 0 is null, the selection throws, the catch swallows it and the gesture is lost | the other of the two contacts, in whichever slots they are (`GestureIntended`) | not executed | `TrackingProperties.GestureLostAfterFirstLift` | `TrackingProperties.GestureIntendedTwoFingers` |
| Multitouch/src/com/asim/learning/MultiTouchActivity.java:186-198, 221-251 | `ACTION_CANCEL` falls through the switch, so a cancelled gesture leaves its pointers down and bound; the next Down of such a pointer replaces its record without releasing its contact | Down of pointer 0 at (150, 150) on a photograph, a cancel, Down of pointer 0 at (150, 150) again: the photograph holds two contacts with id 0 | the earlier press is released before the new one (`DownCorrected`) | not executed | `TrackingProperties.RepeatedDownDuplicatesContact` | `TrackingProperties.DownCorrectedKeepsInvariant` |
