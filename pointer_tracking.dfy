/** The event handlers of MultiTouchActivity.java as functions on a value of the
    whole tracked state: the pointer map and the parent's children, front-most
    last. The class MultiTouch.Tracker is proved to follow these functions. */
module PointerTracking {
  import opened Base
  import opened Geometry
  import opened TouchPoints
  import opened Photographs

  /** Android's MotionEvent constants. */
  const ACTION_MASK: bv32 := 0xff
  const ACTION_POINTER_ID_MASK: bv32 := 0xff00
  const ACTION_POINTER_ID_SHIFT: bv32 := 8
  const ACTION_DOWN: int := 0
  const ACTION_UP: int := 1
  const ACTION_MOVE: int := 2

  /** The tag of the parent layout (`parent.setTag(tagCount - 1)` with tagCount 0). */
  const BACKGROUND_TAG: int := -1
  /** A move of fewer pixels than this along both axes is jitter. */
  const MOVE_THRESHOLD: int := 3
  /** A change of inclination larger than this is taken for a wrap-around and dropped. */
  const THETA_LIMIT: real := 100.0
  /** The granularity passed to setScale by the two-finger gesture (0.005f). */
  const SCALE_GRANULARITY: real := 0.005
  /** getInclination of a vertical line. */
  const VERTICAL_INCLINATION: real := 90.0

  /** One pointer of a MotionEvent: its id and its float coordinates. */
  datatype Sample = Sample(id: int, x: real, y: real)

  /** A MotionEvent: the raw action code and the pointers in index order. */
  datatype MotionEvent = MotionEvent(action: bv32, pointers: seq<Sample>)

  /** ptrMap and the Photographs among parent's children, in child order. */
  datatype World = World(ptrMap: map<int, TouchPointState>, children: seq<PhotoState>)

  // ---------------------------------------------------------------------------
  // Action resolution (onTouch)

  /** The action code masked to its low byte, with the secondary-pointer codes 5
      and 6 folded back onto ACTION_DOWN and ACTION_UP. */
  function ResolveAction(action: bv32): (r: int)
    ensures 0 <= r < 256
    ensures var masked := (action & ACTION_MASK) as int;
            if masked == 5 || masked == 6 then r == masked - 5 else r == masked
    ensures r == ACTION_DOWN <==> (action & ACTION_MASK == 0 || action & ACTION_MASK == 5)
    ensures r == ACTION_UP <==> (action & ACTION_MASK == 1 || action & ACTION_MASK == 6)
    ensures r == ACTION_MOVE <==> action & ACTION_MASK == 2
  {
    var resolved := (action & ACTION_MASK) as int;
    if resolved < 7 && resolved > 4 then resolved - 5 else resolved
  }

  /** The pointer index of the action: bits 8..15 when more than one pointer is
      down, 0 otherwise. */
  function PointerIndex(action: bv32, count: int): (r: int)
    ensures 0 <= r < 256
    ensures count <= 1 ==> r == 0
    ensures count > 1 ==> r == ((action >> ACTION_POINTER_ID_SHIFT) & ACTION_MASK) as int
  {
    if count > 1 then ((action & ACTION_POINTER_ID_MASK) >> ACTION_POINTER_ID_SHIFT) as int else 0
  }

  // ---------------------------------------------------------------------------
  // Lookups in the view hierarchy

  predicate Hits(p: PhotoState, x: int, y: int)
  {
    p.roi.Some? && InRegion(p.roi.value, x, y)
  }

  /** getTouchedView: the index of the last child whose ROI holds (x, y), or -1 for
      the parent when none does. */
  function TouchedView(cs: seq<PhotoState>, x: int, y: int): (k: int)
    ensures -1 <= k < |cs|
    ensures k >= 0 ==> Hits(cs[k], x, y)
    ensures forall j :: k < j < |cs| ==> !Hits(cs[j], x, y)
  {
    if cs == [] then -1
    else if Hits(cs[|cs| - 1], x, y) then |cs| - 1
    else TouchedView(cs[..|cs| - 1], x, y)
  }

  /** The index of the first child with the given tag, or -1. */
  function IndexOfTag(cs: seq<PhotoState>, tag: int): (k: int)
    ensures -1 <= k < |cs|
    ensures k >= 0 ==> cs[k].tag == tag
    ensures k >= 0 ==> forall j :: 0 <= j < k ==> cs[j].tag != tag
    ensures k < 0 ==> forall j :: 0 <= j < |cs| ==> cs[j].tag != tag
  {
    if cs == [] then -1
    else if cs[0].tag == tag then 0
    else
      var k := IndexOfTag(cs[1..], tag);
      if k < 0 then -1 else k + 1
  }

  /** `(Photograph) parent.findViewWithTag(extra)`: the photo a record is bound to,
      or -1 where the Java code would throw (a null tag finds nothing; the
      background tag finds the parent, which is no Photograph). */
  function BoundPhoto(cs: seq<PhotoState>, extra: Extra): (k: int)
    ensures -1 <= k < |cs|
    ensures k >= 0 ==> extra == TagRef(cs[k].tag)
    ensures extra == Null || extra == TagRef(BACKGROUND_TAG) ==> k == -1
    ensures extra.TagRef? && extra.tag != BACKGROUND_TAG ==> k == IndexOfTag(cs, extra.tag)
    ensures extra.TagRef? && extra.tag != BACKGROUND_TAG && (exists j :: 0 <= j < |cs| && cs[j].tag == extra.tag) ==> k >= 0
  {
    match extra
    case Null => -1
    case TagRef(t) => if t == BACKGROUND_TAG then -1 else IndexOfTag(cs, t)
  }

  /** bringToFront: the child moves to the end, the others keep their order. */
  function BringToFront<T>(cs: seq<T>, k: int): (r: seq<T>)
    requires 0 <= k < |cs|
    ensures |r| == |cs| && r[|r| - 1] == cs[k]
    ensures forall j :: 0 <= j < k ==> r[j] == cs[j]
    ensures forall j :: k <= j < |cs| - 1 ==> r[j] == cs[j + 1]
  {
    assert cs == cs[..k] + [cs[k]] + cs[k + 1..];
    cs[..k] + cs[k + 1..] + [cs[k]]
  }

  // ---------------------------------------------------------------------------
  // Down

  /** What handleActionDown does to the photo that was hit. */
  function DownOnPhoto(p: PhotoState, contact: TouchPointState): PhotoState
  {
    var p1 := p.AddTouchPoint(contact).(isHighQuality := true);
    if p1.CountPointsOfContact() == 3 then p1.(isMarked := !p1.isMarked, isLocked := !p1.isLocked)
    else p1
  }

  /** The record handleActionDown stores: at (x, y), down, valid exactly when a
      photograph was hit, and carrying the tag of what was hit. */
  function DownRecord(cs: seq<PhotoState>, ptrIndex: int, ptrId: int, x: int, y: int): TouchPointState
  {
    var k := TouchedView(cs, x, y);
    var tag := if k < 0 then BACKGROUND_TAG else cs[k].tag;
    NewTouchPoint(x, y, ptrId, ptrIndex, TagRef(tag)).(isDown := true, valid := k >= 0)
  }

  /** handleActionDown: the record is replaced by a fresh one; on a photo, the
      photo gets its own snapshot of the pointer as a contact and is brought to
      the front. */
  function Down(w: World, ptrIndex: int, ptrId: int, x: int, y: int): World
  {
    var k := TouchedView(w.children, x, y);
    var m := w.ptrMap[ptrId := DownRecord(w.children, ptrIndex, ptrId, x, y)];
    if k < 0 then
      w.(ptrMap := m)
    else
      var snapshot := NewTouchPoint(x, y, ptrId, ptrIndex, Null);
      var touched := DownOnPhoto(w.children[k], snapshot);
      World(m, BringToFront(w.children[k := touched], k))
  }

  /** handleActionDown as it is meant to behave for a pointer whose record is
      still down (after ACTION_CANCEL, which ends a gesture without an Up): the
      earlier press is released first, as handleActionUp would, and then the
      pointer goes down afresh. */
  function DownCorrected(w: World, ptrIndex: int, ptrId: int, x: int, y: int): World
  {
    if ptrId in w.ptrMap && w.ptrMap[ptrId].isDown then
      match Up(w, ptrId)
      case None => Down(w, ptrIndex, ptrId, x, y)
      case Some(released) => Down(released, ptrIndex, ptrId, x, y)
    else Down(w, ptrIndex, ptrId, x, y)
  }

  // ---------------------------------------------------------------------------
  // Up

  /** handleActionUp; None where the Java code throws: no record for the id, or a
      valid record whose tag names no photograph. */
  function Up(w: World, ptrId: int): Option<World>
  {
    if ptrId !in w.ptrMap then None
    else
      var tp := w.ptrMap[ptrId];
      var released := w.ptrMap[ptrId := tp.(valid := false, isDown := false)];
      if tp.valid then
        var k := BoundPhoto(w.children, tp.extra);
        if k < 0 then None
        else
          var p := w.children[k].RemoveTouchPoint(ptrId).(isHighQuality := false);
          Some(World(released, w.children[k := p]))
      else
        Some(w.(ptrMap := released))
  }

  // ---------------------------------------------------------------------------
  // Move

  /** getDistance, with `Math.sqrt` a parameter. */
  function Distance(math: JavaMath, x1: int, y1: int, x2: int, y2: int): real
  {
    math.sqrt(((x2 - x1) * (x2 - x1) + (y2 - y1) * (y2 - y1)) as real)
  }

  /** getInclination: exactly 90 for a vertical line, otherwise the arctangent of
      the slope in degrees. */
  function Inclination(math: JavaMath, x1: int, y1: int, x2: int, y2: int): (r: real)
    ensures x2 == x1 ==> r == VERTICAL_INCLINATION
  {
    if x2 - x1 == 0 then VERTICAL_INCLINATION
    else math.atanDeg((y2 - y1) as real / (x2 - x1) as real)
  }

  /** A change of angle beyond THETA_LIMIT is dropped. */
  function ClampTheta(theta: real): (r: real)
    ensures AbsReal(theta) > THETA_LIMIT ==> r == 0.0
    ensures AbsReal(theta) <= THETA_LIMIT ==> r == theta
    ensures AbsReal(r) <= THETA_LIMIT
  {
    if AbsReal(theta) > THETA_LIMIT then 0.0 else theta
  }

  /** The fixed contact of a two-finger gesture as the Java code selects it
      (`ptsOfContact[0].pointerId != ptrId ? ptsOfContact[0] : ptsOfContact[1]`),
      None where that throws a NullPointerException (a null slot 0, or a null
      slot 1 when slot 0 is the moving pointer). */
  function FixedContactAsWritten(s: Slots, movingId: int): (r: Option<TouchPointState>)
    ensures r.Some? ==> (|s| > 0 && r == s[0]) || (|s| > 1 && r == s[1])
    ensures |s| > 0 && s[0].Some? && s[0].value.pointerId != movingId ==> r == s[0]
    ensures |s| > 1 && s[0].Some? && s[0].value.pointerId == movingId ==> r == s[1]
    ensures r.None? <==> |s| == 0 || s[0].None? || (s[0].value.pointerId == movingId && (|s| < 2 || s[1].None?))
  {
    if |s| < 1 || s[0].None? then None
    else if s[0].value.pointerId != movingId then s[0]
    else if |s| < 2 then None
    else s[1]
  }

  /** The fixed contact as the gesture means it: the first contact, in slot order,
      whose id is not the moving pointer's. */
  function FixedContact(s: Slots, movingId: int): (r: Option<TouchPointState>)
    ensures r.Some? ==> r.value.pointerId != movingId && r in s
    ensures r.None? ==> forall j :: 0 <= j < |s| && s[j].Some? ==> s[j].value.pointerId == movingId
  {
    if s == [] then None
    else if s[0].Some? && s[0].value.pointerId != movingId then s[0]
    else
      var r := FixedContact(s[1..], movingId);
      assert r.Some? ==> r in s by {
        if r.Some? {
          assert r in s[1..];
        }
      }
      r
  }

  /** The two-finger rotate and scale about the fixed contact's position at its
      Down, from the moving pointer's stored position (prevX, prevY) to (x, y). */
  function RotateScale(p: PhotoState, math: JavaMath, fixed: TouchPointState,
                       prevX: int, prevY: int, x: int, y: int): PhotoState
  {
    var oldDist := Distance(math, fixed.x, fixed.y, prevX, prevY);
    var newDist := Distance(math, fixed.x, fixed.y, x, y);
    var diff := newDist - oldDist;
    var angleOld := Inclination(math, fixed.x, fixed.y, prevX, prevY);
    var angleNew := Inclination(math, fixed.x, fixed.y, x, y);
    var theta := ClampTheta(angleNew - angleOld);
    p.SetAngle(p.angle + theta).SetScale(JavaInt(diff), SCALE_GRANULARITY)
  }

  /** The transform a moving pointer applies to its photo: translate with one
      contact, rotate and scale with two, nothing otherwise. With two contacts the
      fixed finger is selected as the Java code does; where that selection throws,
      the catch around the gesture leaves the photo as it was. */
  function Gesture(p: PhotoState, math: JavaMath, movingId: int,
                   prevX: int, prevY: int, x: int, y: int): PhotoState
  {
    var n := p.CountPointsOfContact();
    if n == 1 then p.Translate(x - prevX, y - prevY)
    else if n == 2 then
      match FixedContactAsWritten(p.contacts, movingId)
      case None => p
      case Some(fixed) => RotateScale(p, math, fixed, prevX, prevY, x, y)
    else p
  }

  /** The gesture as it is meant: the fixed finger is the other contact,
      wherever it sits in the slots. */
  function GestureIntended(p: PhotoState, math: JavaMath, movingId: int,
                           prevX: int, prevY: int, x: int, y: int): PhotoState
  {
    var n := p.CountPointsOfContact();
    if n == 1 then p.Translate(x - prevX, y - prevY)
    else if n == 2 then
      match FixedContact(p.contacts, movingId)
      case None => p
      case Some(fixed) => RotateScale(p, math, fixed, prevX, prevY, x, y)
    else p
  }

  /** One iteration of the loop in handleActionMove; None where the Java code throws:
      no record for the id (`tp.putXY`), or a valid record whose tag names no
      photograph. */
  function MovePointer(w: World, math: JavaMath, s: Sample): Option<World>
  {
    var x := JavaInt(s.x);
    var y := JavaInt(s.y);
    if s.id !in w.ptrMap then None
    else
      var tp := w.ptrMap[s.id];
      var stored := w.ptrMap[s.id := tp.PutXY(x, y)];
      if !tp.valid then Some(w.(ptrMap := stored))
      else
        var dx := x - tp.x;
        var dy := y - tp.y;
        if dx == 0 && dy == 0 then Some(w)
        else if Abs(dx) >= MOVE_THRESHOLD || Abs(dy) >= MOVE_THRESHOLD then
          var k := BoundPhoto(w.children, tp.extra);
          if k < 0 then None
          else
            var p := Gesture(w.children[k], math, s.id, tp.x, tp.y, x, y);
            Some(World(stored, w.children[k := p]))
        else Some(w.(ptrMap := stored))
  }

  /** handleActionMove: every pointer of the event, in index order. */
  function Move(w: World, math: JavaMath, samples: seq<Sample>): Option<World>
    decreases |samples|
  {
    if samples == [] then Some(w)
    else
      match MovePointer(w, math, samples[0])
      case None => None
      case Some(w') => Move(w', math, samples[1..])
  }

  // ---------------------------------------------------------------------------
  // onTouch

  /** onTouch: resolve the action and dispatch it. None where the Java code throws
      (including `getPointerId` of an index the event does not have); codes other
      than DOWN, UP and MOVE change nothing. */
  function OnTouch(w: World, math: JavaMath, e: MotionEvent): Option<World>
  {
    var count := |e.pointers|;
    var action := ResolveAction(e.action);
    var ptrIndex := PointerIndex(e.action, count);
    if ptrIndex >= count then None
    else
      var ptrId := e.pointers[ptrIndex].id;
      if action == ACTION_DOWN then
        Some(Down(w, ptrIndex, ptrId, JavaInt(e.pointers[ptrIndex].x), JavaInt(e.pointers[ptrIndex].y)))
      else if action == ACTION_MOVE then Move(w, math, e.pointers)
      else if action == ACTION_UP then Up(w, ptrId)
      else Some(w)
  }

  // ---------------------------------------------------------------------------
  // Redraw

  /** onDraw of the k-th child in a view of the given size: its base rectangle
      and its ROI are recomputed, so later hit tests see where it now is. The
      `invalidate()` calls of setAngle, setScale and translate schedule such a
      redraw between touch events. */
  function Draw(w: World, math: JavaMath, k: int, viewWidth: nat, viewHeight: nat): World
    requires 0 <= k < |w.children|
  {
    w.(children := w.children[k := w.children[k].Draw(math, viewWidth, viewHeight)])
  }

  /** What the activity reacts to: a touch event, or Android drawing one child
      (an index with no child draws nothing). */
  datatype Input = Touch(e: MotionEvent) | Redraw(k: int, viewWidth: nat, viewHeight: nat)

  function Step(w: World, math: JavaMath, i: Input): Option<World>
  {
    match i
    case Touch(e) => OnTouch(w, math, e)
    case Redraw(k, width, height) =>
      if 0 <= k < |w.children| then Some(Draw(w, math, k, width, height)) else Some(w)
  }

  /** A sequence of inputs, stopping at the first that throws. */
  function Run(w: World, math: JavaMath, inputs: seq<Input>): Option<World>
    decreases |inputs|
  {
    if inputs == [] then Some(w)
    else
      match Step(w, math, inputs[0])
      case None => None
      case Some(w') => Run(w', math, inputs[1..])
  }
}
