/** MultiTouchActivity.java as an object: the `ptrMap` of TouchPoint records and
    the Photograph children of `parent`, updated in place by the event handlers.
    The ghost field `model` is the tracked state as a value; every handler is
    proved to change it as the matching function of PointerTracking does. */
module MultiTouch {
  import opened Base
  import opened Geometry
  import opened TouchPoints
  import opened Photographs
  import opened PointerTracking
  import opened TrackingInvariants

  /** The states of a sequence of photographs, in order. */
  function StatesOf(ps: seq<Photograph>): (r: seq<PhotoState>)
    reads set p | p in ps, set p | p in ps :: p.ptsOfContact
    ensures |r| == |ps|
    ensures forall i :: 0 <= i < |ps| ==> r[i] == ps[i].State()
  {
    if ps == [] then [] else StatesOf(ps[..|ps| - 1]) + [ps[|ps| - 1].State()]
  }

  /** No two photographs share their contact array (and so none appears twice). */
  ghost predicate SeparateArrays(ps: seq<Photograph>)
  {
    forall i, j :: 0 <= i < |ps| && 0 <= j < |ps| && i != j ==> ps[i].ptsOfContact != ps[j].ptsOfContact
  }

  /** No two pointer ids share a record object. */
  ghost predicate SeparateRecords(m: map<int, TouchPoint>)
  {
    forall a, b :: a in m && b in m && a != b ==> m[a] != m[b]
  }

  /** Moving a photograph to the front keeps the arrays separate, every
      photograph's invariant, and moves its state to the front with it. */
  lemma FrontMoveKeeps(cs: seq<PhotoState>, ps: seq<Photograph>, k: int)
    requires 0 <= k < |ps| && |cs| == |ps| && SeparateArrays(ps)
    requires forall i :: 0 <= i < |ps| ==> ps[i].Valid() && cs[i] == ps[i].State()
    ensures SeparateArrays(BringToFront(ps, k))
    ensures forall j :: 0 <= j < |ps| ==>
      BringToFront(ps, k)[j].Valid() && BringToFront(cs, k)[j] == BringToFront(ps, k)[j].State()
  {
    var r, q := BringToFront(ps, k), BringToFront(cs, k);
    forall j | 0 <= j < |ps|
      ensures r[j] == ps[FrontSource(|ps|, k, j)] && q[j] == cs[FrontSource(|ps|, k, j)]
    {
    }
    forall a, b | 0 <= a < |r| && 0 <= b < |r| && a != b
      ensures r[a].ptsOfContact != r[b].ptsOfContact
    {
      var ia, ib := FrontSource(|ps|, k, a), FrontSource(|ps|, k, b);
      assert ia != ib;
      assert r[a] == ps[ia] && r[b] == ps[ib];
    }
  }

  /** MovePointer of a known pointer, case by case. */
  lemma MovePointerCases(w: World, math: JavaMath, s: Sample)
    requires s.id in w.ptrMap
    ensures var tp := w.ptrMap[s.id];
            var x, y := JavaInt(s.x), JavaInt(s.y);
            var dx, dy := x - tp.x, y - tp.y;
            var stored := w.ptrMap[s.id := tp.PutXY(x, y)];
            var k := BoundPhoto(w.children, tp.extra);
            && (!tp.valid ==> MovePointer(w, math, s) == Some(World(stored, w.children)))
            && (tp.valid && dx == 0 && dy == 0 ==> MovePointer(w, math, s) == Some(w))
            && (tp.valid && !(dx == 0 && dy == 0) && Abs(dx) < MOVE_THRESHOLD && Abs(dy) < MOVE_THRESHOLD ==>
                  MovePointer(w, math, s) == Some(World(stored, w.children)))
            && (tp.valid && !(dx == 0 && dy == 0) && (Abs(dx) >= MOVE_THRESHOLD || Abs(dy) >= MOVE_THRESHOLD) ==>
                  MovePointer(w, math, s) ==
                    if k < 0 then None
                    else Some(World(stored, w.children[k := Gesture(w.children[k], math, s.id, tp.x, tp.y, x, y)])))
  {
  }

  class Tracker {
    /** `Math.sqrt`, `Math.atan`, `Math.cos` and `Math.sin`. */
    const math: JavaMath
    /** ptrMap: the record of every pointer id seen so far. */
    var ptrMap: map<int, TouchPoint>
    /** The Photograph children of `parent`, front-most last. */
    var children: seq<Photograph>
    /** The records and the photographs' states as a value. */
    ghost var model: World

    ghost function Footprint(): set<object>
      reads this
    {
      var records: set<object> := ptrMap.Values;
      var photos: set<object> := set p | p in children;
      var arrays: set<object> := set p | p in children :: p.ptsOfContact;
      records + photos + arrays
    }

    /** One record object per id, one contact array per photograph, and each
        photograph's own invariant. */
    ghost predicate Separate()
      reads this, Footprint()
    {
      && SeparateArrays(children)
      && (forall i :: 0 <= i < |children| ==> children[i].Valid())
      && SeparateRecords(ptrMap)
    }

    /** `model` holds the state of every record object and every photograph. */
    ghost predicate Mirrored()
      reads this, Footprint()
    {
      && |model.children| == |children|
      && (forall i :: 0 <= i < |children| ==> model.children[i] == children[i].State())
      && model.ptrMap.Keys == ptrMap.Keys
      && (forall id :: id in ptrMap ==> model.ptrMap[id] == ptrMap[id].State())
    }

    ghost predicate Sound()
      reads this, Footprint()
    {
      Separate() && Mirrored()
    }

    ghost predicate Valid()
      reads this, Footprint()
    {
      Sound() && Invariant(model)
    }

    /** The activity after onCreate: an empty map over photographs already added. */
    constructor (math: JavaMath, photos: seq<Photograph>)
      requires SeparateArrays(photos)
      requires forall i :: 0 <= i < |photos| ==> photos[i].Valid()
      requires Invariant(World(map[], StatesOf(photos)))
      ensures Valid()
      ensures this.math == math && children == photos
      ensures model == World(map[], StatesOf(photos))
    {
      this.math := math;
      ptrMap := map[];
      children := photos;
      model := World(map[], StatesOf(photos));
    }

    // -------------------------------------------------------------------------
    // Lookups

    /** getTouchedView: scan from the last child down to the first. */
    method GetTouchedView(x: int, y: int) returns (k: int)
      requires Sound()
      ensures k == TouchedView(model.children, x, y)
    {
      ghost var cs := model.children;
      var i := |children| - 1;
      while i >= 0
        invariant -1 <= i < |children|
        invariant TouchedView(cs, x, y) == TouchedView(cs[..i + 1], x, y)
      {
        assert cs[..i + 1][..i] == cs[..i];
        if children[i].roi.Some? && children[i].IsPointInROI(x, y) {
          return i;
        }
        i := i - 1;
      }
      return -1;
    }

    /** `(Photograph) parent.findViewWithTag(extra)`: the first child carrying the
        tag, or -1 where the Java code would throw. */
    method FindPhoto(extra: Extra) returns (k: int)
      requires Sound()
      ensures k == BoundPhoto(model.children, extra)
    {
      if extra.Null? || extra.tag == BACKGROUND_TAG {
        return -1;
      }
      ghost var cs := model.children;
      for i := 0 to |children|
        invariant forall j :: 0 <= j < i ==> cs[j].tag != extra.tag
      {
        if children[i].tag == extra.tag {
          return i;
        }
      }
      return -1;
    }

    /** The fixed contact of a two-finger gesture: slot 0 unless it is the moving
        pointer, slot 1 then; None where reading a null slot throws. */
    method FixedContactOf(pic: Photograph, movingId: int) returns (fixed: Option<TouchPointState>)
      requires pic.Valid()
      ensures fixed == FixedContactAsWritten(pic.ptsOfContact[..], movingId)
    {
      var first := pic.ptsOfContact[0];
      if first.None? {
        return None;
      }
      if first.value.pointerId != movingId {
        return first;
      }
      return pic.ptsOfContact[1];
    }

    // -------------------------------------------------------------------------
    // Steps of the handlers, each on one part of the tracked state

    /** `ptrMap.put(id, tp)` with a record object no other id holds. */
    method StoreRecord(id: int, tp: TouchPoint)
      requires Sound()
      requires forall a :: a in ptrMap && a != id ==> ptrMap[a] != tp
      modifies this
      ensures Sound() && children == old(children) && ptrMap == old(ptrMap)[id := tp]
      ensures model == old(model).(ptrMap := old(model).ptrMap[id := tp.State()])
    {
      ptrMap := ptrMap[id := tp];
      model := model.(ptrMap := model.ptrMap[id := tp.State()]);
    }

    /** Lines 278-280 of handleActionUp: the record of `id` becomes invalid and
        up. */
    method ReleaseRecord(id: int)
      requires Sound() && id in ptrMap
      modifies this, ptrMap[id]
      ensures Sound() && children == old(children) && ptrMap == old(ptrMap)
      ensures model == old(model).(ptrMap := old(model).ptrMap[id := old(model).ptrMap[id].(valid := false, isDown := false)])
    {
      var tp := ptrMap[id];
      tp.SetValidity(false);
      tp.isDown := false;
      model := model.(ptrMap := model.ptrMap[id := tp.State()]);
    }

    /** Lines 367-368 of handleActionMove: the record of `id` takes the new position. */
    method MoveRecord(id: int, x: int, y: int)
      requires Sound() && id in ptrMap
      modifies this, ptrMap[id]
      ensures Sound() && children == old(children) && ptrMap == old(ptrMap)
      ensures model == old(model).(ptrMap := old(model).ptrMap[id := old(model).ptrMap[id].PutXY(x, y)])
    {
      var tp := ptrMap[id];
      tp.PutXY(x, y);
      model := model.(ptrMap := model.ptrMap[id := tp.State()]);
    }

    /** Lines 235-242 of handleActionDown on one photograph: it records the
        snapshot, is drawn in high quality, and has mark and lock toggled at
        three contacts. */
    method PressPhoto(pic: Photograph, contact: TouchPointState)
      requires pic.Valid()
      modifies pic, pic.ptsOfContact
      ensures pic.Valid()
      ensures pic.State() == DownOnPhoto(old(pic.State()), contact)
    {
      pic.AddTouchPoint(contact);
      pic.isHighQuality := true;
      var numPtsContact := pic.GetCountPointsOfContact();
      if numPtsContact == 3 {
        pic.isMarked, pic.isLocked := !pic.isMarked, !pic.isLocked;
      }
    }

    /** PressPhoto on the k-th child; nothing else changes. */
    method DownOnChild(k: int, contact: TouchPointState)
      requires Sound() && 0 <= k < |children|
      modifies this, children[k], children[k].ptsOfContact
      ensures Sound() && children == old(children) && ptrMap == old(ptrMap)
      ensures model == old(model).(children := old(model).children[k := DownOnPhoto(old(model).children[k], contact)])
    {
      PressPhoto(children[k], contact);
      model := model.(children := model.children[k := children[k].State()]);
    }

    /** Lines 273-274 of handleActionUp on the k-th child: the pointer's contact
        is released and the photograph is drawn in low quality. */
    method ReleaseOnChild(k: int, id: int)
      requires Sound() && 0 <= k < |children|
      modifies this, children[k], children[k].ptsOfContact
      ensures Sound() && children == old(children) && ptrMap == old(ptrMap)
      ensures model == old(model).(children := old(model).children[k := old(model).children[k].RemoveTouchPoint(id).(isHighQuality := false)])
    {
      var pic := children[k];
      pic.RemoveTouchPoint(id);
      pic.isHighQuality := false;
      model := model.(children := model.children[k := pic.State()]);
    }

    /** bringToFront on the k-th child. */
    method BringChildToFront(k: int)
      requires Sound() && 0 <= k < |children|
      modifies this
      ensures Sound() && ptrMap == old(ptrMap)
      ensures children == BringToFront(old(children), k)
      ensures model == old(model).(children := BringToFront(old(model).children, k))
    {
      FrontMoveKeeps(model.children, children, k);
      children := BringToFront(children, k);
      model := model.(children := BringToFront(model.children, k));
    }

    /** The two-finger branch of handleActionMove: rotate by the clamped change of
        inclination and scale by the change of distance, both about the fixed
        contact. */
    method RotateAndScale(pic: Photograph, fixed: TouchPointState, prevX: int, prevY: int, x: int, y: int)
      requires pic.Valid()
      modifies pic
      ensures pic.Valid()
      ensures pic.State() == RotateScale(old(pic.State()), math, fixed, prevX, prevY, x, y)
    {
      var oldDistBetweenPoints := Distance(math, fixed.x, fixed.y, prevX, prevY);
      var newDistBetweenPoints := Distance(math, fixed.x, fixed.y, x, y);
      var diff := newDistBetweenPoints - oldDistBetweenPoints;
      var angleOld := Inclination(math, fixed.x, fixed.y, prevX, prevY);
      var angleNew := Inclination(math, fixed.x, fixed.y, x, y);
      var theta := angleNew - angleOld;
      if AbsReal(theta) > THETA_LIMIT {
        theta := 0.0;
      }
      pic.SetAngle(pic.GetAngle() + theta);
      pic.SetScale(JavaInt(diff), SCALE_GRANULARITY);
    }

    /** The gesture of a pointer that moved past the threshold, on the photo it is
        bound to. */
    method GestureOn(pic: Photograph, movingId: int, prevX: int, prevY: int, x: int, y: int)
      requires pic.Valid()
      modifies pic
      ensures pic.Valid()
      ensures pic.State() == Gesture(old(pic.State()), math, movingId, prevX, prevY, x, y)
    {
      var numPtsContact := pic.GetCountPointsOfContact();
      if numPtsContact == 1 {
        pic.Translate(x - prevX, y - prevY);
      } else if numPtsContact == 2 {
        var fixed := FixedContactOf(pic, movingId);
        if fixed.Some? {
          RotateAndScale(pic, fixed.value, prevX, prevY, x, y);
        }
      }
    }

    /** GestureOn on the k-th child; nothing else changes. */
    method GestureOnChild(k: int, movingId: int, prevX: int, prevY: int, x: int, y: int)
      requires Sound() && 0 <= k < |children|
      modifies this, children[k]
      ensures Sound() && children == old(children) && ptrMap == old(ptrMap)
      ensures model == old(model).(children := old(model).children[k := Gesture(old(model).children[k], math, movingId, prevX, prevY, x, y)])
    {
      GestureOn(children[k], movingId, prevX, prevY, x, y);
      model := model.(children := model.children[k := children[k].State()]);
    }

    /** Lines 357-368 of handleActionMove once the photo is found: the gesture on
        the k-th child, then the record takes the new position. */
    method GestureAndRecord(k: int, id: int, prevX: int, prevY: int, x: int, y: int)
      requires Sound() && 0 <= k < |children| && id in ptrMap
      modifies this, children[k], ptrMap[id]
      ensures Sound() && children == old(children) && ptrMap == old(ptrMap)
      ensures model == World(old(model).ptrMap[id := old(model).ptrMap[id].PutXY(x, y)],
                             old(model).children[k := Gesture(old(model).children[k], math, id, prevX, prevY, x, y)])
    {
      GestureOnChild(k, id, prevX, prevY, x, y);
      MoveRecord(id, x, y);
    }

    // -------------------------------------------------------------------------
    // Redraw

    /** onDraw of the k-th child in a view of the given size: its base rectangle
        and ROI are recomputed; nothing else changes. */
    method DrawChild(k: int, viewWidth: nat, viewHeight: nat)
      requires Sound() && 0 <= k < |children|
      modifies this, children[k]
      ensures Sound() && children == old(children) && ptrMap == old(ptrMap)
      ensures model == Draw(old(model), math, k, viewWidth, viewHeight)
      ensures Invariant(old(model)) ==> Invariant(model)
    {
      ghost var w := model;
      children[k].UpdateGeometry(math, viewWidth, viewHeight);
      model := model.(children := model.children[k := children[k].State()]);
      if Invariant(w) {
        DrawKeepsInvariant(w, math, k, viewWidth, viewHeight);
      }
    }

    // -------------------------------------------------------------------------
    // Down

    /** Lines 228-230 of handleActionDown: a new record for the pointer, down but
        not yet valid. */
    static method PressedRecord(x: int, y: int, ptrId: int, ptrIndex: int, tag: int) returns (tp: TouchPoint)
      ensures fresh(tp)
      ensures tp.State() == NewTouchPoint(x, y, ptrId, ptrIndex, TagRef(tag)).(isDown := true)
    {
      tp := new TouchPoint.WithValues(x, y, ptrId, ptrIndex, TagRef(tag));
      tp.SetValidity(false);
      tp.isDown := true;
    }

    /** Lines 246-247 of handleActionDown: the record takes the photograph's tag
        and becomes valid. */
    method BindRecord(tp: TouchPoint, tag: int)
      requires Sound() && forall a :: a in ptrMap ==> ptrMap[a] != tp
      modifies tp
      ensures Sound()
      ensures tp.State() == old(tp.State()).(extra := TagRef(tag), valid := true)
    {
      tp.extra := TagRef(tag);
      tp.SetValidity(true);
    }

    /** Lines 232-248 of handleActionDown: the touched photograph is pressed with
        a snapshot of the pointer and brought to the front, and the record is
        bound to its tag. */
    method PressChild(k: int, tp: TouchPoint, x: int, y: int, ptrId: int, ptrIndex: int)
      requires Sound() && 0 <= k < |children| && forall a :: a in ptrMap ==> ptrMap[a] != tp
      modifies this, children[k], children[k].ptsOfContact, tp
      ensures Sound() && ptrMap == old(ptrMap)
      ensures model == old(model).(children := BringToFront(old(model).children[k := DownOnPhoto(old(model).children[k], NewTouchPoint(x, y, ptrId, ptrIndex, Null))], k))
      ensures tp.State() == old(tp.State()).(extra := TagRef(old(model).children[k].tag), valid := true)
    {
      var snapshot := new TouchPoint.WithValues(x, y, ptrId, ptrIndex, Null);
      DownOnChild(k, snapshot.State());
      var tag := children[k].tag;
      BringChildToFront(k);
      BindRecord(tp, tag);
    }

    /** handleActionDown for the pointer at index `ptrIndex` of the event. */
    method HandleActionDown(ptrIndex: int, ptrId: int, e: MotionEvent)
      requires Sound() && 0 <= ptrIndex < |e.pointers|
      modifies this, Footprint()
      ensures Sound()
      ensures model == Down(old(model), ptrIndex, ptrId, JavaInt(e.pointers[ptrIndex].x), JavaInt(e.pointers[ptrIndex].y))
      ensures Invariant(old(model)) && !(ptrId in old(model).ptrMap && old(model).ptrMap[ptrId].isDown) ==> Invariant(model)
    {
      var x := JavaInt(e.pointers[ptrIndex].x);
      var y := JavaInt(e.pointers[ptrIndex].y);
      ghost var w := model;
      var k := GetTouchedView(x, y);
      var tag := if k < 0 then BACKGROUND_TAG else children[k].tag;
      ghost var record := DownRecord(w.children, ptrIndex, ptrId, x, y);
      var tp := PressedRecord(x, y, ptrId, ptrIndex, tag);
      if k >= 0 {
        PressChild(k, tp, x, y, ptrId, ptrIndex);
      }
      assert tp.State() == record;
      StoreRecord(ptrId, tp);
      assert model == Down(w, ptrIndex, ptrId, x, y) by {
        if k >= 0 {
          assert model == World(w.ptrMap[ptrId := record], BringToFront(w.children[k := DownOnPhoto(w.children[k], NewTouchPoint(x, y, ptrId, ptrIndex, Null))], k));
        } else {
          assert model == w.(ptrMap := w.ptrMap[ptrId := record]);
        }
      }
      if Invariant(w) && !(ptrId in w.ptrMap && w.ptrMap[ptrId].isDown) {
        DownKeepsInvariant(w, ptrIndex, ptrId, x, y);
      }
    }

    // -------------------------------------------------------------------------
    // Up

    /** handleActionUp; false where the Java code throws (an unknown pointer, or a
        valid record whose photograph is gone), and then nothing has changed. */
    method HandleActionUp(ptrId: int) returns (ok: bool)
      requires Sound()
      modifies this, Footprint()
      ensures Sound()
      ensures Invariant(old(model)) ==> Invariant(model)
      ensures ok <==> Up(old(model), ptrId).Some?
      ensures ok ==> model == Up(old(model), ptrId).value
      ensures !ok ==> model == old(model)
    {
      ghost var w := model;
      if ptrId !in ptrMap {
        return false;
      }
      var tp := ptrMap[ptrId];
      if tp.IsValid() {
        var k := FindPhoto(tp.extra);
        if k < 0 {
          return false;
        }
        ReleaseOnChild(k, ptrId);
      }
      ReleaseRecord(ptrId);
      if Invariant(w) {
        UpKeepsInvariant(w, ptrId);
      }
      return true;
    }

    // -------------------------------------------------------------------------
    // Move

    /** One iteration of the loop of handleActionMove; false where the Java code
        throws. */
    method MoveOnePointer(s: Sample) returns (ok: bool)
      requires Sound()
      modifies this, Footprint()
      ensures Sound() && children == old(children) && ptrMap == old(ptrMap)
      ensures ok <==> MovePointer(old(model), math, s).Some?
      ensures ok ==> model == MovePointer(old(model), math, s).value
    {
      ghost var w := model;
      var x := JavaInt(s.x);
      var y := JavaInt(s.y);
      if s.id !in ptrMap {
        return false;
      }
      var tp := ptrMap[s.id];
      MovePointerCases(w, math, s);
      if tp.IsValid() {
        var dx := x - tp.GetX();
        var dy := y - tp.GetY();
        if dx == 0 && dy == 0 {
          return true;
        } else if Abs(dx) >= MOVE_THRESHOLD || Abs(dy) >= MOVE_THRESHOLD {
          var k := FindPhoto(tp.extra);
          if k < 0 {
            return false;
          }
          GestureAndRecord(k, s.id, tp.GetX(), tp.GetY(), x, y);
          return true;
        }
      }
      MoveRecord(s.id, x, y);
      return true;
    }

    /** handleActionMove: every pointer of the event, in index order; false where
        the Java code throws, after the pointers before it have been handled. */
    method HandleActionMove(samples: seq<Sample>) returns (ok: bool)
      requires Sound()
      modifies this, Footprint()
      ensures Sound()
      ensures ok <==> Move(old(model), math, samples).Some?
      ensures ok ==> model == Move(old(model), math, samples).value
      ensures ok && Invariant(old(model)) ==> Invariant(model)
    {
      ghost var w := model;
      var index := 0;
      while index < |samples|
        invariant 0 <= index <= |samples|
        invariant Sound() && children == old(children) && ptrMap == old(ptrMap)
        invariant Move(w, math, samples) == Move(model, math, samples[index..])
      {
        assert samples[index..][1..] == samples[index + 1..];
        var stepOk := MoveOnePointer(samples[index]);
        if !stepOk {
          return false;
        }
        index := index + 1;
      }
      if Invariant(w) {
        MoveKeepsInvariant(w, math, samples);
      }
      return true;
    }

    // -------------------------------------------------------------------------
    // onTouch

    /** onTouch: resolve the action and its pointer, then dispatch; false where
        the Java code throws. */
    method OnTouch(e: MotionEvent) returns (ok: bool)
      requires Sound()
      modifies this, Footprint()
      ensures Sound()
      ensures ok && Invariant(old(model)) && DownIsFresh(old(model), e) ==> Invariant(model)
      ensures ok <==> PointerTracking.OnTouch(old(model), math, e).Some?
      ensures ok ==> model == PointerTracking.OnTouch(old(model), math, e).value
    {
      var count := |e.pointers|;
      var actionResolved := ResolveAction(e.action);
      var ptrIndex := PointerIndex(e.action, count);
      if ptrIndex >= count {
        return false;
      }
      var ptrId := e.pointers[ptrIndex].id;
      if actionResolved == ACTION_DOWN {
        HandleActionDown(ptrIndex, ptrId, e);
        ok := true;
      } else if actionResolved == ACTION_MOVE {
        ok := HandleActionMove(e.pointers);
      } else if actionResolved == ACTION_UP {
        ok := HandleActionUp(ptrId);
      } else {
        ok := true;
      }
    }

    /** A touch event through onTouch, or Android drawing one child. */
    method Handle(i: Input) returns (ok: bool)
      requires Sound()
      modifies this, Footprint()
      ensures Sound()
      ensures ok <==> Step(old(model), math, i).Some?
      ensures ok ==> model == Step(old(model), math, i).value
      ensures ok && Invariant(old(model)) && (i.Touch? ==> DownIsFresh(old(model), i.e)) ==> Invariant(model)
    {
      match i
      case Touch(e) =>
        ok := OnTouch(e);
      case Redraw(k, width, height) =>
        if 0 <= k < |children| {
          DrawChild(k, width, height);
        }
        ok := true;
    }
  }
}
