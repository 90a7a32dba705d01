/** Photograph.java: the per-photo state the tracker updates — the three-slot array
    of points of contact, the affine fields with their lock and scale rules, and the
    cached region of interest used for hit tests. */
module Photographs {
  import opened Base
  import opened Geometry
  import opened TouchPoints

  /** MIN_SCALE_VAL: a scale factor must stay above this. */
  const MIN_SCALE_VAL: real := 0.5

  /** The length of `ptsOfContact`. */
  const CONTACT_SLOTS: nat := 3

  /** The contents of `ptsOfContact`; None is a null slot. */
  type Slots = seq<Option<TouchPointState>>

  // ---------------------------------------------------------------------------
  // The slot array as a value

  /** The index of the lowest null slot, or |s| if every slot is taken. */
  function FirstFree(s: Slots): (i: nat)
    ensures i <= |s|
    ensures forall j :: 0 <= j < i ==> s[j].Some?
    ensures i < |s| ==> s[i].None?
  {
    if s == [] then 0
    else if s[0].None? then 0
    else 1 + FirstFree(s[1..])
  }

  predicate HoldsId(slot: Option<TouchPointState>, pId: int)
  {
    slot.Some? && slot.value.pointerId == pId
  }

  /** The index of the lowest slot holding a point with id `pId`, or |s| if none. */
  function FirstWithId(s: Slots, pId: int): (i: nat)
    ensures i <= |s|
    ensures forall j :: 0 <= j < i ==> !HoldsId(s[j], pId)
    ensures i < |s| ==> HoldsId(s[i], pId)
  {
    if s == [] then 0
    else if HoldsId(s[0], pId) then 0
    else 1 + FirstWithId(s[1..], pId)
  }

  /** addTouchPoint on the slot values. */
  function WithContact(s: Slots, p: TouchPointState): Slots
  {
    var i := FirstFree(s);
    if i < |s| then s[i := Some(p)] else s
  }

  /** removeTouchPoint on the slot values. */
  function WithoutContact(s: Slots, pId: int): Slots
  {
    var i := FirstWithId(s, pId);
    if i < |s| then s[i := None] else s
  }

  /** getCountPointsOfContact on the slot values: the number of non-null slots. */
  function CountContacts(s: Slots): (n: nat)
    ensures n <= |s|
  {
    if s == [] then 0
    else CountContacts(s[..|s| - 1]) + (if s[|s| - 1].Some? then 1 else 0)
  }

  /** Every slot is taken exactly when the count reaches the length. */
  lemma {:induction false} CountFullIffNoFree(s: Slots)
    ensures CountContacts(s) == |s| <==> forall j :: 0 <= j < |s| ==> s[j].Some?
  {
    if s != [] {
      var s' := s[..|s| - 1];
      CountFullIffNoFree(s');
      assert forall j :: 0 <= j < |s'| ==> s'[j] == s[j];
    }
  }

  /** Overwriting one slot changes the count by what left and what came in. */
  lemma {:induction false} CountAfterUpdate(s: Slots, i: nat, v: Option<TouchPointState>)
    requires i < |s|
    ensures CountContacts(s[i := v])
            == CountContacts(s) - (if s[i].Some? then 1 else 0) + (if v.Some? then 1 else 0)
  {
    var t := s[i := v];
    if i < |s| - 1 {
      assert t[..|t| - 1] == s[..|s| - 1][i := v];
      CountAfterUpdate(s[..|s| - 1], i, v);
    } else {
      assert t[..|t| - 1] == s[..|s| - 1];
    }
  }

  /** addTouchPoint stores the point in the lowest null slot and leaves every other
      slot alone; with no null slot the array is unchanged. */
  lemma AddContactPlacement(s: Slots, p: TouchPointState)
    ensures |WithContact(s, p)| == |s|
    ensures (forall j :: 0 <= j < |s| ==> s[j].Some?) ==> WithContact(s, p) == s
    ensures forall i :: 0 <= i < |s| && s[i].None? && (forall j :: 0 <= j < i ==> s[j].Some?) ==>
              WithContact(s, p)[i] == Some(p)
              && forall j :: 0 <= j < |s| && j != i ==> WithContact(s, p)[j] == s[j]
  {
  }

  /** The count rises by one exactly when it was below the capacity. */
  lemma CountAfterAdd(s: Slots, p: TouchPointState)
    ensures CountContacts(WithContact(s, p))
            == CountContacts(s) + (if CountContacts(s) < |s| then 1 else 0)
  {
    CountFullIffNoFree(s);
    var i := FirstFree(s);
    if i < |s| {
      CountAfterUpdate(s, i, Some(p));
    }
  }

  /** removeTouchPoint nulls only the lowest slot holding `pId`; without one the
      array is unchanged. */
  lemma RemoveContactPlacement(s: Slots, pId: int)
    ensures |WithoutContact(s, pId)| == |s|
    ensures (forall j :: 0 <= j < |s| ==> !HoldsId(s[j], pId)) ==> WithoutContact(s, pId) == s
    ensures forall i :: 0 <= i < |s| && HoldsId(s[i], pId) && (forall j :: 0 <= j < i ==> !HoldsId(s[j], pId)) ==>
              WithoutContact(s, pId)[i].None?
              && forall j :: 0 <= j < |s| && j != i ==> WithoutContact(s, pId)[j] == s[j]
  {
  }

  /** The count drops by one exactly when some slot held `pId`. */
  lemma CountAfterRemove(s: Slots, pId: int)
    ensures CountContacts(WithoutContact(s, pId))
            == CountContacts(s) - (if FirstWithId(s, pId) < |s| then 1 else 0)
  {
    var i := FirstWithId(s, pId);
    if i < |s| {
      CountAfterUpdate(s, i, None);
    }
  }

  /** Adding a point whose id is not yet present and then removing that id gives the
      array back, whenever there was room. */
  lemma RemoveAfterAdd(s: Slots, p: TouchPointState)
    requires forall j :: 0 <= j < |s| ==> !HoldsId(s[j], p.pointerId)
    ensures WithoutContact(WithContact(s, p), p.pointerId) == s
  {
    var i := FirstFree(s);
    if i < |s| {
      var t := s[i := Some(p)];
      assert HoldsId(t[i], p.pointerId);
      assert forall j :: 0 <= j < i ==> t[j] == s[j];
      assert FirstWithId(t, p.pointerId) == i;
      assert t[i := None] == s;
    }
  }

  /** No pointer id appears in two slots. */
  predicate DistinctIds(s: Slots)
  {
    forall i, j :: 0 <= i < |s| && 0 <= j < |s| && i != j && s[i].Some? && s[j].Some? ==>
      s[i].value.pointerId != s[j].value.pointerId
  }

  /** The slots after addTouchPoint: each one is the old slot or the new point. */
  lemma WithContactSlots(s: Slots, p: TouchPointState)
    ensures |WithContact(s, p)| == |s|
    ensures forall j :: 0 <= j < |s| ==> WithContact(s, p)[j] == s[j] || WithContact(s, p)[j] == Some(p)
  {
  }

  /** Adding a point whose id is absent keeps the ids distinct. */
  lemma WithContactKeepsDistinct(s: Slots, p: TouchPointState)
    requires DistinctIds(s)
    requires forall j :: 0 <= j < |s| ==> !HoldsId(s[j], p.pointerId)
    ensures DistinctIds(WithContact(s, p))
  {
    var i := FirstFree(s);
    if i < |s| {
      var t := s[i := Some(p)];
      forall a, b | 0 <= a < |t| && 0 <= b < |t| && a != b && t[a].Some? && t[b].Some?
        ensures t[a].value.pointerId != t[b].value.pointerId
      {
        if a == i {
          assert !HoldsId(s[b], p.pointerId);
        } else if b == i {
          assert !HoldsId(s[a], p.pointerId);
        }
      }
    }
  }

  /** With distinct ids, removeTouchPoint leaves no slot holding the id, and the
      remaining ids stay distinct. */
  lemma WithoutContactClears(s: Slots, pId: int)
    requires DistinctIds(s)
    ensures DistinctIds(WithoutContact(s, pId))
    ensures forall j :: 0 <= j < |s| ==> !HoldsId(WithoutContact(s, pId)[j], pId)
    ensures forall j :: 0 <= j < |s| ==> WithoutContact(s, pId)[j] == s[j] || WithoutContact(s, pId)[j].None?
  {
    var i := FirstWithId(s, pId);
    if i < |s| {
      assert forall j :: i < j < |s| ==> !HoldsId(s[j], pId);
    }
  }

  // ---------------------------------------------------------------------------
  // The fields of a photograph as a value

  /** The new scale along one axis: the step is taken only if the result stays
      above the floor. */
  function ScaleStep(s: real, scaleFactor: int, granularity: real): (r: real)
    ensures r == s || r == s + scaleFactor as real * granularity
    ensures r == s + scaleFactor as real * granularity <== s + scaleFactor as real * granularity > MIN_SCALE_VAL
    ensures r > MIN_SCALE_VAL || r == s
    ensures s > MIN_SCALE_VAL ==> r > MIN_SCALE_VAL
  {
    var sNew := s + scaleFactor as real * granularity;
    if sNew > MIN_SCALE_VAL then sNew else s
  }

  /** Every field of a Photograph that the tracker or the draw-time geometry
      reads or changes; `roi` holds the four ROI corners (None until the first
      draw). */
  datatype PhotoState = PhotoState(
    tag: int,
    wBmp: nat,
    hBmp: nat,
    left: int,
    top: int,
    right: int,
    bottom: int,
    angle: real,
    sx: real,
    sy: real,
    tx: real,
    ty: real,
    isHighQuality: bool,
    isMarked: bool,
    isLocked: bool,
    roi: Option<Quad>,
    contacts: Slots)
  {
    /** translate: a no-op on a locked photo. */
    function Translate(x: int, y: int): PhotoState
    {
      if isLocked then this
      else this.(tx := tx + x as real, ty := ty + y as real, isHighQuality := true)
    }

    /** setScale: a no-op on a locked photo; each axis moves by
        scaleFactor * granularity only if it stays above MIN_SCALE_VAL. */
    function SetScale(scaleFactor: int, granularity: real): PhotoState
    {
      if isLocked then this
      else this.(sx := ScaleStep(sx, scaleFactor, granularity),
                 sy := ScaleStep(sy, scaleFactor, granularity),
                 isHighQuality := true)
    }

    /** setAngle: applied whether or not the photo is locked. */
    function SetAngle(degrees: real): PhotoState
    {
      this.(angle := degrees, isHighQuality := true)
    }

    function AddTouchPoint(p: TouchPointState): PhotoState
    {
      this.(contacts := WithContact(contacts, p))
    }

    function RemoveTouchPoint(pId: int): PhotoState
    {
      this.(contacts := WithoutContact(contacts, pId))
    }

    function CountPointsOfContact(): nat
    {
      CountContacts(contacts)
    }

    /** The geometric part of onDraw in a view of the given size: the base
        rectangle is recomputed from the translation, and the ROI from the base
        rectangle, rotated and scaled about its centre. */
    function Draw(math: JavaMath, viewWidth: nat, viewHeight: nat): (p: PhotoState)
      ensures p.roi.Some?
      ensures p.right == p.left + wBmp && p.bottom == p.top + hBmp
      ensures p.(left := left, top := top, right := right, bottom := bottom, roi := roi) == this
    {
      var placed := Placed(viewWidth, viewHeight);
      placed.WithROI(math, placed.left + wBmp / 2, placed.top + hBmp / 2)
    }

    /** initCoordinates: the base rectangle, centred in a view of the given size
        and shifted by the translation, each coordinate cast to int. */
    function Placed(viewWidth: nat, viewHeight: nat): PhotoState
    {
      var l := JavaInt((viewWidth / 2) as real + tx);
      var t := JavaInt((viewHeight / 2) as real + ty);
      this.(left := l, top := t, right := l + wBmp, bottom := t + hBmp)
    }

    /** transformROI: the corners of the base rectangle, rotated and then scaled
        about the pivot. */
    function WithROI(math: JavaMath, pivotX: int, pivotY: int): PhotoState
    {
      this.(roi := Some(TransformedROI(math, left, top, right, bottom, pivotX, pivotY, angle, sx, sy)))
    }

    /** The invariant every photograph keeps. */
    predicate ScaleAboveFloor()
    {
      sx > MIN_SCALE_VAL && sy > MIN_SCALE_VAL
    }
  }

  /** A locked photo ignores translate and setScale. */
  lemma LockedIgnoresTranslateAndScale(p: PhotoState, x: int, y: int, f: int, g: real)
    requires p.isLocked
    ensures p.Translate(x, y) == p && p.SetScale(f, g) == p
  {
  }

  /** translate(x, y) then translate(-x, -y) restores the translation. */
  lemma TranslateRoundTrip(p: PhotoState, x: int, y: int)
    ensures p.Translate(x, y).Translate(-x, -y).tx == p.tx
    ensures p.Translate(x, y).Translate(-x, -y).ty == p.ty
    ensures p.Translate(x, y).Translate(-x, -y).(isHighQuality := p.isHighQuality) == p
  {
  }

  /** setScale keeps both factors above the floor, locked or not. */
  lemma SetScaleKeepsFloor(p: PhotoState, f: int, g: real)
    requires p.ScaleAboveFloor()
    ensures p.SetScale(f, g).ScaleAboveFloor()
  {
  }

  /** setAngle sets the angle even on a locked photo and touches nothing but the
      angle and the quality flag. */
  lemma SetAngleIgnoresLock(p: PhotoState, d: real)
    ensures p.SetAngle(d).angle == d && p.SetAngle(d).isHighQuality
    ensures p.SetAngle(d).isLocked == p.isLocked
    ensures p.SetAngle(d).(angle := p.angle, isHighQuality := p.isHighQuality) == p
  {
  }

  // ---------------------------------------------------------------------------
  // The object

  class Photograph {
    /** The view tag assigned right after construction (`setTag(tagCount++)`). */
    const tag: int
    /** The size of the unscaled image. */
    const wBmp: nat
    const hBmp: nat

    var left: int
    var top: int
    var right: int
    var bottom: int
    var angleBmp: real
    var sx: real
    var sy: real
    var tx: real
    var ty: real
    var isHighQuality: bool
    var isMarked: bool
    var isLocked: bool
    /** topLeft, topRight, botLeft, botRight: null until the first draw. */
    var roi: Option<Quad>
    const ptsOfContact: array<Option<TouchPointState>>

    ghost predicate Valid()
      reads this
    {
      ptsOfContact.Length == CONTACT_SLOTS && sx > MIN_SCALE_VAL && sy > MIN_SCALE_VAL
    }

    function State(): PhotoState
      reads this, ptsOfContact
    {
      PhotoState(tag, wBmp, hBmp, left, top, right, bottom, angleBmp, sx, sy, tx, ty,
                 isHighQuality, isMarked, isLocked, roi, ptsOfContact[..])
    }

    /** The constructor: no scaling, no translation, no contacts, all flags false.
        `initCoordinates` runs before Android has laid the view out, so the view
        size it reads is 0 and the base rectangle starts at the origin. The height
        `(int)(wBmp / aspectRatio)` is passed in already computed. */
    constructor (tag: int, angle: real, initWidth: nat, initHeight: nat)
      ensures Valid() && fresh(ptsOfContact)
      ensures this.tag == tag && wBmp == initWidth && hBmp == initHeight
      ensures State() == PhotoState(tag, initWidth, initHeight, 0, 0, initWidth, initHeight,
                                    angle, 1.0, 1.0, 0.0, 0.0, false, false, false, None,
                                    [None, None, None])
    {
      this.tag := tag;
      angleBmp := angle;
      wBmp, hBmp := initWidth, initHeight;
      sx, sy := 1.0, 1.0;
      tx, ty := 0.0, 0.0;
      JavaIntOfInt(0);
      var l, t := JavaInt((0 / 2) as real + 0.0), JavaInt((0 / 2) as real + 0.0);
      left, top := l, t;
      right, bottom := l + initWidth, t + initHeight;
      ptsOfContact := new Option<TouchPointState>[CONTACT_SLOTS](_ => None);
      isHighQuality, isMarked, isLocked := false, false, false;
      roi := None;
    }

    /** initCoordinates: the base rectangle, centred in a view of the given size
        (`getWidth()`, `getHeight()`) and shifted by the translation, each
        coordinate cast to int. */
    method InitCoordinates(viewWidth: nat, viewHeight: nat)
      modifies this
      ensures State() == old(State()).Placed(viewWidth, viewHeight)
    {
      left := JavaInt((viewWidth / 2) as real + tx);
      top := JavaInt((viewHeight / 2) as real + ty);
      right := left + wBmp;
      bottom := top + hBmp;
    }

    /** transformROI: the corners of the base rectangle, rotated and then scaled
        about the pivot. */
    method TransformROI(math: JavaMath, pivotX: int, pivotY: int)
      modifies this
      ensures State() == old(State()).WithROI(math, pivotX, pivotY)
    {
      roi := Some(TransformedROI(math, left, top, right, bottom, pivotX, pivotY, angleBmp, sx, sy));
    }

    /** The geometric part of onDraw: recompute the base rectangle, then the ROI
        about the centre of that rectangle. Drawing itself is not modelled. */
    method UpdateGeometry(math: JavaMath, viewWidth: nat, viewHeight: nat)
      requires Valid()
      modifies this
      ensures Valid()
      ensures State() == old(State()).Draw(math, viewWidth, viewHeight)
    {
      InitCoordinates(viewWidth, viewHeight);
      var pivotX := left + wBmp / 2;
      var pivotY := top + hBmp / 2;
      TransformROI(math, pivotX, pivotY);
    }

    /** isPointInROI, against the corners of the last draw. */
    predicate IsPointInROI(x: int, y: int)
      reads this
      requires roi.Some?
    {
      InRegion(roi.value, x, y)
    }

    method SetAngle(degrees: real)
      requires Valid()
      modifies this
      ensures Valid()
      ensures State() == old(State()).SetAngle(degrees)
    {
      angleBmp := degrees;
      isHighQuality := true;
    }

    function GetAngle(): real
      reads this
    {
      angleBmp
    }

    method SetScale(scaleFactor: int, granularity: real)
      requires Valid()
      modifies this
      ensures Valid()
      ensures State() == old(State()).SetScale(scaleFactor, granularity)
    {
      if isLocked {
        return;
      }
      var sxNew := sx + scaleFactor as real * granularity;
      var syNew := sy + scaleFactor as real * granularity;
      if sxNew > MIN_SCALE_VAL {
        sx := sxNew;
      }
      if syNew > MIN_SCALE_VAL {
        sy := syNew;
      }
      isHighQuality := true;
    }

    method SetMarker(isChecked: bool)
      requires Valid()
      modifies this
      ensures Valid()
      ensures State() == old(State()).(isMarked := isChecked)
    {
      isMarked := isChecked;
    }

    method Translate(x: int, y: int)
      requires Valid()
      modifies this
      ensures Valid()
      ensures State() == old(State()).Translate(x, y)
    {
      if isLocked {
        return;
      }
      tx := tx + x as real;
      ty := ty + y as real;
      isHighQuality := true;
    }

    method AddTouchPoint(point: TouchPointState)
      requires Valid()
      modifies ptsOfContact
      ensures Valid()
      ensures State() == old(State()).AddTouchPoint(point)
    {
      for i := 0 to ptsOfContact.Length
        invariant ptsOfContact[..] == old(ptsOfContact[..])
        invariant forall j :: 0 <= j < i ==> ptsOfContact[j].Some?
      {
        if ptsOfContact[i].None? {
          ptsOfContact[i] := Some(point);
          assert FirstFree(old(ptsOfContact[..])) == i;
          return;
        }
      }
      assert FirstFree(ptsOfContact[..]) == ptsOfContact.Length;
    }

    method RemoveTouchPoint(pId: int)
      requires Valid()
      modifies ptsOfContact
      ensures Valid()
      ensures State() == old(State()).RemoveTouchPoint(pId)
    {
      for i := 0 to ptsOfContact.Length
        invariant ptsOfContact[..] == old(ptsOfContact[..])
        invariant forall j :: 0 <= j < i ==> !HoldsId(ptsOfContact[j], pId)
      {
        if ptsOfContact[i].Some? {
          if ptsOfContact[i].value.pointerId == pId {
            ptsOfContact[i] := None;
            assert FirstWithId(old(ptsOfContact[..]), pId) == i;
            return;
          }
        }
      }
      assert FirstWithId(ptsOfContact[..], pId) == ptsOfContact.Length;
    }

    method GetCountPointsOfContact() returns (count: nat)
      ensures count == CountContacts(ptsOfContact[..])
    {
      count := 0;
      for i := 0 to ptsOfContact.Length
        invariant count == CountContacts(ptsOfContact[..i])
      {
        assert ptsOfContact[..i + 1][..i] == ptsOfContact[..i];
        if ptsOfContact[i].Some? {
          count := count + 1;
        }
      }
      assert ptsOfContact[..ptsOfContact.Length] == ptsOfContact[..];
    }
  }
}
