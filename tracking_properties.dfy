/** What the handlers of MultiTouchActivity.java do, stated about the functions of
    PointerTracking: the records they leave, the transforms they dispatch, when
    they cannot throw, and the selection of the fixed finger. */
module TrackingProperties {
  import opened Base
  import opened Geometry
  import opened TouchPoints
  import opened Photographs
  import opened PointerTracking
  import opened TrackingInvariants

  // ---------------------------------------------------------------------------
  // Action codes

  /** A secondary pointer going down (code 5 with index 1 in bits 8..15) is a Down
      of index 1; code 6 with index 2 is an Up of index 2; a plain move is a Move;
      a cancel (3) is none of the three. */
  lemma ActionCodeExamples()
    ensures ResolveAction(0x0105) == ACTION_DOWN && PointerIndex(0x0105, 2) == 1
    ensures ResolveAction(0x0206) == ACTION_UP && PointerIndex(0x0206, 3) == 2
    ensures ResolveAction(0x0002) == ACTION_MOVE && PointerIndex(0x0002, 1) == 0
    ensures ResolveAction(0x0003) == 3
    ensures PointerIndex(0x0105, 1) == 0
  {
  }

  // ---------------------------------------------------------------------------
  // Down

  /** Down stores a fresh record for the pointer at (x, y), down, valid exactly
      when a photograph was hit, and bound to the tag of what was hit; no other
      record changes. */
  lemma DownStoresRecord(w: World, ptrIndex: int, ptrId: int, x: int, y: int)
    ensures var w' := Down(w, ptrIndex, ptrId, x, y);
            && w'.ptrMap == w.ptrMap[ptrId := DownRecord(w.children, ptrIndex, ptrId, x, y)]
    ensures var k := TouchedView(w.children, x, y);
            var r := DownRecord(w.children, ptrIndex, ptrId, x, y);
            && r.x == x && r.y == y && r.pointerId == ptrId && r.pointerIndex == ptrIndex
            && r.isDown
            && (r.valid <==> k >= 0)
            && r.extra == TagRef(if k >= 0 then w.children[k].tag else BACKGROUND_TAG)
  {
  }

  /** Down on the background changes no photograph; on a photograph, the photo is
      moved to the end of the child list and the other children keep their order. */
  lemma DownChildren(w: World, ptrIndex: int, ptrId: int, x: int, y: int)
    ensures var w' := Down(w, ptrIndex, ptrId, x, y);
            var k := TouchedView(w.children, x, y);
            && (k < 0 ==> w'.children == w.children)
            && (k >= 0 ==> w'.children == BringToFront(w.children, k)[|w.children| - 1 :=
                              DownOnPhoto(w.children[k], NewTouchPoint(x, y, ptrId, ptrIndex, Null))])
  {
    var k := TouchedView(w.children, x, y);
    if k >= 0 {
      var t := DownOnPhoto(w.children[k], NewTouchPoint(x, y, ptrId, ptrIndex, Null));
      var a := BringToFront(w.children[k := t], k);
      var b := BringToFront(w.children, k)[|w.children| - 1 := t];
      assert forall j :: 0 <= j < |a| ==> a[j] == b[j];
    }
  }

  /** bringToFront only reorders the children: none is lost or duplicated. */
  lemma BringToFrontPermutes<T>(cs: seq<T>, k: int)
    requires 0 <= k < |cs|
    ensures multiset(BringToFront(cs, k)) == multiset(cs)
  {
    assert cs == cs[..k] + [cs[k]] + cs[k + 1..];
  }

  /** On the photo that was hit, Down stores the pointer's own snapshot at its Down
      position in the lowest free slot (if any), makes the photo high quality, and
      toggles both the mark and the lock exactly when the count afterwards is 3:
      when the third finger lands, and again for every further finger while three
      are down. */
  lemma DownOnPhotoEffect(p: PhotoState, c: TouchPointState)
    requires |p.contacts| == CONTACT_SLOTS
    ensures var p' := DownOnPhoto(p, c);
            && p'.contacts == WithContact(p.contacts, c)
            && p'.CountPointsOfContact() == (if p.CountPointsOfContact() < 3 then p.CountPointsOfContact() + 1 else 3)
            && p'.isHighQuality
            && (p'.isLocked <==> (p.isLocked != (p.CountPointsOfContact() >= 2)))
            && (p'.isMarked <==> (p.isMarked != (p.CountPointsOfContact() >= 2)))
            && p'.(isHighQuality := p.isHighQuality, isMarked := p.isMarked, isLocked := p.isLocked,
                   contacts := p.contacts) == p
  {
    CountAfterAdd(p.contacts, c);
  }

  // ---------------------------------------------------------------------------
  // Up

  /** Up throws exactly for an unknown pointer or a valid record whose photo is
      gone; otherwise the record keeps its position, becomes invalid and not down,
      and no other record changes. */
  lemma UpRecord(w: World, ptrId: int)
    ensures ptrId !in w.ptrMap ==> Up(w, ptrId).None?
    ensures ptrId in w.ptrMap && w.ptrMap[ptrId].valid && BoundPhoto(w.children, w.ptrMap[ptrId].extra) < 0 ==>
              Up(w, ptrId).None?
    ensures ptrId in w.ptrMap && (!w.ptrMap[ptrId].valid || BoundPhoto(w.children, w.ptrMap[ptrId].extra) >= 0) ==>
              Up(w, ptrId).Some?
    ensures Up(w, ptrId).Some? ==>
              var w' := Up(w, ptrId).value;
              && ptrId in w.ptrMap && ptrId in w'.ptrMap
              && w'.ptrMap[ptrId] == w.ptrMap[ptrId].(valid := false, isDown := false)
              && (forall id :: id in w'.ptrMap <==> id in w.ptrMap)
              && (forall id :: id != ptrId && id in w.ptrMap ==> w'.ptrMap[id] == w.ptrMap[id])
              && (!w.ptrMap[ptrId].valid ==> w'.children == w.children)
  {
  }

  /** Under the invariant Up of a known pointer never throws, removes its point of
      contact from its photo, lowers the count by exactly one when it had one, and
      leaves every other photograph alone. */
  lemma UpReleasesContact(w: World, ptrId: int)
    requires Invariant(w) && ptrId in w.ptrMap && w.ptrMap[ptrId].valid
    ensures Up(w, ptrId).Some?
    ensures var k := IndexOfTag(w.children, w.ptrMap[ptrId].extra.tag);
            var w' := Up(w, ptrId).value;
            && 0 <= k < |w.children|
            && w'.children == w.children[k := w.children[k].RemoveTouchPoint(ptrId).(isHighQuality := false)]
            && Untouched(w'.children, ptrId)
            && w'.children[k].CountPointsOfContact() ==
               w.children[k].CountPointsOfContact() - (if FirstWithId(w.children[k].contacts, ptrId) < CONTACT_SLOTS then 1 else 0)
  {
    var tp := w.ptrMap[ptrId];
    assert RecordBound(w.children, tp);
    var k := IndexOfTag(w.children, tp.extra.tag);
    assert tp.extra.tag != BACKGROUND_TAG by {
      assert PhotoWellFormed(w.children[k]);
    }
    UpKeepsInvariant(w, ptrId);
    var w' := Up(w, ptrId).value;
    assert Invariant(w');
    InvalidIsUntouched(w', ptrId);
    assert PhotoWellFormed(w.children[k]);
    CountAfterRemove(w.children[k].contacts, ptrId);
  }

  /** Under the invariant Up of a known pointer never throws. */
  lemma UpSucceeds(w: World, ptrId: int)
    requires Invariant(w) && ptrId in w.ptrMap
    ensures Up(w, ptrId).Some?
  {
    if w.ptrMap[ptrId].valid {
      UpReleasesContact(w, ptrId);
    }
  }

  // ---------------------------------------------------------------------------
  // Move

  /** Move throws for an unknown pointer; an invalid record, or a valid one that
      moved less than MOVE_THRESHOLD along both axes, only gets its new position;
      a valid record that did not move at all is skipped entirely. */
  lemma MoveWithoutGesture(w: World, math: JavaMath, s: Sample)
    ensures s.id !in w.ptrMap ==> MovePointer(w, math, s).None?
    ensures s.id in w.ptrMap ==>
              var tp := w.ptrMap[s.id];
              var dx, dy := JavaInt(s.x) - tp.x, JavaInt(s.y) - tp.y;
              && (tp.valid && dx == 0 && dy == 0 ==> MovePointer(w, math, s) == Some(w))
              && (!tp.valid || (!(dx == 0 && dy == 0) && Abs(dx) < MOVE_THRESHOLD && Abs(dy) < MOVE_THRESHOLD) ==>
                    MovePointer(w, math, s) == Some(w.(ptrMap := w.ptrMap[s.id := tp.PutXY(JavaInt(s.x), JavaInt(s.y))])))
  {
  }

  /** A pointer that is not skipped ends with its position set to the new (int)
      coordinates; its validity and binding never change, and no other record
      changes. */
  lemma MoveStoresPosition(w: World, math: JavaMath, s: Sample)
    requires MovePointer(w, math, s).Some?
    ensures var w' := MovePointer(w, math, s).value;
            var tp := w.ptrMap[s.id];
            && s.id in w.ptrMap && s.id in w'.ptrMap
            && (w'.ptrMap[s.id] == tp || w'.ptrMap[s.id] == tp.PutXY(JavaInt(s.x), JavaInt(s.y)))
            && (!(tp.valid && JavaInt(s.x) == tp.x && JavaInt(s.y) == tp.y) ==>
                  w'.ptrMap[s.id].x == JavaInt(s.x) && w'.ptrMap[s.id].y == JavaInt(s.y))
            && (forall id :: id in w'.ptrMap <==> id in w.ptrMap)
            && (forall id :: id != s.id && id in w.ptrMap ==> w'.ptrMap[id] == w.ptrMap[id])
  {
  }

  /** A Move never changes any photograph's points of contact: each is the snapshot
      taken at its Down, so the fixed finger of a gesture sits at its Down
      position. Neither the child order nor any tag changes. */
  lemma MoveKeepsContacts(w: World, math: JavaMath, s: Sample)
    requires MovePointer(w, math, s).Some?
    ensures var w' := MovePointer(w, math, s).value;
            && |w'.children| == |w.children|
            && forall i :: 0 <= i < |w.children| ==>
                 w'.children[i].contacts == w.children[i].contacts
                 && w'.children[i].tag == w.children[i].tag
                 && w'.children[i].isLocked == w.children[i].isLocked
  {
    var w' := MovePointer(w, math, s).value;
    if w'.children != w.children {
      var tp := w.ptrMap[s.id];
      var k := BoundPhoto(w.children, tp.extra);
      GestureKeepsShape(w.children[k], math, s.id, tp.x, tp.y, JavaInt(s.x), JavaInt(s.y));
    }
  }

  /** A valid pointer that moved at least MOVE_THRESHOLD along an axis transforms
      the photograph it is bound to, and only that one: it translates by (dx, dy)
      with one contact; with two it rotates and scales about the contact the Java
      code selects (the other finger, when the ids are distinct), or leaves the
      photo as it was where that selection throws; with any other count it does
      nothing. */
  lemma MoveDispatch(w: World, math: JavaMath, s: Sample)
    requires s.id in w.ptrMap && w.ptrMap[s.id].valid
    requires var tp := w.ptrMap[s.id];
             Abs(JavaInt(s.x) - tp.x) >= MOVE_THRESHOLD || Abs(JavaInt(s.y) - tp.y) >= MOVE_THRESHOLD
    requires 0 <= BoundPhoto(w.children, w.ptrMap[s.id].extra)
    ensures var tp := w.ptrMap[s.id];
            var x, y := JavaInt(s.x), JavaInt(s.y);
            var k := BoundPhoto(w.children, tp.extra);
            var p := w.children[k];
            && MovePointer(w, math, s).Some?
            && MovePointer(w, math, s).value.children == w.children[k := MovePointer(w, math, s).value.children[k]]
            && (p.CountPointsOfContact() == 1 ==>
                  MovePointer(w, math, s).value.children[k] == p.Translate(x - tp.x, y - tp.y))
            && (p.CountPointsOfContact() == 2 && FixedContactAsWritten(p.contacts, s.id).None? ==>
                  MovePointer(w, math, s).value.children[k] == p)
            && (p.CountPointsOfContact() == 2 && FixedContactAsWritten(p.contacts, s.id).Some? ==>
                  var fixed := FixedContactAsWritten(p.contacts, s.id).value;
                  && (DistinctIds(p.contacts) ==> fixed.pointerId != s.id && Some(fixed) in p.contacts)
                  && MovePointer(w, math, s).value.children[k] == RotateScale(p, math, fixed, tp.x, tp.y, x, y))
            && (p.CountPointsOfContact() != 1 && p.CountPointsOfContact() != 2 ==>
                  MovePointer(w, math, s).value.children[k] == p)
  {
    var p := w.children[BoundPhoto(w.children, w.ptrMap[s.id].extra)];
    if DistinctIds(p.contacts) && FixedContactAsWritten(p.contacts, s.id).Some? {
      FixedContactsAgree(p.contacts, s.id);
    }
  }

  /** The rotate-and-scale step: the angle moves by the clamped change of
      inclination, never by more than THETA_LIMIT degrees, and the scale by
      `(int) diff * 0.005` along each axis as setScale allows; on a locked photo
      the scale is kept but the angle still changes. */
  lemma RotateScaleEffect(p: PhotoState, math: JavaMath, fixed: TouchPointState,
                          prevX: int, prevY: int, x: int, y: int)
    requires p.ScaleAboveFloor()
    ensures var p' := RotateScale(p, math, fixed, prevX, prevY, x, y);
            && AbsReal(p'.angle - p.angle) <= THETA_LIMIT
            && p'.ScaleAboveFloor()
            && p'.tx == p.tx && p'.ty == p.ty
            && (p.isLocked ==> p'.sx == p.sx && p'.sy == p.sy)
            && p'.isHighQuality
            && p'.contacts == p.contacts && p'.isLocked == p.isLocked && p'.isMarked == p.isMarked
  {
  }

  /** With both fingers on the same vertical line before and after, the
      inclination is 90 degrees both times and the angle is kept. */
  lemma VerticalPairKeepsAngle(p: PhotoState, math: JavaMath, fixed: TouchPointState,
                               prevX: int, prevY: int, x: int, y: int)
    requires prevX == fixed.x && x == fixed.x
    ensures RotateScale(p, math, fixed, prevX, prevY, x, y).angle == p.angle
  {
  }

  /** A locked photograph keeps its translation and scale through any gesture;
      only its angle may change. */
  lemma LockedPhotoKeepsPlacement(p: PhotoState, math: JavaMath, movingId: int,
                                  prevX: int, prevY: int, x: int, y: int)
    requires p.isLocked
    ensures var g := Gesture(p, math, movingId, prevX, prevY, x, y);
            g.(angle := p.angle, isHighQuality := p.isHighQuality) == p
  {
  }

  /** Under the invariant a Move never throws when each of its pointers has a
      record. */
  lemma {:induction false} MoveSucceeds(w: World, math: JavaMath, samples: seq<Sample>)
    requires Invariant(w)
    requires forall i :: 0 <= i < |samples| ==> samples[i].id in w.ptrMap
    ensures Move(w, math, samples).Some?
    decreases |samples|
  {
    if samples != [] {
      var s := samples[0];
      var tp := w.ptrMap[s.id];
      if tp.valid {
        assert RecordBound(w.children, tp);
        var k := IndexOfTag(w.children, tp.extra.tag);
        assert PhotoWellFormed(w.children[k]);
      }
      assert MovePointer(w, math, s).Some?;
      var w' := MovePointer(w, math, s).value;
      MovePointerKeepsInvariant(w, math, s);
      MoveStoresPosition(w, math, s);
      MoveSucceeds(w', math, samples[1..]);
    }
  }

  // ---------------------------------------------------------------------------
  // One photograph per pointer

  /** Under the invariant a pointer is a point of contact of at most one
      photograph, in at most one slot. */
  lemma ContactExclusive(w: World, id: int, i: int, a: int, j: int, b: int)
    requires Invariant(w)
    requires 0 <= i < |w.children| && 0 <= a < |w.children[i].contacts| && HoldsId(w.children[i].contacts[a], id)
    requires 0 <= j < |w.children| && 0 <= b < |w.children[j].contacts| && HoldsId(w.children[j].contacts[b], id)
    ensures i == j && a == b
  {
    assert ContactsBound(w.ptrMap, w.children[i]) && ContactsBound(w.ptrMap, w.children[j]);
    TagIdentifies(w.children, i, j);
    assert PhotoWellFormed(w.children[i]);
  }

  // ---------------------------------------------------------------------------
  // The fixed finger

  /** Where the selection as written does pick a contact, it is the one the
      corrected selection picks. */
  lemma FixedContactsAgree(s: Slots, movingId: int)
    requires DistinctIds(s)
    requires FixedContactAsWritten(s, movingId).Some?
    ensures FixedContactAsWritten(s, movingId) == FixedContact(s, movingId)
  {
    if s[0].value.pointerId == movingId {
      assert s[1..][0] == s[1];
    }
  }

  /** Occupied slots that all carry the same id, with ids distinct, are at most one. */
  lemma {:induction false} SameIdAtMostOne(s: Slots, id: int)
    requires DistinctIds(s)
    requires forall j :: 0 <= j < |s| && s[j].Some? ==> s[j].value.pointerId == id
    ensures CountContacts(s) <= 1
  {
    if s != [] {
      var s' := s[..|s| - 1];
      assert forall j :: 0 <= j < |s'| ==> s'[j] == s[j];
      SameIdAtMostOne(s', id);
      if s[|s| - 1].Some? {
        assert forall j :: 0 <= j < |s'| ==> s'[j].None?;
        NoneCountsZero(s');
      }
    }
  }

  lemma {:induction false} NoneCountsZero(s: Slots)
    requires forall j :: 0 <= j < |s| ==> s[j].None?
    ensures CountContacts(s) == 0
  {
    if s != [] {
      var s' := s[..|s| - 1];
      assert forall j :: 0 <= j < |s'| ==> s'[j] == s[j];
      NoneCountsZero(s');
    }
  }

  /** With two contacts of distinct ids, the corrected selection always finds the
      other finger, wherever in the array the two contacts are. */
  lemma FixedContactOfTwo(s: Slots, movingId: int)
    requires DistinctIds(s) && CountContacts(s) == 2
    ensures FixedContact(s, movingId).Some?
    ensures FixedContact(s, movingId).value.pointerId != movingId
  {
    if FixedContact(s, movingId).None? {
      SameIdAtMostOne(s, movingId);
    }
  }

  /** Three fingers A, B, C land on a photo and A lifts: the contacts are then in
      slots 1 and 2, and when B moves the selection as written reads the null slot
      0 and throws (the exception is swallowed and the gesture is lost), while the
      corrected selection finds C. */
  lemma FixedContactAsWrittenMissesSlots(a: TouchPointState, b: TouchPointState, c: TouchPointState)
    requires a.pointerId == 0 && b.pointerId == 1 && c.pointerId == 2
    ensures var s := WithoutContact(WithContact(WithContact(WithContact([None, None, None], a), b), c), 0);
            && s == [None, Some(b), Some(c)]
            && CountContacts(s) == 2
            && FixedContactAsWritten(s, 1).None?
            && FixedContact(s, 1) == Some(c)
  {
    var s0: Slots := [None, None, None];
    assert FirstFree(s0) == 0;
    var s1 := WithContact(s0, a);
    assert s1 == [Some(a), None, None];
    assert FirstFree(s1) == 1;
    var s2 := WithContact(s1, b);
    assert s2 == [Some(a), Some(b), None];
    assert FirstFree(s2) == 2;
    var s3 := WithContact(s2, c);
    assert s3 == [Some(a), Some(b), Some(c)];
    assert FirstWithId(s3, 0) == 0;
    var s := WithoutContact(s3, 0);
    assert s == [None, Some(b), Some(c)];
    assert s[1..] == [Some(b), Some(c)];
    assert CountContacts(s) == 2 by {
      var none: Option<TouchPointState> := None;
      assert [none][..0] == [];
      assert CountContacts([none]) == 0;
      assert [none, Some(b)][..1] == [none];
      assert CountContacts([none, Some(b)]) == 1;
      assert s[..2] == [none, Some(b)];
    }
  }

  /** With distinct ids the gesture as written is the intended one wherever the
      selection as written does not throw. */
  lemma GestureAgrees(p: PhotoState, math: JavaMath, movingId: int,
                      prevX: int, prevY: int, x: int, y: int)
    requires DistinctIds(p.contacts)
    requires p.CountPointsOfContact() != 2 || FixedContactAsWritten(p.contacts, movingId).Some?
    ensures Gesture(p, math, movingId, prevX, prevY, x, y) == GestureIntended(p, math, movingId, prevX, prevY, x, y)
  {
    if p.CountPointsOfContact() == 2 {
      FixedContactsAgree(p.contacts, movingId);
    }
  }

  /** The intended two-finger gesture always rotates and scales about the other
      finger. */
  lemma GestureIntendedTwoFingers(p: PhotoState, math: JavaMath, movingId: int,
                                  prevX: int, prevY: int, x: int, y: int)
    requires DistinctIds(p.contacts) && p.CountPointsOfContact() == 2
    ensures var f := FixedContact(p.contacts, movingId);
            && f.Some? && f.value.pointerId != movingId && f in p.contacts
            && GestureIntended(p, math, movingId, prevX, prevY, x, y) == RotateScale(p, math, f.value, prevX, prevY, x, y)
  {
    FixedContactOfTwo(p.contacts, movingId);
  }

  /** With the two contacts in slots 1 and 2 (the finger in slot 0 lifted), the
      gesture as written leaves the photo as it was when the finger in slot 1
      moves, while the intended one rotates and scales about the finger in
      slot 2. */
  lemma GestureLostAfterFirstLift(p: PhotoState, math: JavaMath, b: TouchPointState, c: TouchPointState,
                                  prevX: int, prevY: int, x: int, y: int)
    requires b.pointerId == 1 && c.pointerId == 2
    requires p.contacts == [None, Some(b), Some(c)]
    ensures p.CountPointsOfContact() == 2
    ensures Gesture(p, math, 1, prevX, prevY, x, y) == p
    ensures GestureIntended(p, math, 1, prevX, prevY, x, y) == RotateScale(p, math, c, prevX, prevY, x, y)
  {
    FixedContactAsWrittenMissesSlots(b.(pointerId := 0), b, c);
  }

  // ---------------------------------------------------------------------------
  // A fourth finger

  /** A finger landing on a photograph that already holds three contacts gets a
      valid record bound to that photograph, now the front-most child, and the
      invariant holds; but no slot of the photograph holds its id, whose contacts
      are those it had. */
  lemma DownOnFullPhotoLeavesNoSlot(w: World, ptrIndex: int, ptrId: int, x: int, y: int)
    requires Invariant(w) && !(ptrId in w.ptrMap && w.ptrMap[ptrId].isDown)
    requires var k := TouchedView(w.children, x, y);
             0 <= k && w.children[k].CountPointsOfContact() == CONTACT_SLOTS
    ensures var w' := Down(w, ptrIndex, ptrId, x, y);
            var k := TouchedView(w.children, x, y);
            var last := |w.children| - 1;
            && Invariant(w')
            && w'.ptrMap[ptrId].valid
            && BoundPhoto(w'.children, w'.ptrMap[ptrId].extra) == last
            && w'.children[last].contacts == w.children[k].contacts
            && forall j :: 0 <= j < |w'.children[last].contacts| ==> !HoldsId(w'.children[last].contacts[j], ptrId)
  {
    var k := TouchedView(w.children, x, y);
    var p := w.children[k];
    var w' := Down(w, ptrIndex, ptrId, x, y);
    var last := |w.children| - 1;
    DownKeepsInvariant(w, ptrIndex, ptrId, x, y);
    InvalidIsUntouched(w, ptrId);
    assert PhotoWellFormed(p);
    CountFullIffNoFree(p.contacts);
    AddContactPlacement(p.contacts, NewTouchPoint(x, y, ptrId, ptrIndex, Null));
    assert BringToFront(w.children[k := DownOnPhoto(p, NewTouchPoint(x, y, ptrId, ptrIndex, Null))], k)[last]
        == DownOnPhoto(p, NewTouchPoint(x, y, ptrId, ptrIndex, Null));
    assert w'.children[last].contacts == p.contacts;
    assert w'.children[last].tag == p.tag;
    var i := IndexOfTag(w'.children, p.tag);
    assert i == last by {
      assert 0 <= i;
      assert DistinctTags(w'.children);
    }
    forall j | 0 <= j < |p.contacts|
      ensures !HoldsId(p.contacts[j], ptrId)
    {
    }
  }

  // ---------------------------------------------------------------------------
  // A Down for a pointer that is still down

  /** After a cancel, which ends a gesture without an Up, the next Down of the
      same pointer on the same photograph gives it a second point of contact with
      the same id, and the invariant no longer holds. */
  lemma RepeatedDownDuplicatesContact(math: JavaMath)
    ensures var w0 := World(map[], [SamplePhoto()]);
            var down := MotionEvent(0x0000, [Sample(0, 150.0, 150.0)]);
            var cancel := MotionEvent(0x0003, [Sample(0, 150.0, 150.0)]);
            var r := Run(w0, math, [Touch(down), Touch(cancel), Touch(down)]);
            && Invariant(w0)
            && r.Some?
            && |r.value.children| == 1 && |r.value.children[0].contacts| == 3
            && HoldsId(r.value.children[0].contacts[0], 0)
            && HoldsId(r.value.children[0].contacts[1], 0)
            && !Invariant(r.value)
  {
    var w0 := World(map[], [SamplePhoto()]);
    var down := MotionEvent(0x0000, [Sample(0, 150.0, 150.0)]);
    var cancel := MotionEvent(0x0003, [Sample(0, 150.0, 150.0)]);
    var inputs := [Touch(down), Touch(cancel), Touch(down)];
    var w1 := Down(w0, 0, 0, 150, 150);
    var w2 := Down(w1, 0, 0, 150, 150);
    SampleInvariant();
    DownEvent(w0, math);
    CancelEvent(w1, math);
    DownEvent(w1, math);
    var rest1, rest2 := inputs[1..], inputs[1..][1..];
    assert rest1[0] == inputs[1] && rest2[0] == inputs[2] && rest2[1..] == [];
    assert Run(w1, math, rest2) == Some(w2);
    assert Run(w1, math, rest1) == Some(w2);
    DownTwice();
  }

  /** A single-pointer Down of pointer 0 at (150.0, 150.0) is a Down at (150, 150). */
  lemma DownEvent(w: World, math: JavaMath)
    ensures Step(w, math, Touch(MotionEvent(0x0000, [Sample(0, 150.0, 150.0)]))) == Some(Down(w, 0, 0, 150, 150))
  {
    JavaIntOfInt(150);
    assert ResolveAction(0x0000) == ACTION_DOWN && PointerIndex(0x0000, 1) == 0;
  }

  /** A cancel changes nothing. */
  lemma CancelEvent(w: World, math: JavaMath)
    ensures Step(w, math, Touch(MotionEvent(0x0003, [Sample(0, 150.0, 150.0)]))) == Some(w)
  {
    assert ResolveAction(0x0003) == 3 && PointerIndex(0x0003, 1) == 0;
  }

  /** SamplePhoto alone, with no record, satisfies the invariant. */
  lemma SampleInvariant()
    ensures Invariant(World(map[], [SamplePhoto()]))
  {
    assert CountContacts(SamplePhoto().contacts) == 0 by {
      var n: Option<TouchPointState> := None;
      assert [n, n, n][..2] == [n, n];
      assert [n, n][..1] == [n];
      assert [n][..0] == [];
    }
    InitialInvariant([SamplePhoto()]);
  }

  /** Two Downs of pointer 0 at (150, 150) on SamplePhoto, with no Up between. */
  lemma DownTwice()
    ensures var w2 := Down(Down(World(map[], [SamplePhoto()]), 0, 0, 150, 150), 0, 0, 150, 150);
            && |w2.children| == 1 && |w2.children[0].contacts| == 3
            && HoldsId(w2.children[0].contacts[0], 0)
            && HoldsId(w2.children[0].contacts[1], 0)
            && !Invariant(w2)
  {
    var w0 := World(map[], [SamplePhoto()]);
    AxisAlignedRegion(100, 100, 300, 300, 150, 150);
    var snap := NewTouchPoint(150, 150, 0, 0, Null);
    assert TouchedView(w0.children, 150, 150) == 0;
    var w1 := Down(w0, 0, 0, 150, 150);
    assert FirstFree([None, None, None]) == 0;
    assert w1.children[0].contacts == [Some(snap), None, None];
    assert CountContacts([Some(snap), None, None]) == 1 by {
      assert [Some(snap), None, None][..2] == [Some(snap), None];
      assert [Some(snap), None][..1] == [Some(snap)];
      assert [Some(snap)][..0] == [];
    }
    assert w1.children[0].roi == SamplePhoto().roi;
    assert TouchedView(w1.children, 150, 150) == 0;
    var w2 := Down(w1, 0, 0, 150, 150);
    assert FirstFree([Some(snap), None, None]) == 1;
    assert w2.children[0].contacts == [Some(snap), Some(snap), None];
    assert !PhotoWellFormed(w2.children[0]);
  }

  /** With the earlier press released first, a Down keeps the invariant in every
      state that satisfies it, whether or not the pointer is still down. */
  lemma DownCorrectedKeepsInvariant(w: World, ptrIndex: int, ptrId: int, x: int, y: int)
    requires Invariant(w)
    ensures Invariant(DownCorrected(w, ptrIndex, ptrId, x, y))
    ensures !(ptrId in w.ptrMap && w.ptrMap[ptrId].isDown) ==>
              DownCorrected(w, ptrIndex, ptrId, x, y) == Down(w, ptrIndex, ptrId, x, y)
  {
    if ptrId in w.ptrMap && w.ptrMap[ptrId].isDown {
      UpSucceeds(w, ptrId);
      UpKeepsInvariant(w, ptrId);
      var released := Up(w, ptrId).value;
      UpRecord(w, ptrId);
      DownKeepsInvariant(released, ptrIndex, ptrId, x, y);
    } else {
      DownKeepsInvariant(w, ptrIndex, ptrId, x, y);
    }
  }

  // ---------------------------------------------------------------------------
  // A concrete session

  /** A 200 x 200 photograph, unrotated and unscaled, drawn over (100, 100) .. (300, 300). */
  function SamplePhoto(): PhotoState
  {
    PhotoState(0, 200, 200, 100, 100, 300, 300, 0.0, 1.0, 1.0, 0.0, 0.0, false, false, false,
               Some(RectQuad(100, 100, 300, 300)), [None, None, None])
  }

  /** A finger lands inside the photo at (150, 150) and is dragged to (160, 170):
      the photo is bound, then translated by (10, 20), and the record ends at the
      new position. A finger landing at (50, 50) hits the background. */
  lemma DragScenario(math: JavaMath)
    ensures var w0 := World(map[], [SamplePhoto()]);
            var w1 := Down(w0, 0, 7, 150, 150);
            && w1.ptrMap[7].valid && w1.ptrMap[7].extra == TagRef(0)
            && w1.children[0].CountPointsOfContact() == 1
            && Move(w1, math, [Sample(7, 160.0, 170.0)]).Some?
            && Move(w1, math, [Sample(7, 160.0, 170.0)]).value.children[0].tx == 10.0
            && Move(w1, math, [Sample(7, 160.0, 170.0)]).value.children[0].ty == 20.0
            && Move(w1, math, [Sample(7, 160.0, 170.0)]).value.ptrMap[7].x == 160
            && Move(w1, math, [Sample(7, 160.0, 170.0)]).value.ptrMap[7].y == 170
    ensures !Down(World(map[], [SamplePhoto()]), 0, 7, 50, 50).ptrMap[7].valid
  {
    var w0 := World(map[], [SamplePhoto()]);
    AxisAlignedRegion(100, 100, 300, 300, 150, 150);
    AxisAlignedRegion(100, 100, 300, 300, 50, 50);
    assert TouchedView(w0.children, 150, 150) == 0;
    assert TouchedView(w0.children, 50, 50) == -1;
    var w1 := Down(w0, 0, 7, 150, 150);
    var snap := NewTouchPoint(150, 150, 7, 0, Null);
    assert FirstFree([None, None, None]) == 0;
    assert w1.children[0].contacts == [Some(snap), None, None];
    assert CountContacts([Some(snap), None, None]) == 1 by {
      assert [Some(snap), None, None][..2] == [Some(snap), None];
      assert [Some(snap), None][..1] == [Some(snap)];
      assert [Some(snap)][..0] == [];
    }
    JavaIntOfInt(160);
    JavaIntOfInt(170);
    assert IndexOfTag(w1.children, 0) == 0;
  }

  /** The same finger is dragged instead to (300, 150): the photo is translated by
      (150, 0), but until it is redrawn its ROI is where it was drawn, so a finger
      at (350, 150) hits the background. Redrawn in a 200 x 200 view, the photo
      covers (250, 100) .. (450, 300) and the same finger hits it. */
  lemma DragThenRedrawScenario(math: JavaMath)
    ensures var w1 := Down(World(map[], [SamplePhoto()]), 0, 7, 150, 150);
            var w2 := Move(w1, math, [Sample(7, 300.0, 150.0)]);
            && w2.Some? && |w2.value.children| == 1
            && w2.value.children[0].tx == 150.0 && w2.value.children[0].ty == 0.0
            && TouchedView(w2.value.children, 350, 150) == -1
            && var w3 := Draw(w2.value, math, 0, 200, 200);
               && w3.children[0].roi == Some(RectQuad(250, 100, 450, 300))
               && TouchedView(w3.children, 350, 150) == 0
  {
    var w0 := World(map[], [SamplePhoto()]);
    AxisAlignedRegion(100, 100, 300, 300, 150, 150);
    AxisAlignedRegion(100, 100, 300, 300, 350, 150);
    AxisAlignedRegion(250, 100, 450, 300, 350, 150);
    assert TouchedView(w0.children, 150, 150) == 0;
    var w1 := Down(w0, 0, 7, 150, 150);
    var snap := NewTouchPoint(150, 150, 7, 0, Null);
    assert FirstFree([None, None, None]) == 0;
    assert w1.children[0].contacts == [Some(snap), None, None];
    assert CountContacts([Some(snap), None, None]) == 1 by {
      assert [Some(snap), None, None][..2] == [Some(snap), None];
      assert [Some(snap), None][..1] == [Some(snap)];
      assert [Some(snap)][..0] == [];
    }
    JavaIntOfInt(300);
    JavaIntOfInt(150);
    assert IndexOfTag(w1.children, 0) == 0;
    var w2 := Move(w1, math, [Sample(7, 300.0, 150.0)]).value;
    assert w2.children[0] == w1.children[0].Translate(150, 0);
    assert w2.children[0].roi == SamplePhoto().roi;
    var p := w2.children[0];
    JavaIntOfInt(250);
    JavaIntOfInt(100);
    assert JavaInt((200 / 2) as real + p.tx) == 250;
    assert JavaInt((200 / 2) as real + p.ty) == 100;
    assert p.Placed(200, 200).left == 250 && p.Placed(200, 200).top == 100;
  }
}
