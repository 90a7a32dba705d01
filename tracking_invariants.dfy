/** The invariant that ties the pointer map to the photographs' points of contact,
    and its preservation by every handler of MultiTouchActivity.java. */
module TrackingInvariants {
  import opened Base
  import opened TouchPoints
  import opened Photographs
  import opened PointerTracking

  /** A photograph as the activity builds it: three slots with distinct pointer
      ids, scale above the floor, drawn at least once, and a tag of its own
      (`tagCount++` starts at 0, below which sits the parent's -1). */
  predicate PhotoWellFormed(p: PhotoState)
  {
    && |p.contacts| == CONTACT_SLOTS
    && p.ScaleAboveFloor()
    && p.roi.Some?
    && p.tag >= 0
    && DistinctIds(p.contacts)
  }

  /** Every point of contact of `p` belongs to a pointer whose record is valid and
      bound to `p`. */
  predicate ContactsBound(m: map<int, TouchPointState>, p: PhotoState)
  {
    forall j :: 0 <= j < |p.contacts| && p.contacts[j].Some? ==>
      && p.contacts[j].value.pointerId in m
      && m[p.contacts[j].value.pointerId].valid
      && m[p.contacts[j].value.pointerId].extra == TagRef(p.tag)
  }

  predicate DistinctTags(cs: seq<PhotoState>)
  {
    forall i, j :: 0 <= i < |cs| && 0 <= j < |cs| && i != j ==> cs[i].tag != cs[j].tag
  }

  /** A valid record is down and bound to a photograph that exists. */
  predicate RecordBound(cs: seq<PhotoState>, r: TouchPointState)
  {
    r.valid ==> r.isDown && r.extra.TagRef? && 0 <= IndexOfTag(cs, r.extra.tag)
  }

  predicate PhotosOk(m: map<int, TouchPointState>, cs: seq<PhotoState>)
  {
    forall i :: 0 <= i < |cs| ==> PhotoWellFormed(cs[i]) && ContactsBound(m, cs[i])
  }

  predicate Invariant(w: World)
  {
    && PhotosOk(w.ptrMap, w.children)
    && DistinctTags(w.children)
    && forall id :: id in w.ptrMap ==> RecordBound(w.children, w.ptrMap[id])
  }

  /** No point of contact anywhere carries the id. */
  predicate Untouched(cs: seq<PhotoState>, id: int)
  {
    forall i, j :: 0 <= i < |cs| && 0 <= j < |cs[i].contacts| ==> !HoldsId(cs[i].contacts[j], id)
  }

  // ---------------------------------------------------------------------------
  // Small facts

  /** A pointer without a valid record is no photograph's point of contact. */
  lemma InvalidIsUntouched(w: World, id: int)
    requires Invariant(w)
    requires !(id in w.ptrMap && w.ptrMap[id].valid)
    ensures Untouched(w.children, id)
  {
    forall i, j | 0 <= i < |w.children| && 0 <= j < |w.children[i].contacts|
      ensures !HoldsId(w.children[i].contacts[j], id)
    {
      assert ContactsBound(w.ptrMap, w.children[i]);
    }
  }

  /** Replacing the record of a pointer that touches no photo keeps every photo's
      contacts bound. */
  lemma RebindUntouched(m: map<int, TouchPointState>, cs: seq<PhotoState>, id: int, r: TouchPointState)
    requires PhotosOk(m, cs)
    requires Untouched(cs, id)
    ensures PhotosOk(m[id := r], cs)
  {
    forall i | 0 <= i < |cs|
      ensures ContactsBound(m[id := r], cs[i])
    {
      assert ContactsBound(m, cs[i]);
      forall j | 0 <= j < |cs[i].contacts| && cs[i].contacts[j].Some?
        ensures cs[i].contacts[j].value.pointerId != id
      {
        assert !HoldsId(cs[i].contacts[j], id);
      }
    }
  }

  /** Replacing a record by one with the same validity and binding keeps every
      photo's contacts bound. */
  lemma RebindSameBinding(m: map<int, TouchPointState>, cs: seq<PhotoState>, id: int, r: TouchPointState)
    requires PhotosOk(m, cs)
    requires id in m && r.valid == m[id].valid && r.extra == m[id].extra
    ensures PhotosOk(m[id := r], cs)
  {
    forall i | 0 <= i < |cs|
      ensures ContactsBound(m[id := r], cs[i])
    {
      assert ContactsBound(m, cs[i]);
    }
  }

  /** Moving a child to the front keeps every per-photo property and the tags. */
  lemma BringToFrontKeeps(m: map<int, TouchPointState>, cs: seq<PhotoState>, k: int)
    requires 0 <= k < |cs|
    requires PhotosOk(m, cs) && DistinctTags(cs)
    ensures PhotosOk(m, BringToFront(cs, k)) && DistinctTags(BringToFront(cs, k))
    ensures forall t :: 0 <= IndexOfTag(cs, t) ==> 0 <= IndexOfTag(BringToFront(cs, k), t)
  {
    BringToFrontElements(m, cs, k);
    BringToFrontTags(cs, k);
    BringToFrontFinds(cs, k);
  }

  /** A tag found before bringToFront is found after it. */
  lemma BringToFrontFinds(cs: seq<PhotoState>, k: int)
    requires 0 <= k < |cs|
    ensures forall t :: 0 <= IndexOfTag(cs, t) ==> 0 <= IndexOfTag(BringToFront(cs, k), t)
  {
    var r := BringToFront(cs, k);
    forall t | 0 <= IndexOfTag(cs, t)
      ensures 0 <= IndexOfTag(r, t)
    {
      var i := IndexOfTag(cs, t);
      var j := if i < k then i else if i == k then |cs| - 1 else i - 1;
      assert r[j] == cs[i];
    }
  }

  /** The position in `cs` of the element at position `j` of BringToFront(cs, k). */
  function FrontSource(n: nat, k: nat, j: nat): (i: nat)
    requires k < n && j < n
    ensures i < n
  {
    if j < k then j else if j < n - 1 then j + 1 else k
  }

  lemma BringToFrontElements(m: map<int, TouchPointState>, cs: seq<PhotoState>, k: int)
    requires 0 <= k < |cs|
    requires PhotosOk(m, cs)
    ensures PhotosOk(m, BringToFront(cs, k))
  {
    var r := BringToFront(cs, k);
    forall j | 0 <= j < |r|
      ensures PhotoWellFormed(r[j]) && ContactsBound(m, r[j])
    {
      assert r[j] == cs[FrontSource(|cs|, k, j)];
    }
  }

  lemma BringToFrontTags(cs: seq<PhotoState>, k: int)
    requires 0 <= k < |cs|
    requires DistinctTags(cs)
    ensures DistinctTags(BringToFront(cs, k))
  {
    var r := BringToFront(cs, k);
    forall a, b | 0 <= a < |r| && 0 <= b < |r| && a != b
      ensures r[a].tag != r[b].tag
    {
      var ia, ib := FrontSource(|cs|, k, a), FrontSource(|cs|, k, b);
      assert ia != ib;
      assert r[a] == cs[ia] && r[b] == cs[ib];
    }
  }

  /** A photo replaced by one with the same tag keeps every tag findable. */
  lemma SameTagsAfterUpdate(cs: seq<PhotoState>, k: int, p: PhotoState)
    requires 0 <= k < |cs| && p.tag == cs[k].tag
    ensures DistinctTags(cs) ==> DistinctTags(cs[k := p])
    ensures forall t :: IndexOfTag(cs[k := p], t) == IndexOfTag(cs, t)
  {
    forall t
      ensures IndexOfTag(cs[k := p], t) == IndexOfTag(cs, t)
    {
      IndexOfTagPointwise(cs, cs[k := p], t);
    }
  }

  lemma {:induction false} IndexOfTagPointwise(a: seq<PhotoState>, b: seq<PhotoState>, t: int)
    requires |a| == |b| && forall i :: 0 <= i < |a| ==> a[i].tag == b[i].tag
    ensures IndexOfTag(a, t) == IndexOfTag(b, t)
  {
    if a != [] {
      IndexOfTagPointwise(a[1..], b[1..], t);
    }
  }

  /** Under distinct tags, the photo found by tag is the only one with that tag. */
  lemma TagIdentifies(cs: seq<PhotoState>, i: int, j: int)
    requires DistinctTags(cs)
    requires 0 <= i < |cs| && 0 <= j < |cs| && cs[i].tag == cs[j].tag
    ensures i == j
  {
  }

  // ---------------------------------------------------------------------------
  // Preservation

  /** Down keeps the invariant, for a pointer that is not already down (a Down
      for a pointer still down breaks it: RepeatedDownDuplicatesContact). */
  lemma DownKeepsInvariant(w: World, ptrIndex: int, ptrId: int, x: int, y: int)
    requires Invariant(w)
    requires !(ptrId in w.ptrMap && w.ptrMap[ptrId].isDown)
    ensures Invariant(Down(w, ptrIndex, ptrId, x, y))
  {
    InvalidIsUntouched(w, ptrId);
    var w' := Down(w, ptrIndex, ptrId, x, y);
    var k := TouchedView(w.children, x, y);
    if k < 0 {
      RebindUntouched(w.ptrMap, w.children, ptrId, w'.ptrMap[ptrId]);
    } else {
      var p := w.children[k];
      var m' := w'.ptrMap;
      assert m' == w.ptrMap[ptrId := m'[ptrId]];
      assert m'[ptrId].valid && m'[ptrId].extra == TagRef(p.tag);
      var snapshot := NewTouchPoint(x, y, ptrId, ptrIndex, Null);
      var touched := DownOnPhoto(p, snapshot);
      RebindUntouched(w.ptrMap, w.children, ptrId, m'[ptrId]);
      // the touched photo
      assert forall j :: 0 <= j < |p.contacts| ==> !HoldsId(p.contacts[j], ptrId);
      assert PhotoWellFormed(p) && ContactsBound(w.ptrMap, p);
      WithContactKeepsDistinct(p.contacts, snapshot);
      WithContactSlots(p.contacts, snapshot);
      assert touched.contacts == WithContact(p.contacts, snapshot);
      assert PhotoWellFormed(touched);
      assert ContactsBound(m', p);
      assert ContactsBound(m', touched);
      var cs := w.children[k := touched];
      assert PhotosOk(m', cs);
      SameTagsAfterUpdate(w.children, k, touched);
      BringToFrontKeeps(m', cs, k);
      assert w'.children == BringToFront(cs, k);
      forall id | id in m'
        ensures RecordBound(w'.children, m'[id])
      {
        if id != ptrId {
          assert RecordBound(w.children, w.ptrMap[id]);
        } else {
          assert 0 <= IndexOfTag(w.children, p.tag);
        }
      }
    }
  }

  /** Up keeps the invariant whenever it does not throw. */
  lemma UpKeepsInvariant(w: World, ptrId: int)
    requires Invariant(w)
    requires Up(w, ptrId).Some?
    ensures Invariant(Up(w, ptrId).value)
  {
    var w' := Up(w, ptrId).value;
    var tp := w.ptrMap[ptrId];
    var released := tp.(valid := false, isDown := false);
    assert w'.ptrMap == w.ptrMap[ptrId := released];
    if tp.valid {
      var k := BoundPhoto(w.children, tp.extra);
      var p := w.children[k];
      var p' := p.RemoveTouchPoint(ptrId).(isHighQuality := false);
      assert w'.children == w.children[k := p'];
      assert PhotoWellFormed(p);
      WithoutContactClears(p.contacts, ptrId);
      assert PhotoWellFormed(p');
      // only the bound photo held the pointer
      var cs := w.children[k := p'];
      forall i, j | 0 <= i < |cs| && 0 <= j < |cs[i].contacts|
        ensures !HoldsId(cs[i].contacts[j], ptrId)
      {
        if i != k && HoldsId(cs[i].contacts[j], ptrId) {
          TagIdentifies(w.children, i, k);
        }
      }
      forall i | 0 <= i < |cs|
        ensures ContactsBound(w.ptrMap, cs[i])
      {
        if i == k {
          assert ContactsBound(w.ptrMap, p);
        } else {
          assert ContactsBound(w.ptrMap, w.children[i]);
        }
      }
      assert PhotosOk(w.ptrMap, cs);
      RebindUntouched(w.ptrMap, cs, ptrId, released);
      SameTagsAfterUpdate(w.children, k, p');
      forall id | id in w'.ptrMap
        ensures RecordBound(w'.children, w'.ptrMap[id])
      {
        if id != ptrId {
          assert RecordBound(w.children, w.ptrMap[id]);
        }
      }
    } else {
      InvalidIsUntouched(w, ptrId);
      RebindUntouched(w.ptrMap, w.children, ptrId, released);
      forall id | id in w'.ptrMap
        ensures RecordBound(w'.children, w'.ptrMap[id])
      {
        if id != ptrId {
          assert RecordBound(w.children, w.ptrMap[id]);
        }
      }
    }
  }

  /** The gesture changes neither the contacts, nor the tag, nor the cached region,
      and keeps the scale above the floor. */
  lemma GestureKeepsShape(p: PhotoState, math: JavaMath, movingId: int,
                          prevX: int, prevY: int, x: int, y: int)
    ensures var g := Gesture(p, math, movingId, prevX, prevY, x, y);
            g.contacts == p.contacts && g.tag == p.tag && g.roi == p.roi
            && g.isMarked == p.isMarked && g.isLocked == p.isLocked
    ensures p.ScaleAboveFloor() ==> Gesture(p, math, movingId, prevX, prevY, x, y).ScaleAboveFloor()
  {
  }

  /** One pointer of a Move keeps the invariant whenever it does not throw. */
  lemma MovePointerKeepsInvariant(w: World, math: JavaMath, s: Sample)
    requires Invariant(w)
    requires MovePointer(w, math, s).Some?
    ensures Invariant(MovePointer(w, math, s).value)
  {
    var w' := MovePointer(w, math, s).value;
    var tp := w.ptrMap[s.id];
    if w' != w {
      var r := tp.PutXY(JavaInt(s.x), JavaInt(s.y));
      assert w'.ptrMap == w.ptrMap[s.id := r];
      RebindSameBinding(w.ptrMap, w.children, s.id, r);
      if w'.children != w.children {
        var k := BoundPhoto(w.children, tp.extra);
        var p := w.children[k];
        var g := Gesture(p, math, s.id, tp.x, tp.y, JavaInt(s.x), JavaInt(s.y));
        assert w'.children == w.children[k := g];
        GestureKeepsShape(p, math, s.id, tp.x, tp.y, JavaInt(s.x), JavaInt(s.y));
        assert PhotoWellFormed(p) && ContactsBound(w'.ptrMap, p);
        assert PhotoWellFormed(g) && ContactsBound(w'.ptrMap, g);
        SameTagsAfterUpdate(w.children, k, g);
      }
      forall id | id in w'.ptrMap
        ensures RecordBound(w'.children, w'.ptrMap[id])
      {
        assert RecordBound(w.children, w.ptrMap[id]);
      }
    }
  }

  lemma {:induction false} MoveKeepsInvariant(w: World, math: JavaMath, samples: seq<Sample>)
    requires Invariant(w)
    requires Move(w, math, samples).Some?
    ensures Invariant(Move(w, math, samples).value)
    decreases |samples|
  {
    if samples != [] {
      MovePointerKeepsInvariant(w, math, samples[0]);
      MoveKeepsInvariant(MovePointer(w, math, samples[0]).value, math, samples[1..]);
    }
  }

  /** A Down event is for a pointer that is not already down. Android reports no
      second Down for a pointer before its Up, but a gesture that ends in
      ACTION_CANCEL, which onTouch ignores, leaves its pointers down. */
  predicate DownIsFresh(w: World, e: MotionEvent)
  {
    var ptrIndex := PointerIndex(e.action, |e.pointers|);
    ResolveAction(e.action) == ACTION_DOWN && ptrIndex < |e.pointers| ==>
      var id := e.pointers[ptrIndex].id;
      !(id in w.ptrMap && w.ptrMap[id].isDown)
  }

  lemma OnTouchKeepsInvariant(w: World, math: JavaMath, e: MotionEvent)
    requires Invariant(w) && DownIsFresh(w, e)
    requires OnTouch(w, math, e).Some?
    ensures Invariant(OnTouch(w, math, e).value)
  {
    var count := |e.pointers|;
    var action := ResolveAction(e.action);
    var ptrIndex := PointerIndex(e.action, count);
    var ptrId := e.pointers[ptrIndex].id;
    if action == ACTION_DOWN {
      DownKeepsInvariant(w, ptrIndex, ptrId, JavaInt(e.pointers[ptrIndex].x), JavaInt(e.pointers[ptrIndex].y));
    } else if action == ACTION_MOVE {
      MoveKeepsInvariant(w, math, e.pointers);
    } else if action == ACTION_UP {
      UpKeepsInvariant(w, ptrId);
    }
  }

  /** Redrawing a child changes only its base rectangle and its ROI, which stays
      set; the invariant is kept. */
  lemma DrawKeepsInvariant(w: World, math: JavaMath, k: int, viewWidth: nat, viewHeight: nat)
    requires Invariant(w)
    requires 0 <= k < |w.children|
    ensures Invariant(Draw(w, math, k, viewWidth, viewHeight))
  {
    var p := w.children[k];
    var d := p.Draw(math, viewWidth, viewHeight);
    assert PhotoWellFormed(p) && ContactsBound(w.ptrMap, p);
    assert PhotoWellFormed(d) && ContactsBound(w.ptrMap, d);
    SameTagsAfterUpdate(w.children, k, d);
    var w' := Draw(w, math, k, viewWidth, viewHeight);
    forall id | id in w'.ptrMap
      ensures RecordBound(w'.children, w'.ptrMap[id])
    {
      assert RecordBound(w.children, w.ptrMap[id]);
    }
  }

  /** A touch event respecting DownIsFresh, or any redraw, keeps the invariant
      whenever it does not throw. */
  lemma StepKeepsInvariant(w: World, math: JavaMath, i: Input)
    requires Invariant(w) && (i.Touch? ==> DownIsFresh(w, i.e))
    requires Step(w, math, i).Some?
    ensures Invariant(Step(w, math, i).value)
  {
    match i
    case Touch(e) => OnTouchKeepsInvariant(w, math, e);
    case Redraw(k, width, height) =>
      if 0 <= k < |w.children| {
        DrawKeepsInvariant(w, math, k, width, height);
      }
  }

  /** Every touch event of the stream respects DownIsFresh in the state it
      arrives in. */
  predicate FreshDowns(w: World, math: JavaMath, inputs: seq<Input>)
    decreases |inputs|
  {
    inputs != [] ==>
      && (inputs[0].Touch? ==> DownIsFresh(w, inputs[0].e))
      && match Step(w, math, inputs[0])
         case None => true
         case Some(w') => FreshDowns(w', math, inputs[1..])
  }

  /** The invariant holds after any stream of touch events and redraws, in any
      interleaving, that does not throw and whose Downs are fresh. */
  lemma {:induction false} RunKeepsInvariant(w: World, math: JavaMath, inputs: seq<Input>)
    requires Invariant(w) && FreshDowns(w, math, inputs)
    requires Run(w, math, inputs).Some?
    ensures Invariant(Run(w, math, inputs).value)
    decreases |inputs|
  {
    if inputs != [] {
      StepKeepsInvariant(w, math, inputs[0]);
      RunKeepsInvariant(Step(w, math, inputs[0]).value, math, inputs[1..]);
    }
  }

  /** The activity starts with an empty map; photographs with distinct tags and no
      contacts satisfy the invariant. */
  lemma InitialInvariant(cs: seq<PhotoState>)
    requires DistinctTags(cs)
    requires forall i :: 0 <= i < |cs| ==> PhotoWellFormed(cs[i]) && CountContacts(cs[i].contacts) == 0
    ensures Invariant(World(map[], cs))
  {
    forall i | 0 <= i < |cs|
      ensures ContactsBound(map[], cs[i])
    {
      EmptyWhenZero(cs[i].contacts);
    }
  }

  lemma {:induction false} EmptyWhenZero(s: Slots)
    requires CountContacts(s) == 0
    ensures forall j :: 0 <= j < |s| ==> s[j].None?
  {
    if s != [] {
      EmptyWhenZero(s[..|s| - 1]);
      assert forall j :: 0 <= j < |s| - 1 ==> s[..|s| - 1][j] == s[j];
    }
  }
}
