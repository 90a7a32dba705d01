/** TouchPoint.java: the mutable record the tracker keeps per pointer id, and the
    snapshot a photograph keeps per point of contact. */
module TouchPoints {

  /** The `extra` field: null, or the Integer tag of the view the pointer touched. */
  datatype Extra = Null | TagRef(tag: int)

  /** The value of every field of a TouchPoint (`coordinates` is the pair x, y). */
  datatype TouchPointState = TouchPointState(
    x: int,
    y: int,
    pointerId: int,
    pointerIndex: int,
    extra: Extra,
    valid: bool,
    isDown: bool)
  {
    /** setValues: position, ids and payload; the two flags are left alone. */
    function SetValues(x': int, y': int, pId: int, pIndex: int, ext: Extra): TouchPointState
    {
      this.(x := x', y := y', pointerId := pId, pointerIndex := pIndex, extra := ext)
    }

    /** putXY: the position only. */
    function PutXY(x': int, y': int): TouchPointState
    {
      this.(x := x', y := y')
    }
  }

  /** What the no-argument constructor builds: ids -1, no payload, both flags false,
      at (0, 0). */
  const Unset := TouchPointState(0, 0, -1, -1, Null, false, false)

  /** The five-argument constructor: setValues applied to a fresh record. */
  function NewTouchPoint(x: int, y: int, pId: int, pIndex: int, ext: Extra): (r: TouchPointState)
    ensures r.x == x && r.y == y && r.pointerId == pId && r.pointerIndex == pIndex
    ensures r.extra == ext && !r.valid && !r.isDown
  {
    Unset.SetValues(x, y, pId, pIndex, ext)
  }

  class TouchPoint {
    var x: int
    var y: int
    var pointerId: int
    var pointerIndex: int
    var extra: Extra
    var valid: bool
    var isDown: bool

    function State(): TouchPointState
      reads this
    {
      TouchPointState(x, y, pointerId, pointerIndex, extra, valid, isDown)
    }

    constructor ()
      ensures State() == Unset
    {
      x, y := 0, 0;
      pointerId, pointerIndex := -1, -1;
      extra := Null;
      valid, isDown := false, false;
    }

    /** The overloaded constructor; `valid` and `isDown` keep Java's default false. */
    constructor WithValues(x: int, y: int, pId: int, pIndex: int, ext: Extra)
      ensures State() == Unset.SetValues(x, y, pId, pIndex, ext)
      ensures State() == NewTouchPoint(x, y, pId, pIndex, ext)
    {
      this.x, this.y := x, y;
      pointerIndex := pIndex;
      pointerId := pId;
      extra := ext;
      valid, isDown := false, false;
    }

    method SetValues(x: int, y: int, pId: int, pIndex: int, ext: Extra)
      modifies this
      ensures State() == old(State()).SetValues(x, y, pId, pIndex, ext)
      ensures valid == old(valid) && isDown == old(isDown)
    {
      this.x := x;
      this.y := y;
      pointerIndex := pIndex;
      pointerId := pId;
      extra := ext;
    }

    function GetX(): int
      reads this
    {
      x
    }

    function GetY(): int
      reads this
    {
      y
    }

    method PutXY(x: int, y: int)
      modifies this
      ensures State() == old(State()).PutXY(x, y)
      ensures GetX() == x && GetY() == y
    {
      this.x := x;
      this.y := y;
    }

    function IsValid(): bool
      reads this
    {
      valid
    }

    method SetValidity(value: bool)
      modifies this
      ensures State() == old(State()).(valid := value)
      ensures IsValid() == value
    {
      valid := value;
    }
  }
}
