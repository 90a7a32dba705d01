/** The geometry of a photograph's region of interest: the point transforms used to
    track the drawn corners, the integer orientation test, and the point-in-region
    test built on it (Photograph.java). */
module Geometry {
  import opened Base

  datatype PointF = PointF(x: real, y: real)

  /** The four corners of the drawn area after rotation and scaling. */
  datatype Quad = Quad(topLeft: PointF, topRight: PointF, botLeft: PointF, botRight: PointF)

  function IntPoint(x: int, y: int): PointF
  {
    PointF(x as real, y as real)
  }

  /** getScaledPoint: the point (x, y) scaled by (sx, sy) about the pivot (xc, yc). */
  function ScaledPoint(x: real, y: real, xc: int, yc: int, sx: real, sy: real): (p: PointF)
    ensures p.x - xc as real == sx * (x - xc as real)
    ensures p.y - yc as real == sy * (y - yc as real)
    ensures sx == 1.0 && sy == 1.0 ==> p == PointF(x, y)
    ensures x == xc as real && y == yc as real ==> p == PointF(x, y)
  {
    PointF(x * sx - xc as real * (sx - 1.0), y * sy - yc as real * (sy - 1.0))
  }

  /** getRotatedPoint: the point (x, y) rotated by `degrees` about (xc, yc). A zero
      angle returns the point exactly; otherwise the trigonometric result is cast
      to int coordinate by coordinate. */
  function RotatedPoint(math: JavaMath, x: int, y: int, xc: int, yc: int, degrees: real): (p: PointF)
    ensures degrees == 0.0 ==> p == IntPoint(x, y)
    ensures p.x == p.x.Floor as real && p.y == p.y.Floor as real
  {
    if degrees != 0.0 then
      var kc := math.cosDeg(degrees);
      var ks := math.sinDeg(degrees);
      var xNew := JavaInt(xc as real + (kc * (x - xc) as real - ks * (y - yc) as real));
      var yNew := JavaInt(yc as real + (ks * (x - xc) as real + kc * (y - yc) as real));
      IntPoint(xNew, yNew)
    else
      IntPoint(x, y)
  }

  /** The cross product of (x1 - x0, y1 - y0) and (x - x0, y - y0), in the order
      the Java code writes it. */
  function Cross(x0: int, y0: int, x1: int, y1: int, x: int, y: int): int
  {
    (y - y0) * (x1 - x0) - (x - x0) * (y1 - y0)
  }

  /** getPointOrientationAboutLine: every coordinate is first cast to int, so the
      test is exact integer arithmetic. */
  function Orientation(lOrigin: PointF, lEnd: PointF, p: PointF): int
  {
    Cross(JavaInt(lOrigin.x), JavaInt(lOrigin.y), JavaInt(lEnd.x), JavaInt(lEnd.y),
          JavaInt(p.x), JavaInt(p.y))
  }

  /** Both ends of the line lie on the line. */
  lemma OrientationOfEndpoints(lOrigin: PointF, lEnd: PointF)
    ensures Orientation(lOrigin, lEnd, lOrigin) == 0
    ensures Orientation(lOrigin, lEnd, lEnd) == 0
  {
  }

  /** Reversing the direction of the line puts the point on the other side. */
  lemma OrientationAntisymmetric(a: PointF, b: PointF, p: PointF)
    ensures Orientation(b, a, p) == -Orientation(a, b, p)
  {
    var x0, y0, x1, y1, x, y := JavaInt(a.x), JavaInt(a.y), JavaInt(b.x), JavaInt(b.y), JavaInt(p.x), JavaInt(p.y);
    calc {
      Orientation(b, a, p);
      (y - y1) * (x0 - x1) - (x - x1) * (y0 - y1);
      { assert (y - y1) * (x0 - x1) == (y - y0) * (x0 - x1) + (y0 - y1) * (x0 - x1);
        assert (x - x1) * (y0 - y1) == (x - x0) * (y0 - y1) + (x0 - x1) * (y0 - y1); }
      (y - y0) * (x0 - x1) - (x - x0) * (y0 - y1);
      -((y - y0) * (x1 - x0) - (x - x0) * (y1 - y0));
      -Orientation(a, b, p);
    }
  }

  /** isPointInROI: (x, y) lies on the inner side of, or on, each of the directed
      edges top-left -> top-right -> bottom-right -> bottom-left -> top-left. */
  predicate InRegion(q: Quad, x: int, y: int)
  {
    var pt := IntPoint(x, y);
    && Orientation(q.topLeft, q.topRight, pt) >= 0
    && Orientation(q.topRight, q.botRight, pt) >= 0
    && Orientation(q.botRight, q.botLeft, pt) >= 0
    && Orientation(q.botLeft, q.topLeft, pt) >= 0
  }

  /** The corners of the axis-aligned rectangle (left, top) .. (right, bottom). */
  function RectQuad(left: int, top: int, right: int, bottom: int): Quad
  {
    Quad(IntPoint(left, top), IntPoint(right, top), IntPoint(left, bottom), IntPoint(right, bottom))
  }

  lemma ProductSign(a: int, b: int)
    requires b > 0
    ensures a * b >= 0 <==> a >= 0
  {
    if a < 0 {
      assert a * b == -((-a) * b);
    }
  }

  /** On an axis-aligned rectangle of positive size the orientation test is exactly
      rectangle containment, borders included. */
  lemma AxisAlignedRegion(left: int, top: int, right: int, bottom: int, x: int, y: int)
    requires left < right && top < bottom
    ensures InRegion(RectQuad(left, top, right, bottom), x, y)
            <==> left <= x <= right && top <= y <= bottom
  {
    var q := RectQuad(left, top, right, bottom);
    var pt := IntPoint(x, y);
    JavaIntOfInt(left); JavaIntOfInt(top); JavaIntOfInt(right); JavaIntOfInt(bottom);
    JavaIntOfInt(x); JavaIntOfInt(y);
    assert Orientation(q.topLeft, q.topRight, pt) == (y - top) * (right - left);
    assert Orientation(q.topRight, q.botRight, pt) == (right - x) * (bottom - top);
    assert Orientation(q.botRight, q.botLeft, pt) == (bottom - y) * (right - left);
    assert Orientation(q.botLeft, q.topLeft, pt) == (x - left) * (bottom - top);
    ProductSign(y - top, right - left);
    ProductSign(right - x, bottom - top);
    ProductSign(bottom - y, right - left);
    ProductSign(x - left, bottom - top);
  }

  /** transformROI: a corner is rotated about the pivot first, then scaled about it. */
  function TransformedCorner(math: JavaMath, x: int, y: int, pivotX: int, pivotY: int,
                             angle: real, sx: real, sy: real): PointF
  {
    var r := RotatedPoint(math, x, y, pivotX, pivotY, angle);
    ScaledPoint(r.x, r.y, pivotX, pivotY, sx, sy)
  }

  function TransformedROI(math: JavaMath, left: int, top: int, right: int, bottom: int,
                          pivotX: int, pivotY: int, angle: real, sx: real, sy: real): (q: Quad)
    ensures angle == 0.0 && sx == 1.0 && sy == 1.0 ==> q == RectQuad(left, top, right, bottom)
  {
    Quad(TransformedCorner(math, left, top, pivotX, pivotY, angle, sx, sy),
         TransformedCorner(math, right, top, pivotX, pivotY, angle, sx, sy),
         TransformedCorner(math, left, bottom, pivotX, pivotY, angle, sx, sy),
         TransformedCorner(math, right, bottom, pivotX, pivotY, angle, sx, sy))
  }

  /** With no rotation and unit scale the hit test agrees with plain containment in
      the untransformed rectangle, whatever the pivot. */
  lemma IdentityTransformHit(math: JavaMath, left: int, top: int, right: int, bottom: int,
                             pivotX: int, pivotY: int, x: int, y: int)
    requires left < right && top < bottom
    ensures InRegion(TransformedROI(math, left, top, right, bottom, pivotX, pivotY, 0.0, 1.0, 1.0), x, y)
            <==> left <= x <= right && top <= y <= bottom
  {
    AxisAlignedRegion(left, top, right, bottom, x, y);
  }
}
