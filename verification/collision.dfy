/**
 Static collision predicates of the game: an axis-aligned rectangle overlap
 test, a closest-point circle-versus-rectangle test, and the four wall tests.
 All coordinates are whole pixels; rectangles are given by their top-left
 corner and their width and height, circles by their centre and radius.
 */
module Collision {

  function Min(a: int, b: int): int { if a <= b then a else b }
  function Max(a: int, b: int): int { if a >= b then a else b }

  /** Squared Euclidean distance between two points. */
  function Dist2(x1: int, y1: int, x2: int, y2: int): (d: int)
    ensures d >= 0
    ensures d == 0 <==> x1 == x2 && y1 == y2
  {
    var dx := x1 - x2;
    var dy := y1 - y2;
    assert dx != 0 ==> dx * dx > 0;
    assert dy != 0 ==> dy * dy > 0;
    dx * dx + dy * dy
  }

  /** The point (px, py) lies in the closed rectangle [x, x+w] x [y, y+h]. */
  predicate InClosedRect(px: int, py: int, x: int, y: int, w: int, h: int)
  {
    x <= px <= x + w && y <= py <= y + h
  }

  /**
   Axis-aligned bounding-box overlap. Every comparison is strict, so two
   rectangles that only share an edge do not collide. The result agrees
   with the reference reading "the two open boxes have a common point" (on
   each axis the larger left end lies strictly below the smaller right end)
   whenever both rectangles have positive width and height.
   */
  function RectsCollide(x1: int, y1: int, w1: int, h1: int,
                        x2: int, y2: int, w2: int, h2: int): (r: bool)
    ensures w1 > 0 && h1 > 0 && w2 > 0 && h2 > 0 ==>
              (r <==> (Max(x1, x2) < Min(x1 + w1, x2 + w2) && Max(y1, y2) < Min(y1 + h1, y2 + h2)))
  {
    x1 < x2 + w2 &&
    x1 + w1 > x2 &&
    y1 < y2 + h2 &&
    y1 + h1 > y2
  }

  /**
   The coordinate of the rectangle's closest point on one axis: `v` clamped
   from above by `hi` and then from below by `lo`, in that order.
   */
  function Closest(v: int, lo: int, hi: int): (c: int)
    ensures lo <= hi ==> lo <= c <= hi
    ensures lo <= v <= hi ==> c == v
    ensures v < lo ==> c == lo
    ensures lo <= hi < v ==> c == hi
  {
    Max(lo, Min(v, hi))
  }

  /**
   Circle-versus-rectangle test: the centre is compared with the closest
   point of the rectangle, and the squared distance must be strictly less
   than the squared radius.
   */
  function CircleRectsCollide(circleX: int, circleY: int, radius: int,
                              rectX: int, rectY: int, rectW: int, rectH: int): (r: bool)
    ensures radius == 0 ==> !r
    ensures (rectW >= 0 && rectH >= 0 && radius != 0
             && InClosedRect(circleX, circleY, rectX, rectY, rectW, rectH)) ==> r
  {
    var closestX := Closest(circleX, rectX, rectX + rectW);
    var closestY := Closest(circleY, rectY, rectY + rectH);
    assert radius != 0 ==> radius * radius > 0;
    Dist2(circleX, circleY, closestX, closestY) < radius * radius
  }

  /** The ball touches or passes the left edge of the canvas. */
  function HitsLeftWall(ballX: int, ballRadius: int): (r: bool)
    ensures r <==> ballX <= ballRadius
  {
    ballX - ballRadius <= 0
  }

  /** The ball touches or passes the right edge of a canvas `canvasWidth` wide. */
  function HitsRightWall(ballX: int, ballRadius: int, canvasWidth: int): (r: bool)
    ensures r <==> ballX >= canvasWidth - ballRadius
  {
    ballX + ballRadius >= canvasWidth
  }

  /** The ball touches or passes the top edge of the canvas. */
  function HitsTopWall(ballY: int, ballRadius: int): (r: bool)
    ensures r <==> ballY <= ballRadius
  {
    ballY - ballRadius <= 0
  }

  /** The ball touches or passes the bottom edge of a canvas `canvasHeight` high. */
  function HitsBottomWall(ballY: int, ballRadius: int, canvasHeight: int): (r: bool)
    ensures r <==> ballY >= canvasHeight - ballRadius
  {
    ballY + ballRadius >= canvasHeight
  }

  // ---------------------------------------------------------------------------
  // Properties of the rectangle test

  /** Swapping the two rectangles never changes the outcome. */
  lemma RectsCollideSymmetric(x1: int, y1: int, w1: int, h1: int,
                              x2: int, y2: int, w2: int, h2: int)
    ensures RectsCollide(x1, y1, w1, h1, x2, y2, w2, h2)
        == RectsCollide(x2, y2, w2, h2, x1, y1, w1, h1)
  {
  }

  /** Rectangles that only share an edge, on either axis, do not collide. */
  lemma TouchingRectsDoNotCollide(x1: int, y1: int, w1: int, h1: int,
                                  x2: int, y2: int, w2: int, h2: int)
    requires x1 + w1 == x2 || x2 + w2 == x1 || y1 + h1 == y2 || y2 + h2 == y1
    ensures !RectsCollide(x1, y1, w1, h1, x2, y2, w2, h2)
  {
  }

  // ---------------------------------------------------------------------------
  // Properties of the circle test

  /** For a rectangle of non-negative size the closest point lies inside it. */
  lemma ClosestPointInRect(circleX: int, circleY: int,
                           rectX: int, rectY: int, rectW: int, rectH: int)
    requires rectW >= 0 && rectH >= 0
    ensures InClosedRect(Closest(circleX, rectX, rectX + rectW),
                         Closest(circleY, rectY, rectY + rectH),
                         rectX, rectY, rectW, rectH)
  {
  }

  /** On one axis, no coordinate of the interval is nearer to `v` than the clamped one. */
  lemma {:induction false} ClosestIsNearestOnAxis(v: int, lo: int, hi: int, p: int)
    requires lo <= p <= hi
    ensures var c := Closest(v, lo, hi);
            (v - c) * (v - c) <= (v - p) * (v - p)
  {
    var c := Closest(v, lo, hi);
    var a := v - c;
    var b := v - p;
    // `a` and `b` have the same sign and |a| <= |b|.
    if v < lo {
      assert b <= a < 0;
      MulMonotone(-a, -b);
    } else if v > hi {
      assert 0 < a <= b;
      MulMonotone(a, b);
    } else {
      assert a == 0;
    }
  }

  lemma MulMonotone(a: int, b: int)
    requires 0 <= a <= b
    ensures a * a <= b * b
  {
    assert a * a <= a * b;
    assert a * b <= b * b;
  }

  /**
   The clamped point is the nearest point of the closed rectangle: the
   circle test therefore holds exactly when some point of the rectangle lies
   strictly inside the circle (this lemma gives the "if" direction).
   */
  lemma {:induction false} CircleHitFromPoint(circleX: int, circleY: int, radius: int,
                                              rectX: int, rectY: int, rectW: int, rectH: int,
                                              px: int, py: int)
    requires InClosedRect(px, py, rectX, rectY, rectW, rectH)
    requires Dist2(circleX, circleY, px, py) < radius * radius
    ensures CircleRectsCollide(circleX, circleY, radius, rectX, rectY, rectW, rectH)
  {
    ClosestIsNearestOnAxis(circleX, rectX, rectX + rectW, px);
    ClosestIsNearestOnAxis(circleY, rectY, rectY + rectH, py);
  }

  /** The "only if" direction: a hit is witnessed by the closest point, which lies in the rectangle. */
  lemma CircleHitWitness(circleX: int, circleY: int, radius: int,
                         rectX: int, rectY: int, rectW: int, rectH: int)
    requires rectW >= 0 && rectH >= 0
    requires CircleRectsCollide(circleX, circleY, radius, rectX, rectY, rectW, rectH)
    ensures var px := Closest(circleX, rectX, rectX + rectW);
            var py := Closest(circleY, rectY, rectY + rectH);
            InClosedRect(px, py, rectX, rectY, rectW, rectH)
            && Dist2(circleX, circleY, px, py) < radius * radius
  {
  }

  /** A hit at radius `r >= 0` stays a hit for every larger radius. */
  lemma {:induction false} CircleMonotoneInRadius(circleX: int, circleY: int, r: int, r': int,
                                                  rectX: int, rectY: int, rectW: int, rectH: int)
    requires 0 <= r <= r'
    requires CircleRectsCollide(circleX, circleY, r, rectX, rectY, rectW, rectH)
    ensures CircleRectsCollide(circleX, circleY, r', rectX, rectY, rectW, rectH)
  {
    MulMonotone(r, r');
  }

  /** Moving the circle and the rectangle by the same offset leaves the test unchanged. */
  lemma CircleTranslationInvariant(circleX: int, circleY: int, radius: int,
                                   rectX: int, rectY: int, rectW: int, rectH: int,
                                   dx: int, dy: int)
    ensures CircleRectsCollide(circleX + dx, circleY + dy, radius, rectX + dx, rectY + dy, rectW, rectH)
         == CircleRectsCollide(circleX, circleY, radius, rectX, rectY, rectW, rectH)
  {
  }

  // ---------------------------------------------------------------------------
  // Properties of the wall tests

  /** On a canvas wider than the ball's diameter the ball cannot touch both side walls. */
  lemma SideWallsExclusive(ballX: int, ballRadius: int, canvasWidth: int)
    requires canvasWidth > 2 * ballRadius
    ensures !(HitsLeftWall(ballX, ballRadius) && HitsRightWall(ballX, ballRadius, canvasWidth))
  {
  }

  // ---------------------------------------------------------------------------
  // Java `int` arithmetic

  const IntMin: int := -0x8000_0000
  const IntMax: int := 0x7fff_ffff
  /** Coordinates of canvas scale: the model's unbounded integers then agree with Java's 32-bit ones. */
  const CanvasScale: int := 10_000

  predicate IsJavaInt(v: int) { IntMin <= v <= IntMax }
  predicate IsCanvasScale(v: int) { -CanvasScale <= v <= CanvasScale }

  /**
   When every argument is of canvas scale, no intermediate value of the
   rectangle test or of the circle test leaves the 32-bit range, so the
   model's mathematical integers compute what the Java code computes.
   */
  lemma {:induction false} NoOverflowAtCanvasScale(x1: int, y1: int, w1: int, h1: int,
                                                   x2: int, y2: int, w2: int, h2: int, radius: int)
    requires IsCanvasScale(x1) && IsCanvasScale(y1) && IsCanvasScale(w1) && IsCanvasScale(h1)
    requires IsCanvasScale(x2) && IsCanvasScale(y2) && IsCanvasScale(w2) && IsCanvasScale(h2)
    requires IsCanvasScale(radius)
    ensures IsJavaInt(x1 + w1) && IsJavaInt(y1 + h1) && IsJavaInt(x2 + w2) && IsJavaInt(y2 + h2)
    ensures var cx := Closest(x1, x2, x2 + w2);
            var cy := Closest(y1, y2, y2 + h2);
            IsJavaInt(x1 - cx) && IsJavaInt(y1 - cy)
            && IsJavaInt((x1 - cx) * (x1 - cx)) && IsJavaInt((y1 - cy) * (y1 - cy))
            && IsJavaInt((x1 - cx) * (x1 - cx) + (y1 - cy) * (y1 - cy))
            && IsJavaInt(radius * radius)
  {
    var cx := Closest(x1, x2, x2 + w2);
    var cy := Closest(y1, y2, y2 + h2);
    var dx := x1 - cx;
    var dy := y1 - cy;
    assert -30_000 <= dx <= 30_000;
    assert -30_000 <= dy <= 30_000;
    SquareBound(dx, 30_000);
    SquareBound(dy, 30_000);
    SquareBound(radius, 30_000);
  }

  lemma SquareBound(a: int, m: int)
    requires -m <= a <= m
    ensures 0 <= a * a <= m * m
  {
    if a >= 0 {
      MulMonotone(a, m);
    } else {
      MulMonotone(-a, m);
    }
  }
}
