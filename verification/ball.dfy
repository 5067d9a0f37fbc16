/**
 The ball: a circle of radius 10 whose centre advances by its velocity every
 tick. The velocity is a pair of doubles in the game, but it only ever holds
 +3.0 or -3.0 on each axis, and the position update truncates it to an
 integer, so the model keeps the velocity as the integers +3 and -3.
 */
module Balls {

  const Radius: int := 10
  const Speed: int := 3

  datatype Ball = Ball(x: int, y: int, vx: int, vy: int)

  /** Both velocity components have magnitude Speed. */
  predicate AxisSpeed(b: Ball)
  {
    (b.vx == Speed || b.vx == -Speed) && (b.vy == Speed || b.vy == -Speed)
  }

  /** A new ball at (startX, startY), heading up and to the right. */
  function NewBall(startX: int, startY: int): (b: Ball)
    ensures b.x == startX && b.y == startY
    ensures AxisSpeed(b) && b.vx > 0 && b.vy < 0
  {
    Ball(startX, startY, Speed, -Speed)
  }

  /** One tick of motion: the centre moves by exactly the velocity. */
  function Update(b: Ball): (c: Ball)
    ensures c.x - b.x == b.vx && c.y - b.y == b.vy
    ensures c.vx == b.vx && c.vy == b.vy
    ensures AxisSpeed(b) ==> AxisSpeed(c)
  {
    var newX := b.x + b.vx;
    var newY := b.y + b.vy;
    b.(x := newX, y := newY)
  }

  /** Bounce off a vertical surface: only the horizontal velocity changes sign. */
  function ReverseHorizontal(b: Ball): (c: Ball)
    ensures c.vx == -b.vx
    ensures c.x == b.x && c.y == b.y && c.vy == b.vy
    ensures AxisSpeed(b) ==> AxisSpeed(c)
  {
    b.(vx := b.vx * -1)
  }

  /** Bounce off a horizontal surface: only the vertical velocity changes sign. */
  function ReverseVertical(b: Ball): (c: Ball)
    ensures c.vy == -b.vy
    ensures c.x == b.x && c.y == b.y && c.vx == b.vx
    ensures AxisSpeed(b) ==> AxisSpeed(c)
  {
    b.(vy := b.vy * -1)
  }

  /** Each reversal undoes itself. */
  lemma ReversalsAreInvolutions(b: Ball)
    ensures ReverseHorizontal(ReverseHorizontal(b)) == b
    ensures ReverseVertical(ReverseVertical(b)) == b
  {
  }

  /** The two reversals act on different axes and so commute. */
  lemma ReversalsCommute(b: Ball)
    ensures ReverseHorizontal(ReverseVertical(b)) == ReverseVertical(ReverseHorizontal(b))
  {
  }
}
