/**
 The player's paddle: a 150 x 12 rectangle that slides horizontally by a
 fixed step and is clamped to the canvas. Only its top-left corner moves;
 the canvas width it clamps against is fixed when the paddle is created.
 */
module Paddles {
  import opened Collision

  const Speed: int := 8
  const Width: int := 150
  const Height: int := 12

  datatype Paddle = Paddle(x: int, y: int, canvasWidth: int)

  /** A paddle with its top-left corner at (startX, startY). */
  function NewPaddle(startX: int, startY: int, canvasWidth: int): (p: Paddle)
    ensures p.x == startX && p.y == startY && p.canvasWidth == canvasWidth
  {
    Paddle(startX, startY, canvasWidth)
  }

  /** The paddle lies wholly within the canvas horizontally. */
  predicate InBounds(p: Paddle)
  {
    0 <= p.x <= p.canvasWidth - Width
  }

  /**
   One step to the left. Nothing happens once the paddle is at (or past)
   the left edge; otherwise it moves a full step or stops at x = 0.
   */
  function MoveLeft(p: Paddle): (q: Paddle)
    ensures q.y == p.y && q.canvasWidth == p.canvasWidth
    ensures q.x <= p.x && p.x - q.x <= Speed
    ensures p.x <= 0 ==> q == p
    ensures p.x > 0 ==> q.x == Max(p.x - Speed, 0)
    ensures InBounds(p) ==> InBounds(q)
  {
    var currentX := p.x;
    if currentX > 0 then
      var stepped := currentX - Speed;
      var newX := if stepped < 0 then 0 else stepped;
      p.(x := newX)
    else
      p
  }

  /**
   One step to the right. Nothing happens once the paddle's right edge is
   at (or past) the canvas edge; otherwise it moves a full step or stops
   with its right edge on the canvas edge.
   */
  function MoveRight(p: Paddle): (q: Paddle)
    ensures q.y == p.y && q.canvasWidth == p.canvasWidth
    ensures p.x <= q.x && q.x - p.x <= Speed
    ensures p.x + Width >= p.canvasWidth ==> q == p
    ensures p.x + Width < p.canvasWidth ==> q.x == Min(p.x + Speed, p.canvasWidth - Width)
    ensures q != p ==> q.x + Width <= q.canvasWidth
    ensures InBounds(p) ==> InBounds(q)
  {
    var currentX := p.x;
    if currentX + Width < p.canvasWidth then
      var stepped := currentX + Speed;
      var newX := if stepped + Width > p.canvasWidth then p.canvasWidth - Width else stepped;
      p.(x := newX)
    else
      p
  }

  datatype Move = Left | Right

  function Apply(p: Paddle, m: Move): Paddle
  {
    match m
    case Left => MoveLeft(p)
    case Right => MoveRight(p)
  }

  /** The paddle after a sequence of key presses, applied in order. */
  function Slide(p: Paddle, moves: seq<Move>): Paddle
    decreases |moves|
  {
    if |moves| == 0 then p else Slide(Apply(p, moves[0]), moves[1..])
  }

  /** Every sequence of moves keeps an in-bounds paddle in bounds, at the same height. */
  lemma {:induction false} SlidePreservesBounds(p: Paddle, moves: seq<Move>)
    requires InBounds(p)
    ensures InBounds(Slide(p, moves))
    ensures Slide(p, moves).y == p.y && Slide(p, moves).canvasWidth == p.canvasWidth
    decreases |moves|
  {
    if |moves| > 0 {
      SlidePreservesBounds(Apply(p, moves[0]), moves[1..]);
    }
  }
}
