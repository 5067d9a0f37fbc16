/**
 A single brick: a fixed 60 x 12 rectangle at a fixed position whose only
 mutable attribute is whether it is still visible (not yet destroyed).
 */
module Bricks {

  const Width: int := 60
  const Height: int := 12

  datatype Brick = Brick(x: int, y: int, visible: bool)

  /** A brick at (x, y); a new brick starts out visible. */
  function NewBrick(x: int, y: int): (b: Brick)
    ensures b.visible
    ensures b.x == x && b.y == y
  {
    Brick(x, y, true)
  }

  /** Knocks the brick out: it stays where it is but is no longer visible. */
  function Destroy(b: Brick): (c: Brick)
    ensures !c.visible
    ensures c.x == b.x && c.y == b.y
  {
    b.(visible := false)
  }

  function MakeVisible(b: Brick): (c: Brick)
    ensures c.visible
    ensures c.x == b.x && c.y == b.y
  {
    b.(visible := true)
  }

  function MakeInvisible(b: Brick): (c: Brick)
    ensures !c.visible
    ensures c.x == b.x && c.y == b.y
  {
    b.(visible := false)
  }

  /** The three operations of a brick that change its state. */
  datatype BrickOp = DestroyOp | MakeVisibleOp | MakeInvisibleOp

  function Apply(b: Brick, op: BrickOp): Brick
  {
    match op
    case DestroyOp => Destroy(b)
    case MakeVisibleOp => MakeVisible(b)
    case MakeInvisibleOp => MakeInvisible(b)
  }

  function ApplyAll(b: Brick, ops: seq<BrickOp>): Brick
    decreases |ops|
  {
    if |ops| == 0 then b else ApplyAll(Apply(b, ops[0]), ops[1..])
  }

  /** Each operation is idempotent: applying it twice is applying it once. */
  lemma OpsIdempotent(b: Brick, op: BrickOp)
    ensures Apply(Apply(b, op), op) == Apply(b, op)
  {
  }

  /**
   After any sequence of operations the brick is where it was built, and it
   is visible exactly when the last operation was MakeVisible (or, with no
   operations, when it was visible to begin with).
   */
  lemma {:induction false} ApplyAllKeepsGeometry(b: Brick, ops: seq<BrickOp>)
    ensures ApplyAll(b, ops).x == b.x && ApplyAll(b, ops).y == b.y
    ensures ApplyAll(b, ops).visible
            == (if |ops| == 0 then b.visible else ops[|ops| - 1] == MakeVisibleOp)
    decreases |ops|
  {
    if |ops| > 0 {
      ApplyAllKeepsGeometry(Apply(b, ops[0]), ops[1..]);
      if |ops| > 1 {
        assert ops[1..][|ops[1..]| - 1] == ops[|ops| - 1];
      }
    }
  }
}
