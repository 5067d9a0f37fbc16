/**
 The wall of bricks: 4 rows of 8 bricks laid out on a fixed pitch, together
 with a counter of bricks still standing that `DestroyBrick` keeps in step
 with the bricks' visibility flags.
 */
module BrickGrid {
  import opened Collision
  import opened Bricks

  const Rows: int := 4
  const Cols: int := 8

  // Layout pitch. The layout reserves 20 pixels of height per row although
  // each brick is only Bricks.Height = 12 pixels high.
  const LayoutBrickWidth: int := 60
  const LayoutBrickHeight: int := 20
  const SpacingX: int := 10
  const SpacingY: int := 10
  const StartY: int := 50

  /** Left edge of every brick in column `col`. */
  function BrickX(col: int): int { col * (LayoutBrickWidth + SpacingX) + SpacingX }

  /** Top edge of every brick in row `row`. */
  function BrickY(row: int): int { StartY + row * (LayoutBrickHeight + SpacingY) }

  datatype Grid = Grid(bricks: seq<seq<Brick>>, count: int)

  /** The grid has the fixed 4 x 8 shape and every brick sits at its layout position. */
  predicate WellFormed(g: Grid)
  {
    && |g.bricks| == Rows
    && (forall r :: 0 <= r < Rows ==> |g.bricks[r]| == Cols)
    && (forall r, c :: 0 <= r < Rows && 0 <= c < Cols && c < |g.bricks[r]| ==>
          g.bricks[r][c].x == BrickX(c) && g.bricks[r][c].y == BrickY(r))
  }

  /** Two arrays of rows with the same shape whose bricks sit at the same positions. */
  predicate SameLayout(a: seq<seq<Brick>>, b: seq<seq<Brick>>)
  {
    && |a| == |b|
    && (forall r :: 0 <= r < |a| ==> |a[r]| == |b[r]|)
    && (forall r, c :: 0 <= r < |a| && 0 <= c < |a[r]| && c < |b[r]| ==>
          a[r][c].x == b[r][c].x && a[r][c].y == b[r][c].y)
  }

  /** Replacing a well-formed grid's bricks by bricks with the same layout keeps it well formed. */
  lemma WellFormedSameLayout(g: Grid, rows: seq<seq<Brick>>)
    requires WellFormed(g) && SameLayout(g.bricks, rows)
    ensures WellFormed(g.(bricks := rows))
  {
    forall r, c | 0 <= r < Rows && 0 <= c < Cols && c < |rows[r]|
      ensures rows[r][c].x == BrickX(c) && rows[r][c].y == BrickY(r)
    {
      assert rows[r][c].x == g.bricks[r][c].x && rows[r][c].y == g.bricks[r][c].y;
    }
  }

  predicate InGrid(row: int, col: int)
  {
    0 <= row < Rows && 0 <= col < Cols
  }

  // ---------------------------------------------------------------------------
  // Counting visible bricks

  function CountRow(row: seq<Brick>): (n: nat)
    ensures n <= |row|
    decreases |row|
  {
    if |row| == 0 then 0
    else (if row[0].visible then 1 else 0) + CountRow(row[1..])
  }

  function CountRows(rows: seq<seq<Brick>>): nat
    decreases |rows|
  {
    if |rows| == 0 then 0 else CountRow(rows[0]) + CountRows(rows[1..])
  }

  /** The number of bricks of the grid whose visibility flag is set. */
  function VisibleBricks(g: Grid): nat
  {
    CountRows(g.bricks)
  }

  /** The live counter agrees with the visibility flags. */
  predicate Synced(g: Grid)
  {
    g.count == VisibleBricks(g)
  }

  lemma {:induction false} CountRowUpdate(row: seq<Brick>, c: int, b: Brick)
    requires 0 <= c < |row|
    ensures CountRow(row[c := b])
         == CountRow(row) - (if row[c].visible then 1 else 0) + (if b.visible then 1 else 0)
    decreases |row|
  {
    if c > 0 {
      assert row[c := b][1..] == row[1..][c - 1 := b];
      CountRowUpdate(row[1..], c - 1, b);
    } else {
      assert row[c := b][1..] == row[1..];
    }
  }

  lemma {:induction false} CountRowsUpdate(rows: seq<seq<Brick>>, r: int, row: seq<Brick>)
    requires 0 <= r < |rows|
    ensures CountRows(rows[r := row]) == CountRows(rows) - CountRow(rows[r]) + CountRow(row)
    decreases |rows|
  {
    if r > 0 {
      assert rows[r := row][1..] == rows[1..][r - 1 := row];
      CountRowsUpdate(rows[1..], r - 1, row);
    } else {
      assert rows[r := row][1..] == rows[1..];
    }
  }

  lemma {:induction false} CountRowsBound(rows: seq<seq<Brick>>, width: nat)
    requires forall r :: 0 <= r < |rows| ==> |rows[r]| == width
    ensures CountRows(rows) <= |rows| * width
    decreases |rows|
  {
    if |rows| > 0 {
      CountRowsBound(rows[1..], width);
    }
  }

  lemma {:induction false} CountRowAllVisible(row: seq<Brick>)
    requires forall c :: 0 <= c < |row| ==> row[c].visible
    ensures CountRow(row) == |row|
    decreases |row|
  {
    if |row| > 0 {
      CountRowAllVisible(row[1..]);
    }
  }

  lemma {:induction false} CountRowsAllVisible(rows: seq<seq<Brick>>, width: nat)
    requires forall r :: 0 <= r < |rows| ==> |rows[r]| == width
    requires forall r, c :: 0 <= r < |rows| && 0 <= c < |rows[r]| ==> rows[r][c].visible
    ensures CountRows(rows) == |rows| * width
    decreases |rows|
  {
    if |rows| > 0 {
      CountRowAllVisible(rows[0]);
      CountRowsAllVisible(rows[1..], width);
    }
  }

  /** A well-formed grid never has more than Rows * Cols = 32 visible bricks. */
  lemma VisibleBricksBound(g: Grid)
    requires WellFormed(g)
    ensures VisibleBricks(g) <= Rows * Cols
  {
    CountRowsBound(g.bricks, Cols);
  }

  // ---------------------------------------------------------------------------
  // Operations

  /**
   A fresh grid: brick (row, col) at (10 + 70 col, 50 + 30 row), every brick
   visible, and the counter at 32. The canvas dimensions are accepted but do
   not influence the layout.
   */
  function NewGrid(canvasWidth: int, canvasHeight: int): (g: Grid)
    ensures WellFormed(g) && Synced(g)
    ensures g.count == Rows * Cols == 32
    ensures forall r, c :: InGrid(r, c) ==> g.bricks[r][c].visible
    ensures forall r, c :: InGrid(r, c) ==>
              g.bricks[r][c].x == 10 + 70 * c && g.bricks[r][c].y == 50 + 30 * r
  {
    var bricks := seq(Rows, row => seq(Cols, col => MakeVisible(NewBrick(BrickX(col), BrickY(row)))));
    CountRowsAllVisible(bricks, Cols);
    Grid(bricks, Rows * Cols)
  }

  /** The brick at (row, col); it sits at its layout position. */
  function GetBrick(g: Grid, row: int, col: int): (b: Brick)
    requires WellFormed(g) && InGrid(row, col)
    ensures b == g.bricks[row][col]
    ensures b.x == BrickX(col) && b.y == BrickY(row)
    ensures b.x == 10 + 70 * col && b.y == 50 + 30 * row
  {
    g.bricks[row][col]
  }

  /** The live counter of bricks still standing. */
  function GetVisibleCount(g: Grid): (n: int)
    ensures n == g.count
    ensures Synced(g) ==> n == VisibleBricks(g)
    ensures WellFormed(g) && Synced(g) ==> 0 <= n <= Rows * Cols
  {
    if WellFormed(g) && Synced(g) then
      VisibleBricksBound(g);
      g.count
    else
      g.count
  }

  /**
   Destroys the brick at (row, col). The counter drops by one exactly when
   that brick was still visible; no other brick changes.
   */
  function DestroyBrick(g: Grid, row: int, col: int): (h: Grid)
    requires WellFormed(g) && InGrid(row, col)
    ensures WellFormed(h)
    ensures !h.bricks[row][col].visible
    ensures h.count == (if g.bricks[row][col].visible then g.count - 1 else g.count)
    ensures forall r, c :: InGrid(r, c) && (r, c) != (row, col) ==> h.bricks[r][c] == g.bricks[r][c]
    ensures VisibleBricks(h) == VisibleBricks(g) - (if g.bricks[row][col].visible then 1 else 0)
    ensures Synced(g) ==> Synced(h)
  {
    var brick := g.bricks[row][col];
    if brick.visible then
      var newRow := g.bricks[row][col := Destroy(brick)];
      CountRowUpdate(g.bricks[row], col, Destroy(brick));
      CountRowsUpdate(g.bricks, row, newRow);
      Grid(g.bricks[row := newRow], g.count - 1)
    else
      g
  }

  // ---------------------------------------------------------------------------
  // Properties

  /** Destroying the same brick twice is destroying it once. */
  lemma DestroyBrickIdempotent(g: Grid, row: int, col: int)
    requires WellFormed(g) && InGrid(row, col)
    ensures DestroyBrick(DestroyBrick(g, row, col), row, col) == DestroyBrick(g, row, col)
  {
  }

  /** As long as bricks are knocked out only by DestroyBrick, the counter stays in [0, 32]. */
  function DestroyAll(g: Grid, cells: seq<(int, int)>): Grid
    requires WellFormed(g)
    requires forall i :: 0 <= i < |cells| ==> InGrid(cells[i].0, cells[i].1)
    decreases |cells|
  {
    if |cells| == 0 then g else DestroyAll(DestroyBrick(g, cells[0].0, cells[0].1), cells[1..])
  }

  lemma {:induction false} DestroyAllKeepsCount(g: Grid, cells: seq<(int, int)>)
    requires WellFormed(g) && Synced(g)
    requires forall i :: 0 <= i < |cells| ==> InGrid(cells[i].0, cells[i].1)
    ensures WellFormed(DestroyAll(g, cells)) && Synced(DestroyAll(g, cells))
    ensures 0 <= DestroyAll(g, cells).count <= Rows * Cols
    decreases |cells|
  {
    if |cells| == 0 {
      VisibleBricksBound(g);
    } else {
      DestroyAllKeepsCount(DestroyBrick(g, cells[0].0, cells[0].1), cells[1..]);
    }
  }

  /** No two distinct bricks of the layout overlap. */
  lemma BricksDisjoint(r1: int, c1: int, r2: int, c2: int)
    requires InGrid(r1, c1) && InGrid(r2, c2) && (r1, c1) != (r2, c2)
    ensures !RectsCollide(BrickX(c1), BrickY(r1), Bricks.Width, Bricks.Height,
                          BrickX(c2), BrickY(r2), Bricks.Width, Bricks.Height)
  {
  }
}
