/**
 The game itself: a record of the play state, score, lives, ball, paddle
 and brick grid, and the transitions the game loop and the keyboard drive
 (tick, pause, restart, paddle moves). Drawing and text updates are not
 part of the model; every transition is a pure function of the record.
 */
module Arkanoid {
  import opened Collision
  import Paddles
  import opened Bricks
  import opened BrickGrid
  import opened Balls

  datatype Option<T> = None | Some(value: T)

  /** The states of the game. Menu exists but no transition ever enters it. */
  datatype GameState = Menu | Playing | Paused | GameOver | Win

  const CanvasWidth: int := 800
  const CanvasHeight: int := 600
  const StartLives: int := 3
  /** Points for each brick knocked out. */
  const BrickScore: int := 10

  datatype Game = Game(state: GameState, score: int, lives: int,
                       ball: Ball, paddle: Paddles.Paddle, grid: Grid)

  /** The ball every round and every new life starts with: centre (400, 500), heading up-right. */
  function StartBall(): (b: Ball)
    ensures b.x == 400 && b.y == 500
    ensures b.vx == 3 && b.vy == -3
  {
    NewBall(CanvasWidth / 2, CanvasHeight - 100)
  }

  /** The paddle of a new round: top-left corner (350, 560) on the 800-pixel canvas. */
  function StartPaddle(): (p: Paddles.Paddle)
    ensures p.x == 350 && p.y == 560 && p.canvasWidth == CanvasWidth
    ensures Paddles.InBounds(p)
  {
    Paddles.NewPaddle(CanvasWidth / 2 - 50, CanvasHeight - 40, CanvasWidth)
  }

  /**
   The game as constructed (and as every restart leaves it): playing, no
   points, three lives, fresh ball, paddle and grid.
   */
  function NewGame(): (g: Game)
    ensures g.state == Playing && g.score == 0 && g.lives == StartLives
    ensures g.grid.count == 32 && VisibleBricks(g.grid) == 32
    ensures g.ball == StartBall() && g.paddle == StartPaddle() && g.grid == NewGrid(CanvasWidth, CanvasHeight)
    ensures Valid(g)
  {
    Game(Playing, 0, StartLives, StartBall(), StartPaddle(), NewGrid(CanvasWidth, CanvasHeight))
  }

  /**
   What holds of every game reachable from NewGame: the state is one of
   Playing, Paused or GameOver; lives lie in [0, 3] and reach 0 exactly at
   GameOver; the grid keeps its layout and its counter stays at 32 (bricks
   are knocked out without going through the counter); the score is 10
   points per knocked-out brick; the paddle is on the canvas; the ball
   moves at 3 pixels per axis.
   */
  predicate Valid(g: Game)
  {
    && (g.state == Playing || g.state == Paused || g.state == GameOver)
    && 0 <= g.lives <= StartLives
    && (g.lives == 0 <==> g.state == GameOver)
    && WellFormed(g.grid)
    && g.grid.count == Rows * Cols
    && g.score == BrickScore * (Rows * Cols - VisibleBricks(g.grid))
    && g.paddle.canvasWidth == CanvasWidth
    && Paddles.InBounds(g.paddle)
    && AxisSpeed(g.ball)
  }

  // ---------------------------------------------------------------------------
  // Collision responses

  /** Reflection off the paddle: only the vertical velocity flips, and only on overlap. */
  function PaddleBounce(b: Ball, p: Paddles.Paddle): (c: Ball)
    ensures c.x == b.x && c.y == b.y && c.vx == b.vx
    ensures CircleRectsCollide(b.x, b.y, Radius, p.x, p.y, Paddles.Width, Paddles.Height)
            ==> c.vy == -b.vy
    ensures !CircleRectsCollide(b.x, b.y, Radius, p.x, p.y, Paddles.Width, Paddles.Height)
            ==> c == b
    ensures AxisSpeed(b) ==> AxisSpeed(c)
  {
    if CircleRectsCollide(b.x, b.y, Radius, p.x, p.y, Paddles.Width, Paddles.Height)
    then ReverseVertical(b)
    else b
  }

  /**
   Reflection off the walls: a side wall flips only the horizontal velocity,
   the top wall only the vertical one; the position never changes here.
   */
  function WallBounce(b: Ball): (c: Ball)
    ensures c.x == b.x && c.y == b.y
    ensures c.vx == (if b.x <= Radius || b.x >= CanvasWidth - Radius then -b.vx else b.vx)
    ensures c.vy == (if b.y <= Radius then -b.vy else b.vy)
    ensures AxisSpeed(b) ==> AxisSpeed(c)
  {
    var b1 := if HitsLeftWall(b.x, Radius) || HitsRightWall(b.x, Radius, CanvasWidth)
              then ReverseHorizontal(b) else b;
    if HitsTopWall(b1.y, Radius) then ReverseVertical(b1) else b1
  }

  /** The ball centred at (cx, cy) overlaps a brick that is still standing. */
  predicate HitsBrick(cx: int, cy: int, brick: Brick)
  {
    brick.visible && CircleRectsCollide(cx, cy, Radius, brick.x, brick.y, Bricks.Width, Bricks.Height)
  }

  /** Some standing brick of the row lies under the ball. */
  predicate RowHit(cx: int, cy: int, row: seq<Brick>)
  {
    exists j :: 0 <= j < |row| && HitsBrick(cx, cy, row[j])
  }

  /** The column scan of one row: the leftmost standing brick under the ball, from `from` on. */
  function FirstHit(cx: int, cy: int, row: seq<Brick>, from: nat): (r: Option<nat>)
    requires from <= |row|
    ensures r.Some? ==> from <= r.value < |row| && HitsBrick(cx, cy, row[r.value])
    ensures r.Some? ==> forall j :: from <= j < r.value ==> !HitsBrick(cx, cy, row[j])
    ensures r.None? ==> forall j :: from <= j < |row| ==> !HitsBrick(cx, cy, row[j])
    decreases |row| - from
  {
    if from == |row| then None
    else if HitsBrick(cx, cy, row[from]) then Some(from)
    else FirstHit(cx, cy, row, from + 1)
  }

  /**
   The relation between a row before and after its column scan: same
   length and positions; the only brick that may change is the leftmost
   standing brick under the ball, which is knocked out; and the row loses
   exactly one brick when one of its standing bricks is under the ball,
   none otherwise.
   */
  predicate RowScanned(cx: int, cy: int, before: seq<Brick>, after: seq<Brick>)
  {
    && |after| == |before|
    && (forall j :: 0 <= j < |before| ==> after[j].x == before[j].x && after[j].y == before[j].y)
    && (forall j :: 0 <= j < |before| && after[j] != before[j] ==>
          HitsBrick(cx, cy, before[j]) && !after[j].visible && FirstHit(cx, cy, before, 0) == Some(j))
    && (if RowHit(cx, cy, before) then CountRow(after) == CountRow(before) - 1 else after == before)
  }

  /** The column scan of one row: the leftmost standing brick under the ball is knocked out. */
  function KnockOutFirst(cx: int, cy: int, row: seq<Brick>): (r: seq<Brick>)
    ensures RowScanned(cx, cy, row, r)
  {
    match FirstHit(cx, cy, row, 0)
    case None => row
    case Some(c) =>
      CountRowUpdate(row, c, Destroy(row[c]));
      row[c := Destroy(row[c])]
  }

  /** The ball, score and brick rows after scanning a sequence of rows. */
  datatype BrickScan = BrickScan(ball: Ball, score: int, rows: seq<seq<Brick>>)

  /**
   The brick scan of one tick, row by row. In each row the leftmost standing
   brick under the ball is knocked out, the vertical velocity flips and 10
   points are scored; the scan then moves on to the next row, so one tick
   can knock out one brick in every row. The ball's position is not changed
   by the scan, so every row is tested against the same centre.
   */
  function ScanRows(ball: Ball, score: int, rows: seq<seq<Brick>>): (s: BrickScan)
    ensures |s.rows| == |rows|
    ensures s.ball.x == ball.x && s.ball.y == ball.y && s.ball.vx == ball.vx
    decreases |rows|
  {
    if |rows| == 0 then BrickScan(ball, score, [])
    else
      var hit := FirstHit(ball.x, ball.y, rows[0], 0).Some?;
      var ball1 := if hit then ReverseVertical(ball) else ball;
      var score1 := if hit then score + BrickScore else score;
      var rest := ScanRows(ball1, score1, rows[1..]);
      BrickScan(rest.ball, rest.score, [KnockOutFirst(ball.x, ball.y, rows[0])] + rest.rows)
  }

  /** Every row is related to its original by RowScanned: at most one brick falls per row. */
  lemma {:induction false} ScanRowsRows(ball: Ball, score: int, rows: seq<seq<Brick>>)
    ensures var s := ScanRows(ball, score, rows);
            forall i :: 0 <= i < |rows| ==> RowScanned(ball.x, ball.y, rows[i], s.rows[i])
    decreases |rows|
  {
    if |rows| > 0 {
      var s := ScanRows(ball, score, rows);
      var hit := FirstHit(ball.x, ball.y, rows[0], 0).Some?;
      var ball1 := if hit then ReverseVertical(ball) else ball;
      var score1 := if hit then score + BrickScore else score;
      var rest := ScanRows(ball1, score1, rows[1..]);
      ScanRowsRows(ball1, score1, rows[1..]);
      assert s.rows == [KnockOutFirst(ball.x, ball.y, rows[0])] + rest.rows;
      forall i | 0 <= i < |rows|
        ensures RowScanned(ball.x, ball.y, rows[i], s.rows[i])
      {
        if i > 0 {
          assert rows[i] == rows[1..][i - 1];
          assert s.rows[i] == rest.rows[i - 1];
        }
      }
    }
  }

  /** The number of bricks one row's scan knocks out: one if the scan found a brick, else none. */
  function RowFallen(cx: int, cy: int, row: seq<Brick>): (n: int)
    ensures n == (if FirstHit(cx, cy, row, 0).Some? then 1 else 0)
  {
    CountRow(row) - CountRow(KnockOutFirst(cx, cy, row))
  }

  /** The score grows by 10 per fallen brick, and at most one brick falls per row. */
  lemma {:induction false} ScanRowsScore(ball: Ball, score: int, rows: seq<seq<Brick>>)
    ensures var s := ScanRows(ball, score, rows);
            var fallen := CountRows(rows) - CountRows(s.rows);
            && 0 <= fallen <= |rows|
            && s.score == score + BrickScore * fallen
    decreases |rows|
  {
    if |rows| > 0 {
      var s := ScanRows(ball, score, rows);
      var hit := FirstHit(ball.x, ball.y, rows[0], 0).Some?;
      var row := KnockOutFirst(ball.x, ball.y, rows[0]);
      var ball1 := if hit then ReverseVertical(ball) else ball;
      var score1 := if hit then score + BrickScore else score;
      var rest := ScanRows(ball1, score1, rows[1..]);
      ScanRowsScore(ball1, score1, rows[1..]);
      var f0 := RowFallen(ball.x, ball.y, rows[0]);
      var fallenRest := CountRows(rows[1..]) - CountRows(rest.rows);
      assert s.rows == [row] + rest.rows;
      assert s.rows[1..] == rest.rows;
      assert CountRows(s.rows) == CountRow(row) + CountRows(rest.rows);
      assert CountRows(rows) - CountRows(s.rows) == f0 + fallenRest;
      assert s.score == score1 + BrickScore * fallenRest;
      assert s.score == score + BrickScore * (f0 + fallenRest);
    }
  }

  lemma ParityStep(k: int)
    ensures (k + 1) % 2 == 0 <==> k % 2 != 0
  {
  }

  /**
   Every fallen brick flips the vertical velocity once: an even number of
   fallen bricks leaves it as it was, an odd number reverses it.
   */
  lemma {:induction false} ScanRowsVelocity(ball: Ball, score: int, rows: seq<seq<Brick>>)
    ensures var s := ScanRows(ball, score, rows);
            var fallen := CountRows(rows) - CountRows(s.rows);
            s.ball.vy == if fallen % 2 == 0 then ball.vy else -ball.vy
    decreases |rows|
  {
    if |rows| > 0 {
      var s := ScanRows(ball, score, rows);
      var hit := FirstHit(ball.x, ball.y, rows[0], 0).Some?;
      var row := KnockOutFirst(ball.x, ball.y, rows[0]);
      var ball1 := if hit then ReverseVertical(ball) else ball;
      var score1 := if hit then score + BrickScore else score;
      var rest := ScanRows(ball1, score1, rows[1..]);
      ScanRowsVelocity(ball1, score1, rows[1..]);
      var f0 := RowFallen(ball.x, ball.y, rows[0]);
      var fallenRest := CountRows(rows[1..]) - CountRows(rest.rows);
      assert s.rows == [row] + rest.rows;
      assert s.rows[1..] == rest.rows;
      assert CountRows(s.rows) == CountRow(row) + CountRows(rest.rows);
      assert CountRows(rows) - CountRows(s.rows) == f0 + fallenRest;
      assert s.ball.vy == rest.ball.vy;
      assert rest.ball.vy == if fallenRest % 2 == 0 then ball1.vy else -ball1.vy;
      if hit {
        assert f0 == 1 && ball1.vy == -ball.vy;
        ParityStep(fallenRest);
      } else {
        assert f0 == 0 && ball1 == ball;
      }
    }
  }

  /**
   The brick part of collision handling. Bricks are knocked out through the
   brick's own flag, never through the grid's counter, so the counter keeps
   its value while the score grows by 10 per knocked-out brick.
   */
  function CheckBrickCollisions(g: Game): (h: Game)
    ensures h.state == g.state && h.lives == g.lives && h.paddle == g.paddle
    ensures h.ball.x == g.ball.x && h.ball.y == g.ball.y && h.ball.vx == g.ball.vx
    ensures h.grid.count == g.grid.count
    ensures WellFormed(g.grid) ==> WellFormed(h.grid)
    ensures |h.grid.bricks| == |g.grid.bricks|
    ensures forall r :: 0 <= r < |g.grid.bricks| ==>
              CountRow(h.grid.bricks[r]) <= CountRow(g.grid.bricks[r]) <= CountRow(h.grid.bricks[r]) + 1
    ensures VisibleBricks(h.grid) <= VisibleBricks(g.grid) <= VisibleBricks(h.grid) + |g.grid.bricks|
    ensures h.score == g.score + BrickScore * (VisibleBricks(g.grid) - VisibleBricks(h.grid))
    ensures forall r :: 0 <= r < |g.grid.bricks| ==>
              RowScanned(g.ball.x, g.ball.y, g.grid.bricks[r], h.grid.bricks[r])
    ensures h.ball.vy == if (VisibleBricks(g.grid) - VisibleBricks(h.grid)) % 2 == 0 then g.ball.vy else -g.ball.vy
    ensures AxisSpeed(g.ball) ==> AxisSpeed(h.ball)
  {
    var s := ScanRows(g.ball, g.score, g.grid.bricks);
    ScanRowsRows(g.ball, g.score, g.grid.bricks);
    ScanRowsShape(g.ball, g.score, g.grid.bricks);
    ScanRowsWellFormed(g);
    ScanRowsTally(g);
    g.(ball := s.ball, score := s.score, grid := g.grid.(bricks := s.rows))
  }

  /** The scan keeps a grid well formed: every brick stays at its layout position. */
  lemma ScanRowsWellFormed(g: Game)
    ensures WellFormed(g.grid) ==> WellFormed(g.grid.(bricks := ScanRows(g.ball, g.score, g.grid.bricks).rows))
  {
    if WellFormed(g.grid) {
      ScanRowsShape(g.ball, g.score, g.grid.bricks);
      WellFormedSameLayout(g.grid, ScanRows(g.ball, g.score, g.grid.bricks).rows);
    }
  }

  /** What the scan does to the score and the ball's vertical velocity, gathered for CheckBrickCollisions. */
  lemma ScanRowsTally(g: Game)
    ensures var s := ScanRows(g.ball, g.score, g.grid.bricks);
            var h := g.grid.(bricks := s.rows);
            && VisibleBricks(h) <= VisibleBricks(g.grid) <= VisibleBricks(h) + |g.grid.bricks|
            && s.score == g.score + BrickScore * (VisibleBricks(g.grid) - VisibleBricks(h))
            && s.ball.vy == (if (VisibleBricks(g.grid) - VisibleBricks(h)) % 2 == 0 then g.ball.vy else -g.ball.vy)
  {
    ScanRowsScore(g.ball, g.score, g.grid.bricks);
    ScanRowsVelocity(g.ball, g.score, g.grid.bricks);
  }

  /** The scan keeps every brick's position, and each row loses at most one brick. */
  lemma ScanRowsShape(ball: Ball, score: int, rows: seq<seq<Brick>>)
    ensures SameLayout(rows, ScanRows(ball, score, rows).rows)
    ensures var s := ScanRows(ball, score, rows);
            forall r :: 0 <= r < |rows| ==> CountRow(s.rows[r]) <= CountRow(rows[r]) <= CountRow(s.rows[r]) + 1
  {
    var s := ScanRows(ball, score, rows);
    ScanRowsRows(ball, score, rows);
    forall r | 0 <= r < |rows|
      ensures |s.rows[r]| == |rows[r]|
      ensures CountRow(s.rows[r]) <= CountRow(rows[r]) <= CountRow(s.rows[r]) + 1
    {
      assert RowScanned(ball.x, ball.y, rows[r], s.rows[r]);
    }
    forall r, c | 0 <= r < |rows| && 0 <= c < |rows[r]| && c < |s.rows[r]|
      ensures rows[r][c].x == s.rows[r][c].x && rows[r][c].y == s.rows[r][c].y
    {
      assert RowScanned(ball.x, ball.y, rows[r], s.rows[r]);
    }
  }

  /**
   The brick scan as the game loop writes it: rows outer, columns inner,
   and a `break` that leaves only the column loop once a brick has fallen,
   so the next row is still scanned. It computes exactly CheckBrickCollisions.
   */
  method CheckBrickCollisionsLoop(g: Game) returns (h: Game)
    ensures h == CheckBrickCollisions(g)
  {
    var bricks := g.grid.bricks;
    var ball := g.ball;
    var score := g.score;
    var row := 0;
    while row < |bricks|
      invariant 0 <= row <= |bricks| == |g.grid.bricks|
      invariant ScannedUpTo(g, row, bricks, ball, score)
    {
      ghost var bricks0, ball0, score0 := bricks, ball, score;
      var hitCol := FindHitLoop(ball.x, ball.y, bricks[row]);
      if hitCol.Some? {
        var col := hitCol.value;
        bricks := bricks[row := bricks[row][col := Destroy(bricks[row][col])]];
        ball := ReverseVertical(ball);
        score := score + BrickScore;
      }
      ScannedUpToStep(g, row, bricks0, ball0, score0);
      row := row + 1;
    }
    assert bricks[..row] == bricks;
    h := g.(ball := ball, score := score, grid := g.grid.(bricks := bricks));
  }

  /**
   The state of the row loop after `row` rows: the rows not yet scanned are
   untouched, and finishing the scan from here gives the same result as
   scanning everything from the start.
   */
  ghost predicate ScannedUpTo(g: Game, row: int, bricks: seq<seq<Brick>>, ball: Ball, score: int)
  {
    && 0 <= row <= |bricks| == |g.grid.bricks|
    && bricks[row..] == g.grid.bricks[row..]
    && ball.x == g.ball.x && ball.y == g.ball.y
    && var rest := ScanRows(ball, score, g.grid.bricks[row..]);
       ScanRows(g.ball, g.score, g.grid.bricks)
       == BrickScan(rest.ball, rest.score, bricks[..row] + rest.rows)
  }

  /** Scanning one more row keeps ScannedUpTo. */
  lemma ScannedUpToStep(g: Game, row: int, bricks: seq<seq<Brick>>, ball: Ball, score: int)
    requires row < |bricks| && ScannedUpTo(g, row, bricks, ball, score)
    ensures var hit := FirstHit(ball.x, ball.y, bricks[row], 0);
            var bricks1 := bricks[row := KnockOutFirst(ball.x, ball.y, bricks[row])];
            var ball1 := if hit.Some? then ReverseVertical(ball) else ball;
            var score1 := if hit.Some? then score + BrickScore else score;
            && ScannedUpTo(g, row + 1, bricks1, ball1, score1)
            && (hit.Some? ==> bricks1 == bricks[row := bricks[row][hit.value := Destroy(bricks[row][hit.value])]])
  {
    var bricks1 := bricks[row := KnockOutFirst(ball.x, ball.y, bricks[row])];
    ScanRowsStep(ball, score, g.grid.bricks, row);
    assert bricks[row] == g.grid.bricks[row..][0];
    assert bricks1[..row + 1] == bricks[..row] + [bricks1[row]];
    assert bricks1[row + 1..] == bricks[row + 1..] == g.grid.bricks[row..][1..];
  }

  /**
   The column loop of one row: walks the row left to right and stops at the
   first standing brick under the ball (the `break` of the game loop).
   */
  method FindHitLoop(cx: int, cy: int, row: seq<Brick>) returns (r: Option<nat>)
    ensures r == FirstHit(cx, cy, row, 0)
  {
    var col := 0;
    while col < |row|
      invariant 0 <= col <= |row|
      invariant FirstHit(cx, cy, row, col) == FirstHit(cx, cy, row, 0)
    {
      var brick := row[col];
      if brick.visible && CircleRectsCollide(cx, cy, Radius, brick.x, brick.y, Bricks.Width, Bricks.Height) {
        return Some(col);
      }
      col := col + 1;
    }
    return None;
  }

  /** One step of the row scan, taken from the row at index `row` of `rows`. */
  lemma ScanRowsStep(ball: Ball, score: int, rows: seq<seq<Brick>>, row: int)
    requires 0 <= row < |rows|
    ensures var hit := FirstHit(ball.x, ball.y, rows[row], 0).Some?;
            var ball1 := if hit then ReverseVertical(ball) else ball;
            var score1 := if hit then score + BrickScore else score;
            var rest := ScanRows(ball1, score1, rows[row + 1..]);
            ScanRows(ball, score, rows[row..])
            == BrickScan(rest.ball, rest.score, [KnockOutFirst(ball.x, ball.y, rows[row])] + rest.rows)
  {
    assert rows[row..][0] == rows[row];
    assert rows[row..][1..] == rows[row + 1..];
  }

  /** Paddle, then walls, then bricks, all against the ball's current position. */
  function CheckCollisions(g: Game): (h: Game)
    ensures h.state == g.state && h.lives == g.lives && h.paddle == g.paddle
    ensures h.ball.x == g.ball.x && h.ball.y == g.ball.y
    ensures h.grid.count == g.grid.count
    ensures WellFormed(g.grid) ==> WellFormed(h.grid)
    ensures |h.grid.bricks| == |g.grid.bricks|
    ensures forall r :: 0 <= r < |g.grid.bricks| ==>
              CountRow(h.grid.bricks[r]) <= CountRow(g.grid.bricks[r]) <= CountRow(h.grid.bricks[r]) + 1
    ensures h.score == g.score + BrickScore * (VisibleBricks(g.grid) - VisibleBricks(h.grid))
    ensures h.score >= g.score
    ensures forall r :: 0 <= r < |g.grid.bricks| ==>
              RowScanned(g.ball.x, g.ball.y, g.grid.bricks[r], h.grid.bricks[r])
    ensures h.ball.vx == (if g.ball.x <= Radius || g.ball.x >= CanvasWidth - Radius then -g.ball.vx else g.ball.vx)
    ensures var flips := Bounces(g.ball, g.paddle) + (VisibleBricks(g.grid) - VisibleBricks(h.grid));
            h.ball.vy == if flips % 2 == 0 then g.ball.vy else -g.ball.vy
    ensures AxisSpeed(g.ball) ==> AxisSpeed(h.ball)
  {
    var b := WallBounce(PaddleBounce(g.ball, g.paddle));
    var h := CheckBrickCollisions(g.(ball := b));
    BounceFlips(g.ball, g.paddle);
    FlipsCompose(g.ball.vy, Bounces(g.ball, g.paddle), VisibleBricks(g.grid) - VisibleBricks(h.grid));
    h
  }

  /** How many times the paddle and the top wall flip the vertical velocity of a ball: 0, 1 or 2. */
  function Bounces(b: Ball, p: Paddles.Paddle): nat
  {
    (if CircleRectsCollide(b.x, b.y, Radius, p.x, p.y, Paddles.Width, Paddles.Height) then 1 else 0)
    + (if b.y <= Radius then 1 else 0)
  }

  /** The paddle and wall bounces flip vy once per bounce, and never move the ball. */
  lemma BounceFlips(b: Ball, p: Paddles.Paddle)
    ensures var c := WallBounce(PaddleBounce(b, p));
            && c.x == b.x && c.y == b.y
            && c.vx == (if b.x <= Radius || b.x >= CanvasWidth - Radius then -b.vx else b.vx)
            && c.vy == if Bounces(b, p) % 2 == 0 then b.vy else -b.vy
  {
  }

  /** Flipping a sign m times and then n times is flipping it m + n times. */
  lemma FlipsCompose(v: int, m: nat, n: nat)
    ensures var w := if m % 2 == 0 then v else -v;
            (if n % 2 == 0 then w else -w) == if (m + n) % 2 == 0 then v else -v
  {
  }

  // ---------------------------------------------------------------------------
  // Transitions

  /**
   Losing a life: one life fewer; with none left the game is over and the
   ball stays where it fell, otherwise a fresh ball starts again.
   */
  function LoseLife(g: Game): (h: Game)
    ensures h.lives == g.lives - 1
    ensures h.lives <= 0 ==> h.state == GameOver && h.ball == g.ball
    ensures h.lives > 0 ==> h.state == g.state && h.ball == StartBall()
    ensures h.score == g.score && h.grid == g.grid && h.paddle == g.paddle
  {
    var lives := g.lives - 1;
    if lives <= 0 then g.(lives := lives, state := GameOver)
    else g.(lives := lives, ball := StartBall())
  }

  /**
   One tick of the game loop. Outside Playing nothing happens. Otherwise
   the ball moves, collisions are handled, and then either the game is won
   (the grid's counter is zero) or, failing that, a ball at the bottom
   edge costs a life.
   */
  function Tick(g: Game): (h: Game)
    ensures g.state != Playing ==> h == g
    ensures g.state == Playing ==> (h.state == Win <==> g.grid.count == 0)
    ensures g.state == Playing && g.grid.count != 0 ==> h.state == Playing || h.state == GameOver
    ensures h.score >= g.score
    ensures h.paddle == g.paddle && h.grid.count == g.grid.count
    ensures h.lives == g.lives || h.lives == g.lives - 1
    ensures g.state == Playing && g.grid.count != 0 ==>
              (h.lives == g.lives - 1 <==> g.ball.y + g.ball.vy >= CanvasHeight - Radius)
    ensures g.state == Playing && h.lives == g.lives ==>
              h.ball.x == g.ball.x + g.ball.vx && h.ball.y == g.ball.y + g.ball.vy
    ensures g.state == Playing ==>
              var g1 := CheckCollisions(g.(ball := Update(g.ball)));
              && h.score == g1.score && h.grid == g1.grid
              && (h.lives == g.lives ==> h.ball == g1.ball)
    ensures g.state == Playing && g.grid.count == 0 ==> h.lives == g.lives
    ensures g.state == Playing && h.lives == g.lives - 1 ==>
              h == LoseLife(CheckCollisions(g.(ball := Update(g.ball))))
    ensures g.state == Playing && g.grid.count != 0 && h.lives == g.lives ==> h.state == Playing
    ensures WellFormed(g.grid) ==> WellFormed(h.grid)
  {
    if g.state == Playing then
      var g1 := CheckCollisions(g.(ball := Update(g.ball)));
      if GetVisibleCount(g1.grid) == 0 then
        g1.(state := Win)
      else if HitsBottomWall(g1.ball.y, Radius, CanvasHeight) then
        LoseLife(g1)
      else
        g1
    else
      g
  }

  /** The space key: toggles between Playing and Paused and ignores every other state. */
  function Pause(g: Game): (h: Game)
    ensures g.state == Playing ==> h == g.(state := Paused)
    ensures g.state == Paused ==> h == g.(state := Playing)
    ensures g.state != Playing && g.state != Paused ==> h == g
    ensures h.score == g.score && h.lives == g.lives && h.ball == g.ball
    ensures h.paddle == g.paddle && h.grid == g.grid
  {
    if g.state == Playing then g.(state := Paused)
    else if g.state == Paused then g.(state := Playing)
    else g
  }

  /** The R key: a new round from any state. */
  function Restart(g: Game): (h: Game)
    ensures h.state == Playing && h.score == 0 && h.lives == StartLives
    ensures h.ball == StartBall() && h.paddle == StartPaddle()
    ensures h.grid == NewGrid(CanvasWidth, CanvasHeight)
  {
    g.(state := Playing, score := 0, lives := StartLives,
       ball := StartBall(), paddle := StartPaddle(), grid := NewGrid(CanvasWidth, CanvasHeight))
  }

  /** The arrow keys move the paddle in every state, even while paused or after the game ends. */
  function MoveLeft(g: Game): (h: Game)
    ensures h == g.(paddle := Paddles.MoveLeft(g.paddle))
    ensures h.paddle.y == g.paddle.y && h.paddle.x <= g.paddle.x
    ensures Paddles.InBounds(g.paddle) ==> Paddles.InBounds(h.paddle)
  {
    g.(paddle := Paddles.MoveLeft(g.paddle))
  }

  function MoveRight(g: Game): (h: Game)
    ensures h == g.(paddle := Paddles.MoveRight(g.paddle))
    ensures h.paddle.y == g.paddle.y && h.paddle.x >= g.paddle.x
    ensures Paddles.InBounds(g.paddle) ==> Paddles.InBounds(h.paddle)
  {
    g.(paddle := Paddles.MoveRight(g.paddle))
  }
}
