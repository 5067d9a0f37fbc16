/**
 Properties of whole games: the invariant every reachable game keeps, what
 the keys do, and the two behaviours the brick scan gives the game (the
 grid's counter never moves, so the game can never be won; and one tick
 can knock out a brick in each of several rows).
 */
module ArkanoidProperties {
  import opened Collision
  import Paddles
  import opened Bricks
  import opened BrickGrid
  import opened Balls
  import opened Arkanoid

  /** The inputs that drive the game: the timer and the four bound keys. */
  datatype Event = TickEvent | LeftKey | RightKey | SpaceKey | RestartKey

  function Step(g: Game, e: Event): Game
  {
    match e
    case TickEvent => Tick(g)
    case LeftKey => MoveLeft(g)
    case RightKey => MoveRight(g)
    case SpaceKey => Pause(g)
    case RestartKey => Restart(g)
  }

  /** The game after a sequence of events, applied in order. */
  function Run(g: Game, events: seq<Event>): Game
    decreases |events|
  {
    if |events| == 0 then g else Run(Step(g, events[0]), events[1..])
  }

  /** A tick keeps the game invariant. */
  lemma TickPreservesValid(g: Game)
    requires Valid(g)
    ensures Valid(Tick(g))
  {
    if g.state == Playing {
      var g0 := g.(ball := Update(g.ball));
      var g1 := CheckCollisions(g0);
      assert g1.score == g.score + BrickScore * (VisibleBricks(g.grid) - VisibleBricks(g1.grid));
      assert g1.score == BrickScore * (Rows * Cols - VisibleBricks(g1.grid));
      assert GetVisibleCount(g1.grid) == Rows * Cols;
    }
  }

  /** Every event keeps the game invariant. */
  lemma StepPreservesValid(g: Game, e: Event)
    requires Valid(g)
    ensures Valid(Step(g, e))
  {
    match e
    case TickEvent => TickPreservesValid(g);
    case LeftKey =>
    case RightKey =>
    case SpaceKey =>
    case RestartKey =>
  }

  /** Every sequence of events keeps the game invariant. */
  lemma {:induction false} RunPreservesValid(g: Game, events: seq<Event>)
    requires Valid(g)
    ensures Valid(Run(g, events))
    decreases |events|
  {
    if |events| > 0 {
      StepPreservesValid(g, events[0]);
      RunPreservesValid(Step(g, events[0]), events[1..]);
    }
  }

  /**
   No sequence of events from a new game reaches Win: the grid's counter
   stays at 32 whatever falls, so the "all bricks gone" test never fires.
   Lives stay in [0, 3] along the way.
   */
  lemma WinUnreachable(events: seq<Event>)
    ensures Run(NewGame(), events).state != Win
    ensures GetVisibleCount(Run(NewGame(), events).grid) == 32
    ensures 0 <= Run(NewGame(), events).lives <= 3
  {
    RunPreservesValid(NewGame(), events);
  }

  /**
   In every reachable game the counter disagrees with the bricks actually
   standing as soon as a single point has been scored.
   */
  lemma CounterIgnoresFallenBricks(g: Game)
    requires Valid(g) && g.score > 0
    ensures GetVisibleCount(g.grid) == 32
    ensures VisibleBricks(g.grid) < 32
  {
  }

  /** Outside Playing, a tick changes nothing. */
  lemma TickOnlyWhilePlaying(g: Game)
    requires g.state != Playing
    ensures Tick(g) == g
  {
  }

  /** Pressing pause twice restores the game exactly. */
  lemma PauseTwiceIsIdentity(g: Game)
    ensures Pause(Pause(g)) == g
  {
  }

  /** Restart from any state gives the game exactly as constructed. */
  lemma RestartIsNewGame(g: Game)
    ensures Restart(g) == NewGame()
  {
  }

  /** Without a restart the score never goes down. */
  lemma {:induction false} ScoreMonotoneWithinRound(g: Game, events: seq<Event>)
    requires forall i :: 0 <= i < |events| ==> events[i] != RestartKey
    ensures Run(g, events).score >= g.score
    decreases |events|
  {
    if |events| > 0 {
      ScoreMonotoneWithinRound(Step(g, events[0]), events[1..]);
    }
  }

  /**
   One tick knocks out at most one brick per row, so at most four in all,
   and the score grows by exactly 10 per brick knocked out.
   */
  lemma TickBrickBudget(g: Game)
    requires Valid(g)
    ensures var h := Tick(g);
            && (forall r :: 0 <= r < Rows ==>
                  CountRow(h.grid.bricks[r]) <= CountRow(g.grid.bricks[r]) <= CountRow(h.grid.bricks[r]) + 1)
            && VisibleBricks(h.grid) <= VisibleBricks(g.grid) <= VisibleBricks(h.grid) + Rows
            && h.score - g.score == BrickScore * (VisibleBricks(g.grid) - VisibleBricks(h.grid))
  {
    TickPreservesValid(g);
  }

  /**
   Losing the last life ends the game; losing any other life starts a fresh
   ball and keeps playing. Either way the game invariant still holds.
   */
  lemma LoseLifeOutcome(g: Game)
    requires Valid(g) && g.state == Playing
    ensures var h := LoseLife(g);
            && (g.lives == 1 ==> h.state == GameOver && h.lives == 0)
            && (g.lives > 1 ==> h.state == Playing && h.ball == StartBall())
            && Valid(h)
  {
  }

  /** A brick of the fresh layout in row `r` (>= 2) is out of reach of a ball centred at height 71. */
  lemma FarRowMissed(cx: int, brick: Brick, r: int)
    requires 2 <= r < Rows && brick.y == BrickY(r)
    ensures !HitsBrick(cx, 71, brick)
  {
    var px := Closest(cx, brick.x, brick.x + Bricks.Width);
    var dx := cx - px;
    assert dx * dx >= 0;
    assert Closest(71, brick.y, brick.y + Bricks.Height) == brick.y;
    assert (71 - brick.y) * (71 - brick.y) >= 39 * 39;
  }

  /** The ball of the example below, just after its move: centred in the gap under row 0, heading down. */
  function GapBall(): Ball { Ball(43, 71, 3, 3) }

  /** Each row of the fresh grid after the scan with the gap ball: the top two rows lose one brick. */
  lemma {:induction false} GapScanRow(i: int)
    requires 0 <= i < Rows
    ensures var rows := NewGrid(CanvasWidth, CanvasHeight).bricks;
            var s := ScanRows(GapBall(), 0, rows);
            CountRow(s.rows[i]) == if i < 2 then Cols - 1 else Cols
  {
    var rows := NewGrid(CanvasWidth, CanvasHeight).bricks;
    var s := ScanRows(GapBall(), 0, rows);
    ScanRowsRows(GapBall(), 0, rows);
    assert RowScanned(43, 71, rows[i], s.rows[i]);
    CountRowAllVisible(rows[i]);
    if i < 2 {
      assert HitsBrick(43, 71, rows[i][0]);
      assert RowHit(43, 71, rows[i]);
    } else {
      forall j | 0 <= j < Cols
        ensures !HitsBrick(43, 71, rows[i][j])
      {
        FarRowMissed(43, rows[i][j], i);
      }
      assert !RowHit(43, 71, rows[i]);
    }
  }

  /** The whole scan with the gap ball: two bricks fall, 20 points, two flips. */
  lemma GapScan()
    ensures var rows := NewGrid(CanvasWidth, CanvasHeight).bricks;
            var s := ScanRows(GapBall(), 0, rows);
            && s.score == 20
            && s.ball == GapBall()
            && CountRows(s.rows) == 30
  {
    var rows := NewGrid(CanvasWidth, CanvasHeight).bricks;
    var s := ScanRows(GapBall(), 0, rows);
    ScanRowsScore(GapBall(), 0, rows);
    ScanRowsVelocity(GapBall(), 0, rows);
    GapScanRow(0);
    GapScanRow(1);
    GapScanRow(2);
    GapScanRow(3);
    assert CountRows(s.rows[3..]) == CountRow(s.rows[3]) + CountRows(s.rows[4..]);
    assert CountRows(s.rows[2..]) == CountRow(s.rows[2]) + CountRows(s.rows[3..]);
    assert CountRows(s.rows[1..]) == CountRow(s.rows[1]) + CountRows(s.rows[2..]);
    assert CountRows(s.rows) == CountRow(s.rows[0]) + CountRows(s.rows[1..]);
    assert CountRows(rows) == 32;
  }

  /**
   A ball that enters the 18-pixel gap between the first two rows touches
   a brick above and a brick below at once: one tick knocks out both, scores
   20 points, and flips the vertical velocity twice, so the ball keeps
   heading down; the grid's counter still reads 32.
   */
  lemma TwoRowsInOneTick()
    ensures var g := NewGame().(ball := Ball(40, 68, 3, 3));
            var h := Tick(g);
            && h.state == Playing
            && h.score == 20
            && h.ball == Ball(43, 71, 3, 3)
            && VisibleBricks(h.grid) == 30
            && GetVisibleCount(h.grid) == 32
  {
    var g := NewGame().(ball := Ball(40, 68, 3, 3));
    var b := GapBall();
    assert Update(g.ball) == b;
    assert !CircleRectsCollide(43, 71, Radius, 350, 560, Paddles.Width, Paddles.Height);
    assert WallBounce(PaddleBounce(b, g.paddle)) == b;
    GapScan();
  }
}
