# Arkanoid core in Dafny

A model of the logic of a small breakout game (Java, drawn with the
fri.shapesge toolkit). The game has a ball that bounces off the walls, the
paddle and a 4 x 8 wall of bricks. Each knocked-out brick scores 10 points,
and a ball lost at the bottom costs one of three lives.

Every piece of game logic becomes a pure function over immutable records:

| file | module | models |
|---|---|---|
| `collision.dfy` | `Collision` | `src/Collision.java`: the rectangle overlap test, the closest-point circle test, the four wall tests |
| `paddle.dfy` | `Paddles` | `src/Paddle.java`: clamped left/right moves of a 150 x 12 paddle at speed 8 |
| `brick.dfy` | `Bricks` | `src/Brick.java`: a 60 x 12 brick with a visibility flag |
| `brick_grid.dfy` | `BrickGrid` | `src/BrickGrid.java`: the 4 x 8 layout, `destroyBrick`, the live counter |
| `ball.dfy` | `Balls` | `src/Ball.java`: position update and the two velocity reversals |
| `arkanoid_game.dfy` | `Arkanoid` | `src/ArkanoidGame.java` and `src/GameState.java`: tick, collision handling, the brick scan, lose-life, pause, restart, paddle keys |
| `game_properties.dfy` | `ArkanoidProperties` | properties of whole runs: the game invariant, reachability of WIN, examples |

The model keeps two behaviours of the game loop exactly as the code has them:

- The brick scan knocks a brick out with `Brick.destroy()` and never calls
  `BrickGrid.destroyBrick`, so the grid's live counter stays at 32.
  `Arkanoid.Valid` records this, and `ArkanoidProperties.WinUnreachable`
  proves that no sequence of ticks and key presses reaches `Win`.
- The `break` in the scan leaves only the column loop. One tick therefore
  knocks out at most one brick per row, but it can knock out bricks in
  several rows (`ArkanoidProperties.TickBrickBudget`). Each fallen brick
  flips the vertical velocity once, so two fallen bricks cancel out
  (`ArkanoidProperties.TwoRowsInOneTick`).

Collisions are tested at the ball's new position only, after it has moved
by its full velocity. Paddle and brick hits use the discrete
`circleRectsCollide` test and always reverse the vertical velocity,
whichever side of the rectangle the ball touches. Walls use the four
boundary predicates.

## Model

| member | source | states |
|---|---|---|
| Collision.RectsCollide | src/Collision.java:23-29 | For rectangles of positive size, the strict four-way test holds exactly when the two open boxes share a point: on each axis the larger left end is below the smaller right end |
| Collision.RectsCollideSymmetric | src/Collision.java:23-29 | Swapping the two rectangles never changes the result |
| Collision.TouchingRectsDoNotCollide | src/Collision.java:25-28 | Rectangles that only share an edge, on either axis and in either order, do not collide |
| Collision.Closest | src/Collision.java:47-48 | The clamped coordinate lies in [lo, hi] when lo <= hi; it is the coordinate itself inside the interval, lo below it and hi above it |
| Collision.ClosestPointInRect | src/Collision.java:47-48 | For non-negative width and height the closest point lies in the closed rectangle |
| Collision.CircleRectsCollide | src/Collision.java:44-56 | Radius 0 never collides, because the comparison is strict; a nonzero radius always collides when the centre lies in the closed rectangle |
| Collision.CircleHitFromPoint | src/Collision.java:44-56 | If any point of the closed rectangle is strictly closer than the radius, the test reports a hit, because the clamped point is the nearest one |
| Collision.CircleHitWitness | src/Collision.java:44-56 | A reported hit is witnessed by the clamped point, which lies in the rectangle and within the radius; with CircleHitFromPoint this makes the test an if-and-only-if |
| Collision.CircleMonotoneInRadius | src/Collision.java:55 | A hit at radius r >= 0 stays a hit at every larger radius |
| Collision.CircleTranslationInvariant | src/Collision.java:44-56 | Moving the circle and the rectangle by the same offset leaves the result unchanged |
| Collision.HitsLeftWall | src/Collision.java:65-67 | Holds exactly when x <= r |
| Collision.HitsRightWall | src/Collision.java:77-79 | Holds exactly when x >= W - r |
| Collision.HitsTopWall | src/Collision.java:88-90 | Holds exactly when y <= r |
| Collision.HitsBottomWall | src/Collision.java:100-102 | Holds exactly when y >= H - r |
| Collision.SideWallsExclusive | src/Collision.java:65-79 | On a canvas wider than 2r the ball never touches both side walls |
| Collision.NoOverflowAtCanvasScale | src/Collision.java:23-56 | With every argument within 10^4 in absolute value, no sum, difference or square in either test leaves Java's 32-bit int range, so the unbounded model is exact |
| Collision.Dist2 | src/Collision.java:51-55 | The squared distance is non-negative and zero exactly at coincident points |
| Paddles.NewPaddle | src/Paddle.java:25-30 | A new paddle sits at the given corner and keeps the given canvas width |
| Paddles.MoveLeft | src/Paddle.java:36-45 | Never increases x and lowers it by at most 8; does nothing when x <= 0; otherwise x becomes max(x - 8, 0); y and canvas width never change; an in-bounds paddle stays in bounds |
| Paddles.MoveRight | src/Paddle.java:51-60 | Never decreases x and raises it by at most 8; does nothing when x + 150 >= canvas width; otherwise x becomes min(x + 8, width - 150); after a real move x + 150 <= canvas width; an in-bounds paddle stays in bounds |
| Paddles.SlidePreservesBounds | src/Paddle.java:36-60 | Every sequence of moves keeps 0 <= x <= canvas width - 150 and leaves y and the canvas width alone |
| Bricks.NewBrick | src/Brick.java:25-32 | A new brick is visible and sits at the given x and y |
| Bricks.Destroy | src/Brick.java:37-40 | The brick becomes invisible and keeps its position |
| Bricks.MakeVisible | src/Brick.java:90-93 | The brick becomes visible and keeps its position |
| Bricks.MakeInvisible | src/Brick.java:98-101 | The brick becomes invisible and keeps its position |
| Bricks.OpsIdempotent | src/Brick.java:37-40 | Each of destroy, makeVisible and makeInvisible is idempotent |
| Bricks.ApplyAllKeepsGeometry | src/Brick.java:13-101 | After any sequence of operations x and y are those of construction, and visibility is decided by the last operation alone: visible exactly when it was makeVisible |
| BrickGrid.NewGrid | src/BrickGrid.java:22-42 | A fresh grid is 4 x 8, every brick is visible, brick (row, col) has corner (10 + 70 col, 50 + 30 row), and the counter is 32 and agrees with the flags |
| BrickGrid.GetBrick | src/BrickGrid.java:65-67 | Returns the stored brick at (row, col), visibility flag included; in a well-formed grid its corner is (10 + 70 col, 50 + 30 row) |
| BrickGrid.GetVisibleCount | src/BrickGrid.java:74-76 | Returns the live counter whatever its value; when the counter is in step with the flags, that is the number of visible bricks and lies in [0, 32] |
| BrickGrid.DestroyBrick | src/BrickGrid.java:51-56 | The counter drops by one exactly when the brick was visible; the brick ends invisible; every other cell is unchanged; the number of visible bricks drops by the same amount, so a counter in step with the flags stays in step |
| BrickGrid.WellFormedSameLayout | src/BrickGrid.java:22-42 | Any bricks placed at the same positions as a well-formed grid's keep the grid well formed |
| BrickGrid.DestroyBrickIdempotent | src/BrickGrid.java:52 | A second destroyBrick on the same cell changes nothing |
| BrickGrid.DestroyAllKeepsCount | src/BrickGrid.java:41-56 | While bricks fall only through destroyBrick, the counter equals the number of visible bricks and stays in [0, 32] |
| BrickGrid.VisibleBricksBound | src/BrickGrid.java:12-13 | A 4 x 8 grid never has more than 32 visible bricks |
| BrickGrid.BricksDisjoint | src/BrickGrid.java:33-34 | No two distinct 60 x 12 bricks of the layout overlap under the rectangle test |
| Balls.NewBall | src/Ball.java:24-30 | A new ball sits at the given centre and moves at (+3, -3) |
| Balls.Update | src/Ball.java:36-40 | The centre moves by exactly (vx, vy) and the velocity is unchanged, so the speed of 3 per axis is kept |
| Balls.ReverseHorizontal | src/Ball.java:81-83 | Negates vx and changes nothing else |
| Balls.ReverseVertical | src/Ball.java:88-90 | Negates vy and changes nothing else |
| Balls.ReversalsAreInvolutions | src/Ball.java:81-90 | Applying either reversal twice restores the ball |
| Balls.ReversalsCommute | src/Ball.java:81-90 | The two reversals act on different axes and commute |
| Arkanoid.StartBall | src/ArkanoidGame.java:60 | The ball of a new round or new life starts at (400, 500) with velocity (3, -3) |
| Arkanoid.StartPaddle | src/ArkanoidGame.java:64 | The paddle of a new round starts at (350, 560) on the 800-pixel canvas, inside the canvas |
| Arkanoid.NewGame | src/ArkanoidGame.java:35-53 | A new game is playing, with score 0, 3 lives, the starting ball and paddle, a fresh grid with 32 standing bricks and the counter at 32, and it satisfies the game invariant |
| Arkanoid.PaddleBounce | src/ArkanoidGame.java:122-125 | A paddle overlap flips only vy; without overlap the ball is unchanged |
| Arkanoid.WallBounce | src/ArkanoidGame.java:128-134 | A side wall flips only vx and the top wall only vy; the position never changes |
| Arkanoid.FirstHit | src/ArkanoidGame.java:146-151 | The column scan finds the leftmost standing brick under the ball and none before it, or reports that no standing brick of the row is under the ball |
| Arkanoid.KnockOutFirst | src/ArkanoidGame.java:146-156 | After a row's scan the only brick that may change is the leftmost standing brick under the ball, and it becomes invisible; the row loses exactly one brick if one of its standing bricks is under the ball, and is untouched otherwise |
| Arkanoid.ScanRows | src/ArkanoidGame.java:145-159 | The row loop keeps the number of rows, never moves the ball and never changes vx; each row is tested against the same centre |
| Arkanoid.ScanRowsRows | src/ArkanoidGame.java:145-159 | The whole scan relates every row to its original in that way: in each row at most the leftmost hit brick falls |
| Arkanoid.ScanRowsScore | src/ArkanoidGame.java:152-156 | The score grows by exactly 10 per fallen brick, and no more bricks fall than there are rows |
| Arkanoid.ScanRowsShape | src/ArkanoidGame.java:145-159 | The scan keeps every row's length and every brick's position, and each row loses at most one brick |
| Arkanoid.ScanRowsWellFormed | src/ArkanoidGame.java:145-159 | A well-formed grid stays well formed through the scan |
| Arkanoid.ScanRowsTally | src/ArkanoidGame.java:152-156 | At most one brick per row falls; the score grows by 10 per fallen brick; vy ends reversed exactly when an odd number fell |
| Arkanoid.ScanRowsVelocity | src/ArkanoidGame.java:153 | Every fallen brick flips vy once: an even number of fallen bricks leaves vy as it was, an odd number reverses it |
| Arkanoid.FindHitLoop | src/ArkanoidGame.java:146-157 | The column loop with its `break` returns the same column as FirstHit |
| Arkanoid.CheckBrickCollisionsLoop | src/ArkanoidGame.java:144-160 | The nested row and column loops compute exactly the functional scan |
| Arkanoid.CheckBrickCollisions | src/ArkanoidGame.java:144-160 | In every row whose standing brick lies under the ball the leftmost such brick falls, and no other brick changes; vy ends reversed exactly when an odd number of bricks fell; the score grows by 10 per fallen brick; the counter, the layout, the ball's position and vx never change |
| Arkanoid.CheckCollisions | src/ArkanoidGame.java:120-138 | vx reverses exactly when the ball touches a side wall; vy reverses once for a paddle overlap, once for the top wall and once per fallen brick; every row loses its leftmost hit brick as in the brick scan; the ball and the counter never move and the score never drops |
| Arkanoid.BounceFlips | src/ArkanoidGame.java:121-134 | The paddle and wall checks never move the ball; vx reverses exactly at a side wall; vy reverses once per paddle overlap and once at the top wall |
| Arkanoid.LoseLife | src/ArkanoidGame.java:166-181 | Lives drop by one; at 0 or below the game is over and the ball stays where it was; otherwise a fresh ball starts at (400, 500); score, grid and paddle are untouched |
| Arkanoid.Tick | src/ArkanoidGame.java:98-115 | Outside Playing nothing changes. From Playing the tick runs collision handling on the moved ball, so score and grid are exactly those of CheckCollisions after Update. The result is Win exactly when the counter was 0, and then no life is lost. Otherwise a life is lost exactly when the moved ball reaches the bottom edge (y + vy >= 600 - 10): the result is then LoseLife of that game, which means GameOver at 0 lives or a fresh ball at (400, 500). With no life lost the game stays Playing and the ball is the one collision handling left. Paddle and counter are untouched |
| Arkanoid.Pause | src/ArkanoidGame.java:220-228 | Playing becomes Paused and Paused becomes Playing; every other state and every other field is left alone |
| Arkanoid.Restart | src/ArkanoidGame.java:235-251 | From any state: Playing, score 0, 3 lives, a fresh ball, paddle and grid |
| Arkanoid.MoveLeft | src/ArkanoidGame.java:202-204 | In every state only the paddle changes, by the paddle's clamped left move, so it moves left by at most 8 and stays inside the canvas |
| Arkanoid.MoveRight | src/ArkanoidGame.java:211-213 | In every state only the paddle changes, by the paddle's clamped right move, so it moves right by at most 8 and stays inside the canvas |
| ArkanoidProperties.TickPreservesValid | src/ArkanoidGame.java:98-181 | A tick keeps the game invariant: lives in [0, 3] and 0 exactly at GameOver, counter at 32, score 10 per fallen brick, paddle in bounds, speed 3 per axis |
| ArkanoidProperties.StepPreservesValid | src/ArkanoidGame.java:98-251 | Every tick and key press keeps the game invariant |
| ArkanoidProperties.RunPreservesValid | src/ArkanoidGame.java:98-251 | Every sequence of ticks and key presses keeps the game invariant |
| ArkanoidProperties.WinUnreachable | src/ArkanoidGame.java:98-160 | From a new game no sequence of events reaches Win, the counter always reads 32, and lives stay in [0, 3] |
| ArkanoidProperties.CounterIgnoresFallenBricks | src/ArkanoidGame.java:152-154 | In a reachable game with a positive score the counter reads 32 while fewer than 32 bricks stand |
| ArkanoidProperties.TickOnlyWhilePlaying | src/ArkanoidGame.java:98-99 | A tick outside Playing changes nothing |
| ArkanoidProperties.PauseTwiceIsIdentity | src/ArkanoidGame.java:220-228 | Pausing twice restores the game exactly |
| ArkanoidProperties.RestartIsNewGame | src/ArkanoidGame.java:235-251 | Restart from any state yields exactly the game as constructed |
| ArkanoidProperties.ScoreMonotoneWithinRound | src/ArkanoidGame.java:152-154 | Without a restart the score never goes down |
| ArkanoidProperties.TickBrickBudget | src/ArkanoidGame.java:145-157 | One tick knocks out at most one brick per row, at most 4 in all, and scores exactly 10 per fallen brick |
| ArkanoidProperties.LoseLifeOutcome | src/ArkanoidGame.java:166-181 | From Playing with one life left, losing it ends the game with 0 lives; with more lives, play goes on with a fresh ball; the invariant holds either way |
| ArkanoidProperties.GapScanRow | src/ArkanoidGame.java:145-157 | A ball centred at (43, 71) knocks out one brick in each of the top two rows of a fresh grid and none in the other rows |
| ArkanoidProperties.GapScan | src/ArkanoidGame.java:145-157 | That scan knocks out two bricks, scores 20 and leaves vy as it was |
| ArkanoidProperties.TwoRowsInOneTick | src/ArkanoidGame.java:98-157 | A tick from a new game whose ball is at (40, 68) moving (3, 3) knocks out two bricks in different rows, scores 20, keeps the ball heading down, and leaves the counter at 32 |

## Left out

- Drawing: shapes, colours, fonts, the text of the score, lives and state
  labels, and the canvas side of `makeVisible`/`makeInvisible` on the ball,
  paddle and bricks are toolkit calls with no effect on the game logic.
- Shape positions: the ball's and paddle's positions are the values their
  shapes' getters return. The model keeps them as integer fields. Whether
  the toolkit's circle position is the centre or the top-left corner is not
  visible in the code, so the model does not interpret it.
- Keyboard wiring, the tick cadence and `main` belong to the framework and
  its configuration file. The keys and the timer appear only as the events
  `TickEvent`, `LeftKey`, `RightKey`, `SpaceKey` and `RestartKey`.
- The ball's velocity is a `double` that only ever holds +3.0 or -3.0 and
  is truncated to `int` before use. The model uses the integers +3 and -3,
  which is exact.
- Java's 32-bit `int` arithmetic: the model uses unbounded integers.
  `Collision.NoOverflowAtCanvasScale` shows the two agree for coordinates
  within 10^4.
- Out-of-range indices passed to `BrickGrid.destroyBrick` or `getBrick` make
  Java throw an exception. The model requires indices in range instead; the
  game itself never passes others.
- Trivial getters (`getX`, `getY`, `getWidth`, `getHeight`, `isVisible`,
  `getRadius`, `getDiameter`, `getRows`, `getCols`, `getBrickArray`) are
  field reads or constants in the model.
- The `MENU` value of the game state exists but no transition enters it.
