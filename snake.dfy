// Snake on a 20 x 20 lattice.  Keys and swipes only record the next
// direction; every `speed` animation frames the snake takes one step: the
// pending direction becomes current, the head moves, and the snake either
// crashes, eats (and grows by one) or slides (the tail is dropped).

module Snake {
  import opened Wrappers
  import Scores

  /** The 400-pixel canvas divided into 20-pixel tiles. */
  const TILE_COUNT: int := 20
  const SWIPE_THRESHOLD: int := 30
  const FOOD_POINTS: int := 10

  datatype Point = Point(x: int, y: int)

  const START_BODY: seq<Point> := [Point(10, 10), Point(9, 10), Point(8, 10)]
  const START_FOOD: Point := Point(15, 10)

  /** The keys the handler reacts to. */
  const TURN_KEYS: seq<string> := ["ArrowUp", "ArrowDown", "ArrowLeft", "ArrowRight", "w", "s", "a", "d"]

  /** One of the four unit steps. */
  predicate IsUnit(dx: int, dy: int) {
    (dx == 0 && (dy == 1 || dy == -1)) || (dy == 0 && (dx == 1 || dx == -1))
  }

  predicate InBounds(p: Point) {
    0 <= p.x < TILE_COUNT && 0 <= p.y < TILE_COUNT
  }

  predicate Adjacent(p: Point, q: Point) {
    IsUnit(q.x - p.x, q.y - p.y)
  }

  /** A snake on the board: every segment on the lattice, no two segments on
      one tile, each segment next to the one before it. */
  predicate Shaped(body: seq<Point>) {
    (forall i :: 0 <= i < |body| ==> InBounds(body[i])) &&
    (forall i, j :: 0 <= i < j < |body| ==> body[i] != body[j]) &&
    (forall i :: 0 <= i < |body| - 1 ==> Adjacent(body[i], body[i + 1]))
  }

  // ---------------------------------------------------------------------------
  // Direction changes

  /** The next direction a key press asks for, when the handler accepts it. */
  function KeyTurn(key: string, dx: int, dy: int): (t: Option<Point>)
    ensures t.Some? ==> key in TURN_KEYS && IsUnit(t.value.x, t.value.y)
    ensures t.Some? && t.value.x == 0 ==> dy == 0
    ensures t.Some? && t.value.y == 0 ==> dx == 0
    ensures t.Some? && IsUnit(dx, dy) ==> t.value != Point(-dx, -dy)
    ensures IsUnit(dx, dy) && key in TURN_KEYS ==>
              (t.Some? <==> if key in ["ArrowUp", "ArrowDown", "w", "s"] then dy == 0 else dx == 0)
  {
    if (key == "ArrowUp" || key == "w") && dy == 0 then Some(Point(0, -1))
    else if (key == "ArrowDown" || key == "s") && dy == 0 then Some(Point(0, 1))
    else if (key == "ArrowLeft" || key == "a") && dx == 0 then Some(Point(-1, 0))
    else if (key == "ArrowRight" || key == "d") && dx == 0 then Some(Point(1, 0))
    else None
  }

  function Abs(n: int): nat {
    if n < 0 then -n else n
  }

  /** The next direction a swipe by (sx, sy) pixels asks for, when accepted:
      the dominant axis decides, and it must have moved more than the threshold. */
  function SwipeTurn(sx: int, sy: int, dx: int, dy: int): (t: Option<Point>)
    ensures t.Some? ==> IsUnit(t.value.x, t.value.y)
    ensures t.Some? && t.value.y == 0 ==>
              Abs(sx) > Abs(sy) && Abs(sx) > SWIPE_THRESHOLD && dx == 0 && t.value.x * sx > 0
    ensures t.Some? && t.value.x == 0 ==>
              Abs(sx) <= Abs(sy) && Abs(sy) > SWIPE_THRESHOLD && dy == 0 && t.value.y * sy > 0
    ensures t.Some? && IsUnit(dx, dy) ==> t.value != Point(-dx, -dy)
    ensures Abs(sx) > Abs(sy) && Abs(sx) > SWIPE_THRESHOLD && dx == 0 ==> t.Some?
    ensures Abs(sx) <= Abs(sy) && Abs(sy) > SWIPE_THRESHOLD && dy == 0 ==> t.Some?
  {
    if Abs(sx) > Abs(sy) then
      if Abs(sx) > SWIPE_THRESHOLD && dx == 0 then Some(Point(if sx > 0 then 1 else -1, 0)) else None
    else
      if Abs(sy) > SWIPE_THRESHOLD && dy == 0 then Some(Point(0, if sy > 0 then 1 else -1)) else None
  }

  // ---------------------------------------------------------------------------
  // The step

  /** Frames per step for a snake of the given length. */
  function Speed(len: nat): (s: int)
    ensures 3 <= s <= 8
    ensures len < 5 ==> s == 8
    ensures len >= 25 ==> s == 3
  {
    var t := 8 - len / 5;
    if t > 3 then t else 3
  }

  /** Longer snakes never step less often. */
  lemma SpeedMonotone(m: nat, n: nat)
    requires m <= n
    ensures Speed(n) <= Speed(m)
  {
    assert m / 5 <= n / 5;
  }

  datatype Outcome = Crash | Moved(body: seq<Point>, ate: bool)

  function NextHead(body: seq<Point>, d: Point): Point
    requires body != []
  {
    Point(body[0].x + d.x, body[0].y + d.y)
  }

  /** One step in direction d: the new head crashes if it leaves the board or
      lands on any segment of the snake as it stands before the step, the tail
      included; otherwise it is put in front, and the tail is dropped unless
      the head reached the food. */
  function Advance(body: seq<Point>, d: Point, food: Point): (o: Outcome)
    requires body != []
    ensures o.Crash? <==> !InBounds(NextHead(body, d)) || exists i :: 0 <= i < |body| && body[i] == NextHead(body, d)
    ensures o.Moved? && o.ate ==> |o.body| == |body| + 1 && o.body[1..] == body
    ensures o.Moved? && !o.ate ==> |o.body| == |body| && o.body[1..] == body[..|body| - 1]
    ensures o.Moved? ==> o.body[0] == NextHead(body, d) && (o.ate <==> NextHead(body, d) == food)
  {
    var head := NextHead(body, d);
    if !InBounds(head) || head in body then Crash
    else if head == food then Moved([head] + body, true)
    else Moved([head] + body[..|body| - 1], false)
  }

  /** A step that does not crash keeps the snake on the board, without
      overlaps and connected. */
  lemma AdvanceKeepsShape(body: seq<Point>, d: Point, food: Point)
    requires |body| >= 2 && Shaped(body) && IsUnit(d.x, d.y)
    requires Advance(body, d, food).Moved?
    ensures Shaped(Advance(body, d, food).body)
  {
    var head := NextHead(body, d);
    var nb := Advance(body, d, food).body;
    assert head !in body;
    assert nb[0] == head && nb[1] == body[0];
    assert Adjacent(nb[0], nb[1]);
    forall i, j | 0 <= i < j < |nb| ensures nb[i] != nb[j] {
      if i > 0 {
        assert nb[i] == body[i - 1] && nb[j] == body[j - 1];
      } else {
        assert nb[j] == body[j - 1];
      }
    }
    forall i | 0 <= i < |nb| - 1 ensures Adjacent(nb[i], nb[i + 1]) {
      if i > 0 {
        assert nb[i] == body[i - 1] && nb[i + 1] == body[i];
      }
    }
  }

  /** What the game's invariant needs from a step that does not crash: the
      snake keeps its shape, the segment behind the new head is the old head,
      and it grows by one exactly when it eats. */
  lemma MovedKeepsSnake(body: seq<Point>, d: Point, food: Point)
    requires |body| >= 3 && Shaped(body) && IsUnit(d.x, d.y)
    requires Advance(body, d, food).Moved?
    ensures var o := Advance(body, d, food);
            |o.body| >= 3 && Shaped(o.body) &&
            o.body[1] == Point(o.body[0].x - d.x, o.body[0].y - d.y) &&
            |o.body| == |body| + (if o.ate then 1 else 0)
  {
    AdvanceKeepsShape(body, d, food);
  }

  /** The tail tile is still occupied when the new head is placed, so moving
      into it crashes even though the tail would have moved away. */
  lemma TailTileCrashes()
    ensures Advance([Point(1, 1), Point(2, 1), Point(2, 2), Point(1, 2)], Point(0, 1), Point(5, 5)).Crash?
  {
    assert NextHead([Point(1, 1), Point(2, 1), Point(2, 2), Point(1, 2)], Point(0, 1)) == Point(1, 2);
  }

  /** The starting snake is well formed and heads right. */
  lemma StartShaped()
    ensures |START_BODY| == 3 && Shaped(START_BODY) && START_BODY[1] == Point(START_BODY[0].x - 1, START_BODY[0].y)
  {
    var b := START_BODY;
    assert b[0] == Point(10, 10) && b[1] == Point(9, 10) && b[2] == Point(8, 10);
    forall i, j | 0 <= i < j < |b| ensures b[i] != b[j] { }
  }

  class SnakeGame {
    var body: seq<Point>
    var food: Point
    var dx: int
    var dy: int
    var nextDx: int
    var nextDy: int
    var frameCount: nat
    var score: int
    var highScore: int
    var gameOver: bool
    var started: bool

    /** Both directions are unit steps and the pending one never reverses the
        current one; while the game runs, the segment behind the head is where
        the head came from.  Every food eaten is one segment more than the
        three the snake starts with. */
    ghost predicate Valid()
      reads this
    {
      IsUnit(dx, dy) && IsUnit(nextDx, nextDy) && !(nextDx == -dx && nextDy == -dy) &&
      |body| >= 3 && Shaped(body) &&
      (!gameOver ==> body[1] == Point(body[0].x - dx, body[0].y - dy)) &&
      InBounds(food) && score == FOOD_POINTS * (|body| - 3) && highScore >= 0
    }

    constructor ()
      ensures Valid()
      ensures body == START_BODY && food == START_FOOD && dx == 1 && dy == 0 && nextDx == 1 && nextDy == 0
      ensures frameCount == 0 && score == 0 && highScore == 0 && !gameOver && !started
    {
      StartShaped();
      body, food := START_BODY, START_FOOD;
      dx, dy, nextDx, nextDy := 1, 0, 1, 0;
      frameCount, score, highScore := 0, 0, 0;
      gameOver, started := false, false;
    }

    /** The pending direction is never the reverse of the current one, so the
        next step never turns the head back onto the segment behind it. */
    lemma NeverReverses()
      requires Valid() && !gameOver
      ensures NextHead(body, Point(nextDx, nextDy)) != body[1]
    {
    }

    /** The keydown handler, attached only while the game runs. */
    method Key(key: string)
      requires Valid()
      modifies this
      ensures Valid()
      ensures body == old(body) && food == old(food) && dx == old(dx) && dy == old(dy)
      ensures frameCount == old(frameCount) && score == old(score) && highScore == old(highScore)
      ensures gameOver == old(gameOver) && started == old(started)
      ensures old(started) && !old(gameOver) && KeyTurn(key, dx, dy).Some? ==>
                Point(nextDx, nextDy) == KeyTurn(key, dx, dy).value
      ensures !(old(started) && !old(gameOver) && KeyTurn(key, dx, dy).Some?) ==>
                nextDx == old(nextDx) && nextDy == old(nextDy)
    {
      if started && !gameOver {
        var t := KeyTurn(key, dx, dy);
        if t.Some? {
          nextDx, nextDy := t.value.x, t.value.y;
        }
      }
    }

    /** The touchend handler for a swipe of (sx, sy) pixels. */
    method Swipe(sx: int, sy: int)
      requires Valid()
      modifies this
      ensures Valid()
      ensures body == old(body) && food == old(food) && dx == old(dx) && dy == old(dy)
      ensures frameCount == old(frameCount) && score == old(score) && highScore == old(highScore)
      ensures gameOver == old(gameOver) && started == old(started)
      ensures old(started) && !old(gameOver) && SwipeTurn(sx, sy, dx, dy).Some? ==>
                Point(nextDx, nextDy) == SwipeTurn(sx, sy, dx, dy).value
      ensures !(old(started) && !old(gameOver) && SwipeTurn(sx, sy, dx, dy).Some?) ==>
                nextDx == old(nextDx) && nextDy == old(nextDy)
    {
      if started && !gameOver {
        var t := SwipeTurn(sx, sy, dx, dy);
        if t.Some? {
          nextDx, nextDy := t.value.x, t.value.y;
        }
      }
    }

    /** The step inside render; (fx, fy) is the random tile for the next food. */
    method Step(fx: int, fy: int)
      requires Valid() && !gameOver
      requires 0 <= fx < TILE_COUNT && 0 <= fy < TILE_COUNT
      modifies this
      ensures Valid()
      ensures dx == old(nextDx) && dy == old(nextDy) && nextDx == old(nextDx) && nextDy == old(nextDy)
      ensures frameCount == old(frameCount) && started == old(started)
      ensures Advance(old(body), Point(old(nextDx), old(nextDy)), old(food)).Crash? ==>
                gameOver && body == old(body) && food == old(food) && score == old(score) &&
                highScore == Scores.Best(old(highScore), old(score))
      ensures Advance(old(body), Point(old(nextDx), old(nextDy)), old(food)).Moved? ==>
                var o := Advance(old(body), Point(old(nextDx), old(nextDy)), old(food));
                !gameOver && body == o.body && highScore == old(highScore) &&
                score == old(score) + (if o.ate then FOOD_POINTS else 0) &&
                food == (if o.ate then Point(fx, fy) else old(food))
    {
      var o := Advance(body, Point(nextDx, nextDy), food);
      if o.Crash? {
        EndGame();
      } else {
        MovedKeepsSnake(body, Point(nextDx, nextDy), food);
        Slide(o.body, o.ate, fx, fy);
      }
    }

    /** The crash half of a step: the pending direction is taken, the game
        ends and the best score is brought up to date. */
    method EndGame()
      requires Valid()
      modifies this
      ensures Valid() && gameOver
      ensures dx == old(nextDx) && dy == old(nextDy) && nextDx == old(nextDx) && nextDy == old(nextDy)
      ensures body == old(body) && food == old(food) && score == old(score) && frameCount == old(frameCount)
      ensures highScore == Scores.Best(old(highScore), old(score)) && started == old(started)
    {
      dx, dy := nextDx, nextDy;
      gameOver := true;
      highScore := Scores.Best(highScore, score);
    }

    /** The moving half of a step: the pending direction is taken and the
        snake becomes `next`; eating scores and puts the food on (fx, fy). */
    method Slide(next: seq<Point>, ate: bool, fx: int, fy: int)
      requires Valid() && !gameOver
      requires 0 <= fx < TILE_COUNT && 0 <= fy < TILE_COUNT
      requires |next| >= 3 && Shaped(next) && next[1] == Point(next[0].x - nextDx, next[0].y - nextDy)
      requires |next| == |body| + (if ate then 1 else 0)
      modifies this
      ensures Valid() && !gameOver && body == next
      ensures dx == old(nextDx) && dy == old(nextDy) && nextDx == old(nextDx) && nextDy == old(nextDy)
      ensures score == old(score) + (if ate then FOOD_POINTS else 0) && highScore == old(highScore)
      ensures food == (if ate then Point(fx, fy) else old(food))
      ensures frameCount == old(frameCount) && started == old(started)
    {
      dx, dy := nextDx, nextDy;
      body := next;
      if ate {
        score := score + FOOD_POINTS;
        food := Point(fx, fy);
      }
    }

    /** One animation frame: the counter moves on, and every Speed(length)-th
        frame the snake steps.  Nothing runs before the start or after the end. */
    method Frame(fx: int, fy: int)
      requires Valid()
      requires 0 <= fx < TILE_COUNT && 0 <= fy < TILE_COUNT
      modifies this
      ensures Valid()
      ensures !old(started) || old(gameOver) ==>
                body == old(body) && food == old(food) && frameCount == old(frameCount) &&
                score == old(score) && highScore == old(highScore) && gameOver == old(gameOver) &&
                dx == old(dx) && dy == old(dy)
      ensures old(started) && !old(gameOver) ==> frameCount == old(frameCount) + 1
      ensures old(started) && !old(gameOver) && frameCount % Speed(|old(body)|) != 0 ==>
                body == old(body) && food == old(food) && score == old(score) && highScore == old(highScore) &&
                !gameOver && dx == old(dx) && dy == old(dy)
      ensures old(started) && !old(gameOver) && frameCount % Speed(|old(body)|) == 0 ==>
                dx == old(nextDx) && dy == old(nextDy) &&
                var o := Advance(old(body), Point(old(nextDx), old(nextDy)), old(food));
                (o.Crash? ==>
                   gameOver && body == old(body) && food == old(food) && score == old(score) &&
                   highScore == Scores.Best(old(highScore), old(score))) &&
                (o.Moved? ==>
                   !gameOver && body == o.body && highScore == old(highScore) &&
                   score == old(score) + (if o.ate then FOOD_POINTS else 0) &&
                   food == (if o.ate then Point(fx, fy) else old(food)))
      ensures nextDx == old(nextDx) && nextDy == old(nextDy) && started == old(started)
    {
      if !started || gameOver {
        return;
      }
      frameCount := frameCount + 1;
      if frameCount % Speed(|body|) == 0 {
        Step(fx, fy);
      }
    }

    /** The replay button together with the restart of the game loop it
        brings about: score 0, a fresh snake heading right, the best score kept. */
    method Reset()
      requires Valid()
      modifies this
      ensures Valid()
      ensures body == START_BODY && food == START_FOOD && frameCount == 0
      ensures dx == 1 && dy == 0 && nextDx == 1 && nextDy == 0
      ensures score == 0 && !gameOver && started && highScore == old(highScore)
    {
      StartShaped();
      body, food, frameCount := START_BODY, START_FOOD, 0;
      dx, dy, nextDx, nextDy := 1, 0, 1, 0;
      score, gameOver, started := 0, false, true;
    }

    // -------------------------------------------------------------------------
    // The game loop as written: the loop's snake, food and frame counter are
    // local to an effect that React runs again whenever the score, the best
    // score, the pause flag, `started` or `gameOver` changes.

    /** The loop's start: a fresh snake, food and frame counter. */
    method RestartLoop()
      modifies this
      ensures body == START_BODY && food == START_FOOD && frameCount == 0
      ensures dx == old(dx) && dy == old(dy) && nextDx == old(nextDx) && nextDy == old(nextDy)
      ensures score == old(score) && highScore == old(highScore) && gameOver == old(gameOver) && started == old(started)
    {
      body, food, frameCount := START_BODY, START_FOOD, 0;
    }

    /** A frame as written, as far as the loop that is drawn goes: eating
        changes the score, the effect runs again and starts a new loop whose
        snake is a fresh one of three segments.  The old loop is not stopped
        and keeps its grown snake; that loop is not part of this state. */
    method FrameAsWritten(fx: int, fy: int)
      requires Valid()
      requires 0 <= fx < TILE_COUNT && 0 <= fy < TILE_COUNT
      modifies this
      ensures score > old(score) ==> body == START_BODY && |body| == 3 && food == START_FOOD
    {
      var before := score;
      Frame(fx, fy);
      if score != before {
        RestartLoop();
      }
    }

    /** The replay button as written: it only moves the effect's inputs, so
        when none of them changes (score 0 in a running game) the loop keeps
        its snake and only the direction is set back to the right. */
    method ResetAsWritten()
      modifies this
      ensures dx == 1 && dy == 0 && nextDx == 1 && nextDy == 0 && score == 0 && !gameOver && started
      ensures old(score) == 0 && !old(gameOver) && old(started) ==>
                body == old(body) && food == old(food) && frameCount == old(frameCount)
      ensures !(old(score) == 0 && !old(gameOver) && old(started)) ==>
                body == START_BODY && food == START_FOOD && frameCount == 0
    {
      var restarts := score != 0 || gameOver || !started;
      dx, dy, nextDx, nextDy := 1, 0, 1, 0;
      score, gameOver, started := 0, false, true;
      if restarts {
        RestartLoop();
      }
    }
  }

  /** A game started and turned up and then left, one step each, before
      anything is eaten: the snake heads left with its head at (9, 9). */
  method TurnUpThenLeft() returns (g: SnakeGame)
    ensures fresh(g) && g.Valid() && g.started && !g.gameOver && g.score == 0
    ensures g.body == [Point(9, 9), Point(10, 9), Point(10, 10)] && g.food == START_FOOD
    ensures g.dx == -1 && g.dy == 0 && g.nextDx == -1 && g.nextDy == 0
  {
    g := new SnakeGame();
    g.Reset();
    g.Key("ArrowUp");
    assert g.nextDx == 0 && g.nextDy == -1;
    g.Step(0, 0);
    assert g.body == [Point(10, 9), Point(10, 10), Point(9, 10)];
    g.Key("ArrowLeft");
    assert g.nextDx == -1 && g.nextDy == 0;
    g.Step(0, 0);
  }

  /** Turning up and then left after the start, then pressing replay before
      eating anything: the direction is set back to the right while the snake
      still heads left, and the next step runs into the segment behind the head. */
  method ResetMidGameCrashes() returns (crashes: bool)
    ensures crashes
  {
    var g := TurnUpThenLeft();
    g.ResetAsWritten();
    var o := Advance(g.body, Point(g.nextDx, g.nextDy), g.food);
    assert NextHead(g.body, Point(1, 0)) == g.body[1];
    crashes := o.Crash?;
  }

  /** The corrected replay from the same position: the snake starts over and
      its first step is safe. */
  method ResetMidGameSafe() returns (crashes: bool)
    ensures !crashes
  {
    var g := TurnUpThenLeft();
    g.Reset();
    var o := Advance(g.body, Point(g.nextDx, g.nextDy), g.food);
    assert NextHead(g.body, Point(1, 0)) == Point(11, 10);
    crashes := o.Crash?;
  }
}
