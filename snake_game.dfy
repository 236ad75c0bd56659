/** The simulation engine: two snakes on a board, their moves, the wall,
    body and food collisions, the episode counter, and the per-team result
    tables. The canvas becomes explicit state: each block is its cell, the
    objects `find_overlapping` reports under a head are an input sequence, and
    canvas item ids are plain integers. */
module SnakeGame {
  import opened World

  // ---------------------------------------------------------------------------
  // Cells, moves and bodies

  /** A cell moved by `(dx, dy)` grid steps. */
  function Shift(c: Cell, dx: int, dy: int): Cell {
    Cell(c.x + dx * UNIT_SIZE, c.y + dy * UNIT_SIZE)
  }

  /** Two cells one grid step apart along one axis. */
  predicate Adjacent(a: Cell, b: Cell) {
    || (a.y == b.y && (a.x - b.x == UNIT_SIZE || b.x - a.x == UNIT_SIZE))
    || (a.x == b.x && (a.y - b.y == UNIT_SIZE || b.y - a.y == UNIT_SIZE))
  }

  /** Consecutive blocks of the body touch along one side. */
  predicate Connected(body: seq<Cell>) {
    forall i :: 0 <= i < |body| - 1 ==> Adjacent(body[i], body[i + 1])
  }

  /** One of the four unit steps. */
  predicate IsUnitStep(dx: int, dy: int) {
    (dx == 0 && (dy == 1 || dy == -1)) || (dy == 0 && (dx == 1 || dx == -1))
  }

  /** The body after one move: it keeps its length, every block takes the
      place of the one in front of it, and the head advances by
      `(dx·UNIT_SIZE, dy·UNIT_SIZE)`. */
  function Moved(body: seq<Cell>, dx: int, dy: int): (r: seq<Cell>)
    ensures |r| == |body|
    ensures |body| > 0 ==> r[0] == Cell(body[0].x + dx * UNIT_SIZE, body[0].y + dy * UNIT_SIZE)
    ensures forall i :: 1 <= i < |body| ==> r[i] == body[i - 1]
  {
    if body == [] then [] else [Shift(body[0], dx, dy)] + body[..|body| - 1]
  }

  /** A unit move keeps a connected body connected. */
  lemma MovePreservesConnected(body: seq<Cell>, dx: int, dy: int)
    requires Connected(body)
    requires IsUnitStep(dx, dy)
    ensures Connected(Moved(body, dx, dy))
  {
    var m := Moved(body, dx, dy);
    forall i | 0 <= i < |m| - 1
      ensures Adjacent(m[i], m[i + 1])
    {
      if i > 0 {
        assert m[i] == body[i - 1] && m[i + 1] == body[i];
      }
    }
  }

  /** Any integer move keeps every block on the grid. */
  lemma MovePreservesOnGrid(body: seq<Cell>, dx: int, dy: int)
    requires AllOnGrid(body)
    ensures AllOnGrid(Moved(body, dx, dy))
  {
    var m := Moved(body, dx, dy);
    forall i | 0 <= i < |m|
      ensures OnGrid(m[i])
    {
      if i == 0 {
        assert OnGrid(body[0]);
      } else {
        assert m[i] == body[i - 1];
      }
    }
  }

  /** `initial_x`, the head's column at the start of an episode. */
  const INITIAL_X := (INITIAL_SNAKE_SIZE - 1) * UNIT_SIZE

  /** `initial_y`, the row of snake `id` at the start of an episode. */
  function InitialY(id: int): int {
    id * CANVAS_HEIGHT / 3 - UNIT_SIZE
  }

  /** The blocks `initialize_snake` creates, head first: INITIAL_SNAKE_SIZE
      blocks, the head at `(initial_x, initial_y)` and each further block one
      step to the left of the block before it. */
  function InitialBody(id: int): (r: seq<Cell>)
    ensures |r| == INITIAL_SNAKE_SIZE
    ensures r[0] == Cell(INITIAL_X, InitialY(id))
    ensures forall i :: 1 <= i < |r| ==> r[i] == Shift(r[i - 1], -1, 0)
  {
    seq(INITIAL_SNAKE_SIZE, i => Cell(INITIAL_X - i * UNIT_SIZE, InitialY(id)))
  }

  /** For a snake numbered `id` the initial head is at (120, 200·id − 20),
      the body is connected and on the grid, and for the two snakes of a game
      the head is clear of the wall. */
  lemma InitialBodyShape(id: int)
    ensures InitialBody(id)[0] == Cell(120, id * 200 - 20)
    ensures Connected(InitialBody(id))
    ensures AllOnGrid(InitialBody(id))
    ensures id == 1 || id == 2 ==> !HitsWall(InitialBody(id)[0])
  {
    var b := InitialBody(id);
    assert InitialY(id) == id * 200 - 20;
    forall i | 0 <= i < |b|
      ensures OnGrid(b[i])
    {
      assert b[i].x == 120 - 20 * i;
      assert b[i].y == 20 * (10 * id - 1);
    }
  }

  // ---------------------------------------------------------------------------
  // Food

  /** How many values `random.randrange(start, stop, step)` can return. */
  function RangeLength(start: int, stop: int, step: int): nat
    requires step > 0
  {
    if stop <= start then 0 else (stop - start + step - 1) / step
  }

  const FOOD_START := 2 * UNIT_SIZE

  /** The random draws behind one `place_food`: the id the canvas gives the new
      oval and the positions `random.randrange` picks on each axis. */
  datatype FoodDraw = FoodDraw(itemId: int, xIndex: int, yIndex: int)

  predicate ValidDraw(draw: FoodDraw) {
    && 0 <= draw.xIndex < RangeLength(FOOD_START, CANVAS_WIDTH - UNIT_SIZE, UNIT_SIZE)
    && 0 <= draw.yIndex < RangeLength(FOOD_START, CANVAS_HEIGHT - UNIT_SIZE, UNIT_SIZE)
  }

  /** The cells food may be placed on: on the grid, in
      `[2·UNIT_SIZE, CANVAS − UNIT_SIZE)` on each axis. */
  predicate InFoodRange(c: Cell) {
    && OnGrid(c)
    && FOOD_START <= c.x < CANVAS_WIDTH - UNIT_SIZE
    && FOOD_START <= c.y < CANVAS_HEIGHT - UNIT_SIZE
  }

  /** `Game.place_food`: the new food's canvas id and its cell. */
  function PlaceFood(draw: FoodDraw): (r: (int, Cell))
    requires ValidDraw(draw)
    ensures r.0 == draw.itemId
    ensures InFoodRange(r.1)
  {
    (draw.itemId, Cell(FOOD_START + draw.xIndex * UNIT_SIZE, FOOD_START + draw.yIndex * UNIT_SIZE))
  }

  /** Every cell of the food range is the outcome of exactly one pair of draws. */
  lemma PlaceFoodCoversRange(c: Cell, itemId: int)
    requires InFoodRange(c)
    ensures exists draw :: ValidDraw(draw) && draw.itemId == itemId && PlaceFood(draw).1 == c
    ensures forall d1, d2 :: ValidDraw(d1) && ValidDraw(d2) && PlaceFood(d1).1 == PlaceFood(d2).1 ==>
      d1.xIndex == d2.xIndex && d1.yIndex == d2.yIndex
  {
    var draw := FoodDraw(itemId, (c.x - FOOD_START) / UNIT_SIZE, (c.y - FOOD_START) / UNIT_SIZE);
    assert ValidDraw(draw);
    assert PlaceFood(draw).1 == c;
  }

  /** Nothing keeps food off the snakes: `reset` can place snake 1's food on
      snake 1's initial head, where its offset is (0,0) and the greedy agents'
      recursion does not end. */
  lemma FoodMayCoverHead()
    ensures InFoodRange(InitialBody(1)[0])
    ensures exists draw :: ValidDraw(draw) && PlaceFood(draw).1 == InitialBody(1)[0]
  {
    InitialBodyShape(1);
    var draw := FoodDraw(0, 4, 7);
    assert PlaceFood(draw).1 == Cell(120, 180);
  }

  // ---------------------------------------------------------------------------
  // Collisions

  /** One canvas object `find_overlapping` reports, classified by its tags. */
  datatype Item =
    | FoodItem(id: int)                      // tagged 'food'
    | SegmentItem(owner: int, isHead: bool)  // tagged 'snake_<owner>', and 'head' for a head
    | OtherItem                              // the step and score boards

  /** The wall test of `snake_check` on the head's bounding box `(x, y,
      x+UNIT_SIZE, y+UNIT_SIZE)`. On the grid it means the head has left the
      inner cells: the outermost ring of cells already counts as wall. */
  predicate HitsWall(head: Cell)
    ensures OnGrid(head) ==>
      (HitsWall(head) <==>
        !(UNIT_SIZE <= head.x <= CANVAS_WIDTH - 2 * UNIT_SIZE && UNIT_SIZE <= head.y <= CANVAS_HEIGHT - 2 * UNIT_SIZE))
  {
    head.x <= 0 || head.y <= 0 || head.x + UNIT_SIZE >= CANVAS_WIDTH || head.y + UNIT_SIZE >= CANVAS_HEIGHT
  }

  /** The index of the first food object, or the length when there is none. */
  function FirstFood(items: seq<Item>): (n: nat)
    ensures n <= |items|
    ensures n < |items| ==> items[n].FoodItem?
    ensures forall k :: 0 <= k < n ==> !items[k].FoodItem?
  {
    if items == [] then 0
    else if items[0].FoodItem? then 0
    else 1 + FirstFood(items[1..])
  }

  /** The object kills snake `id`: any block other than its own head. */
  predicate Hits(id: int, item: Item) {
    item.SegmentItem? && !(item.owner == id && item.isHead)
  }

  /** The cause a hitting block gives: SELF for the snake's own, SNAKE otherwise. */
  function CauseOf(id: int, item: Item): Death
    requires item.SegmentItem?
  {
    if item.owner == id then SelfCollision else SnakeCollision
  }

  /** The `death` of snake `id` after the overlap loop has seen `items` (none
      of them food), starting from `d`; each block overwrites the last. */
  function OverlapDeath(id: int, d: Death, items: seq<Item>): (r: Death)
    ensures r in {d, SelfCollision, SnakeCollision}
    ensures d != NoDeath ==> r != NoDeath
  {
    if items == [] then d
    else
      var before := OverlapDeath(id, d, items[..|items| - 1]);
      match items[|items| - 1]
      case SegmentItem(owner, isHead) =>
        if owner != id then SnakeCollision
        else if isHead then before
        else SelfCollision
      case _ => before
  }

  /** Last hit wins: the loop keeps `d` when no object kills the snake, and
      otherwise leaves the cause of the last object that does. */
  lemma {:induction false} OverlapDeathLastHit(id: int, d: Death, items: seq<Item>, k: int)
    ensures (forall j :: 0 <= j < |items| ==> !Hits(id, items[j])) ==> OverlapDeath(id, d, items) == d
    ensures 0 <= k < |items| && Hits(id, items[k]) && (forall j :: k < j < |items| ==> !Hits(id, items[j])) ==>
      OverlapDeath(id, d, items) == CauseOf(id, items[k])
  {
    if items != [] {
      var init := items[..|items| - 1];
      assert forall j :: 0 <= j < |init| ==> init[j] == items[j];
      OverlapDeathLastHit(id, d, init, k);
    }
  }

  /** The `death` after `snake_check` on a snake with head `head`, cause `d`
      and overlapping objects `items`: WALL if the head touches the wall, then
      the overlap loop up to the first food. */
  function CheckedDeath(id: int, head: Cell, d: Death, items: seq<Item>): (r: Death)
    ensures r in {d, Wall, SelfCollision, SnakeCollision}
    ensures r == NoDeath ==> d == NoDeath && !HitsWall(head)
  {
    OverlapDeath(id, if HitsWall(head) then Wall else d, items[..FirstFood(items)])
  }

  /** The cause `snake_check` leaves: WALL exactly when the head touches the
      wall and no block before the first food kills the snake; the previous
      cause when neither happens. */
  lemma CheckedDeathWall(id: int, head: Cell, d: Death, items: seq<Item>)
    ensures (forall j :: 0 <= j < FirstFood(items) ==> !Hits(id, items[j])) ==>
      CheckedDeath(id, head, d, items) == (if HitsWall(head) then Wall else d)
    ensures d != Wall && CheckedDeath(id, head, d, items) == Wall ==> HitsWall(head)
  {
    var p := items[..FirstFood(items)];
    var w := if HitsWall(head) then Wall else d;
    assert CheckedDeath(id, head, d, items) == OverlapDeath(id, w, p);
    OverlapDeathLastHit(id, w, p, 0);
  }

  /** The overlap loop reaches a food object owned by this snake, and eats it. */
  predicate Eats(target: int, items: seq<Item>) {
    FirstFood(items) < |items| && items[FirstFood(items)].id == target
  }

  // ---------------------------------------------------------------------------
  // Snake

  class Snake {
    const id: int
    var directionX: int
    var directionY: int
    /** The cell of each block, head first. */
    var body: seq<Cell>
    var death: Death
    /** The canvas id of the snake's target food. */
    var food: int

    constructor (id: int)
      ensures this.id == id
      ensures directionX == 1 && directionY == 0
      ensures body == InitialBody(id)
      ensures death == NoDeath && food == 0
    {
      this.id := id;
      directionX, directionY := 1, 0;
      body := [];
      death := NoDeath;
      food := 0;
      new;
      InitializeSnake();
    }

    /** `Snake.new_food`. */
    method NewFood(foodId: int)
      modifies this`food
      ensures food == foodId
    {
      food := foodId;
    }

    /** `Snake.initialize_snake`: appends the head, then the blocks behind it. */
    method InitializeSnake()
      modifies this`body
      ensures body == old(body) + InitialBody(id)
    {
      var initialX := (INITIAL_SNAKE_SIZE - 1) * UNIT_SIZE;
      var initialY := id * CANVAS_HEIGHT / 3 - UNIT_SIZE;
      body := body + [Cell(initialX, initialY)];
      var blockIndex := 1;
      while blockIndex < INITIAL_SNAKE_SIZE
        invariant 1 <= blockIndex <= INITIAL_SNAKE_SIZE
        invariant body == old(body) + InitialBody(id)[..blockIndex]
      {
        var x0 := initialX - blockIndex * UNIT_SIZE;
        body := body + [Cell(x0, initialY)];
        blockIndex := blockIndex + 1;
      }
    }

    /** `Snake.move`: from the tail forward, each block moves to the block in
        front of it; then the head moves one step in the direction. */
    method Move(dx: int, dy: int)
      modifies this`body, this`directionX, this`directionY
      ensures directionX == dx && directionY == dy
      ensures body == Moved(old(body), dx, dy)
    {
      directionX := dx;
      directionY := dy;
      var n := |body|;
      var i := 0;
      while i < n - 1
        invariant directionX == dx && directionY == dy
        invariant |body| == n
        invariant 0 <= i <= if n == 0 then 0 else n - 1
        invariant forall k :: n - 1 - i < k < n ==> body[k] == old(body)[k - 1]
        invariant forall k :: 0 <= k <= n - 1 - i && k < n ==> body[k] == old(body)[k]
      {
        body := body[n - 1 - i := body[n - 2 - i]];
        i := i + 1;
      }
      if n > 0 {
        body := body[0 := Shift(body[0], directionX, directionY)];
      }
    }
  }

  // ---------------------------------------------------------------------------
  // Episode results

  /** `get_results`: `[steps, score, death]`. */
  datatype EpisodeResult = EpisodeResult(steps: int, score: int, death: Death)

  /** One tick's outside inputs: the direction each snake's agent moves in,
      what `find_overlapping` reports under each head, and the draws of any food
      placed for each snake. */
  datatype Tick = Tick(
    direction1: (int, int), direction2: (int, int),
    overlap1: seq<Item>, overlap2: seq<Item>,
    draw1: FoodDraw, draw2: FoodDraw)

  predicate ValidTick(t: Tick) {
    ValidDraw(t.draw1) && ValidDraw(t.draw2)
  }

  // ---------------------------------------------------------------------------
  // Game

  class Game {
    const snake1: Snake
    const snake2: Snake
    var food1: Cell
    var food2: Cell
    var steps: int
    var score: int
    var gameOver: bool

    /** The shape of an episode's state: two distinct snakes numbered 1 and 2
        whose bodies keep their initial length, every block and food on the
        grid, and counters that never go negative. */
    ghost predicate WellFormed()
      reads this, snake1, snake2
    {
      && snake1 != snake2
      && snake1.id == 1 && snake2.id == 2
      && |snake1.body| == INITIAL_SNAKE_SIZE && |snake2.body| == INITIAL_SNAKE_SIZE
      && AllOnGrid(snake1.body) && AllOnGrid(snake2.body)
      && OnGrid(food1) && OnGrid(food2)
      && 0 <= steps && 0 <= score
    }

    /** `game_over` is set exactly when some snake has a cause. */
    ghost predicate OverWhenDead()
      reads this, snake1, snake2
    {
      gameOver <==> snake1.death != NoDeath || snake2.death != NoDeath
    }

    /** The invariant between ticks: well formed, over exactly when some snake
        has a cause, and a running episode still has steps to go. */
    ghost predicate Valid()
      reads this, snake1, snake2
    {
      WellFormed() && OverWhenDead() && (!gameOver ==> steps < MAX_STEPS)
    }

    /** `Game.__init__` without its call to `play_game`; the integer 0 that
        `food1` and `food2` hold before `reset` is the cell (0, 0). */
    constructor (snake1: Snake, snake2: Snake)
      requires snake1 != snake2 && snake1.id == 1 && snake2.id == 2
      requires snake1.body == InitialBody(1) && snake2.body == InitialBody(2)
      requires snake1.death == NoDeath && snake2.death == NoDeath
      ensures Valid()
      ensures this.snake1 == snake1 && this.snake2 == snake2
      ensures food1 == Cell(0, 0) && food2 == Cell(0, 0)
      ensures steps == 0 && score == 0 && !gameOver
    {
      this.snake1 := snake1;
      this.snake2 := snake2;
      food1, food2 := Cell(0, 0), Cell(0, 0);
      steps, score := 0, 0;
      gameOver := false;
      InitialBodyShape(1);
      InitialBodyShape(2);
    }

    /** `get_snake_positions` and `get_food_positions`: what the agents see. */
    function Positions(): (obs: Observation)
      reads this, snake1, snake2
      requires Valid()
      ensures |obs.snakes| == 2 && |obs.foods| == 2
      ensures forall k :: 0 <= k < 2 ==> |obs.snakes[k]| == INITIAL_SNAKE_SIZE
      ensures ObservationOnGrid(obs)
    {
      Observation([snake1.body, snake2.body], [food1, food2])
    }

    /** `get_results`: the counters and the first snake's cause if it has one,
        else the second's; after the episode the cause is never missing. */
    function GetResults(): (r: EpisodeResult)
      reads this, snake1, snake2
      requires Valid()
      ensures r.steps == steps && r.score == score
      ensures r.death == NoDeath <==> snake1.death == NoDeath && snake2.death == NoDeath
      ensures snake1.death != NoDeath ==> r.death == snake1.death
      ensures snake1.death == NoDeath ==> r.death == snake2.death
      ensures gameOver ==> r.death != NoDeath
    {
      var death := if snake1.death != NoDeath then snake1.death else snake2.death;
      EpisodeResult(steps, score, death)
    }

    /** `Game.handle_hit_food`: only the snake's own target is eaten; then the
        score goes up by one and a new target is placed and recorded in `food1`
        or `food2`, by snake id. The body does not grow. */
    method HandleHitFood(foodId: int, snake: Snake, draw: FoodDraw)
      requires WellFormed()
      requires snake == snake1 || snake == snake2
      requires ValidDraw(draw)
      modifies this`score, this`food1, this`food2, snake`food
      ensures WellFormed()
      ensures old(snake.food) == foodId ==>
        && score == old(score) + 1
        && snake.food == draw.itemId
        && (if snake.id == 1 then food1 == PlaceFood(draw).1 && food2 == old(food2)
            else food2 == PlaceFood(draw).1 && food1 == old(food1))
      ensures old(snake.food) != foodId ==>
        score == old(score) && snake.food == old(snake.food) && food1 == old(food1) && food2 == old(food2)
    {
      if snake.food == foodId {
        score := score + 1;
        var newId, position := PlaceFood(draw).0, PlaceFood(draw).1;
        snake.NewFood(newId);
        if snake.id == 1 {
          food1 := position;
        } else {
          food2 := position;
        }
      }
    }

    /** `Game.snake_check` with `overlapping` what `find_overlapping` reports
        under the head: the wall test, then each object in order until the
        first food, which is handed to HandleHitFood. */
    method SnakeCheck(snake: Snake, overlapping: seq<Item>, draw: FoodDraw)
      requires WellFormed()
      requires snake == snake1 || snake == snake2
      requires ValidDraw(draw)
      modifies this`score, this`food1, this`food2, snake`food, snake`death
      ensures WellFormed()
      ensures snake.death == CheckedDeath(snake.id, snake.body[0], old(snake.death), overlapping)
      ensures Eats(old(snake.food), overlapping) ==>
        && score == old(score) + 1
        && snake.food == draw.itemId
        && (if snake.id == 1 then food1 == PlaceFood(draw).1 && food2 == old(food2)
            else food2 == PlaceFood(draw).1 && food1 == old(food1))
      ensures !Eats(old(snake.food), overlapping) ==>
        score == old(score) && snake.food == old(snake.food) && food1 == old(food1) && food2 == old(food2)
    {
      var head := snake.body[0];
      if HitsWall(head) {
        snake.death := Wall;
      }
      ghost var start := snake.death;
      var n := FirstFood(overlapping);
      var i := 0;
      while i < |overlapping|
        invariant 0 <= i <= n
        invariant snake.death == OverlapDeath(snake.id, start, overlapping[..i])
        invariant score == old(score) && snake.food == old(snake.food)
        invariant food1 == old(food1) && food2 == old(food2)
        decreases |overlapping| - i
      {
        assert overlapping[..i + 1][..i] == overlapping[..i];
        match overlapping[i] {
          case FoodItem(foodId) =>
            HandleHitFood(foodId, snake, draw);
            break;
          case SegmentItem(owner, isHead) =>
            if owner == snake.id {
              if !isHead {
                snake.death := SelfCollision;
              }
            } else {
              snake.death := SnakeCollision;
            }
          case OtherItem =>
        }
        i := i + 1;
      }
      assert overlapping[..FirstFood(overlapping)] == overlapping[..i];
    }

    /** `Game.update_game`: check both snakes, then end the episode if either
        has a cause, or give both MAX_STEPS when the step limit is reached with
        no cause; a cause that is already set is never replaced by MAX_STEPS. */
    method UpdateGame(overlap1: seq<Item>, overlap2: seq<Item>, draw1: FoodDraw, draw2: FoodDraw)
      requires WellFormed() && OverWhenDead()
      requires !gameOver ==> steps <= MAX_STEPS
      requires ValidDraw(draw1) && ValidDraw(draw2)
      modifies this`score, this`food1, this`food2, this`gameOver
      modifies snake1`food, snake1`death, snake2`food, snake2`death
      ensures Valid()
      ensures var c1 := CheckedDeath(1, snake1.body[0], old(snake1.death), overlap1);
        var c2 := CheckedDeath(2, snake2.body[0], old(snake2.death), overlap2);
        if c1 != NoDeath || c2 != NoDeath then snake1.death == c1 && snake2.death == c2 && gameOver
        else if steps == MAX_STEPS then snake1.death == MaxSteps && snake2.death == MaxSteps && gameOver
        else snake1.death == NoDeath && snake2.death == NoDeath && !gameOver
      ensures var eat1, eat2 := Eats(old(snake1.food), overlap1), Eats(old(snake2.food), overlap2);
        && score == old(score) + (if eat1 then 1 else 0) + (if eat2 then 1 else 0)
        && snake1.food == (if eat1 then draw1.itemId else old(snake1.food))
        && snake2.food == (if eat2 then draw2.itemId else old(snake2.food))
        && food1 == (if eat1 then PlaceFood(draw1).1 else old(food1))
        && food2 == (if eat2 then PlaceFood(draw2).1 else old(food2))
    {
      SnakeCheck(snake1, overlap1, draw1);
      SnakeCheck(snake2, overlap2, draw2);
      if snake1.death != NoDeath || snake2.death != NoDeath {
        gameOver := true;
      } else if steps == MAX_STEPS {
        snake1.death := MaxSteps;
        snake2.death := MaxSteps;
        gameOver := true;
      }
    }

    /** `Game.step` without the intention handshake: both snakes move in the
        directions their agents chose, `steps` goes up by one, the game is
        updated, and the new positions are returned with zero rewards and
        `done` equal to `game_over`. */
    method Step(tick: Tick) returns (obs: Observation, rewards: seq<int>, done: bool)
      requires Valid() && ValidTick(tick)
      modifies this, snake1, snake2
      ensures Valid()
      ensures steps == old(steps) + 1
      ensures snake1.body == Moved(old(snake1.body), tick.direction1.0, tick.direction1.1)
      ensures snake2.body == Moved(old(snake2.body), tick.direction2.0, tick.direction2.1)
      ensures snake1.directionX == tick.direction1.0 && snake1.directionY == tick.direction1.1
      ensures snake2.directionX == tick.direction2.0 && snake2.directionY == tick.direction2.1
      ensures var c1 := CheckedDeath(1, snake1.body[0], old(snake1.death), tick.overlap1);
        var c2 := CheckedDeath(2, snake2.body[0], old(snake2.death), tick.overlap2);
        if c1 != NoDeath || c2 != NoDeath then snake1.death == c1 && snake2.death == c2 && gameOver
        else if steps == MAX_STEPS then snake1.death == MaxSteps && snake2.death == MaxSteps && gameOver
        else snake1.death == NoDeath && snake2.death == NoDeath && !gameOver
      ensures var eat1, eat2 := Eats(old(snake1.food), tick.overlap1), Eats(old(snake2.food), tick.overlap2);
        && score == old(score) + (if eat1 then 1 else 0) + (if eat2 then 1 else 0)
        && snake1.food == (if eat1 then tick.draw1.itemId else old(snake1.food))
        && snake2.food == (if eat2 then tick.draw2.itemId else old(snake2.food))
        && food1 == (if eat1 then PlaceFood(tick.draw1).1 else old(food1))
        && food2 == (if eat2 then PlaceFood(tick.draw2).1 else old(food2))
      ensures obs == Positions() && rewards == [0, 0] && done == gameOver
    {
      MovePreservesOnGrid(snake1.body, tick.direction1.0, tick.direction1.1);
      MovePreservesOnGrid(snake2.body, tick.direction2.0, tick.direction2.1);
      snake1.Move(tick.direction1.0, tick.direction1.1);
      snake2.Move(tick.direction2.0, tick.direction2.1);
      steps := steps + 1;
      UpdateGame(tick.overlap1, tick.overlap2, tick.draw1, tick.draw2);
      obs := Observation([snake1.body, snake2.body], [food1, food2]);
      rewards := [0, 0];
      done := gameOver;
    }

    /** `Game.reset`: place one food per snake, record each as that snake's
        target, and return the first observation. */
    method Reset(draw1: FoodDraw, draw2: FoodDraw) returns (obs: Observation, rewards: seq<int>, done: bool)
      requires Valid() && ValidDraw(draw1) && ValidDraw(draw2)
      modifies this`food1, this`food2, snake1`food, snake2`food
      ensures Valid()
      ensures food1 == PlaceFood(draw1).1 && food2 == PlaceFood(draw2).1
      ensures snake1.food == draw1.itemId && snake2.food == draw2.itemId
      ensures obs == Positions() && rewards == [0, 0] && done == gameOver
    {
      var id1, cell1 := PlaceFood(draw1).0, PlaceFood(draw1).1;
      var id2, cell2 := PlaceFood(draw2).0, PlaceFood(draw2).1;
      food1 := cell1;
      food2 := cell2;
      snake1.NewFood(id1);
      snake2.NewFood(id2);
      obs := Observation([snake1.body, snake2.body], [food1, food2]);
      rewards := [0, 0];
      done := gameOver;
    }

    /** `Game.play_game` without the display: reset, then step until the
        episode is over, tick `t` supplying the agents' moves and the canvas's
        answers for step `t`. The loop runs at most MAX_STEPS times. */
    method PlayGame(draw1: FoodDraw, draw2: FoodDraw, ticks: seq<Tick>) returns (played: nat)
      requires Valid() && steps == 0
      requires ValidDraw(draw1) && ValidDraw(draw2)
      requires forall t :: 0 <= t < |ticks| ==> ValidTick(ticks[t])
      requires |ticks| >= MAX_STEPS
      modifies this, snake1, snake2
      ensures Valid() && gameOver
      ensures steps == played && played <= MAX_STEPS
      ensures GetResults().death != NoDeath
    {
      var observation, rewards, done := Reset(draw1, draw2);
      played := 0;
      while !gameOver
        invariant Valid()
        invariant steps == played <= MAX_STEPS
        decreases MAX_STEPS - steps
      {
        observation, rewards, done := Step(ticks[played]);
        played := played + 1;
      }
    }
  }


  /** `results_by_type` without the efficiency column: the steps, scores and
      causes of every team's episodes, each as one list per team. */
  method ResultsByType(results: seq<seq<EpisodeResult>>)
    returns (stepResults: seq<seq<int>>, scoreResults: seq<seq<int>>, deathResults: seq<seq<Death>>)
    ensures |stepResults| == |results| && |scoreResults| == |results| && |deathResults| == |results|
    ensures forall i :: 0 <= i < |results| ==>
      |stepResults[i]| == |results[i]| && |scoreResults[i]| == |results[i]| && |deathResults[i]| == |results[i]|
    ensures forall i, j :: 0 <= i < |results| && 0 <= j < |results[i]| ==>
      && stepResults[i][j] == results[i][j].steps
      && scoreResults[i][j] == results[i][j].score
      && deathResults[i][j] == results[i][j].death
  {
    stepResults, scoreResults, deathResults := [], [], [];
    for i := 0 to |results|
      invariant |stepResults| == i && |scoreResults| == i && |deathResults| == i
      invariant forall k :: 0 <= k < i ==>
        |stepResults[k]| == |results[k]| && |scoreResults[k]| == |results[k]| && |deathResults[k]| == |results[k]|
      invariant forall k, j :: 0 <= k < i && 0 <= j < |results[k]| ==>
        && stepResults[k][j] == results[k][j].steps
        && scoreResults[k][j] == results[k][j].score
        && deathResults[k][j] == results[k][j].death
    {
      var team := results[i];
      var teamStep, teamScore, teamDeath := [], [], [];
      for j := 0 to |team|
        invariant |teamStep| == j && |teamScore| == j && |teamDeath| == j
        invariant forall m :: 0 <= m < j ==>
          teamStep[m] == team[m].steps && teamScore[m] == team[m].score && teamDeath[m] == team[m].death
      {
        var result := team[j];
        teamStep := teamStep + [result.steps];
        teamScore := teamScore + [result.score];
        teamDeath := teamDeath + [result.death];
      }
      stepResults := stepResults + [teamStep];
      scoreResults := scoreResults + [teamScore];
      deathResults := deathResults + [teamDeath];
    }
  }
}
