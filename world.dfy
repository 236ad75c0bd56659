/** Constants and values shared by the game engine and the agents: the board
    geometry, grid cells, the observation the game hands to the agents, and the
    causes of an episode's end. */
module World {

  const CANVAS_WIDTH := 600
  const CANVAS_HEIGHT := 600
  /** The side of one grid cell, and the length of one move. */
  const UNIT_SIZE := 20
  const MAX_STEPS := 500
  const INITIAL_SNAKE_SIZE := 7

  datatype Option<T> = None | Some(value: T)

  /** The top-left corner of one square on the board. */
  datatype Cell = Cell(x: int, y: int)

  /** `[snakes_pos, food_pos]`: both bodies, head first, and both foods. */
  datatype Observation = Observation(snakes: seq<seq<Cell>>, foods: seq<Cell>)

  /** A snake's `death` field: `None`, "WALL", "SELF", "SNAKE" or "MAX_STEPS". */
  datatype Death = NoDeath | Wall | SelfCollision | SnakeCollision | MaxSteps

  predicate OnGrid(c: Cell) {
    c.x % UNIT_SIZE == 0 && c.y % UNIT_SIZE == 0
  }

  predicate AllOnGrid(cells: seq<Cell>) {
    forall i :: 0 <= i < |cells| ==> OnGrid(cells[i])
  }

  /** Every cell the observation mentions is a multiple of UNIT_SIZE. */
  predicate ObservationOnGrid(obs: Observation) {
    (forall k :: 0 <= k < |obs.snakes| ==> AllOnGrid(obs.snakes[k])) && AllOnGrid(obs.foods)
  }
}
