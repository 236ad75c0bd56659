/** The navigation policies: each maps the latest observation to one of the
    four actions. The two greedy agents close the distance to their own food
    through two mutually recursive axis resolvers; the partially greedy one adds
    an opponent-adjacency override, a self-collision "commit" and two wall
    sentinels.

    A resolver is modelled with an explicit budget `calls`: the number of
    resolver calls that may still be nested on the call stack. A result `None`
    means the budget ran out before any `return` was reached. The termination
    lemmas show that a small fixed budget always suffices exactly when the
    source's recursion ends, and that no budget suffices otherwise. */
module Agents {
  import opened World

  const N_ACTIONS := 4
  const DOWN := 0
  const UP := 1
  const RIGHT := 2
  const LEFT := 3

  predicate IsAction(a: int) {
    a == DOWN || a == UP || a == RIGHT || a == LEFT
  }

  predicate IsHorizontal(a: int) {
    a == RIGHT || a == LEFT
  }

  predicate IsVertical(a: int) {
    a == UP || a == DOWN
  }

  /** `distances`: the food's position minus the agent's, per axis. */
  datatype Offset = Offset(dx: int, dy: int)

  const Zero := Offset(0, 0)

  function OffsetTo(position: Cell, target: Cell): Offset {
    Offset(target.x - position.x, target.y - position.y)
  }

  /** Taking action `a` shrinks the offset `d` on `a`'s own axis: RIGHT only
      when the food lies to the right, UP only when its y is larger, and so on. */
  predicate Closes(d: Offset, a: int) {
    || (a == RIGHT && d.dx > 0)
    || (a == LEFT && d.dx < 0)
    || (a == UP && d.dy > 0)
    || (a == DOWN && d.dy < 0)
  }

  // ---------------------------------------------------------------------------
  // RandomAgent

  /** `RandomAgent.action`: `np.random.choice` over `np.arange(4)`, with the
      position it picked given as `draw`. */
  function RandomAction(draw: nat): (a: int)
    requires draw < N_ACTIONS
    ensures IsAction(a)
  {
    seq(N_ACTIONS, i => i)[draw]
  }

  /** Every action is the outcome of exactly one draw. */
  lemma RandomActionIsOneToOne(a: int)
    requires IsAction(a)
    ensures exists draw: nat :: draw < N_ACTIONS && RandomAction(draw) == a
    ensures forall d1: nat, d2: nat :: d1 < N_ACTIONS && d2 < N_ACTIONS && RandomAction(d1) == RandomAction(d2) ==> d1 == d2
  {
    var draw: nat := a;
    assert RandomAction(draw) == a;
  }

  // ---------------------------------------------------------------------------
  // FullyGreedyAgent

  /** What `FullyGreedyAgent.action` reads from `self.observation` exists. */
  predicate FullObservable(obs: Observation, id: int) {
    && (id == 1 || id == 2)
    && |obs.snakes| == 2 && |obs.foods| == 2
    && |obs.snakes[id - 1]| >= 1
  }

  /** `FullyGreedyAgent._close_horizontally(distances)` within `calls` nested calls. */
  function FullCloseHorizontally(d: Offset, calls: nat): (r: Option<int>)
    ensures r.Some? ==> Closes(d, r.value)
    ensures r.Some? && d.dx != 0 ==> IsHorizontal(r.value)
    decreases calls
  {
    if calls == 0 then None
    else if d.dx == 0 then FullCloseVertically(d, calls - 1)
    else if d.dx > 0 then Some(RIGHT)
    else Some(LEFT)
  }

  /** `FullyGreedyAgent._close_vertically(distances)` within `calls` nested calls. */
  function FullCloseVertically(d: Offset, calls: nat): (r: Option<int>)
    ensures r.Some? ==> Closes(d, r.value)
    ensures r.Some? && d.dy != 0 ==> IsVertical(r.value)
    decreases calls
  {
    if calls == 0 then None
    else if d.dy == 0 then FullCloseHorizontally(d, calls - 1)
    else if d.dy > 0 then Some(UP)
    else Some(DOWN)
  }

  /** The full greedy resolvers return exactly when the offset is not (0,0):
      one call when their own axis is nonzero, two when the other resolver has
      to answer. With a zero offset they call each other for ever. */
  lemma {:induction false} FullTermination(d: Offset, calls: nat)
    ensures FullCloseHorizontally(d, calls).Some? <==> d != Zero && calls >= (if d.dx == 0 then 2 else 1)
    ensures FullCloseVertically(d, calls).Some? <==> d != Zero && calls >= (if d.dy == 0 then 2 else 1)
  {
    if calls > 0 {
      FullTermination(d, calls - 1);
    }
  }

  /** `FullyGreedyAgent.direction_to_go`; `rollAboveHalf` is `random.uniform(0, 1) > 0.5`. */
  function FullDirectionToGo(agentPosition: Cell, foodPosition: Cell, rollAboveHalf: bool): (a: int)
    requires agentPosition != foodPosition
    ensures IsAction(a)
    ensures Closes(OffsetTo(agentPosition, foodPosition), a)
    ensures rollAboveHalf && OffsetTo(agentPosition, foodPosition).dx != 0 ==> IsHorizontal(a)
    ensures !rollAboveHalf && OffsetTo(agentPosition, foodPosition).dy != 0 ==> IsVertical(a)
  {
    var distances := OffsetTo(agentPosition, foodPosition);
    FullTermination(distances, 2);
    var r := if rollAboveHalf then FullCloseHorizontally(distances, 2) else FullCloseVertically(distances, 2);
    r.value
  }

  /** The sign convention on two boards: food 40 to the right gives RIGHT when
      the horizontal axis goes first; food 40 lower in y gives DOWN when the
      vertical axis goes first, since UP means a larger y. */
  lemma FullDirectionExamples()
    ensures FullDirectionToGo(Cell(100, 100), Cell(140, 100), true) == RIGHT
    ensures FullDirectionToGo(Cell(100, 100), Cell(100, 60), false) == DOWN
    ensures FullDirectionToGo(Cell(100, 100), Cell(100, 60), true) == DOWN
  {
  }

  /** `FullyGreedyAgent.action`: head toward snake `id`'s own food. */
  function FullAction(obs: Observation, id: int, rollAboveHalf: bool): (a: int)
    requires FullObservable(obs, id)
    requires obs.snakes[id - 1][0] != obs.foods[id - 1]
    ensures IsAction(a)
    ensures Closes(OffsetTo(obs.snakes[id - 1][0], obs.foods[id - 1]), a)
  {
    FullDirectionToGo(obs.snakes[id - 1][0], obs.foods[id - 1], rollAboveHalf)
  }

  // ---------------------------------------------------------------------------
  // PartiallyGreedyAgent

  /** What `PartiallyGreedyAgent` reads from `self.observation` exists: both
      bodies, both foods, and a head and a neck for agent `id`. */
  predicate PartialObservable(obs: Observation, id: int) {
    && (id == 1 || id == 2)
    && |obs.snakes| == 2 && |obs.foods| == 2
    && |obs.snakes[id - 1]| >= 2
  }

  /** `agent_id % 2`: the position of the opponent's body in the observation. */
  function OpponentIndex(id: int): (k: nat)
    requires id == 1 || id == 2
    ensures k < 2 && k != id - 1
  {
    id % 2
  }

  /** What the adjacency tests read: both bodies and a head for agent `id`. */
  predicate HeadObservable(obs: Observation, id: int) {
    && (id == 1 || id == 2)
    && |obs.snakes| == 2
    && |obs.snakes[id - 1]| >= 1
  }

  function Head(obs: Observation, id: int): Cell
    requires HeadObservable(obs, id)
  {
    obs.snakes[id - 1][0]
  }

  function Neck(obs: Observation, id: int): Cell
    requires PartialObservable(obs, id)
  {
    obs.snakes[id - 1][1]
  }

  function Opponent(obs: Observation, id: int): seq<Cell>
    requires HeadObservable(obs, id)
  {
    obs.snakes[OpponentIndex(id)]
  }

  /** `_snake_adj_horizontally`: an opponent block sits 10 to the right or
      left of the head, in the head's row. No such block exists on the grid. */
  predicate SnakeAdjHorizontally(obs: Observation, id: int)
    requires HeadObservable(obs, id)
    ensures var h, opp := Head(obs, id), Opponent(obs, id);
      SnakeAdjHorizontally(obs, id) <==>
        exists k :: 0 <= k < |opp| && opp[k].y == h.y && (opp[k].x - h.x == 10 || h.x - opp[k].x == 10)
    ensures ObservationOnGrid(obs) ==> !SnakeAdjHorizontally(obs, id)
  {
    var h := Head(obs, id);
    Cell(h.x + 10, h.y) in Opponent(obs, id) || Cell(h.x - 10, h.y) in Opponent(obs, id)
  }

  /** `_snake_adj_vertically`: an opponent block sits 10 above or below the
      head, in the head's column. No such block exists on the grid. */
  predicate SnakeAdjVertically(obs: Observation, id: int)
    requires HeadObservable(obs, id)
    ensures var h, opp := Head(obs, id), Opponent(obs, id);
      SnakeAdjVertically(obs, id) <==>
        exists k :: 0 <= k < |opp| && opp[k].x == h.x && (opp[k].y - h.y == 10 || h.y - opp[k].y == 10)
    ensures ObservationOnGrid(obs) ==> !SnakeAdjVertically(obs, id)
  {
    var h := Head(obs, id);
    Cell(h.x, h.y + 10) in Opponent(obs, id) || Cell(h.x, h.y - 10) in Opponent(obs, id)
  }

  /** The horizontal resolver, once past its zero-offset test, hands over to a
      forced vertical resolver: the head is 10 right of the neck at x = 290, or
      10 left of it at x = 10, and no opponent block is vertically adjacent. */
  predicate HopsFromHorizontal(obs: Observation, id: int)
    requires PartialObservable(obs, id)
  {
    var h, n := Head(obs, id), Neck(obs, id);
    && ((h.x == n.x + 10 && h.x == 290) || (h.x == n.x - 10 && h.x == 10))
    && !SnakeAdjVertically(obs, id)
  }

  /** The mirror of HopsFromHorizontal on the y axis. */
  predicate HopsFromVertical(obs: Observation, id: int)
    requires PartialObservable(obs, id)
  {
    var h, n := Head(obs, id), Neck(obs, id);
    && ((h.y == n.y + 10 && h.y == 290) || (h.y == n.y - 10 && h.y == 10))
    && !SnakeAdjHorizontally(obs, id)
  }

  /** The partial greedy recursion ends: the offset is not (0,0), and the two
      wall hand-overs cannot bounce the call between the forced resolvers. */
  predicate PartialTerminates(obs: Observation, id: int, d: Offset)
    requires PartialObservable(obs, id)
  {
    d != Zero && !(HopsFromHorizontal(obs, id) && HopsFromVertical(obs, id))
  }

  /** `PartiallyGreedyAgent._close_horizontally(distances, forced)` within
      `calls` nested calls; `tieRollAboveHalf` is the coin of its last line. */
  function PartialCloseHorizontally(obs: Observation, id: int, d: Offset, forced: bool, tieRollAboveHalf: bool, calls: nat): (r: Option<int>)
    requires PartialObservable(obs, id)
    ensures r.Some? ==> IsAction(r.value)
    decreases calls
  {
    var head, neck := Head(obs, id), Neck(obs, id);
    if calls == 0 then None
    else if d.dx == 0 && !forced then PartialCloseVertically(obs, id, d, false, tieRollAboveHalf, calls - 1)
    else if head.x == neck.x + 10 then
      if head.x == 290 && !SnakeAdjVertically(obs, id) then PartialCloseVertically(obs, id, d, true, tieRollAboveHalf, calls - 1)
      else Some(RIGHT)
    else if head.x == neck.x - 10 then
      if head.x == 10 && !SnakeAdjVertically(obs, id) then PartialCloseVertically(obs, id, d, true, tieRollAboveHalf, calls - 1)
      else Some(LEFT)
    else if d.dx > 0 then Some(RIGHT)
    else if d.dx < 0 then Some(LEFT)
    else Some(if tieRollAboveHalf then LEFT else RIGHT)
  }

  /** `PartiallyGreedyAgent._close_vertically(distances, forced)` within
      `calls` nested calls; `tieRollAboveHalf` is the coin of its last line. */
  function PartialCloseVertically(obs: Observation, id: int, d: Offset, forced: bool, tieRollAboveHalf: bool, calls: nat): (r: Option<int>)
    requires PartialObservable(obs, id)
    ensures r.Some? ==> IsAction(r.value)
    decreases calls
  {
    var head, neck := Head(obs, id), Neck(obs, id);
    if calls == 0 then None
    else if d.dy == 0 && !forced then PartialCloseHorizontally(obs, id, d, false, tieRollAboveHalf, calls - 1)
    else if head.y == neck.y + 10 then
      if head.y == 290 && !SnakeAdjHorizontally(obs, id) then PartialCloseHorizontally(obs, id, d, true, tieRollAboveHalf, calls - 1)
      else Some(UP)
    else if head.y == neck.y - 10 then
      if head.y == 10 && !SnakeAdjHorizontally(obs, id) then PartialCloseHorizontally(obs, id, d, true, tieRollAboveHalf, calls - 1)
      else Some(DOWN)
    else if d.dy > 0 then Some(UP)
    else if d.dy < 0 then Some(DOWN)
    else Some(if tieRollAboveHalf then UP else DOWN)
  }

  /** A larger budget never changes an answer: once the resolvers return
      within `c1` nested calls, they return the same action within any
      `c2 >= c1`, so the fixed budget of `direction_to_go` loses nothing
      against Python's deeper stack. */
  lemma {:induction false} PartialBudgetMonotone(obs: Observation, id: int, d: Offset, forced: bool, tieRollAboveHalf: bool, c1: nat, c2: nat)
    requires PartialObservable(obs, id)
    requires c1 <= c2
    ensures PartialCloseHorizontally(obs, id, d, forced, tieRollAboveHalf, c1).Some? ==>
      PartialCloseHorizontally(obs, id, d, forced, tieRollAboveHalf, c2) == PartialCloseHorizontally(obs, id, d, forced, tieRollAboveHalf, c1)
    ensures PartialCloseVertically(obs, id, d, forced, tieRollAboveHalf, c1).Some? ==>
      PartialCloseVertically(obs, id, d, forced, tieRollAboveHalf, c2) == PartialCloseVertically(obs, id, d, forced, tieRollAboveHalf, c1)
    decreases c1
  {
    if c1 > 0 {
      PartialBudgetMonotone(obs, id, d, false, tieRollAboveHalf, c1 - 1, c2 - 1);
      PartialBudgetMonotone(obs, id, d, true, tieRollAboveHalf, c1 - 1, c2 - 1);
    }
  }

  /** A forced resolver answers at once when its own wall hand-over does not
      apply, and within two calls unless both hand-overs apply. */
  lemma PartialForcedTermination(obs: Observation, id: int, d: Offset, tieRollAboveHalf: bool, calls: nat)
    requires PartialObservable(obs, id)
    requires calls >= 1
    ensures !HopsFromHorizontal(obs, id) ==> PartialCloseHorizontally(obs, id, d, true, tieRollAboveHalf, calls).Some?
    ensures !HopsFromVertical(obs, id) ==> PartialCloseVertically(obs, id, d, true, tieRollAboveHalf, calls).Some?
    ensures calls >= 2 && !(HopsFromHorizontal(obs, id) && HopsFromVertical(obs, id)) ==>
      PartialCloseHorizontally(obs, id, d, true, tieRollAboveHalf, calls).Some? &&
      PartialCloseVertically(obs, id, d, true, tieRollAboveHalf, calls).Some?
  {
    if calls >= 2 {
      PartialForcedTermination(obs, id, d, tieRollAboveHalf, calls - 1);
    }
  }

  /** When both wall hand-overs apply, the forced resolvers call each other for ever. */
  lemma {:induction false} PartialForcedDivergence(obs: Observation, id: int, d: Offset, tieRollAboveHalf: bool, calls: nat)
    requires PartialObservable(obs, id)
    requires HopsFromHorizontal(obs, id) && HopsFromVertical(obs, id)
    ensures PartialCloseHorizontally(obs, id, d, true, tieRollAboveHalf, calls) == None
    ensures PartialCloseVertically(obs, id, d, true, tieRollAboveHalf, calls) == None
  {
    if calls > 0 {
      PartialForcedDivergence(obs, id, d, tieRollAboveHalf, calls - 1);
    }
  }

  /** The unforced resolvers, where `direction_to_go` enters, answer within
      three calls exactly when PartialTerminates holds; otherwise no budget is
      enough. */
  lemma {:induction false} PartialTermination(obs: Observation, id: int, d: Offset, tieRollAboveHalf: bool, calls: nat)
    requires PartialObservable(obs, id)
    ensures PartialTerminates(obs, id, d) && calls >= 3 ==>
      PartialCloseHorizontally(obs, id, d, false, tieRollAboveHalf, calls).Some? &&
      PartialCloseVertically(obs, id, d, false, tieRollAboveHalf, calls).Some?
    ensures !PartialTerminates(obs, id, d) ==>
      PartialCloseHorizontally(obs, id, d, false, tieRollAboveHalf, calls) == None &&
      PartialCloseVertically(obs, id, d, false, tieRollAboveHalf, calls) == None
  {
    if calls > 0 {
      if PartialTerminates(obs, id, d) {
        if calls >= 3 {
          PartialForcedTermination(obs, id, d, tieRollAboveHalf, calls - 1);
          PartialForcedTermination(obs, id, d, tieRollAboveHalf, calls - 2);
          PartialTermination(obs, id, d, tieRollAboveHalf, calls - 1);
        }
      } else {
        PartialTermination(obs, id, d, tieRollAboveHalf, calls - 1);
        if HopsFromHorizontal(obs, id) && HopsFromVertical(obs, id) {
          PartialForcedDivergence(obs, id, d, tieRollAboveHalf, calls - 1);
        }
      }
    }
  }

  /** A nonzero offset and a head that is not 10 off its neck on both axes at
      once are enough for PartialTerminates. */
  lemma PartialTerminatesUnlessDiagonal(obs: Observation, id: int, d: Offset)
    requires PartialObservable(obs, id)
    requires d != Zero
    requires !((Head(obs, id).x - Neck(obs, id).x == 10 || Neck(obs, id).x - Head(obs, id).x == 10) &&
               (Head(obs, id).y - Neck(obs, id).y == 10 || Neck(obs, id).y - Head(obs, id).y == 10))
    ensures PartialTerminates(obs, id, d)
  {
  }

  /** `PartiallyGreedyAgent.direction_to_go`: the adjacency overrides first,
      then the coin `rollAboveHalf` picks the first axis. */
  function PartialDirectionToGo(obs: Observation, id: int, agentPosition: Cell, foodPosition: Cell,
                                rollAboveHalf: bool, tieRollAboveHalf: bool): (a: int)
    requires PartialObservable(obs, id)
    requires PartialTerminates(obs, id, OffsetTo(agentPosition, foodPosition))
    ensures IsAction(a)
  {
    var distances := OffsetTo(agentPosition, foodPosition);
    PartialTermination(obs, id, distances, tieRollAboveHalf, 3);
    var r :=
      if SnakeAdjHorizontally(obs, id) then PartialCloseVertically(obs, id, distances, false, tieRollAboveHalf, 3)
      else if SnakeAdjVertically(obs, id) then PartialCloseHorizontally(obs, id, distances, false, tieRollAboveHalf, 3)
      else if rollAboveHalf then PartialCloseHorizontally(obs, id, distances, false, tieRollAboveHalf, 3)
      else PartialCloseVertically(obs, id, distances, false, tieRollAboveHalf, 3);
    r.value
  }

  /** `PartiallyGreedyAgent.action`: head toward snake `id`'s own food. */
  function PartialAction(obs: Observation, id: int, rollAboveHalf: bool, tieRollAboveHalf: bool): (a: int)
    requires PartialObservable(obs, id)
    requires PartialTerminates(obs, id, OffsetTo(Head(obs, id), obs.foods[id - 1]))
    ensures IsAction(a)
  {
    PartialDirectionToGo(obs, id, Head(obs, id), obs.foods[id - 1], rollAboveHalf, tieRollAboveHalf)
  }

  /** Self-collision commit: a head 10 right of its neck keeps going RIGHT,
      whatever the sign of the offset, unless it stands at the x = 290 sentinel
      with no vertically adjacent opponent; the same for LEFT at 10, and for
      UP and DOWN on the vertical axis. */
  lemma PartialSelfCollisionCommit(obs: Observation, id: int, d: Offset, forced: bool, tieRollAboveHalf: bool, calls: nat)
    requires PartialObservable(obs, id)
    requires calls >= 1
    ensures var h, n := Head(obs, id), Neck(obs, id);
      !(d.dx == 0 && !forced) && h.x == n.x + 10 && !(h.x == 290 && !SnakeAdjVertically(obs, id)) ==>
        PartialCloseHorizontally(obs, id, d, forced, tieRollAboveHalf, calls) == Some(RIGHT)
    ensures var h, n := Head(obs, id), Neck(obs, id);
      !(d.dx == 0 && !forced) && h.x == n.x - 10 && !(h.x == 10 && !SnakeAdjVertically(obs, id)) ==>
        PartialCloseHorizontally(obs, id, d, forced, tieRollAboveHalf, calls) == Some(LEFT)
    ensures var h, n := Head(obs, id), Neck(obs, id);
      !(d.dy == 0 && !forced) && h.y == n.y + 10 && !(h.y == 290 && !SnakeAdjHorizontally(obs, id)) ==>
        PartialCloseVertically(obs, id, d, forced, tieRollAboveHalf, calls) == Some(UP)
    ensures var h, n := Head(obs, id), Neck(obs, id);
      !(d.dy == 0 && !forced) && h.y == n.y - 10 && !(h.y == 10 && !SnakeAdjHorizontally(obs, id)) ==>
        PartialCloseVertically(obs, id, d, forced, tieRollAboveHalf, calls) == Some(DOWN)
  {
  }

  /** Without a self-collision branch on its axis, a resolver facing a nonzero
      offset on that axis moves toward the food on that axis. */
  lemma PartialMovesTowardFood(obs: Observation, id: int, d: Offset, forced: bool, tieRollAboveHalf: bool, calls: nat)
    requires PartialObservable(obs, id)
    requires calls >= 1
    ensures var h, n := Head(obs, id), Neck(obs, id);
      var r := PartialCloseHorizontally(obs, id, d, forced, tieRollAboveHalf, calls);
      d.dx != 0 && h.x != n.x + 10 && h.x != n.x - 10 ==> r.Some? && IsHorizontal(r.value) && Closes(d, r.value)
    ensures var h, n := Head(obs, id), Neck(obs, id);
      var r := PartialCloseVertically(obs, id, d, forced, tieRollAboveHalf, calls);
      d.dy != 0 && h.y != n.y + 10 && h.y != n.y - 10 ==> r.Some? && IsVertical(r.value) && Closes(d, r.value)
  {
  }

  /** A forced resolver with a zero offset on its axis and no self-collision
      branch stays on its axis and lets the coin choose: LEFT on a roll above
      one half else RIGHT; UP above one half else DOWN. */
  lemma PartialForcedTieBreak(obs: Observation, id: int, d: Offset, tieRollAboveHalf: bool, calls: nat)
    requires PartialObservable(obs, id)
    requires calls >= 1
    ensures var h, n := Head(obs, id), Neck(obs, id);
      d.dx == 0 && h.x != n.x + 10 && h.x != n.x - 10 ==>
        PartialCloseHorizontally(obs, id, d, true, tieRollAboveHalf, calls) == Some(if tieRollAboveHalf then LEFT else RIGHT)
    ensures var h, n := Head(obs, id), Neck(obs, id);
      d.dy == 0 && h.y != n.y + 10 && h.y != n.y - 10 ==>
        PartialCloseVertically(obs, id, d, true, tieRollAboveHalf, calls) == Some(if tieRollAboveHalf then UP else DOWN)
  {
  }

  /** A horizontally adjacent opponent sends `direction_to_go` to the unforced
      vertical resolver, before the vertical-adjacency test and without the
      coin; a vertically adjacent one (and no horizontal one) to the horizontal
      resolver; otherwise the coin picks the first axis. */
  lemma PartialAxisChoice(obs: Observation, id: int, agentPosition: Cell, foodPosition: Cell, rollAboveHalf: bool, tieRollAboveHalf: bool)
    requires PartialObservable(obs, id)
    requires PartialTerminates(obs, id, OffsetTo(agentPosition, foodPosition))
    ensures var d, h, n := OffsetTo(agentPosition, foodPosition), Head(obs, id), Neck(obs, id);
      var a := PartialDirectionToGo(obs, id, agentPosition, foodPosition, rollAboveHalf, tieRollAboveHalf);
      SnakeAdjHorizontally(obs, id) && d.dy != 0 && h.y != n.y + 10 && h.y != n.y - 10 ==> IsVertical(a) && Closes(d, a)
    ensures var d, h, n := OffsetTo(agentPosition, foodPosition), Head(obs, id), Neck(obs, id);
      var a := PartialDirectionToGo(obs, id, agentPosition, foodPosition, rollAboveHalf, tieRollAboveHalf);
      !SnakeAdjHorizontally(obs, id) && SnakeAdjVertically(obs, id) && d.dx != 0 && h.x != n.x + 10 && h.x != n.x - 10 ==>
        IsHorizontal(a) && Closes(d, a)
    ensures var d, h, n := OffsetTo(agentPosition, foodPosition), Head(obs, id), Neck(obs, id);
      var a := PartialDirectionToGo(obs, id, agentPosition, foodPosition, rollAboveHalf, tieRollAboveHalf);
      !SnakeAdjHorizontally(obs, id) && !SnakeAdjVertically(obs, id) && rollAboveHalf && d.dx != 0 && h.x != n.x + 10 && h.x != n.x - 10 ==>
        IsHorizontal(a) && Closes(d, a)
    ensures var d, h, n := OffsetTo(agentPosition, foodPosition), Head(obs, id), Neck(obs, id);
      var a := PartialDirectionToGo(obs, id, agentPosition, foodPosition, rollAboveHalf, tieRollAboveHalf);
      !SnakeAdjHorizontally(obs, id) && !SnakeAdjVertically(obs, id) && !rollAboveHalf && d.dy != 0 && h.y != n.y + 10 && h.y != n.y - 10 ==>
        IsVertical(a) && Closes(d, a)
    ensures SnakeAdjHorizontally(obs, id) || SnakeAdjVertically(obs, id) ==>
      PartialDirectionToGo(obs, id, agentPosition, foodPosition, rollAboveHalf, tieRollAboveHalf) ==
      PartialDirectionToGo(obs, id, agentPosition, foodPosition, !rollAboveHalf, tieRollAboveHalf)
  {
    var d := OffsetTo(agentPosition, foodPosition);
    PartialMovesTowardFood(obs, id, d, false, tieRollAboveHalf, 3);
  }

  /** On the game's grid every coordinate is a multiple of UNIT_SIZE = 20, so
      no cell is ever 10 away from another: neither adjacency test nor the
      self-collision branches can fire, the recursion ends whenever the food is
      not under the head, and the partially greedy agent chooses exactly what
      the fully greedy one does. */
  lemma PartialIsFullOnGrid(obs: Observation, id: int, rollAboveHalf: bool, tieRollAboveHalf: bool)
    requires PartialObservable(obs, id)
    requires ObservationOnGrid(obs)
    requires Head(obs, id) != obs.foods[id - 1]
    ensures PartialTerminates(obs, id, OffsetTo(Head(obs, id), obs.foods[id - 1]))
    ensures PartialAction(obs, id, rollAboveHalf, tieRollAboveHalf) == FullAction(obs, id, rollAboveHalf)
  {
    var h, n, opp := Head(obs, id), Neck(obs, id), Opponent(obs, id);
    assert OnGrid(h) && OnGrid(n) by {
      assert AllOnGrid(obs.snakes[id - 1]);
    }
    assert AllOnGrid(opp);
    forall c | c in [Cell(h.x + 10, h.y), Cell(h.x - 10, h.y), Cell(h.x, h.y + 10), Cell(h.x, h.y - 10)]
      ensures c !in opp
    {
      assert !OnGrid(c);
    }
    assert !SnakeAdjHorizontally(obs, id) && !SnakeAdjVertically(obs, id);
    assert h.x != n.x + 10 && h.x != n.x - 10 && h.y != n.y + 10 && h.y != n.y - 10;
    var d := OffsetTo(h, obs.foods[id - 1]);
    FullTermination(d, 2);
  }
}
