# Cooperative snake game: a verified model

This project models the core of a two-snake cooperative game. Two snakes share
a 600 x 600 board made of 20-pixel cells. Each snake chases its own food item.
Both snakes score into one team score. An episode ends when either snake hits
a wall, itself or the other snake, or after 500 steps. Three kinds of agents
choose the moves:

- the random agent picks one of the four actions uniformly;
- the fully greedy agent closes the distance to its food along one axis, chosen
  by a coin flip;
- the partially greedy agent does the same, but is meant to avoid turning
  back into its own neck and stepping next to the other snake. Its tests look
  for cells 10 pixels away, and on the 20-pixel grid no such cell exists, so
  in a game it plays exactly like the fully greedy agent (see below).

Modules:

- `World` (`world.dfy`) holds the constants of the board (sizes, `MAX_STEPS`,
  `INITIAL_SNAKE_SIZE`), grid cells, the observation given to the agents
  (`[snakes_pos, food_pos]`) and the causes of death.
- `Agents` (`agents.dfy`) holds the random, fully greedy and partially greedy
  agents as pure functions of the observation and of the coin flips.
- `SnakeGame` (`snake_game.dfy`) holds the `Snake` and `Game` classes. Their
  methods update the fields in place, as the Python objects do: moving a body,
  checking collisions, handling eaten food, stepping, resetting and playing an
  episode. The module also holds `results_by_type`.
- `Utils` (`utils.dfy`) holds the death tally behind the "Causes of Loss" plot.

How the model handles things the Python code gets from outside:

- Randomness is a parameter. A coin flip `random.uniform(0, 1) > 0.5` is a `bool`.
  `np.random.choice` is an index into the choices. `place_food`'s draw is a
  `FoodDraw` holding the canvas id plus the two range indices.
- `canvas.find_overlapping` is an input: the sequence of canvas items under the
  head, in canvas order, each one a food item, a snake segment or something
  else.
- The moves come in as a sequence of `Tick`s, one per step. Each tick holds two
  directions, two overlap lists and two food draws.

The greedy agents' helpers `_close_horizontally` and `_close_vertically` call
each other. On some inputs they never stop, and Python ends that with a
`RecursionError`. The model gives them an explicit call budget and returns
`None` when the budget runs out. Lemmas then say exactly when a small fixed
budget is enough:

- The fully greedy recursion ends iff the offset to the food is not (0,0).
- The partially greedy recursion ends iff, in addition, the snake is not "hemmed
  in" on both axes at once. Hemmed in on x means the head is 10 right of its
  neck at x = 290, or 10 left of it at x = 10, with no opponent block
  vertically adjacent. Hemmed in on y is the same with y = 290 or 10 and
  horizontal adjacency. On the 600-pixel board, 290 is the middle of the
  board, not a cell beside the wall.

Every snake cell and every food cell is a multiple of 20. So the ±10 tests of
the partially greedy agent never fire during a game. `PartialIsFullOnGrid`
proves that, on such observations, the partially greedy agent chooses exactly
what the fully greedy agent chooses. `Game.Positions` proves that the game only
produces such observations.

## Model

| member | source | states |
|---|---|---|
| Agents.RandomAction | agents.py:18-19 | the drawn index is one of the four actions |
| Agents.RandomActionIsOneToOne | agents.py:18-19 | every action is drawn by exactly one index, so the choice is uniform over the four actions |
| Agents.FullCloseHorizontally | agents.py:58-70 | any action returned moves along the axis whose offset it closes, in the direction of the food; with a non-zero x offset it is horizontal |
| Agents.FullCloseVertically | agents.py:72-84 | any action returned closes the offset; with a non-zero y offset it is vertical |
| Agents.FullTermination | agents.py:58-84 | the mutual recursion returns an action iff the offset is not (0,0), and then within 1 call (offset on its own axis) or 2 calls (offset only on the other axis) |
| Agents.FullDirectionToGo | agents.py:45-52 | with head and food apart, the result is an action that closes the offset, on the rolled axis whenever that axis has a non-zero offset |
| Agents.FullDirectionExamples | agents.py:58-84 | the sign convention: food to the right gives RIGHT, food at a smaller y gives DOWN whichever axis the roll picks first |
| Agents.FullAction | agents.py:31-38 | the agent's own head heads toward its own food with an action that closes the offset |
| Agents.OpponentIndex | agents.py:133 | `snakes_pos[self.id % 2]` is the other snake, never the agent's own |
| Agents.SnakeAdjHorizontally | agents.py:130-138 | true iff some block of the other snake lies in the head's row exactly 10 to its left or right; never true on a grid-aligned observation |
| Agents.SnakeAdjVertically | agents.py:140-148 | true iff some block of the other snake lies in the head's column exactly 10 above or below it; never true on a grid-aligned observation |
| Agents.PartialCloseHorizontally | agents.py:150-187 | every action returned is one of the four actions |
| Agents.PartialCloseVertically | agents.py:189-224 | every action returned is one of the four actions |
| Agents.PartialForcedTermination | agents.py:150-224 | a forced call returns at once unless its axis is hemmed in; with budget 2 both forced calls return unless both axes are hemmed in |
| Agents.PartialForcedDivergence | agents.py:150-224 | when both axes are hemmed in, forced calls on either axis never return, for any budget |
| Agents.PartialTermination | agents.py:150-224 | an unforced call returns within 3 calls iff the offset is non-zero and not both axes are hemmed in; otherwise it never returns |
| Agents.PartialTerminatesUnlessDiagonal | agents.py:160-170 | both axes can be hemmed in only when the head sits 10 off its neck on both axes at once, so a non-zero offset without that diagonal neck is enough for the recursion to end |
| Agents.PartialBudgetMonotone | agents.py:150-224 | once the resolvers return within some budget, every larger budget returns the same action, so the fixed budget of 3 agrees with any deeper stack |
| Agents.PartialDirectionToGo | agents.py:110-124 | for every observation on which the recursion ends, the result is one of the four actions |
| Agents.PartialAction | agents.py:96-103 | the agent's move from its head to its own food is an action whenever the recursion ends |
| Agents.PartialSelfCollisionCommit | agents.py:150-224 | a head 10 right of its neck keeps moving RIGHT, whatever the offset, unless it stands at x = 290 with no vertically adjacent opponent (there the call hands over to the forced vertical resolver); likewise LEFT at x = 10, and UP or DOWN at y = 290 or 10 on the vertical axis |
| Agents.PartialMovesTowardFood | agents.py:175-183 | when the edge and neck tests do not apply, a non-zero x offset gives the horizontal move that closes it |
| Agents.PartialForcedTieBreak | agents.py:185-224 | a forced call with a zero offset on its own axis picks LEFT or RIGHT (UP or DOWN) by the tie roll |
| Agents.PartialAxisChoice | agents.py:110-148 | the opponent beside the head horizontally makes the agent resolve vertically first, and the other way round, whatever the roll |
| Agents.PartialIsFullOnGrid | agents.py:110-224 | on grid-aligned observations the partially greedy agent returns exactly what the fully greedy agent returns for the same roll |
| SnakeGame.Moved | snake-game.py:165-182 | a move keeps the length; the new head is the old head shifted by one unit step times the direction; every other block takes the old place of the block in front of it |
| SnakeGame.MovePreservesConnected | snake-game.py:170-182 | a body whose neighbours are one cell apart stays so after a one-cell move |
| SnakeGame.MovePreservesOnGrid | snake-game.py:170-182 | a grid-aligned body stays grid-aligned after a move of one cell |
| SnakeGame.InitialBody | snake-game.py:111-133 | the starting snake has 7 blocks, the head at (initial_x, initial_y), and each block one unit to the left of the block before it |
| SnakeGame.InitialBodyShape | snake-game.py:111-133 | for the snake numbered id the head is at (120, id*200-20), the body is connected and on the grid, and for ids 1 and 2 the head is off the walls |
| SnakeGame.PlaceFood | snake-game.py:239-247 | the new food keeps its canvas id and lies in [40, 580) on both axes on the 20-cell grid |
| SnakeGame.PlaceFoodCoversRange | snake-game.py:244-245 | every cell of that range is produced by exactly one pair of range indices |
| SnakeGame.FoodMayCoverHead | snake-game.py:369-384 | the range includes snake 1's starting head, so reset can put the food under the head, where the greedy agents do not stop |
| SnakeGame.HitsWall | snake-game.py:267-270 | for a head on the grid, the wall test fires iff the head has left the inner cells 20..560 on either axis, so the outermost ring of cells already counts as wall |
| SnakeGame.FirstFood | snake-game.py:273-277 | the index of the first food item in the overlap list, or its length when there is none; nothing before it is food |
| SnakeGame.OverlapDeathLastHit | snake-game.py:273-282 | the recorded death is the cause of the last segment hit in the list, when there is any |
| SnakeGame.OverlapDeath | snake-game.py:273-282 | the overlap loop leaves the death it started with, SELF or SNAKE, and never clears a recorded death |
| SnakeGame.CheckedDeath | snake-game.py:266-282 | the death after `snake_check` is the old one, WALL, SELF or SNAKE; the snake stays alive only if it was alive and its head is in bounds |
| SnakeGame.CheckedDeathWall | snake-game.py:266-282 | a head out of bounds records WALL unless a segment is hit before the first food; a new WALL only comes from the bounds test |
| SnakeGame.Snake.constructor | snake-game.py:70-81 | a new snake moves right, has the initial 7-cell body, no death and food id 0 |
| SnakeGame.Snake.NewFood | snake-game.py:95-96 | only the food id changes |
| SnakeGame.Snake.InitializeSnake | snake-game.py:101-133 | the initial body is appended to the body |
| SnakeGame.Snake.Move | snake-game.py:154-182 | the in-place shift leaves exactly the moved body and records the direction |
| SnakeGame.Game.constructor | snake-game.py:193-205 | a new game keeps both snakes, has steps, score and game over reset, and is in a valid state |
| SnakeGame.Game.Positions | snake-game.py:338-344 | the observation has both bodies and both foods, all on the grid |
| SnakeGame.Game.GetResults | snake-game.py:208-215 | the result's steps, score and death match the game; the death is snake 1's or, when that is empty, snake 2's; a finished valid game has a cause |
| SnakeGame.Game.HandleHitFood | snake-game.py:284-293 | the eating snake gets a new food id and cell, the other snake's food is kept, the score rises by one and the body is unchanged |
| SnakeGame.Game.SnakeCheck | snake-game.py:257-282 | the snake's death becomes the checked death of its overlap list; the score and food change iff the list reaches a food item of its own |
| SnakeGame.Game.UpdateGame | snake-game.py:295-303 | both snakes are checked; the game is over iff one of them died or 500 steps were reached, in which case both snakes get MAX_STEPS; the state stays valid |
| SnakeGame.Game.Step | snake-game.py:346-367 | both bodies move by the tick's directions, steps rise by one, the rewards are [0, 0], done is the game over flag and the observation is the new positions |
| SnakeGame.Game.Reset | snake-game.py:369-384 | both foods are placed from the draws and stored in `food1` and `food2`, their ids become the snakes' targets, nothing else changes (bodies, deaths, steps and score are outside its frame), the state stays valid, and the observation is the positions with rewards [0, 0] and done equal to the game over flag |
| SnakeGame.Game.PlayGame | snake-game.py:386-396 | the loop ends after at most 500 steps with the game over and a cause of death recorded |
| SnakeGame.ResultsByType | snake-game.py:19-42 | the steps, score and death tables have one row per team and one column per episode, with each cell from that episode's result |
| Utils.CountDeaths | utils.py:152-162 | row i counts team i's WALL deaths in column 0 and its SNAKE deaths in column 1 |
| Utils.CountsAtMostEpisodes | utils.py:155-160 | a team's two counts together never exceed its number of episodes |

## Left out

- Rendering and pacing: tkinter windows, the score and step boards, `display_label`, `handle_episode_over`'s label, `canvas.update()` and the `time.sleep` pacing in `display_label` and `play_game` are not modelled. They only draw or wait.
- Canvas geometry: a body is the cells' top-left corners, and the head's box is `(x, y, x+20, y+20)`. The one-pixel corrections are not modelled: the `-1` in the body blocks' `moveto` compensates the outline, and the `find_overlapping` box is shrunk by one pixel on each side. `body_position`, `get_head_tag`, `new_canvas` and `create_block` just read or make canvas objects; the body cells stand in for them.
- `agent.py` is not part of this model. The base agent's `see` and `move_direction` are not modelled, so a tick's directions are inputs.
- The social-convention and intention-communication agents, and the intention handshake in `step`, are not modelled.
- `main`, the argument parsing, the progress bar, `exit()` and debug prints are not modelled.
- ResultsByType: the floating-point efficiency table (score per step) is not modelled.
- The confidence-interval, z-table and plotting functions in `utils.py` are floating-point statistics and drawing, and are not modelled. CountDeaths keeps an integer table where numpy uses floats.
- Randomness, the canvas's overlap query and the agents' moves are parameters, as above. Nothing guarantees those parameters match the real distributions.
- Agents.FullCloseHorizontally, Agents.PartialCloseHorizontally and their vertical partners: a run without end (Python's RecursionError) is a budget that runs out and returns `None`. The exception itself is not modelled.
- SnakeGame.Game.constructor: the Python constructor also calls `play_game`. Here `PlayGame` is a separate method the caller invokes.
- SnakeGame.Game.constructor: the initial `food1 = food2 = 0` before the first `reset` is the cell (0, 0).
- SnakeGame.MovePreservesConnected: connectivity is kept only by unit moves. The game state does not assume the ticks' directions are unit steps, so `WellFormed` does not include `Connected`.
- SnakeGame.Game.PlayGame: it demands at least 500 ticks, so the loop never runs out of input.
