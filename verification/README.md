# Snake game logic in Dafny

This project models the game-state logic of a small desktop Snake game (the
`Game` class in `snake.py`) and proves properties of it. The game keeps a
snake as a list of grid cells with the head first, a direction vector, an
apple cell and a score. The constructor calls `animate` once itself, and
from then on a timer calls it every 250 ms. Each call
pushes a new head (old head plus direction). If the head is on the apple,
the snake grows, the apple is placed again at random and the score goes up
by one; otherwise the tail is dropped. Then `check_game_over` ends the
program if the head has left the limit box or lies on another body cell.
Key codes 37 to 40 (the arrow keys on Windows) change the direction, except that a key
asking for the named opposite of the current direction is ignored.

The model is functional. `Snake.Game` is the board, and `Snake.State` is
`Running` or the terminal `Over`. `Snake.Step` is one tick, `Snake.GameOver`
is the game-over check, `Snake.SetDirection` is the key handler and
`Snake.PlaceApple` places the apple. `Snake.Apply` and `Snake.Run` feed an
ordered sequence of timer ticks and key presses into a state. Because the
constructor ticks before any key can arrive, the states a real game reaches
are `Run(c, Initial(c, x, y), [Tick(a, b)] + es)`. The lemmas about
`Run(c, Initial(c, x, y), es)` cover a superset of them.

The settings file is not part of this model. Its constants (`FIELDS`,
`START_POS`, `DIRECTIONS`, the four limits) are the fields of
`Settings.Config`. The game is modelled for every configuration satisfying
`Config.WellFormed`: the grid has at least one column and one row; the
direction table holds unit vectors, with `right` and `up` on different axes;
and `left`/`down` are the reverses of `right`/`up`.

`randint(lo, hi)` is `Random.Randint` applied to an arbitrary natural
`draw`. The draw stands in for the random outcome: every draw gives a value
in `[lo, hi]`, and every such value comes from some draw.

Behaviour of the code that the proofs make explicit:

- Apple placement ignores the body, so the apple can appear under the snake
  (`Snake.PlaceAppleCoversField`). If it appears on the tail's cell and the
  head then moves there, the game ends (`Invariants.EatIntoTailCollides`).
- The no-reversal guard compares a key with the current direction, not with
  the direction of the last move. Two key presses within one tick (up, then
  left while heading right) therefore turn the snake onto its neck, and the
  next tick ends the game (`Scenarios.QuickTurnReverses`).
- `check_game_over` compares the head with four limit constants
  (`LEFT_LIMIT`, `RIGHT_LIMIT`, `TOP_LIMIT`, `BOTTOM_LIMIT`), not with 0 and
  `FIELDS`. `Config.WithinLimits` uses the limits. `Config.LimitsMatchField`
  and the `Scenarios.Demo` settings cover the case where they coincide.

## Model

| member | source | states |
|---|---|---|
| Random.Randint | snake.py:120 | every draw yields an integer in the closed range `[lo, hi]`, as `randint` does |
| Random.RandintCoversRange | snake.py:120 | every integer of `[lo, hi]` is the outcome of some draw, so the model loses no outcome of `randint` |
| Snake.PlaceApple | snake.py:119-120 | the apple lands on the grid: column in `[0, FIELDS[0]-1]`, row in `[0, FIELDS[1]-1]` |
| Snake.PlaceAppleCoversField | snake.py:119-120 | every grid cell can receive the apple, including cells the snake occupies |
| Snake.Initial | snake.py:20-37 | the starting snake is `START_POS` and the two cells to its left (head first), direction `DIRECTIONS["right"]`, score 0, apple on the grid |
| Snake.GameOver | snake.py:79-87 | the game is over exactly when the head is outside the half-open box `[LEFT_LIMIT, RIGHT_LIMIT) x [TOP_LIMIT, BOTTOM_LIMIT)` or equals some body cell at index 1 or later |
| Snake.Step | snake.py:50-71 | the new head is the old head plus the direction; when it is the apple, the old snake follows the new head unchanged (one longer), the score rises by one and the new apple is on the grid; otherwise the old snake minus its tail follows the new head (same length), score and apple unchanged; the result is `Over` exactly when the game-over check holds of the new body |
| Snake.SetDirection | snake.py:91-117 | an unrecognised key code leaves the direction; a recognised one sets its table entry unless the current direction is that entry's named opposite, in which case the direction stays |
| Snake.SetDirectionRefusesOnlyReverse | snake.py:93-117 | in vector terms: a recognised key is ignored when its entry is the reverse of the current direction and taken otherwise |
| Snake.SetDirectionStaysInTable | snake.py:93-117 | a direction that is a table entry stays a table entry after any key, and never becomes its own reverse |
| Snake.Apply | snake.py:58-89 | one tick or key press never shortens the snake or lowers the score, changes length and score by the same amount, and leaves an ended game unchanged |
| Snake.Run | snake.py:58-89 | over any sequence of events the snake never shortens, the score never falls, length minus score stays constant, and an ended game stays ended |
| Settings.DirectionsDistinct | snake.py:93-117 | the four table entries the handler compares are pairwise distinct unit vectors |
| Settings.OppositeIsReverse | snake.py:93-117 | the entry the handler treats as each key's opposite is that entry's reverse vector |
| Settings.DirectionsAreTheUnitVectors | snake.py:93-117 | the direction table holds exactly the four unit vectors |
| Invariants.InitialSatisfiesInv | snake.py:20-29 | the starting board is connected, has length score + 3, a table direction, an apple on the grid and no repeated cell |
| Invariants.StepKeepsInv | snake.py:50-71 | a tick keeps the body connected and its length equal to score + 3, and a game that goes on has no repeated cell |
| Invariants.KeyKeepsInv | snake.py:91-117 | a key press keeps the invariant |
| Invariants.ApplyKeepsInv | snake.py:50-117 | any single event keeps the invariant |
| Invariants.RunKeepsInv | snake.py:50-117 | every state reached by events from an invariant state satisfies the invariant |
| Invariants.ReachableStatesAreConsistent | snake.py:20-120 | in every game, after any events: length is score + 3, the direction is a table entry, the apple is on the grid, the body is connected, and while running no cell repeats |
| Invariants.RunConcat | snake.py:77 | processing events in two batches equals processing them in one |
| Invariants.RunningHadNotEnded | snake.py:79-89 | a game still running after a sequence of events was running after every prefix of it: an ended game never resumes |
| Invariants.MoveIntoVacatedTail | snake.py:65-71 | because the tail is dropped before the game-over check, moving onto the cell the tail leaves on a non-eating tick is not a collision |
| Invariants.EatIntoTailCollides | snake.py:58-71 | on an eating tick the tail stays, so a head moving onto the tail's cell ends the game |
| Scenarios.FirstTickShifts | snake.py:50-71 | from the start at (5,5) with the apple elsewhere, one tick gives `[(6,5), (5,5), (4,5)]` with score 0 |
| Scenarios.EatingGrows | snake.py:58-64 | eating at (6,5) gives four cells, score 1 and the apple at the drawn cell |
| Scenarios.RightWallEndsGame | snake.py:79-89 | on a 10-column grid a head at column 9 moving right ends the game |
| Scenarios.SelfCollisionEndsGame | snake.py:79-89 | `[(5,5), (4,5), (3,5), (2,5)]` moving left hits its second cell and ends the game |
| Scenarios.QuickTurnReverses | snake.py:91-117 | heading right, key 37 alone is ignored, but keys 38 then 37 before a tick reverse the snake and the tick ends the game |

## Left out

- Drawing (`draw`), window, layout, labels, the `IntVar` score widget and `mainloop`: GUI side effects only. The score is a plain natural number.
- Timer scheduling (`after(250, ...)`): the model fixes the order of ticks and key presses in an event sequence, not their timing.
- `destroy()` and `exit()`: an ended game is the terminal `Over` state, which ignores every later event.
- Randomness: `randint` is an arbitrary draw (see above). The model says nothing about the uniform distribution, only about the set of possible outcomes.
- The values in the settings file: they are parameters, constrained only by `Config.WellFormed`.
- Snake.Step: like the source, it does not check the starting board for game over before the first tick, and it requires a non-empty snake (the source would fail on `snake[0]` otherwise; every reachable snake has at least three cells).
