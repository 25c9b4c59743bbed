# Pac-Man: ghosts, Pac-Man and the game loop, in Dafny

This project models the game logic of a small JavaFX Pac-Man game and proves
properties of it. It covers three parts.

- **The ghosts** (`Ghost.java`). The SCATTER / CHASE / FRIGHTENED state machine is
  driven by a timer. Each of BLINKY, PINKY, INKY and CLYDE has its own targeting
  rule. A ghost moves between tile centres. At each centre it picks a new direction:
  first by breadth-first search toward its target tile, then by a chain of fallbacks
  (a random open direction, the reverse of its last direction, the last direction,
  another random direction). A ghost spawned on the centre of an open tile stays on
  its track between centres of open tiles, frame after frame, so it never enters a wall.
- **Pac-Man** (`PacMan.java`). He turns on arrow keys and moves only when all four
  corners of his box land on open tiles. He eats a pellet when his centre is within
  12 pixels of it.
- **The game** (`Game.java`). A 15 x 20 map has a wall border. A new game lays out
  one pellet per open tile, keyed by the string `"row,col"`. Each frame moves Pac-Man,
  removes and scores the pellets he reaches, updates the running time and stops the
  game once no pellet is left. Pause and resume keep track of the time spent paused.

The modules are:

- `Maze` (`maze.dfy`): the map, the tile arithmetic and the distance-test geometry.
- `Pathfinder` (`pathfinder.dfy`): the ghosts' breadth-first search.
- `Ghosts` (`ghosts.dfy`): class `Ghost` and its helpers.
- `Player` (`pacman.dfy`): class `PacMan`.
- `PelletKeys` (`pellet_keys.dfy`): writing and reading back the `"row,col"` pellet keys.
- `GameLoop` (`game.dfy`): class `Game`.

**Units.** Every position, speed and size in the game is a multiple of half a pixel.
The model therefore counts in half-pixels, as exact integers:

- a tile is 64;
- a ghost moves 3 per frame and Pac-Man moves 5;
- Pac-Man's box is 44 wide;
- distance tests `sqrt(dx² + dy²) < r` become `dx² + dy² < (2r)²`.

Java's `(int)(v / TILE_SIZE)` truncates toward zero. It is written out as
`Maze.TruncDiv`, because for a positive divisor Dafny's own division rounds down.

**Environment.**

- The clock (`System.currentTimeMillis()`) is the parameter `now`.
- `Random` draws are nondeterministic choices (`:|`). The contracts therefore hold
  for every possible draw.
- The map is a parameter: `Game.maze`, `Ghost.grid`, or the `g` argument of
  Pac-Man's methods. `Maze.MapFacts` proves that the game's own `MAP` has the shape
  and the wall border the proofs assume.

## Model

| member | source | states |
|---|---|---|
| Maze.MapFacts | src/Game.java:46-62 | the game's map has 15 rows of 20 cells, and every cell on its border is a wall |
| Maze.OpenNeighbourInBounds | src/Game.java:46-62 | in a map with a wall border, all four neighbours of an open tile are inside the grid |
| Maze.TruncDivTowardZero | src/Ghost.java:73-74 | the tile cast rounds toward zero: for a ≥ 0, q·b ≤ a < q·b + b; for a < 0, q·b − b < a ≤ q·b; and negating a negates the quotient |
| Maze.TileOfSpread | src/PacMan.java:94-97 | tile indices never decrease along an axis; two coordinates less than a tile apart have tile indices at most one apart |
| Maze.TileOfWithin | src/Ghost.java:73-74 | every non-negative coordinate inside a tile's span has that tile's index |
| Maze.TileOfCentre | src/Ghost.java:76-77 | the centre the ghost computes for a tile lies on that tile |
| Maze.DiscBetweenDiamondAndSquare | src/PacMan.java:83-85 | the distance test's disc lies inside the square \|dx\|, \|dy\| < r and contains the diamond \|dx\| + \|dy\| < r |
| Pathfinder.BfsDirection | src/Ghost.java:267-303 | returns -1 when the ghost stands on its target; any other result is an open first step of a shortest walk to the target; -1 from a tile other than the target means the target cannot be reached |
| Pathfinder.ExpandTile | src/Ghost.java:284-300 | polling one tile and scanning its neighbours UP, DOWN, LEFT, RIGHT either returns a shortest first step, or enqueues every open neighbour not yet seen, keeps each tile enqueued at most once, and strictly shrinks the unseen set when it enqueues |
| Pathfinder.VisitNeighbour | src/Ghost.java:288-299 | a neighbour that is outside the grid, a wall or already visited is skipped, leaving the queue and the discovery records as they were; an open unvisited neighbour is marked and appended to the queue with its first step, and a returned step is an open first step of a shortest walk to the target |
| Pathfinder.Mark | src/Ghost.java:293-295 | after marking, `visited` holds exactly the enqueued tiles and `firstMove` holds each one's first step |
| Pathfinder.Enqueue | src/Ghost.java:292-295 | enqueuing an unvisited open neighbour keeps the search tree, the one-position-per-tile index, the level ordering and the coverage of short walks |
| Pathfinder.NextLevel | src/Ghost.java:284-286 | polling the next tile keeps the queue within one BFS level of it, and every walk of at most its level ends on an enqueued tile |
| Pathfinder.Discovered | src/Ghost.java:297-299 | when the target is discovered, its recorded first move starts a shortest walk to it |
| Pathfinder.Exhausted | src/Ghost.java:284-302 | when the queue empties without discovering the target, no walk reaches the target |
| Pathfinder.WalkTo | src/Ghost.java:295 | every enqueued tile is reached by a walk as long as its level, whose first step is its `firstMove` |
| Pathfinder.ClosedHoldsWalks | src/Ghost.java:284-301 | once every enqueued tile has been expanded, no walk leaves the enqueued set |
| Pathfinder.ExtendCoverage | src/Ghost.java:284-301 | expanding all tiles of level n extends the coverage of walks from n steps to n + 1 steps |
| Ghosts.Clamp | src/Ghost.java:208-210 | the result lies in [lo, hi]; a value already inside is unchanged; values below or above go to lo or hi |
| Ghosts.Opposite | src/Ghost.java:225-233 | for a direction in 0..3, the result is another direction whose row and column offsets are negated; any other input gives -1 |
| Ghosts.OppositeInvolution | src/Ghost.java:225-233 | reversing twice gives back the direction; a step and its reverse return to the starting tile |
| Ghosts.CanMove | src/Ghost.java:217-223 | true exactly when the neighbour one step in direction d is inside the grid and open, the walkability test the search and the fallbacks share |
| Ghosts.CanMoveBack | src/Ghost.java:217-223 | a ghost that steps from an open tile onto a neighbour can always step back |
| Ghosts.Velocity | src/Ghost.java:195-200 | the velocity of direction d has the ghost's speed and points along d's offsets |
| Ghosts.AtCentre | src/Ghost.java:73-80 | the test "closer than 1.5 px to the centre of the tile the ghost is on" holds exactly when both offsets from that centre are under 1.5 px |
| Ghosts.SmallDisc | src/Ghost.java:80 | on the half-pixel grid, dx² + dy² < 9 holds exactly when both offsets are below 3 |
| Ghosts.AxisTrack | src/Ghost.java:73-90 | along one axis, a ghost k steps of 1.5 px from a tile centre toward a neighbour is on its own tile for the first 10 steps and on the neighbour from step 11; it passes the centre test only at step 0 and at step 21, 0.5 px short of the next centre |
| Ghosts.TrackPosition | src/Ghost.java:73-90 | the same on the grid: moving from an open tile toward an open neighbour, the ghost's tile is its own tile, then the neighbour, and the centre test holds only at the start and after 21 steps |
| Ghosts.TrackPointNext | src/Ghost.java:87-88 | a track starts at the tile's centre and each frame adds the velocity |
| Ghosts.TimerCheck | src/Ghost.java:66-71 | FRIGHTENED never changes; SCATTER turns to CHASE exactly when it has lasted 7000 ms; CHASE turns to SCATTER exactly when it has lasted 20000 ms; a switch restarts the timer and no switch keeps it |
| Ghosts.TimerCheckInBudget | src/Ghost.java:66-71 | after the check, SCATTER has lasted less than 7000 ms and CHASE less than 20000 ms |
| Ghosts.Facing | src/Ghost.java:108-113 | the four facing names map to the direction numbers 0..3 and every other string to -1 |
| Ghosts.Ahead | src/Ghost.java:108-113 | for a facing name with direction d, the tile moves n tiles along d's row and column offsets (the table the ghosts move by); any other string leaves it in place |
| Ghosts.ChaseTarget | src/Ghost.java:98-150 | BLINKY aims at Pac-Man's tile; PINKY's target is in the grid and is 4 tiles ahead when that is in the grid; INKY's target is in the grid and, when unclamped, mirrors BLINKY through the point 2 tiles ahead; CLYDE aims at Pac-Man beyond Manhattan distance 8 and goes home otherwise |
| Ghosts.Ghost.constructor | src/Ghost.java:30-45 | requires the spawn tile to be inside the grid, where the source's wall check reads the map; the ghost starts centred half a tile from its start corner, at rest, in CHASE, with its timer started and no last direction; spawned on the centre of an open tile (the case the constructor's wall check accepts silently), it starts on its track |
| Ghosts.Ghost.OnTrackFacts | src/Ghost.java:73-90 | a ghost on its track always stands on an open tile, so the next frame's search starts inside the grid; off a centre it is moving and short of the next centre; a moving ghost at a centre has an open neighbour |
| Ghosts.Ghost.SetState | src/Ghost.java:212-215 | sets the state and restarts its timer, and changes nothing else |
| Ghosts.Ghost.CheckPacmanCollision | src/Ghost.java:259-265 | a hit exactly when the centres are closer than 26 px; a hit implies both offsets are under 26 px; offsets summing to under 26 px imply a hit |
| Ghosts.Ghost.GetRandomDirection | src/Ghost.java:235-248 | returns -1 exactly when no neighbour is open; otherwise returns a direction onto an open tile |
| Ghosts.Ghost.CheckTimer | src/Ghost.java:66-71 | the new state and timer start are the timer check of the old ones at `now`; position, speed, target and last direction are unchanged |
| Ghosts.Ghost.ChooseTarget | src/Ghost.java:93-156 | SCATTER aims at the home corner; CHASE applies the ghost's chase rule to the tiles of Pac-Man and BLINKY; FRIGHTENED aims at some tile inside the grid; nothing else changes |
| Ghosts.Ghost.ChooseDirection | src/Ghost.java:163-190 | the fallback chain returns -1 exactly when no neighbour is open, otherwise an open direction; and a shortest first step whenever the target is reachable and is not the current tile |
| Ghosts.Ghost.Update | src/Ghost.java:65-206 | one frame: the timer check; off-centre, a step at the old velocity; at a centre, a snap to it, the new target, a committed open direction with matching velocity exactly when a neighbour is open (a shortest step when the target is reachable), the old velocity otherwise, then one step; a ghost on its track stays on it, so it never enters a wall and frames chain without end |
| Ghosts.Ghost.Turn | src/Ghost.java:92-205 | at the centre of (row, col): the state's target, an open direction with its velocity exactly when a neighbour is open (a shortest first step when the target is reachable), one step; from an open tile, at rest or with a way on, the ghost leaves on its track |
| Player.CanMove | src/PacMan.java:88-106 | the move is allowed exactly when the tiles of all four box corners are open; a corner outside the grid forbids it |
| Player.BoxOnOpenTiles | src/PacMan.java:88-106 | where the corner test passes, every point of the box lies on an open tile |
| Player.BoxInsideBorder | src/PacMan.java:88-106 | in a map with a wall border, a box that passes the corner test lies strictly inside the border tiles |
| Player.Moved | src/PacMan.java:42-48 | the step is taken exactly when the corner test passes at the new place; a clear place stays clear |
| Player.RunStaysClear | src/PacMan.java:42-48 | walls are impermeable: from a clear place, any number of frames with any velocities ends at a clear place |
| Player.ReachOnePellet | src/PacMan.java:80-86 | pellets sit a tile apart, so Pac-Man is within reach of at most one pellet at a time |
| Player.PacMan.constructor | src/PacMan.java:16-19 | Pac-Man starts at the given corner, at rest |
| Player.PacMan.SetDirection | src/PacMan.java:21-40 | each arrow name sets full speed on its axis and stops the other; any other string leaves the velocity unchanged; the position never changes |
| Player.PacMan.Update | src/PacMan.java:42-48 | the new position is the guarded step of the old one; the velocity is unchanged |
| Player.PacMan.CheckPelletCollision | src/PacMan.java:80-86 | a hit exactly when Pac-Man's centre is closer than 12 px to the pellet, with the square and diamond bounds of that disc |
| PelletKeys.Numeral | src/Game.java:77 | the decimal text of a number is a non-empty run of digits with no leading zero |
| PelletKeys.ParseNat | src/Game.java:181-182 | parsing succeeds exactly on non-empty runs of digits |
| PelletKeys.ParseNumeral | src/Game.java:181-182 | parsing a number's decimal text gives back the number |
| PelletKeys.IndexOf | src/Game.java:180 | the first position of the character, or the length when it does not occur |
| PelletKeys.Key | src/Game.java:77 | a pellet's key is the row's decimal text, a comma, and the column's decimal text; it always holds a comma |
| PelletKeys.ParseKey | src/Game.java:180-182 | reading a key back splits it at its first comma; text with no comma is rejected |
| PelletKeys.ParseKeyOfKey | src/Game.java:180-182 | splitting the key `"row,col"` at its commas and parsing both parts gives back (row, col) |
| PelletKeys.KeyInjective | src/Game.java:77 | distinct tiles have distinct keys |
| GameLoop.OpenKeysExactly | src/Game.java:74-77 | the key of a tile is among the laid-out pellets exactly when the tile is open |
| GameLoop.OpenKeyTile | src/Game.java:74-77 | every laid-out key reads back as an open tile, and is that tile's own key |
| GameLoop.EatenAtMostOne | src/Game.java:178-192 | a frame eats at most one pellet |
| GameLoop.EatenRemoved | src/Game.java:192 | removing the eaten pellets removes exactly them |
| GameLoop.EatenStep | src/Game.java:179-191 | visiting one more pellet adds it to the eaten ones exactly when it is in reach |
| GameLoop.ElapsedSeconds | src/Game.java:194 | the running time is the paused-free milliseconds divided by 1000 toward zero: for a non-negative span, whole seconds s with 1000·s ≤ ms < 1000·s + 1000 |
| GameLoop.PauseFreezesClock | src/Game.java:194 | right after a resume, the running time shown equals the time shown when the game was paused |
| GameLoop.Game.constructor | src/Game.java:35-41 | a new game has no pellets, score 0, no paused time, and is RUNNING |
| GameLoop.StartIsClear | src/Game.java:72 | Pac-Man's starting box passes the corner test on the game's map, so wall impermeability holds from the first frame |
| GameLoop.Game.Start | src/Game.java:72-77 | Pac-Man is placed at his start corner at rest, clear of the walls on the game's map; the pellets are exactly the keys of the open tiles; the clock starts at `now` |
| GameLoop.Game.Frame | src/Game.java:159-204 | a PAUSED or stopped frame changes nothing. Otherwise Pac-Man makes his guarded step; the pellets he reaches from his new place are removed and score 10 each; the running time is (now − start − paused) / 1000 truncated; the timer stops exactly when no pellet is left. Pellets never grow |
| GameLoop.Game.EatPellets | src/Game.java:178-192 | removes exactly the pellets in reach, raising the score by 10 for each, and by at most 10 in all |
| GameLoop.Game.CollectEaten | src/Game.java:178-191 | the loop over the pellet set collects exactly the pellets in reach, in any visiting order, scoring 10 for each |
| GameLoop.Game.VisitPellet | src/Game.java:180-190 | one pellet's key is parsed into its tile centre and checked against Pac-Man's reach, and recorded and scored when reached |
| GameLoop.Game.KeyPressed | src/Game.java:142-154 | arrow keys turn Pac-Man only while RUNNING; P pauses a RUNNING game, recording when; R resumes a PAUSED one, adding the pause's length to the paused total; no other key touches the pause bookkeeping, and no key changes the start time, the running time, pellets or score |
| GameLoop.Game.PauseGame | src/Game.java:218-225 | only a RUNNING game pauses, recording when; any other state is left as it was |
| GameLoop.Game.ResumeGame | src/Game.java:227-234 | only a PAUSED game resumes, adding the pause's length to the paused total, so the running time picks up where it stopped |
| GameLoop.Game.TogglePause | src/Game.java:210-216 | RUNNING and PAUSED swap: pausing records when and leaves the paused total alone; resuming adds the pause's length to the total and leaves the pause time alone; GAME_OVER is left alone |

## Left out

- Drawing is not modelled: the frame's painting, `PacMan.draw`, `Ghost.draw`, the pause overlay, the labels and the button captions.
- Images and their loading are not modelled.
- Console messages are not modelled, including the "spawned in wall" check in the ghost constructor.
- The mouth animation in `PacMan.update` is not modelled. It affects only drawing.
- The score is not saved: `saveScore` needs the database and the session.
- The result screen (`showGameOver`) is not modelled.
- The exit button, the login, menu, history, registration and level-selection screens, and `PacManGame.java` are not part of this model.
- Floating point is not modelled: every double the game uses is a multiple of 0.5, so positions are exact half-pixel integers. `Math.hypot` and `Math.sqrt` comparisons become comparisons of squares.
- The `long`→`int` cast of the elapsed time and the `double`→`int` tile casts are not modelled as narrowing: integers are unbounded (the tile casts' truncation toward zero is modelled, by `Maze.TruncDiv`).
- Ghosts.Ghost.Update: reads the clock once per frame, where the source reads it twice (once for the elapsed time, once more inside `setState`).
- Ghosts.Ghost.Update: requires that a ghost at a tile centre stands inside the grid. The source would index `visited[startRow][startCol]` out of bounds otherwise. A ghost on its track (`OnTrack`) always meets this, by `OnTrackFacts`.
- Pathfinder.BfsDirection: the queue is a sequence with a read index rather than a linked list. The loop bodies are split into `ExpandTile` and `VisitNeighbour`.
- Nothing in `Game.java`'s frame handler moves the ghosts, so no ghost is wired into `Game`. The ghost and Pac-Man collision test is modelled on its own.
- GAME_OVER is never assigned in the source. The end of the game is the timer's `stop()`, modelled as the `finished` flag that makes later frames do nothing.
- PelletKeys.ParseKey: does not accept signs or other forms that `Integer.parseInt` takes. Only keys that the game itself writes (non-negative numerals) reach it.
- GameLoop.Game.Frame: the `Integer.parseInt` failure path is excluded by the invariant that every pellet key is the key of an open tile.
