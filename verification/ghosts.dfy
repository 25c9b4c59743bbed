/** A ghost: its SCATTER/CHASE/FRIGHTENED state machine driven by a timer, its four
    targeting rules, and its movement between tile centres, where it chooses a new
    direction by breadth-first search with a chain of fallbacks (Ghost.java).

    Positions are in half-pixels (see Maze); the clock is the parameter `now`, in
    milliseconds; the source's random choices are nondeterministic choices. */
module Ghosts {
  import opened Maze
  import Pathfinder

  datatype GhostType = Blinky | Pinky | Inky | Clyde
  datatype GhostState = Scatter | Chase | Frightened

  /** 1.5 pixels per frame. */
  const SPEED := 3
  /** How long SCATTER and CHASE last before the timer switches them, in ms. */
  const SCATTER_MS := 7000
  const CHASE_MS := 20000
  /** Tiles PINKY aims ahead of Pac-Man, tiles INKY looks ahead before doubling. */
  const PINKY_AHEAD := 4
  const INKY_AHEAD := 2
  /** CLYDE chases only while farther than this many tiles (Manhattan distance). */
  const CLYDE_RANGE := 8
  /** Radii used by the collision test, in half-pixels: Pac-Man 11 px, a ghost
      20 px (half its 40 px size), less 5 px of slack. */
  const PACMAN_RADIUS := 22
  const GHOST_RADIUS := 40
  const COLLISION_SLACK := 10

  // ---------------------------------------------------------------------------
  // Pure helpers

  function Clamp(v: int, lo: int, hi: int): (r: int)
    ensures lo <= hi ==> lo <= r <= hi
    ensures lo <= v <= hi ==> r == v
    ensures lo <= hi && v < lo ==> r == lo
    ensures lo <= hi && hi < v ==> r == hi
  {
    var m := if hi < v then hi else v;
    if lo < m then m else lo
  }

  /** The reverse direction: UP and DOWN swap, LEFT and RIGHT swap, anything else
      has none. */
  function Opposite(d: int): (r: int)
    ensures 0 <= d < 4 ==> 0 <= r < 4 && r != d && DirRow(r) == -DirRow(d) && DirCol(r) == -DirCol(d)
    ensures !(0 <= d < 4) ==> r == -1
  {
    match d
    case 0 => 1
    case 1 => 0
    case 2 => 3
    case 3 => 2
    case _ => -1
  }

  lemma {:induction false} OppositeInvolution(d: int)
    requires 0 <= d < 4
    ensures Opposite(Opposite(d)) == d
    ensures Step(Step((0, 0), d), Opposite(d)) == (0, 0)
  {
  }

  /** Moving from (row, col) in direction d lands on an open tile inside the grid. */
  predicate CanMove(g: Grid, row: int, col: int, d: int): (ok: bool)
    requires 0 <= d < 4
    ensures ok <==> Open(g, Step((row, col), d).0, Step((row, col), d).1)
    ensures ok ==> InBounds(row + DirRow(d), col + DirCol(d))
  {
    var nr, nc := row + DirRow(d), col + DirCol(d);
    0 <= nr < ROWS && 0 <= nc < COLS && nr < |g| && nc < |g[nr]| && g[nr][nc] == 0
  }

  /** A ghost that stepped from an open tile onto a neighbour can always step back. */
  lemma {:induction false} CanMoveBack(g: Grid, row: int, col: int, d: int)
    requires Open(g, row, col) && 0 <= d < 4 && CanMove(g, row, col, d)
    ensures CanMove(g, row + DirRow(d), col + DirCol(d), Opposite(d))
  {
  }

  predicate HasOpenNeighbour(g: Grid, row: int, col: int) {
    exists d :: 0 <= d < 4 && CanMove(g, row, col, d)
  }

  /** The velocity (speedX, speedY) of a ghost moving in direction d. */
  function Velocity(d: int): (v: (int, int))
    requires 0 <= d < 4
    ensures v.0 * v.0 + v.1 * v.1 == SPEED * SPEED
    ensures v.0 == SPEED * DirCol(d) && v.1 == SPEED * DirRow(d)
  {
    match d
    case 0 => (0, -SPEED)
    case 1 => (0, SPEED)
    case 2 => (-SPEED, 0)
    case 3 => (SPEED, 0)
  }

  /** The ghost stands within 1.5 pixels of the centre of the tile it is on. On the
      half-pixel grid that disc is the square of offsets below 1.5 pixels. */
  predicate AtCentre(x: int, y: int): (ok: bool)
    ensures ok <==> Abs(x - CentreOf(TileOf(x))) < 3 && Abs(y - CentreOf(TileOf(y))) < 3
  {
    var dx := x - CentreOf(TileOf(x));
    var dy := y - CentreOf(TileOf(y));
    SmallDisc(dx, dy);
    dx * dx + dy * dy < 9
  }

  /** Among integers, dx^2 + dy^2 < 9 holds exactly when both offsets are below 3. */
  lemma {:induction false} SmallDisc(dx: int, dy: int)
    ensures dx * dx + dy * dy < 9 <==> Abs(dx) < 3 && Abs(dy) < 3
  {
    SquareOfAbs(dx);
    SquareOfAbs(dy);
    if Abs(dx) >= 3 {
      SquareMonotone(3, Abs(dx));
    }
    if Abs(dy) >= 3 {
      SquareMonotone(3, Abs(dy));
    }
    if Abs(dx) < 3 && Abs(dy) < 3 {
      SquareMonotone(Abs(dx), 2);
      SquareMonotone(Abs(dy), 2);
    }
  }

  /** Frames a moving ghost takes from one tile centre to the next: 21 steps of 3
      half-pixels end 1 half-pixel short of it (64 = 21 * 3 + 1), within the distance
      at which the ghost snaps onto the centre. */
  const STEPS_PER_TILE := 21

  /** Along one axis: a coordinate k steps of 3 from the centre of tile t, moving in
      sign s toward tile t + s, lies on t for the first half of the way and on t + s
      for the second, and is within 3 of its tile's centre only at the two ends. */
  lemma {:induction false} AxisTrack(t: nat, s: int, k: int)
    requires -1 <= s <= 1 && 0 <= t + s && 0 <= k <= STEPS_PER_TILE
    ensures var v := CentreOf(t) + k * (SPEED * s);
      && TileOf(v) == (if s == 0 || 2 * k < STEPS_PER_TILE then t else t + s)
      && (Abs(v - CentreOf(TileOf(v))) < 3 <==> s == 0 || k == 0 || k == STEPS_PER_TILE)
  {
    var v := CentreOf(t) + k * (SPEED * s);
    if s == 0 {
      assert v == CentreOf(t);
      TileOfWithin(v, t);
    } else if s == 1 {
      assert v == t * TILE + TILE / 2 + 3 * k;
      if 2 * k < STEPS_PER_TILE {
        TileOfWithin(v, t);
      } else {
        TileOfWithin(v, t + 1);
      }
    } else {
      assert v == t * TILE + TILE / 2 - 3 * k;
      if 2 * k < STEPS_PER_TILE {
        TileOfWithin(v, t);
      } else {
        TileOfWithin(v, t - 1);
      }
    }
  }

  /** Where a ghost is (x, y) after k steps in direction d from the centre of tile
      (r, c). */
  function TrackPoint(r: int, c: int, d: int, k: int): (int, int)
    requires 0 <= d < 4
  {
    (CentreOf(c) + k * Velocity(d).0, CentreOf(r) + k * Velocity(d).1)
  }

  /** Step 0 is the centre, and each step adds the velocity. */
  lemma {:induction false} TrackPointNext(r: int, c: int, d: int, k: int)
    requires 0 <= d < 4
    ensures TrackPoint(r, c, d, 0) == (CentreOf(c), CentreOf(r))
    ensures TrackPoint(r, c, d, k + 1) == (TrackPoint(r, c, d, k).0 + Velocity(d).0, TrackPoint(r, c, d, k).1 + Velocity(d).1)
  {
    var v := Velocity(d);
    assert (k + 1) * v.0 == k * v.0 + v.0 && (k + 1) * v.1 == k * v.1 + v.1;
  }

  /** A ghost k steps out from the centre of open tile (r, c), moving in direction d
      toward an open neighbour, is on (r, c) for the first half of the way and on the
      neighbour for the second; it counts as at a centre only at the start and after
      the last step. */
  lemma {:induction false} TrackPosition(g: Grid, r: int, c: int, d: int, k: int)
    requires Open(g, r, c) && 0 <= d < 4 && CanMove(g, r, c, d) && 0 <= k <= STEPS_PER_TILE
    ensures var (x, y) := TrackPoint(r, c, d, k);
      && (TileOf(y), TileOf(x)) == (if 2 * k < STEPS_PER_TILE then (r, c) else Step((r, c), d))
      && (AtCentre(x, y) <==> k == 0 || k == STEPS_PER_TILE)
  {
    AxisTrack(c, DirCol(d), k);
    AxisTrack(r, DirRow(d), k);
    assert DirRow(d) == 0 || DirCol(d) == 0;
  }

  /** The collision test between a ghost centred at (x, y) and Pac-Man at (pacX, pacY):
      the centres are closer than the sum of the radii less the slack. */
  predicate Touches(x: int, y: int, pacX: int, pacY: int) {
    var reach := PACMAN_RADIUS + GHOST_RADIUS - COLLISION_SLACK;
    (x - pacX) * (x - pacX) + (y - pacY) * (y - pacY) < reach * reach
  }

  // ---------------------------------------------------------------------------
  // The state timer

  /** The state and timer start after the timer check at time `now`: SCATTER turns to
      CHASE once it has lasted SCATTER_MS, CHASE turns to SCATTER once it has lasted
      CHASE_MS, and a switch restarts the timer. */
  function TimerCheck(state: GhostState, start: int, now: int): (r: (GhostState, int))
    ensures r.0 == Frightened <==> state == Frightened
    ensures r.0 == state ==> r.1 == start
    ensures r.0 != state ==> r.1 == now
    ensures state == Scatter ==> (r.0 == Chase <==> now - start >= SCATTER_MS)
    ensures state == Chase ==> (r.0 == Scatter <==> now - start >= CHASE_MS)
  {
    if state == Scatter && now - start >= SCATTER_MS then (Chase, now)
    else if state == Chase && now - start >= CHASE_MS then (Scatter, now)
    else (state, start)
  }

  /** After the check, neither SCATTER nor CHASE has overrun its duration, provided the
      clock has not gone backwards since the timer started. */
  lemma {:induction false} TimerCheckInBudget(state: GhostState, start: int, now: int)
    requires start <= now
    ensures var r := TimerCheck(state, start, now);
      && r.1 <= now
      && (r.0 == Scatter ==> now - r.1 < SCATTER_MS)
      && (r.0 == Chase ==> now - r.1 < CHASE_MS)
  {
  }

  // ---------------------------------------------------------------------------
  // Targeting

  /** The direction number (0 = UP, 1 = DOWN, 2 = LEFT, 3 = RIGHT) of Pac-Man's facing
      name, or -1 for any other string. */
  function Facing(facing: string): (d: int)
    ensures -1 <= d < 4
    ensures d == -1 <==> facing !in {"UP", "DOWN", "LEFT", "RIGHT"}
  {
    if facing == "UP" then 0
    else if facing == "DOWN" then 1
    else if facing == "LEFT" then 2
    else if facing == "RIGHT" then 3
    else -1
  }

  /** Pac-Man's tile shifted n tiles in the direction he faces; a direction other than
      the four names leaves it where it is. */
  function Ahead(row: int, col: int, facing: string, n: int): (t: Tile)
    ensures var d := Facing(facing);
      0 <= d ==> t == (row + n * DirRow(d), col + n * DirCol(d))
    ensures Facing(facing) == -1 ==> t == (row, col)
  {
    if facing == "UP" then (row - n, col)
    else if facing == "DOWN" then (row + n, col)
    else if facing == "LEFT" then (row, col - n)
    else if facing == "RIGHT" then (row, col + n)
    else (row, col)
  }

  /** The tile a ghost aims at while chasing. (pacRow, pacCol) is Pac-Man's tile,
      (blinkyRow, blinkyCol) BLINKY's, (row, col) the ghost's own and `home` its
      scatter corner. */
  function ChaseTarget(kind: GhostType, pacRow: int, pacCol: int, facing: string,
                       blinkyRow: int, blinkyCol: int, row: int, col: int, home: Tile): (t: Tile)
    // BLINKY aims straight at Pac-Man.
    ensures kind == Blinky ==> t == (pacRow, pacCol)
    // PINKY aims four tiles ahead of Pac-Man, pulled back inside the grid.
    ensures kind == Pinky ==> InBounds(t.0, t.1)
    ensures kind == Pinky && InBounds(Ahead(pacRow, pacCol, facing, PINKY_AHEAD).0, Ahead(pacRow, pacCol, facing, PINKY_AHEAD).1) ==>
      t == Ahead(pacRow, pacCol, facing, PINKY_AHEAD)
    // INKY aims at the point two tiles ahead of Pac-Man mirrored away from BLINKY:
    // that point lies halfway between BLINKY and INKY's target.
    ensures kind == Inky ==> InBounds(t.0, t.1)
    ensures kind == Inky ==>
      var a := Ahead(pacRow, pacCol, facing, INKY_AHEAD);
      InBounds(2 * a.0 - blinkyRow, 2 * a.1 - blinkyCol) ==> t.0 - a.0 == a.0 - blinkyRow && t.1 - a.1 == a.1 - blinkyCol
    // CLYDE chases while far from Pac-Man and heads home when near.
    ensures kind == Clyde ==>
      (Abs(pacRow - row) + Abs(pacCol - col) > CLYDE_RANGE ==> t == (pacRow, pacCol)) &&
      (Abs(pacRow - row) + Abs(pacCol - col) <= CLYDE_RANGE ==> t == home)
  {
    match kind
    case Blinky => (pacRow, pacCol)
    case Pinky =>
      var a := Ahead(pacRow, pacCol, facing, PINKY_AHEAD);
      (Clamp(a.0, 0, ROWS - 1), Clamp(a.1, 0, COLS - 1))
    case Inky =>
      var a := Ahead(pacRow, pacCol, facing, INKY_AHEAD);
      var vecRow, vecCol := a.0 - blinkyRow, a.1 - blinkyCol;
      (Clamp(blinkyRow + vecRow * 2, 0, ROWS - 1), Clamp(blinkyCol + vecCol * 2, 0, COLS - 1))
    case Clyde =>
      var dist := Abs(pacRow - row) + Abs(pacCol - col);
      if dist > CLYDE_RANGE then (pacRow, pacCol) else home
  }

  // ---------------------------------------------------------------------------
  // The ghost

  class Ghost {
    /** The game's wall/open map. */
    const grid: Grid
    const kind: GhostType
    /** The corner tile the ghost heads for in SCATTER. */
    const scatterRow: int
    const scatterCol: int

    /** Centre of the ghost, in half-pixels. */
    var x: int
    var y: int
    var speedX: int
    var speedY: int
    var state: GhostState
    var targetRow: int
    var targetCol: int
    /** The last direction committed, or -1 before the first. */
    var lastDirection: int
    /** When the current state began, in ms. */
    var stateStartTime: int

    /** The ghost's track: it left the centre of tile (trackRow, trackCol) trackStep
        frames ago, or stands on that centre at rest. */
    ghost var trackRow: int
    ghost var trackCol: int
    ghost var trackStep: int

    ghost predicate Valid()
      reads this
    {
      Shaped(grid) && -1 <= lastDirection < 4
    }

    /** The ghost is on the segment between the centre of an open tile and the centre
        of an open neighbour, moving along it at its own speed, or at rest on the
        centre of an open tile. */
    ghost predicate OnTrack()
      reads this
    {
      && Open(grid, trackRow, trackCol)
      && 0 <= trackStep <= STEPS_PER_TILE
      && if speedX == 0 && speedY == 0 then
           trackStep == 0 && (x, y) == (CentreOf(trackCol), CentreOf(trackRow))
         else
           && 0 <= lastDirection < 4 && (speedX, speedY) == Velocity(lastDirection)
           && CanMove(grid, trackRow, trackCol, lastDirection)
           && (x, y) == TrackPoint(trackRow, trackCol, lastDirection, trackStep)
    }

    /** On its track, the ghost always stands on an open tile; it is between centres
        only while moving, and a moving ghost at a centre has an open neighbour to go
        on to. */
    lemma {:induction false} OnTrackFacts()
      requires OnTrack()
      ensures Open(grid, TileOf(y), TileOf(x))
      ensures !AtCentre(x, y) ==> 1 <= trackStep < STEPS_PER_TILE && (speedX, speedY) != (0, 0)
      ensures AtCentre(x, y) && (speedX, speedY) != (0, 0) ==> HasOpenNeighbour(grid, TileOf(y), TileOf(x))
    {
      if speedX == 0 && speedY == 0 {
        TileOfCentre(trackCol);
        TileOfCentre(trackRow);
      } else {
        TrackPosition(grid, trackRow, trackCol, lastDirection, trackStep);
        if trackStep == STEPS_PER_TILE {
          CanMoveBack(grid, trackRow, trackCol, lastDirection);
          assert CanMove(grid, TileOf(y), TileOf(x), Opposite(lastDirection));
        } else if trackStep == 0 {
          assert CanMove(grid, TileOf(y), TileOf(x), lastDirection);
        }
      }
    }

    /** A ghost placed with its top-left corner at (startX, startY), starting in CHASE
        at time `now`. */
    constructor (startX: int, startY: int, homeRow: int, homeCol: int, g: Grid, k: GhostType, now: int)
      requires Shaped(g)
      // The spawn check reads the map at the spawn tile, which must be inside the grid.
      requires InBounds(TileOf(startY + TILE / 2), TileOf(startX + TILE / 2))
      ensures Valid()
      ensures x == startX + TILE / 2 && y == startY + TILE / 2
      ensures speedX == 0 && speedY == 0 && lastDirection == -1
      ensures state == Chase && stateStartTime == now
      ensures grid == g && kind == k && scatterRow == homeRow && scatterCol == homeCol
      ensures Open(g, TileOf(y), TileOf(x)) && x == CentreOf(TileOf(x)) && y == CentreOf(TileOf(y)) ==> OnTrack()
    {
      grid := g;
      kind := k;
      scatterRow, scatterCol := homeRow, homeCol;
      x, y := startX + TILE / 2, startY + TILE / 2;
      speedX, speedY := 0, 0;
      state := Chase;
      stateStartTime := now;
      targetRow, targetCol := 0, 0;
      lastDirection := -1;
      trackRow, trackCol, trackStep := TileOf(startY + TILE / 2), TileOf(startX + TILE / 2), 0;
    }

    method SetState(newState: GhostState, now: int)
      modifies this`state, this`stateStartTime
      ensures state == newState && stateStartTime == now
      ensures x == old(x) && y == old(y) && speedX == old(speedX) && speedY == old(speedY)
      ensures targetRow == old(targetRow) && targetCol == old(targetCol) && lastDirection == old(lastDirection)
    {
      state := newState;
      stateStartTime := now;
    }

    function CheckPacmanCollision(pacX: int, pacY: int): (hit: bool)
      reads this
      ensures hit <==> Touches(x, y, pacX, pacY)
      ensures hit ==> Abs(x - pacX) < 52 && Abs(y - pacY) < 52
      ensures Abs(x - pacX) + Abs(y - pacY) < 52 ==> hit
    {
      DiscBetweenDiamondAndSquare(x - pacX, y - pacY, 52);
      Touches(x, y, pacX, pacY)
    }

    /** A direction, drawn at random, among those that lead onto an open tile, or -1
        when there is none. */
    method GetRandomDirection(row: int, col: int) returns (dir: int)
      requires Valid()
      ensures dir == -1 <==> !HasOpenNeighbour(grid, row, col)
      ensures dir != -1 ==> 0 <= dir < 4 && CanMove(grid, row, col, dir)
    {
      var possible: seq<int> := [];
      var d := 0;
      while d < 4
        invariant 0 <= d <= 4
        invariant forall e :: e in possible <==> 0 <= e < d && CanMove(grid, row, col, e)
      {
        var nr, nc := row + DirRow(d), col + DirCol(d);
        if 0 <= nr < ROWS && 0 <= nc < COLS && grid[nr][nc] == 0 {
          possible := possible + [d];
        }
        d := d + 1;
      }
      if |possible| == 0 {
        forall e | 0 <= e < 4
          ensures !CanMove(grid, row, col, e)
        {
          assert e !in possible;
        }
        return -1;
      }
      var i :| 0 <= i < |possible|;
      dir := possible[i];
      assert dir in possible;
    }

    /** The timer check at the start of a frame. */
    method CheckTimer(now: int)
      modifies this`state, this`stateStartTime
      ensures (state, stateStartTime) == TimerCheck(old(state), old(stateStartTime), now)
      ensures x == old(x) && y == old(y) && speedX == old(speedX) && speedY == old(speedY)
      ensures targetRow == old(targetRow) && targetCol == old(targetCol) && lastDirection == old(lastDirection)
    {
      var elapsed := now - stateStartTime;
      if state == Scatter && elapsed >= SCATTER_MS {
        SetState(Chase, now);
      } else if state == Chase && elapsed >= CHASE_MS {
        SetState(Scatter, now);
      }
    }

    /** Sets the target tile for a ghost standing on (row, col). */
    method ChooseTarget(pacX: int, pacY: int, facing: string, blinkyX: int, blinkyY: int, row: int, col: int)
      modifies this`targetRow, this`targetCol
      ensures state == Scatter ==> (targetRow, targetCol) == (scatterRow, scatterCol)
      ensures state == Chase ==>
        (targetRow, targetCol) ==
          ChaseTarget(kind, TileOf(pacY), TileOf(pacX), facing, TileOf(blinkyY), TileOf(blinkyX), row, col, (scatterRow, scatterCol))
      ensures state == Frightened ==> InBounds(targetRow, targetCol)
      ensures x == old(x) && y == old(y) && speedX == old(speedX) && speedY == old(speedY)
      ensures state == old(state) && stateStartTime == old(stateStartTime) && lastDirection == old(lastDirection)
    {
      match state {
        case Scatter =>
          targetRow, targetCol := scatterRow, scatterCol;
        case Chase =>
          var t := ChaseTarget(kind, TileOf(pacY), TileOf(pacX), facing, TileOf(blinkyY), TileOf(blinkyX),
                               row, col, (scatterRow, scatterCol));
          targetRow, targetCol := t.0, t.1;
        case Frightened =>
          var r :| 0 <= r < ROWS;
          var c :| 0 <= c < COLS;
          targetRow, targetCol := r, c;
      }
    }

    /** The direction a ghost standing on (row, col) takes next: the search's first
        step toward the target, else a random open direction, else the reverse of the
        last direction, else the last direction, else another random one; -1 when no
        neighbour is open. */
    method ChooseDirection(row: int, col: int) returns (next: int)
      requires Valid() && InBounds(row, col)
      ensures -1 <= next < 4
      ensures next == -1 <==> !HasOpenNeighbour(grid, row, col)
      ensures next != -1 ==> CanMove(grid, row, col, next)
      ensures (row, col) != (targetRow, targetCol) && Pathfinder.Reachable(grid, (row, col), (targetRow, targetCol)) ==>
        Pathfinder.ShortestFirstStep(grid, (row, col), (targetRow, targetCol), next)
    {
      next := Pathfinder.BfsDirection(grid, row, col, targetRow, targetCol);
      if next == -1 || !CanMove(grid, row, col, next) {
        next := GetRandomDirection(row, col);
      }
      if next == -1 && lastDirection != -1 && CanMove(grid, row, col, Opposite(lastDirection)) {
        next := Opposite(lastDirection);
      }
      if next == -1 {
        if lastDirection != -1 && CanMove(grid, row, col, lastDirection) {
          next := lastDirection;
        } else {
          next := GetRandomDirection(row, col);
        }
      }
    }

    /** One frame: the timer check; then, between tile centres, a step in the current
        direction; at a centre, a snap onto it and a turn. A ghost on its track stays
        on it. */
    method Update(pacX: int, pacY: int, facing: string, blinkyX: int, blinkyY: int, now: int)
      requires Valid()
      requires AtCentre(x, y) ==> InBounds(TileOf(y), TileOf(x))
      modifies this
      ensures Valid()
      ensures old(OnTrack()) ==> OnTrack()
      ensures (state, stateStartTime) == TimerCheck(old(state), old(stateStartTime), now)
      ensures !AtCentre(old(x), old(y)) ==>
        && speedX == old(speedX) && speedY == old(speedY)
        && x == old(x) + speedX && y == old(y) + speedY
        && lastDirection == old(lastDirection)
        && targetRow == old(targetRow) && targetCol == old(targetCol)
      ensures AtCentre(old(x), old(y)) ==>
        var row, col := TileOf(old(y)), TileOf(old(x));
        && (state == Scatter ==> (targetRow, targetCol) == (scatterRow, scatterCol))
        && (state == Chase ==>
              (targetRow, targetCol) ==
                ChaseTarget(kind, TileOf(pacY), TileOf(pacX), facing, TileOf(blinkyY), TileOf(blinkyX), row, col, (scatterRow, scatterCol)))
        && (state == Frightened ==> InBounds(targetRow, targetCol))
        && (HasOpenNeighbour(grid, row, col) ==>
              && 0 <= lastDirection < 4 && CanMove(grid, row, col, lastDirection)
              && (speedX, speedY) == Velocity(lastDirection))
        && (!HasOpenNeighbour(grid, row, col) ==>
              speedX == old(speedX) && speedY == old(speedY) && lastDirection == old(lastDirection))
        && ((row, col) != (targetRow, targetCol) && Pathfinder.Reachable(grid, (row, col), (targetRow, targetCol)) ==>
              Pathfinder.ShortestFirstStep(grid, (row, col), (targetRow, targetCol), lastDirection))
        && x == CentreOf(col) + speedX && y == CentreOf(row) + speedY
    {
      ghost var onTrack := OnTrack();
      if onTrack {
        OnTrackFacts();
      }
      CheckTimer(now);

      var currentRow := TileOf(y);
      var currentCol := TileOf(x);
      var tileCentreX := CentreOf(currentCol);
      var tileCentreY := CentreOf(currentRow);
      var atCentre := (x - tileCentreX) * (x - tileCentreX) + (y - tileCentreY) * (y - tileCentreY) < 9;
      if atCentre {
        x, y := tileCentreX, tileCentreY;
      } else {
        x, y := x + speedX, y + speedY;
        if onTrack {
          TrackPointNext(trackRow, trackCol, lastDirection, trackStep);
        }
        trackStep := trackStep + 1;
        return;
      }
      Turn(pacX, pacY, facing, blinkyX, blinkyY, currentRow, currentCol);
    }

    /** The second half of a frame at the centre of (row, col): a new target, a new
        direction with its velocity when a neighbour is open (the old velocity when
        none is), and one step. A ghost on an open tile that is at rest or has a way on
        leaves on its track. */
    method Turn(pacX: int, pacY: int, facing: string, blinkyX: int, blinkyY: int, row: int, col: int)
      requires Valid() && InBounds(row, col) && (x, y) == (CentreOf(col), CentreOf(row))
      modifies this
      ensures Valid()
      ensures state == old(state) && stateStartTime == old(stateStartTime)
      ensures state == Scatter ==> (targetRow, targetCol) == (scatterRow, scatterCol)
      ensures state == Chase ==>
        (targetRow, targetCol) ==
          ChaseTarget(kind, TileOf(pacY), TileOf(pacX), facing, TileOf(blinkyY), TileOf(blinkyX), row, col, (scatterRow, scatterCol))
      ensures state == Frightened ==> InBounds(targetRow, targetCol)
      ensures HasOpenNeighbour(grid, row, col) ==>
        && 0 <= lastDirection < 4 && CanMove(grid, row, col, lastDirection)
        && (speedX, speedY) == Velocity(lastDirection)
      ensures !HasOpenNeighbour(grid, row, col) ==>
        speedX == old(speedX) && speedY == old(speedY) && lastDirection == old(lastDirection)
      ensures (row, col) != (targetRow, targetCol) && Pathfinder.Reachable(grid, (row, col), (targetRow, targetCol)) ==>
        Pathfinder.ShortestFirstStep(grid, (row, col), (targetRow, targetCol), lastDirection)
      ensures x == CentreOf(col) + speedX && y == CentreOf(row) + speedY
      ensures Open(grid, row, col) && (HasOpenNeighbour(grid, row, col) || old(speedX) == old(speedY) == 0) ==>
        OnTrack()
    {
      ChooseTarget(pacX, pacY, facing, blinkyX, blinkyY, row, col);
      var next := ChooseDirection(row, col);
      if next != -1 {
        var v := Velocity(next);
        speedX, speedY := v.0, v.1;
        lastDirection := next;
      }
      x, y := x + speedX, y + speedY;
      trackRow, trackCol, trackStep := row, col, if next != -1 then 1 else 0;
      if next != -1 {
        TrackPointNext(row, col, next, 0);
      }
    }
  }
}
