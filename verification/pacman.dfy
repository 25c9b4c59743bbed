/** Pac-Man's movement and pellet pickup (PacMan.java). Pac-Man is a square box whose
    top-left corner is (x, y); a move is taken only when the four corners of the box
    at the new place lie on open tiles.

    Positions are in half-pixels (see Maze). */
module Player {
  import opened Maze

  /** Side of the box: 22 pixels. */
  const SIZE := 44
  /** Offset from the box's near edge to its far edge, SIZE - 1 pixels. */
  const EXTENT := 42
  /** 2.5 pixels per frame. */
  const SPEED := 5
  /** A pellet is eaten when Pac-Man's centre is closer than 12 pixels to it. */
  const EAT_RADIUS := 24

  /** The corner test at (nx, ny): each corner's tile is found by truncating division;
      a corner outside the grid, or on a wall, blocks the move. */
  function CanMove(g: Grid, nx: int, ny: int): (ok: bool)
    requires Shaped(g)
    ensures ok <==>
      && Open(g, TileOf(ny), TileOf(nx)) && Open(g, TileOf(ny), TileOf(nx + EXTENT))
      && Open(g, TileOf(ny + EXTENT), TileOf(nx)) && Open(g, TileOf(ny + EXTENT), TileOf(nx + EXTENT))
    ensures !InBounds(TileOf(ny), TileOf(nx)) || !InBounds(TileOf(ny + EXTENT), TileOf(nx + EXTENT)) ==> !ok
  {
    var left, right := TileOf(nx), TileOf(nx + EXTENT);
    var top, bottom := TileOf(ny), TileOf(ny + EXTENT);
    TileOfSpread(nx, nx + EXTENT);
    TileOfSpread(ny, ny + EXTENT);
    if top < 0 || bottom >= ROWS || left < 0 || right >= COLS then false
    else g[top][left] == 0 && g[top][right] == 0 && g[bottom][left] == 0 && g[bottom][right] == 0
  }

  /** Where the corner test passes, every point of the box lies on an open tile: the
      box is narrower than a tile, so it spans at most the tiles of its corners. */
  lemma {:induction false} BoxOnOpenTiles(g: Grid, x: int, y: int, px: int, py: int)
    requires Shaped(g) && CanMove(g, x, y)
    requires x <= px <= x + EXTENT && y <= py <= y + EXTENT
    ensures Open(g, TileOf(py), TileOf(px))
  {
    TileOfSpread(x, px);
    TileOfSpread(px, x + EXTENT);
    TileOfSpread(x, x + EXTENT);
    TileOfSpread(y, py);
    TileOfSpread(py, y + EXTENT);
    TileOfSpread(y, y + EXTENT);
  }

  /** In a maze whose border is wall, a box that passes the corner test stays off the
      border tiles. */
  lemma {:induction false} BoxInsideBorder(g: Grid, x: int, y: int)
    requires Shaped(g) && Walled(g) && CanMove(g, x, y)
    ensures TILE <= x && x + EXTENT < (COLS - 1) * TILE
    ensures TILE <= y && y + EXTENT < (ROWS - 1) * TILE
  {
    assert !Open(g, TileOf(y), 0) && !Open(g, TileOf(y), COLS - 1);
    assert !Open(g, 0, TileOf(x)) && !Open(g, ROWS - 1, TileOf(x));
  }

  /** Where a frame's move leaves Pac-Man at (x, y) moving at (sx, sy): the move is
      taken exactly when the corner test passes at the new place. */
  function Moved(g: Grid, x: int, y: int, sx: int, sy: int): (p: (int, int))
    requires Shaped(g)
    ensures CanMove(g, x + sx, y + sy) ==> p == (x + sx, y + sy)
    ensures !CanMove(g, x + sx, y + sy) ==> p == (x, y)
    ensures CanMove(g, x, y) ==> CanMove(g, p.0, p.1)
  {
    if CanMove(g, x + sx, y + sy) then (x + sx, y + sy) else (x, y)
  }

  /** Where Pac-Man ends after one frame per velocity in vs. */
  function Run(g: Grid, x: int, y: int, vs: seq<(int, int)>): (int, int)
    requires Shaped(g)
    decreases |vs|
  {
    if |vs| == 0 then (x, y)
    else
      var p := Moved(g, x, y, vs[0].0, vs[0].1);
      Run(g, p.0, p.1, vs[1..])
  }

  /** Walls are impermeable: from a place that passes the corner test, every sequence
      of frames, whatever the velocities, ends at a place that passes it. */
  lemma {:induction false} RunStaysClear(g: Grid, x: int, y: int, vs: seq<(int, int)>)
    requires Shaped(g) && CanMove(g, x, y)
    ensures CanMove(g, Run(g, x, y, vs).0, Run(g, x, y, vs).1)
    decreases |vs|
  {
    if |vs| > 0 {
      var p := Moved(g, x, y, vs[0].0, vs[0].1);
      RunStaysClear(g, p.0, p.1, vs[1..]);
    }
  }

  /** Pac-Man's centre (x + SIZE / 2, y + SIZE / 2) is within reach of (px, py). */
  predicate InReach(x: int, y: int, px: int, py: int) {
    var dx := x + SIZE / 2 - px;
    var dy := y + SIZE / 2 - py;
    dx * dx + dy * dy < EAT_RADIUS * EAT_RADIUS
  }

  /** Pellets sit at tile centres, a tile apart, and the reach is less than half a
      tile: Pac-Man is within reach of at most one pellet at a time. */
  lemma {:induction false} ReachOnePellet(x: int, y: int, r1: int, c1: int, r2: int, c2: int)
    requires InReach(x, y, CentreOf(c1), CentreOf(r1))
    requires InReach(x, y, CentreOf(c2), CentreOf(r2))
    ensures r1 == r2 && c1 == c2
  {
    var cx, cy := x + SIZE / 2, y + SIZE / 2;
    DiscBetweenDiamondAndSquare(cx - CentreOf(c1), cy - CentreOf(r1), EAT_RADIUS);
    DiscBetweenDiamondAndSquare(cx - CentreOf(c2), cy - CentreOf(r2), EAT_RADIUS);
    assert -2 * EAT_RADIUS < TILE * (c1 - c2) < 2 * EAT_RADIUS;
    assert -2 * EAT_RADIUS < TILE * (r1 - r2) < 2 * EAT_RADIUS;
  }

  class PacMan {
    /** Top-left corner of the box, in half-pixels. */
    var x: int
    var y: int
    var speedX: int
    var speedY: int

    constructor (startX: int, startY: int)
      ensures x == startX && y == startY && speedX == 0 && speedY == 0
    {
      x, y := startX, startY;
      speedX, speedY := 0, 0;
    }

    /** Turns Pac-Man: one axis gets the full speed, the other stops; any other string
        leaves the velocity as it was. */
    method SetDirection(dir: string)
      modifies this
      ensures dir == "UP" ==> speedX == 0 && speedY == -SPEED
      ensures dir == "DOWN" ==> speedX == 0 && speedY == SPEED
      ensures dir == "LEFT" ==> speedX == -SPEED && speedY == 0
      ensures dir == "RIGHT" ==> speedX == SPEED && speedY == 0
      ensures dir !in {"UP", "DOWN", "LEFT", "RIGHT"} ==> speedX == old(speedX) && speedY == old(speedY)
      ensures x == old(x) && y == old(y)
    {
      match dir {
        case "UP" =>
          speedX, speedY := 0, -SPEED;
        case "DOWN" =>
          speedX, speedY := 0, SPEED;
        case "LEFT" =>
          speedX, speedY := -SPEED, 0;
        case "RIGHT" =>
          speedX, speedY := SPEED, 0;
        case _ =>
      }
    }

    /** One frame of movement. */
    method Update(g: Grid)
      requires Shaped(g)
      modifies this
      ensures (x, y) == Moved(g, old(x), old(y), speedX, speedY)
      ensures speedX == old(speedX) && speedY == old(speedY)
    {
      var nextX := x + speedX;
      var nextY := y + speedY;
      if CanMove(g, nextX, nextY) {
        x, y := nextX, nextY;
      }
    }

    /** Whether a pellet at (px, py) is within reach. */
    function CheckPelletCollision(px: int, py: int): (hit: bool)
      reads this
      ensures hit <==> InReach(x, y, px, py)
      ensures hit ==> Abs(x + SIZE / 2 - px) < EAT_RADIUS && Abs(y + SIZE / 2 - py) < EAT_RADIUS
      ensures Abs(x + SIZE / 2 - px) + Abs(y + SIZE / 2 - py) < EAT_RADIUS ==> hit
    {
      DiscBetweenDiamondAndSquare(x + SIZE / 2 - px, y + SIZE / 2 - py, EAT_RADIUS);
      var pacCentreX, pacCentreY := x + SIZE / 2, y + SIZE / 2;
      var dx, dy := pacCentreX - px, pacCentreY - py;
      dx * dx + dy * dy < EAT_RADIUS * EAT_RADIUS
    }
  }
}
