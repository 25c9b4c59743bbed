/** The fixed maze of the game: grid dimensions, tile size and the wall/open map,
    plus the integer arithmetic every agent uses to turn a position into a tile.

    Positions throughout the model are measured in HALF-PIXELS: every coordinate,
    speed and size the game uses is a multiple of 0.5 pixel, so doubling them gives
    exact integers. */
module Maze {

  /** Side of one tile, in pixels. */
  const TILE_SIZE := 32
  const ROWS := 15
  const COLS := 20

  /** Half-pixels per pixel. */
  const SCALE := 2
  /** Side of one tile, in half-pixels. */
  const TILE := TILE_SIZE * SCALE

  /** 1 is a wall, 0 is open. */
  const MAP: seq<seq<int>> := [
    [1,1,1,1,1,1,1,1,1,1,1,1,1,1,1,1,1,1,1,1],
    [1,0,0,0,0,0,0,1,0,0,0,0,0,1,0,0,0,0,0,1],
    [1,0,1,1,1,0,1,1,1,0,1,1,1,1,0,1,1,1,0,1],
    [1,0,1,0,0,0,0,0,1,0,1,0,0,0,0,0,0,1,0,1],
    [1,0,1,0,1,1,1,0,1,0,1,0,1,1,1,1,0,1,0,1],
    [1,0,0,0,0,0,1,0,0,0,1,0,0,0,0,1,0,0,0,1],
    [1,1,1,1,1,0,1,1,1,1,1,1,1,1,0,1,1,1,1,1],
    [1,0,0,0,1,0,0,0,0,0,0,0,0,1,0,0,0,0,0,1],
    [1,0,1,0,1,1,1,1,1,1,1,1,0,1,1,1,1,1,0,1],
    [1,0,1,0,0,0,0,0,0,0,0,1,0,0,0,0,0,1,0,1],
    [1,0,1,1,1,1,1,1,1,1,0,1,1,1,1,1,0,1,0,1],
    [1,0,0,0,0,0,0,0,0,0,0,0,0,0,0,0,0,1,0,1],
    [1,0,1,1,1,1,1,1,1,1,1,1,1,1,1,1,1,1,0,1],
    [1,0,0,0,0,0,0,0,0,0,0,0,0,0,0,0,0,0,0,1],
    [1,1,1,1,1,1,1,1,1,1,1,1,1,1,1,1,1,1,1,1]
  ]

  /** A tile address (row, col). */
  type Tile = (int, int)

  /** A wall/open map, as the game stores it: one row of cells per grid row. */
  type Grid = seq<seq<int>>

  predicate InBounds(row: int, col: int) {
    0 <= row < ROWS && 0 <= col < COLS
  }

  /** The grid is a ROWS x COLS rectangle. */
  predicate Shaped(g: Grid) {
    |g| == ROWS && forall r :: 0 <= r < ROWS ==> |g[r]| == COLS
  }

  /** The walkability test shared by every collision and path decision:
      out-of-bounds tiles are impassable. */
  predicate Open(g: Grid, row: int, col: int) {
    InBounds(row, col) && row < |g| && col < |g[row]| && g[row][col] == 0
  }

  /** Every cell on the border of the grid is a wall. */
  predicate Walled(g: Grid) {
    && (forall c :: 0 <= c < COLS ==> !Open(g, 0, c) && !Open(g, ROWS - 1, c))
    && (forall r :: 0 <= r < ROWS ==> !Open(g, r, 0) && !Open(g, r, COLS - 1))
  }

  /** The game's map is a 15 x 20 rectangle whose border is all wall. */
  lemma MapFacts()
    ensures Shaped(MAP) && Walled(MAP)
  {
    var wallRow := seq(COLS, _ => 1);
    assert MAP[0] == wallRow && MAP[ROWS - 1] == wallRow;
    var leftColumn := seq(ROWS, r requires 0 <= r < ROWS => MAP[r][0]);
    var rightColumn := seq(ROWS, r requires 0 <= r < ROWS => MAP[r][COLS - 1]);
    assert leftColumn == rightColumn == seq(ROWS, _ => 1);
    forall r | 0 <= r < ROWS
      ensures !Open(MAP, r, 0) && !Open(MAP, r, COLS - 1)
    {
      assert leftColumn[r] == rightColumn[r] == 1;
    }
  }

  /** Row and column offsets of the four directions 0 = UP, 1 = DOWN, 2 = LEFT, 3 = RIGHT. */
  function DirRow(d: int): int
    requires 0 <= d < 4
  {
    [-1, 1, 0, 0][d]
  }

  function DirCol(d: int): int
    requires 0 <= d < 4
  {
    [0, 0, -1, 1][d]
  }

  /** The tile one step from t in direction d. */
  function Step(t: Tile, d: int): Tile
    requires 0 <= d < 4
  {
    (t.0 + DirRow(d), t.1 + DirCol(d))
  }

  /** Every neighbour of an open tile lies inside the grid, because the border is walled. */
  lemma OpenNeighbourInBounds(g: Grid, t: Tile, d: int)
    requires Walled(g)
    requires 0 <= d < 4
    requires Open(g, t.0, t.1)
    ensures InBounds(Step(t, d).0, Step(t, d).1)
  {
    assert t.0 != 0 && t.0 != ROWS - 1 by {
      assert !Open(g, 0, t.1) && !Open(g, ROWS - 1, t.1);
    }
    assert t.1 != 0 && t.1 != COLS - 1 by {
      assert !Open(g, t.0, 0) && !Open(g, t.0, COLS - 1);
    }
  }

  /** Java's integer cast of a quotient: division that truncates toward zero. */
  function TruncDiv(a: int, b: int): (q: int)
    requires b > 0
    ensures a >= 0 ==> q == a / b
    ensures a < 0 ==> q == -((-a) / b)
  {
    if a >= 0 then a / b else -((-a) / b)
  }

  /** TruncDiv rounds toward zero: the quotient times b never overshoots a in size and
      falls short of it by less than b, and negating a negates the quotient (where
      Dafny's own division, which for a positive divisor rounds down, would not). */
  lemma {:induction false} TruncDivTowardZero(a: int, b: int)
    requires b > 0
    ensures a >= 0 ==> TruncDiv(a, b) * b <= a < TruncDiv(a, b) * b + b
    ensures a < 0 ==> TruncDiv(a, b) * b - b < a <= TruncDiv(a, b) * b
    ensures TruncDiv(-a, b) == -TruncDiv(a, b)
  {
    if a >= 0 {
      assert a == (a / b) * b + a % b && 0 <= a % b < b;
    } else {
      var m := -a;
      assert m == (m / b) * b + m % b && 0 <= m % b < b;
      assert TruncDiv(a, b) * b == -((m / b) * b);
    }
    if a == 0 {
    } else if a > 0 {
      assert TruncDiv(-a, b) == -(a / b);
    } else {
      assert TruncDiv(-a, b) == (-a) / b;
    }
  }

  /** The tile index of a coordinate (in half-pixels), as the source computes it. */
  function TileOf(v: int): int {
    TruncDiv(v, TILE)
  }

  /** Tile indices never decrease along an axis, and two coordinates less than a
      tile apart have tile indices at most one apart. Truncation makes tile 0 span
      (-TILE, TILE), so the second fact needs only b - a < TILE. */
  lemma {:induction false} TileOfSpread(a: int, b: int)
    requires a <= b
    ensures TileOf(a) <= TileOf(b)
    ensures b - a < TILE ==> TileOf(b) <= TileOf(a) + 1
  {
  }

  /** Every non-negative coordinate within tile t's span has tile index t. */
  lemma {:induction false} TileOfWithin(v: int, t: nat)
    requires t * TILE <= v < t * TILE + TILE
    ensures TileOf(v) == t
  {
    assert v == (v / TILE) * TILE + v % TILE && 0 <= v % TILE < TILE;
  }

  /** The centre of a tile lies on that tile. */
  lemma {:induction false} TileOfCentre(t: nat)
    ensures TileOf(CentreOf(t)) == t
  {
  }

  /** The coordinate (in half-pixels) of the centre of tile index t. */
  function CentreOf(t: int): int {
    t * TILE + TILE / 2
  }

  function Abs(v: int): (r: nat)
    ensures r == v || r == -v
  {
    if v < 0 then -v else v
  }

  lemma {:induction false} SquareMonotone(a: nat, b: nat)
    requires a <= b
    ensures a * a <= b * b
  {
    assert a * a <= a * b <= b * b;
  }

  lemma {:induction false} SquareOfAbs(v: int)
    ensures v * v == Abs(v) * Abs(v)
  {
    if v < 0 {
      assert v * v == (-v) * (-v);
    }
  }

  /** Squaring a sum of naturals gives at least the sum of the squares. */
  lemma {:induction false} SquareOfSum(a: nat, b: nat)
    ensures a * a + b * b <= (a + b) * (a + b)
  {
    assert (a + b) * (a + b) == a * a + 2 * (a * b) + b * b;
  }

  /** The disc dx^2 + dy^2 < r^2, which the distance tests of the game use, lies
      between the diamond |dx| + |dy| < r and the square |dx|, |dy| < r. */
  lemma {:induction false} DiscBetweenDiamondAndSquare(dx: int, dy: int, r: nat)
    ensures dx * dx + dy * dy < r * r ==> Abs(dx) < r && Abs(dy) < r
    ensures Abs(dx) + Abs(dy) < r ==> dx * dx + dy * dy < r * r
  {
    var a, b := Abs(dx), Abs(dy);
    SquareOfAbs(dx);
    SquareOfAbs(dy);
    if r <= a {
      SquareMonotone(r, a);
    }
    if r <= b {
      SquareMonotone(r, b);
    }
    if a + b < r {
      SquareMonotone(a + b, r);
      SquareOfSum(a, b);
    }
  }
}
