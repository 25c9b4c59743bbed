/** The game's own bookkeeping (Game.java): the pellet set laid out on the open tiles,
    the frame that moves Pac-Man, removes the pellets he reaches and scores them, the
    win test on an empty pellet set, and pausing with paused-time accounting.

    The clock is the parameter `now`, in milliseconds. */
module GameLoop {
  import opened Maze
  import opened PelletKeys
  import Player

  datatype GameState = Running | Paused | GameOver

  /** The keys the game reacts to; every other key is Other. */
  datatype KeyCode = Up | Down | Left | Right | PauseKey | ResumeKey | Other

  /** Points per pellet eaten. */
  const PELLET_SCORE := 10

  /** Pac-Man's starting corner: 1.5 tiles less 11 pixels, on both axes. */
  const PACMAN_START := TILE + TILE / 2 - 22

  /** Pac-Man's starting box lies on open tiles of the game's map, so the walls never
      let him in (Player.RunStaysClear applies from the first frame). */
  lemma {:induction false} StartIsClear()
    ensures Player.CanMove(MAP, PACMAN_START, PACMAN_START)
  {
    MapFacts();
  }

  /** The keys of the open tiles of g whose place in row-major order is before (r, c). */
  ghost function KeysBefore(g: Grid, r: int, c: int): set<string> {
    set i: nat, j: nat | i < ROWS && j < COLS && Open(g, i, j) && (i < r || (i == r && j < c)) :: Key(i, j)
  }

  /** The key of every open tile: the pellets a new game lays out. */
  ghost function OpenKeys(g: Grid): set<string> {
    KeysBefore(g, ROWS, 0)
  }

  /** The pellets a new game lays out are exactly the open tiles: the key of a tile is
      among them when, and only when, the tile is open. */
  lemma {:induction false} OpenKeysExactly(g: Grid, r: nat, c: nat)
    ensures Key(r, c) in OpenKeys(g) <==> Open(g, r, c)
  {
    if Key(r, c) in OpenKeys(g) {
      var i: nat, j: nat :| i < ROWS && j < COLS && Open(g, i, j) && Key(r, c) == Key(i, j);
      KeyInjective(r, c, i, j);
    }
  }

  /** k is the key of an open tile of g: it reads back as that tile, and is the very
      text the tile's key is written as. */
  ghost predicate IsOpenKey(g: Grid, k: string) {
    var tile := ParseKey(k);
    tile.Some? && Open(g, tile.value.0, tile.value.1) && k == Key(tile.value.0, tile.value.1)
  }

  /** Every key laid out for an open tile reads back as that tile. */
  lemma {:induction false} OpenKeyTile(g: Grid, k: string)
    requires k in OpenKeys(g)
    ensures IsOpenKey(g, k)
  {
    var i: nat, j: nat :| i < ROWS && j < COLS && Open(g, i, j) && k == Key(i, j);
    ParseKeyOfKey(i, j);
  }

  /** The pellet named by key k is within Pac-Man's reach when his box is at (x, y). */
  predicate PelletInReach(k: string, x: int, y: int) {
    var tile := ParseKey(k);
    tile.Some? && Player.InReach(x, y, CentreOf(tile.value.1), CentreOf(tile.value.0))
  }

  /** The pellets of `pellets` that Pac-Man, at (x, y), eats. */
  ghost function Eaten(pellets: set<string>, x: int, y: int): set<string> {
    set k | k in pellets && PelletInReach(k, x, y)
  }

  /** A frame eats at most one pellet, so the score rises by at most PELLET_SCORE. */
  lemma {:induction false} EatenAtMostOne(g: Grid, pellets: set<string>, x: int, y: int)
    requires forall k :: k in pellets ==> IsOpenKey(g, k)
    ensures |Eaten(pellets, x, y)| <= 1
  {
    var e := Eaten(pellets, x, y);
    if e != {} {
      var k :| k in e;
      forall k' | k' in e
        ensures k' == k
      {
        var (r1, c1) := ParseKey(k).value;
        var (r2, c2) := ParseKey(k').value;
        Player.ReachOnePellet(x, y, r1, c1, r2, c2);
      }
      assert e == {k};
    }
  }

  /** The running time shown, in whole seconds: wall-clock time since the start less
      the time spent paused, divided with truncation as Java's long division does. */
  function ElapsedSeconds(now: int, start: int, paused: int): (secs: int)
    ensures var ms := now - start - paused;
      ms >= 0 ==> 0 <= secs && secs * 1000 <= ms < secs * 1000 + 1000
    ensures var ms := now - start - paused;
      ms < 0 ==> secs <= 0 && secs * 1000 - 1000 < ms <= secs * 1000
  {
    TruncDivTowardZero(now - start - paused, 1000);
    TruncDiv(now - start - paused, 1000)
  }

  /** Time spent paused does not count: right after a resume the running time is the
      one shown when the game was paused. */
  lemma {:induction false} PauseFreezesClock(start: int, paused: int, pauseAt: int, resumeAt: int)
    ensures ElapsedSeconds(resumeAt, start, paused + (resumeAt - pauseAt)) == ElapsedSeconds(pauseAt, start, paused)
  {
  }

  class Game {
    /** The wall/open maze (1 = wall, 0 = open). */
    const maze: Grid
    var startTime: int
    var pauseStartTime: int
    var totalPausedDuration: int
    var elapsedSeconds: int
    var score: int
    var gameState: GameState
    var pellets: set<string>
    var pacman: Player.PacMan?
    /** Whether the frame timer has been stopped, at the end of the game. */
    var finished: bool

    /** What every frame relies on: a ROWS x COLS maze, Pac-Man in place, and only
        keys of open tiles in the pellet set. */
    ghost predicate Valid()
      reads this`pacman, this`pellets
    {
      Shaped(maze) && pacman != null && forall k :: k in pellets ==> IsOpenKey(maze, k)
    }

    /** A game before `start`: no pellets, no Pac-Man, score 0, running. */
    constructor (g: Grid)
      ensures maze == g && pellets == {} && pacman == null
      ensures score == 0 && gameState == Running && !finished
      ensures pauseStartTime == 0 && totalPausedDuration == 0
    {
      maze := g;
      startTime, pauseStartTime, totalPausedDuration, elapsedSeconds := 0, 0, 0, 0;
      score := 0;
      gameState := Running;
      pellets := {};
      pacman := null;
      finished := false;
    }

    /** Lays out the game: Pac-Man at his start, one pellet per open tile, the clock
        started at `now`. */
    method Start(now: int)
      requires Shaped(maze) && pellets == {}
      modifies this
      ensures Valid()
      ensures fresh(pacman) && pacman.x == PACMAN_START && pacman.y == PACMAN_START
      ensures pacman.speedX == 0 && pacman.speedY == 0
      ensures pellets == OpenKeys(maze)
      ensures maze == MAP ==> Player.CanMove(maze, pacman.x, pacman.y)
      ensures startTime == now && elapsedSeconds == old(elapsedSeconds)
      ensures score == old(score) && gameState == old(gameState) && finished == old(finished)
      ensures pauseStartTime == old(pauseStartTime) && totalPausedDuration == old(totalPausedDuration)
    {
      pacman := new Player.PacMan(PACMAN_START, PACMAN_START);
      var r := 0;
      while r < ROWS
        invariant 0 <= r <= ROWS
        modifies this`pellets
        invariant pellets == KeysBefore(maze, r, 0)
      {
        var c := 0;
        while c < COLS
          invariant 0 <= c <= COLS
          modifies this`pellets
          invariant pellets == KeysBefore(maze, r, c)
        {
          if maze[r][c] == 0 {
            pellets := pellets + {Key(r, c)};
          }
          NextKeys(maze, r, c);
          c := c + 1;
        }
        assert KeysBefore(maze, r, COLS) == KeysBefore(maze, r + 1, 0);
        r := r + 1;
      }
      forall k | k in pellets
        ensures IsOpenKey(maze, k)
      {
        OpenKeyTile(maze, k);
      }
      if maze == MAP {
        StartIsClear();
      }
      startTime := now;
    }

    /** One frame of the game timer: nothing while paused or once the timer has been
        stopped; otherwise Pac-Man moves, the pellets he reaches are removed and scored,
        the running time is updated, and an empty pellet set stops the timer. */
    method Frame(now: int)
      requires Valid()
      modifies this, pacman
      ensures Valid()
      ensures pacman == old(pacman) && gameState == old(gameState)
      ensures pellets <= old(pellets)
      ensures old(gameState) == Paused || old(finished) ==>
        && pellets == old(pellets) && score == old(score) && finished == old(finished)
        && elapsedSeconds == old(elapsedSeconds)
        && pacman.x == old(pacman.x) && pacman.y == old(pacman.y)
      ensures old(gameState) != Paused && !old(finished) ==>
        && (pacman.x, pacman.y) == Player.Moved(maze, old(pacman.x), old(pacman.y), pacman.speedX, pacman.speedY)
        && pellets == old(pellets) - Eaten(old(pellets), pacman.x, pacman.y)
        && score == old(score) + PELLET_SCORE * |Eaten(old(pellets), pacman.x, pacman.y)|
        && elapsedSeconds == ElapsedSeconds(now, startTime, totalPausedDuration)
        && (finished <==> pellets == {})
      ensures pacman.speedX == old(pacman.speedX) && pacman.speedY == old(pacman.speedY)
      ensures startTime == old(startTime) && totalPausedDuration == old(totalPausedDuration)
      ensures pauseStartTime == old(pauseStartTime)
    {
      if gameState == Paused || finished {
        return;
      }
      pacman.Update(maze);
      EatPellets();
      elapsedSeconds := ElapsedSeconds(now, startTime, totalPausedDuration);
      if pellets == {} {
        // Saving the score and showing the result screen are not modelled.
        finished := true;
      }
    }

    /** Removes the pellets Pac-Man reaches where he now stands, scoring each. */
    method EatPellets()
      requires Valid()
      modifies this`pellets, this`score
      ensures Valid()
      ensures pellets == old(pellets) - Eaten(old(pellets), pacman.x, pacman.y)
      ensures score == old(score) + PELLET_SCORE * |Eaten(old(pellets), pacman.x, pacman.y)|
      ensures old(score) <= score <= old(score) + PELLET_SCORE
    {
      EatenAtMostOne(maze, pellets, pacman.x, pacman.y);
      var eaten := CollectEaten();
      pellets := pellets - eaten;
    }

    /** The pellets Pac-Man reaches this frame, found by visiting the pellet set in some
        order, with the score raised for each. */
    method CollectEaten() returns (eaten: set<string>)
      requires pacman != null && forall k :: k in pellets ==> ParseKey(k).Some?
      modifies this`score
      ensures eaten == Eaten(pellets, pacman.x, pacman.y)
      ensures score == old(score) + PELLET_SCORE * |eaten|
    {
      eaten := {};
      var remaining := pellets;
      while remaining != {}
        invariant remaining <= pellets
        invariant eaten == Eaten(pellets - remaining, pacman.x, pacman.y)
        invariant score == old(score) + PELLET_SCORE * |eaten|
        decreases |remaining|
      {
        var p :| p in remaining;
        ghost var visited := pellets - remaining;
        eaten := VisitPellet(p, visited, eaten);
        remaining := remaining - {p};
        assert pellets - remaining == visited + {p};
      }
    }

    /** Checks the one pellet p against Pac-Man's reach, recording it and scoring it
        when he reaches it. */
    method VisitPellet(p: string, ghost visited: set<string>, eaten: set<string>) returns (eaten': set<string>)
      requires pacman != null && ParseKey(p).Some? && p !in visited
      requires eaten == Eaten(visited, pacman.x, pacman.y)
      modifies this`score
      ensures eaten' == Eaten(visited + {p}, pacman.x, pacman.y)
      ensures score == old(score) + PELLET_SCORE * (|eaten'| - |eaten|)
    {
      var parts := ParseKey(p).value;
      var pr, pc := parts.0, parts.1;
      var px, py := CentreOf(pc), CentreOf(pr);
      EatenStep(visited, p, pacman.x, pacman.y);
      eaten' := eaten;
      if pacman.CheckPelletCollision(px, py) {
        eaten' := eaten + {p};
        score := score + PELLET_SCORE;
      }
    }

    /** A key press: arrow keys turn Pac-Man, but only while the game is running;
        P pauses and R resumes, whatever the arrow keys did. */
    method KeyPressed(key: KeyCode, now: int)
      requires pacman != null
      modifies this, pacman
      ensures pacman == old(pacman) && pacman.x == old(pacman.x) && pacman.y == old(pacman.y)
      ensures old(gameState) == Running && key == Up ==> pacman.speedX == 0 && pacman.speedY == -Player.SPEED
      ensures old(gameState) == Running && key == Down ==> pacman.speedX == 0 && pacman.speedY == Player.SPEED
      ensures old(gameState) == Running && key == Left ==> pacman.speedX == -Player.SPEED && pacman.speedY == 0
      ensures old(gameState) == Running && key == Right ==> pacman.speedX == Player.SPEED && pacman.speedY == 0
      ensures old(gameState) != Running || key !in {Up, Down, Left, Right} ==>
        pacman.speedX == old(pacman.speedX) && pacman.speedY == old(pacman.speedY)
      ensures key == PauseKey ==> gameState == (if old(gameState) == Running then Paused else old(gameState))
      ensures key == ResumeKey ==> gameState == (if old(gameState) == Paused then Running else old(gameState))
      ensures key !in {PauseKey, ResumeKey} ==> gameState == old(gameState)
      ensures key == PauseKey && old(gameState) == Running ==> pauseStartTime == now
      ensures key == ResumeKey && old(gameState) == Paused ==>
        totalPausedDuration == old(totalPausedDuration) + (now - old(pauseStartTime))
      ensures !(key == PauseKey && old(gameState) == Running) ==> pauseStartTime == old(pauseStartTime)
      ensures !(key == ResumeKey && old(gameState) == Paused) ==> totalPausedDuration == old(totalPausedDuration)
      ensures startTime == old(startTime) && elapsedSeconds == old(elapsedSeconds)
      ensures pellets == old(pellets) && score == old(score) && finished == old(finished)
    {
      if gameState == Running {
        match key {
          case Up => pacman.SetDirection("UP");
          case Down => pacman.SetDirection("DOWN");
          case Left => pacman.SetDirection("LEFT");
          case Right => pacman.SetDirection("RIGHT");
          case _ =>
        }
      }
      if key == PauseKey {
        PauseGame(now);
      } else if key == ResumeKey {
        ResumeGame(now);
      }
    }

    method PauseGame(now: int)
      modifies this
      ensures old(gameState) == Running ==> gameState == Paused && pauseStartTime == now
      ensures old(gameState) != Running ==> gameState == old(gameState) && pauseStartTime == old(pauseStartTime)
      ensures totalPausedDuration == old(totalPausedDuration) && pellets == old(pellets) && score == old(score)
      ensures startTime == old(startTime) && finished == old(finished) && pacman == old(pacman)
      ensures elapsedSeconds == old(elapsedSeconds)
    {
      if gameState != Running {
        return;
      }
      gameState := Paused;
      pauseStartTime := now;
    }

    method ResumeGame(now: int)
      modifies this
      ensures old(gameState) == Paused ==>
        && gameState == Running
        && totalPausedDuration == old(totalPausedDuration) + (now - pauseStartTime)
        && ElapsedSeconds(now, startTime, totalPausedDuration) == ElapsedSeconds(pauseStartTime, startTime, old(totalPausedDuration))
      ensures old(gameState) != Paused ==> gameState == old(gameState) && totalPausedDuration == old(totalPausedDuration)
      ensures pauseStartTime == old(pauseStartTime) && pellets == old(pellets) && score == old(score)
      ensures startTime == old(startTime) && finished == old(finished) && pacman == old(pacman)
      ensures elapsedSeconds == old(elapsedSeconds)
    {
      if gameState != Paused {
        return;
      }
      totalPausedDuration := totalPausedDuration + (now - pauseStartTime);
      gameState := Running;
    }

    method TogglePause(now: int)
      modifies this
      ensures old(gameState) == Running ==>
        gameState == Paused && pauseStartTime == now && totalPausedDuration == old(totalPausedDuration)
      ensures old(gameState) == Paused ==>
        && gameState == Running && pauseStartTime == old(pauseStartTime)
        && totalPausedDuration == old(totalPausedDuration) + (now - old(pauseStartTime))
      ensures old(gameState) == GameOver ==>
        gameState == GameOver && pauseStartTime == old(pauseStartTime) && totalPausedDuration == old(totalPausedDuration)
      ensures pellets == old(pellets) && score == old(score) && startTime == old(startTime)
      ensures finished == old(finished) && pacman == old(pacman) && elapsedSeconds == old(elapsedSeconds)
    {
      if gameState == Running {
        PauseGame(now);
      } else if gameState == Paused {
        ResumeGame(now);
      }
    }
  }

  /** Removing the eaten pellets removes exactly them. */
  lemma {:induction false} EatenRemoved(pellets: set<string>, x: int, y: int)
    ensures Eaten(pellets, x, y) <= pellets
    ensures pellets - (pellets - Eaten(pellets, x, y)) == Eaten(pellets, x, y)
  {
  }

  /** Visiting one more pellet adds it to the eaten ones exactly when it is in reach. */
  lemma {:induction false} EatenStep(visited: set<string>, p: string, x: int, y: int)
    requires p !in visited
    ensures p !in Eaten(visited, x, y)
    ensures Eaten(visited + {p}, x, y) == Eaten(visited, x, y) + (if PelletInReach(p, x, y) then {p} else {})
  {
  }

  /** One more step of the row-major scan of the maze adds the key of (r, c) exactly
      when that tile is open. */
  lemma {:induction false} NextKeys(g: Grid, r: nat, c: nat)
    requires Shaped(g) && r < ROWS && c < COLS
    ensures KeysBefore(g, r, c + 1) == KeysBefore(g, r, c) + (if g[r][c] == 0 then {Key(r, c)} else {})
  {
    var a, b := KeysBefore(g, r, c + 1), KeysBefore(g, r, c) + (if g[r][c] == 0 then {Key(r, c)} else {});
    forall k | k in a ensures k in b {
      var i: nat, j: nat :| i < ROWS && j < COLS && Open(g, i, j) && (i < r || (i == r && j < c + 1)) && k == Key(i, j);
      if i == r && j == c {
        assert g[r][c] == 0;
      }
    }
  }
}
