/** The breadth-first search a ghost runs, at each tile centre, to find the first
    step of a shortest walk through open tiles toward its target tile
    (Ghost.bfsDirection). */
module Pathfinder {
  import opened Maze

  /** b is one of the four neighbours of a, and b is open. */
  predicate Adjacent(g: Grid, a: Tile, b: Tile) {
    Open(g, b.0, b.1) && (b == Step(a, 0) || b == Step(a, 1) || b == Step(a, 2) || b == Step(a, 3))
  }

  /** A walk that moves, one step at a time, onto open neighbouring tiles.
      Its first tile (where the walker stands) need not be open. */
  ghost predicate IsPath(g: Grid, p: seq<Tile>) {
    |p| >= 1 && forall i {:trigger Adjacent(g, p[i], p[i + 1])} :: 0 <= i < |p| - 1 ==> Adjacent(g, p[i], p[i + 1])
  }

  ghost predicate PathFromTo(g: Grid, p: seq<Tile>, s: Tile, t: Tile) {
    IsPath(g, p) && p[0] == s && p[|p| - 1] == t
  }

  ghost predicate Reachable(g: Grid, s: Tile, t: Tile) {
    exists p :: PathFromTo(g, p, s, t)
  }

  /** No walk from s to t takes fewer than n steps. */
  ghost predicate NoShorter(g: Grid, s: Tile, t: Tile, n: int) {
    forall p {:trigger PathFromTo(g, p, s, t)} :: PathFromTo(g, p, s, t) ==> |p| - 1 >= n
  }

  /** Moving in direction d is the first step of some shortest walk from s to t. */
  ghost predicate ShortestFirstStep(g: Grid, s: Tile, t: Tile, d: int) {
    && 0 <= d < 4
    && exists p {:trigger PathFromTo(g, p, s, t)} :: PathFromTo(g, p, s, t) && |p| >= 2 && p[1] == Step(s, d) && NoShorter(g, s, t, |p| - 1)
  }

  // ---------------------------------------------------------------------------
  // Facts about walks

  lemma {:induction false} AdjacentDirection(g: Grid, a: Tile, b: Tile) returns (e: int)
    requires Adjacent(g, a, b)
    ensures 0 <= e < 4 && b == Step(a, e) && Open(g, b.0, b.1)
  {
    if b == Step(a, 0) { e := 0; }
    else if b == Step(a, 1) { e := 1; }
    else if b == Step(a, 2) { e := 2; }
    else { e := 3; }
  }

  lemma {:induction false} PrefixIsPath(g: Grid, p: seq<Tile>, k: int)
    requires IsPath(g, p) && 1 <= k <= |p|
    ensures IsPath(g, p[..k])
  {
    var q := p[..k];
    forall i | 0 <= i < k - 1
      ensures Adjacent(g, q[i], q[i + 1])
    {
      assert q[i] == p[i] && q[i + 1] == p[i + 1];
    }
  }

  lemma {:induction false} ExtendPath(g: Grid, p: seq<Tile>, w: Tile)
    requires IsPath(g, p) && Adjacent(g, p[|p| - 1], w)
    ensures IsPath(g, p + [w])
  {
    var q := p + [w];
    forall i | 0 <= i < |q| - 1
      ensures Adjacent(g, q[i], q[i + 1])
    {
      if i < |p| - 1 {
        assert q[i] == p[i] && q[i + 1] == p[i + 1];
      }
    }
  }

  // ---------------------------------------------------------------------------
  // The search's bookkeeping. `queue` is every tile ever enqueued, in order; `pos`
  // maps each enqueued tile to its place in `queue`; `info` records, for each
  // enqueued tile, how the search discovered it.

  /** How the search discovered a tile: its BFS level, the queue index of the tile it
      was reached from, the direction of that last step, and the direction of the
      first step out of the start tile (what the search stores in `firstMove`). */
  datatype Discovery = Discovery(level: nat, parent: nat, via: int, first: int)

  /** `pos` is an exact index of `queue`: each enqueued tile has one queue position. */
  ghost predicate Indexed(queue: seq<Tile>, pos: map<Tile, nat>) {
    && (forall i :: 0 <= i < |queue| ==> queue[i] in pos && pos[queue[i]] == i)
    && (forall t :: t in pos ==> pos[t] < |queue| && queue[pos[t]] == t)
  }

  /** The facts recorded for the i-th enqueued tile: it is in the grid, no walk from
      the start reaches it in fewer than its level's steps, and (past the start) it is
      an open neighbour of its parent, one level deeper, sharing its parent's first
      step. */
  ghost predicate Entry(g: Grid, s: Tile, queue: seq<Tile>, info: seq<Discovery>, i: int)
    requires 0 <= i < |queue| == |info|
  {
    && InBounds(queue[i].0, queue[i].1)
    && NoShorter(g, s, queue[i], info[i].level)
    && (i > 0 ==>
          var e := info[i];
          && e.parent < i && e.level == info[e.parent].level + 1
          && 0 <= e.via < 4 && 0 <= e.first < 4
          && queue[i] == (queue[e.parent].0 + DirRow(e.via), queue[e.parent].1 + DirCol(e.via))
          && Open(g, queue[i].0, queue[i].1)
          && e.first == if e.parent == 0 then e.via else info[e.parent].first)
  }

  /** The discovery records form a tree of walks rooted at the start tile. */
  ghost predicate Tree(g: Grid, s: Tile, queue: seq<Tile>, info: seq<Discovery>) {
    && 1 <= |queue| == |info|
    && queue[0] == s && info[0].level == 0
    && forall i {:trigger Entry(g, s, queue, info, i)} :: 0 <= i < |queue| ==> Entry(g, s, queue, info, i)
  }

  /** Levels never decrease along the queue (stated pairwise, so that the verifier
      unfolds it only on demand). */
  ghost predicate Sorted(info: seq<Discovery>) {
    |info| <= 1 || (info[0].level <= info[1].level && Sorted(info[1..]))
  }

  lemma {:induction false} SortedMonotone(info: seq<Discovery>, i: int, j: int)
    requires Sorted(info) && 0 <= i <= j < |info|
    ensures info[i].level <= info[j].level
    decreases |info|
  {
    if i < j {
      if i == 0 {
        SortedMonotone(info[1..], 0, j - 1);
      } else {
        SortedMonotone(info[1..], i - 1, j - 1);
      }
    }
  }

  lemma {:induction false} SortedAppend(info: seq<Discovery>, e: Discovery)
    requires Sorted(info) && (|info| == 0 || info[|info| - 1].level <= e.level)
    ensures Sorted(info + [e])
    decreases |info|
  {
    if |info| > 1 {
      assert (info + [e])[1..] == info[1..] + [e];
      SortedAppend(info[1..], e);
    }
  }

  /** Every enqueued tile is reached by a walk from the start whose length is its
      level and whose first step is its recorded first direction. */
  lemma {:induction false} WalkTo(g: Grid, s: Tile, queue: seq<Tile>, info: seq<Discovery>, i: int)
    returns (p: seq<Tile>)
    requires Tree(g, s, queue, info) && 0 <= i < |queue|
    ensures PathFromTo(g, p, s, queue[i]) && |p| - 1 == info[i].level
    ensures i > 0 ==> 0 <= info[i].first < 4 && |p| >= 2 && p[1] == Step(s, info[i].first)
    decreases i
  {
    assert Entry(g, s, queue, info, i);
    if i == 0 {
      p := [s];
    } else {
      var j := info[i].parent;
      var q := WalkTo(g, s, queue, info, j);
      assert queue[i] == Step(queue[j], info[i].via);
      assert Adjacent(g, q[|q| - 1], queue[i]);
      ExtendPath(g, q, queue[i]);
      p := q + [queue[i]];
      if j == 0 {
        assert |q| == 1;
      } else {
        assert p[1] == q[1];
      }
    }
  }

  /** Every open neighbour of the first k dequeued tiles has been enqueued. */
  ghost predicate ClosedUpTo(g: Grid, queue: seq<Tile>, pos: map<Tile, nat>, k: int)
    requires 0 <= k <= |queue|
  {
    forall i, d {:trigger Step(queue[i], d)} ::
      0 <= i < k && 0 <= d < 4 && Open(g, Step(queue[i], d).0, Step(queue[i], d).1) ==>
      Step(queue[i], d) in pos
  }

  /** p is a walk from s of at most n steps. */
  ghost predicate ShortWalk(g: Grid, s: Tile, p: seq<Tile>, n: int) {
    IsPath(g, p) && p[0] == s && |p| - 1 <= n
  }

  /** Every walk from s of at most n steps ends on an enqueued tile. */
  ghost predicate Covers(g: Grid, s: Tile, pos: map<Tile, nat>, n: int) {
    forall p {:trigger ShortWalk(g, s, p, n)} :: ShortWalk(g, s, p, n) ==> p[|p| - 1] in pos
  }

  /** The tiles of the grid not yet enqueued: the search's termination measure. */
  ghost function Unseen(pos: map<Tile, nat>): set<Tile> {
    set r, c | 0 <= r < ROWS && 0 <= c < COLS && (r, c) !in pos :: (r, c)
  }

  /** Once every tile from the processing point on is at a level above n, coverage
      of walks of n steps extends to walks of n + 1 steps. */
  lemma {:induction false} ExtendCoverage(g: Grid, s: Tile, queue: seq<Tile>, pos: map<Tile, nat>, info: seq<Discovery>,
                       head: int, n: nat)
    requires 0 <= head <= |queue|
    requires Tree(g, s, queue, info) && Indexed(queue, pos)
    requires ClosedUpTo(g, queue, pos, head)
    requires forall j :: head <= j < |queue| ==> info[j].level > n
    requires Covers(g, s, pos, n)
    ensures Covers(g, s, pos, n + 1)
  {
    forall p | ShortWalk(g, s, p, n + 1)
      ensures p[|p| - 1] in pos
    {
      if |p| - 1 == n + 1 {
        var k := |p| - 2;
        var q := p[..k + 1];
        PrefixIsPath(g, p, k + 1);
        var x := p[k];
        assert ShortWalk(g, s, q, n) && q[|q| - 1] == x;
        var j := pos[x];
        assert Entry(g, s, queue, info, j);
        assert PathFromTo(g, q, s, queue[j]);
        assert j < head;
        assert Adjacent(g, p[k], p[k + 1]);
        var e := AdjacentDirection(g, x, p[k + 1]);
        assert Step(queue[j], e) in pos;
      } else {
        assert ShortWalk(g, s, p, n);
      }
    }
  }

  /** If the enqueued tiles are closed under moves to open neighbours, every walk
      that starts on one of them ends on one of them. */
  lemma {:induction false} ClosedHoldsWalks(g: Grid, queue: seq<Tile>, pos: map<Tile, nat>, p: seq<Tile>)
    requires Indexed(queue, pos)
    requires ClosedUpTo(g, queue, pos, |queue|)
    requires IsPath(g, p) && p[0] in pos
    ensures p[|p| - 1] in pos
    decreases |p|
  {
    if |p| > 1 {
      var k := |p| - 2;
      PrefixIsPath(g, p, k + 1);
      ClosedHoldsWalks(g, queue, pos, p[..k + 1]);
      var x := p[k];
      assert x == p[..k + 1][k];
      var j := pos[x];
      assert Adjacent(g, p[k], p[k + 1]);
      var e := AdjacentDirection(g, x, p[k + 1]);
      assert Step(queue[j], e) in pos;
    }
  }

  // ---------------------------------------------------------------------------
  // The search itself

  /** What the search knows about its enqueued tiles, whatever has been polled. */
  ghost predicate Enqueued(g: Grid, s: Tile, t: Tile, queue: seq<Tile>, pos: map<Tile, nat>,
                           info: seq<Discovery>)
  {
    && Tree(g, s, queue, info)
    && Indexed(queue, pos)  // so each tile is enqueued at most once
    && Sorted(info)
    && t !in pos
  }

  /** The search's arrays agree with its records: `visited` marks exactly the
      enqueued tiles, and `firstMove` holds each one's first step. */
  ghost predicate Marked(visited: array2<bool>, firstMove: array2<int>, s: Tile,
                         pos: map<Tile, nat>, info: seq<Discovery>)
    reads visited, firstMove
  {
    && visited.Length0 == ROWS && visited.Length1 == COLS
    && firstMove.Length0 == ROWS && firstMove.Length1 == COLS
    && (forall r, c {:trigger visited[r, c]} :: InBounds(r, c) ==> (visited[r, c] <==> (r, c) in pos))
    && (forall r, c {:trigger firstMove[r, c]} :: InBounds(r, c) && (r, c) in pos && (r, c) != s ==>
          pos[(r, c)] < |info| && firstMove[r, c] == info[pos[(r, c)]].first)
  }

  /** Moving the processing point from head - 1 to head keeps the queue within one
      level of it and the coverage of walks up to its level. */
  lemma {:induction false} NextLevel(g: Grid, s: Tile, t: Tile, queue: seq<Tile>, pos: map<Tile, nat>,
                                     info: seq<Discovery>, head: int, lev: nat)
    requires Enqueued(g, s, t, queue, pos, info)
    requires 1 <= head < |queue| && ClosedUpTo(g, queue, pos, head)
    requires info[head - 1].level == lev && info[|queue| - 1].level <= lev + 1
    requires Covers(g, s, pos, lev)
    ensures info[|queue| - 1].level <= info[head].level + 1
    ensures Covers(g, s, pos, info[head].level)
  {
    SortedMonotone(info, head - 1, head);
    SortedMonotone(info, head, |queue| - 1);
    if info[head].level != lev {
      forall j | head <= j < |queue|
        ensures info[j].level > lev
      {
        SortedMonotone(info, head, j);
      }
      ExtendCoverage(g, s, queue, pos, info, head, lev);
    }
  }

  /** The search's state once the start tile alone is enqueued. */
  lemma {:induction false} StartSearch(g: Grid, s: Tile, t: Tile)
    requires InBounds(s.0, s.1) && s != t
    ensures Enqueued(g, s, t, [s], map[s := 0], [Discovery(0, 0, -1, -1)])
    ensures ClosedUpTo(g, [s], map[s := 0], 0) && Covers(g, s, map[s := 0], 0)
  {
    assert Entry(g, s, [s], [Discovery(0, 0, -1, -1)], 0);
  }

  /** Enqueuing `w`, the open neighbour in direction d of the polled tile `queue[h]`,
      not yet enqueued, one level deeper, keeps the search's facts. */
  lemma {:induction false} Enqueue(g: Grid, s: Tile, t: Tile, queue: seq<Tile>, pos: map<Tile, nat>, info: seq<Discovery>,
                h: nat, d: int, w: Tile)
    requires Enqueued(g, s, t, queue, pos, info)
    requires h < |queue| && info[|queue| - 1].level <= info[h].level + 1
    requires ClosedUpTo(g, queue, pos, h) && Covers(g, s, pos, info[h].level)
    requires 0 <= d < 4 && w == Step(queue[h], d) && Open(g, w.0, w.1) && w !in pos
    ensures var e := Discovery(info[h].level + 1, h, d, if h == 0 then d else info[h].first);
      && Tree(g, s, queue + [w], info + [e])
      && Indexed(queue + [w], pos[w := |queue|])
      && Sorted(info + [e])
      && (w != t ==> t !in pos[w := |queue|])
      && ClosedUpTo(g, queue + [w], pos[w := |queue|], h)
      && Covers(g, s, pos[w := |queue|], info[h].level)
      && Unseen(pos[w := |queue|]) < Unseen(pos)
  {
    var e := Discovery(info[h].level + 1, h, d, if h == 0 then d else info[h].first);
    var queue', info', pos' := queue + [w], info + [e], pos[w := |queue|];
    SortedAppend(info, e);
    assert Entry(g, s, queue, info, h);
    if h != 0 {
      assert queue[h] != s;
    }
    assert NoShorter(g, s, w, e.level) by {
      forall q | PathFromTo(g, q, s, w)
        ensures |q| - 1 >= e.level
      {
        if |q| - 1 <= info[h].level {
          assert ShortWalk(g, s, q, info[h].level);
        }
      }
    }
    assert Tree(g, s, queue', info') by {
      forall i | 0 <= i < |queue'|
        ensures Entry(g, s, queue', info', i)
      {
        if i < |queue| {
          assert Entry(g, s, queue, info, i);
          var par := info[i].parent;
          assert queue'[i] == queue[i] && info'[i] == info[i];
          assert i > 0 ==> queue'[par] == queue[par] && info'[par] == info[par];
        }
      }
    }
    assert ClosedUpTo(g, queue', pos', h) by {
      forall i, e | 0 <= i < h && 0 <= e < 4 && Open(g, Step(queue'[i], e).0, Step(queue'[i], e).1)
        ensures Step(queue'[i], e) in pos'
      {
        assert queue'[i] == queue[i];
      }
    }
    assert Unseen(pos') == Unseen(pos) - {w} && w in Unseen(pos);
  }

  /** When every enqueued tile has been polled without discovering the target, the
      target cannot be reached. */
  lemma {:induction false} Exhausted(g: Grid, s: Tile, t: Tile, queue: seq<Tile>, pos: map<Tile, nat>, info: seq<Discovery>)
    requires Enqueued(g, s, t, queue, pos, info)
    requires ClosedUpTo(g, queue, pos, |queue|)
    ensures !Reachable(g, s, t)
  {
    forall p | PathFromTo(g, p, s, t)
      ensures false
    {
      ClosedHoldsWalks(g, queue, pos, p);
    }
  }

  /** Discovering the target at index i of the queue gives the first step of a
      shortest walk to it. */
  lemma {:induction false} Discovered(g: Grid, s: Tile, t: Tile, queue: seq<Tile>, info: seq<Discovery>, i: int)
    requires Tree(g, s, queue, info) && 0 < i < |queue| && queue[i] == t
    ensures 0 <= info[i].first < 4 && Open(g, Step(s, info[i].first).0, Step(s, info[i].first).1)
    ensures ShortestFirstStep(g, s, t, info[i].first)
  {
    var p := WalkTo(g, s, queue, info, i);
    assert Entry(g, s, queue, info, i);
    var z := 0;
    assert Adjacent(g, p[z], p[z + 1]);
  }

  /** Marks the newly discovered tile w as visited and records its first step. */
  method Mark(visited: array2<bool>, firstMove: array2<int>, s: Tile, w: Tile, move: int,
              ghost pos: map<Tile, nat>, ghost info: seq<Discovery>, ghost e: Discovery)
    requires Marked(visited, firstMove, s, pos, info)
    requires InBounds(w.0, w.1) && s in pos && w !in pos && e.first == move
    modifies visited, firstMove
    ensures Marked(visited, firstMove, s, pos[w := |info|], info + [e])
  {
    visited[w.0, w.1] := true;
    firstMove[w.0, w.1] := move;
    forall r, c | InBounds(r, c)
      ensures visited[r, c] <==> (r, c) in pos[w := |info|]
    {
      if (r, c) != w {
        assert visited[r, c] == old(visited[r, c]);
      }
    }
    forall r, c | InBounds(r, c) && (r, c) in pos[w := |info|] && (r, c) != s
      ensures pos[w := |info|][(r, c)] < |info + [e]| && firstMove[r, c] == (info + [e])[pos[w := |info|][(r, c)]].first
    {
      if (r, c) != w {
        assert firstMove[r, c] == old(firstMove[r, c]);
      }
    }
  }

  /** Looks at the neighbour of the polled tile `queue[h]` in direction d and, when it
      is inside the grid, open and not yet visited, marks it, records its first step
      and enqueues it; `found` is that first step when the neighbour is the target
      (one turn of the search's inner loop). */
  method VisitNeighbour(grid: Grid, s: Tile, t: Tile, visited: array2<bool>, firstMove: array2<int>,
                        queue: seq<Tile>, h: nat, d: int, ghost pos: map<Tile, nat>, ghost info: seq<Discovery>)
    returns (found: int, queue': seq<Tile>, ghost pos': map<Tile, nat>, ghost info': seq<Discovery>)
    requires Shaped(grid) && s != t && 0 <= d < 4
    requires Enqueued(grid, s, t, queue, pos, info)
    requires Marked(visited, firstMove, s, pos, info)
    requires h < |queue| && ClosedUpTo(grid, queue, pos, h)
    requires info[|queue| - 1].level <= info[h].level + 1
    requires Covers(grid, s, pos, info[h].level)
    modifies visited, firstMove
    ensures -1 <= found < 4
    ensures found != -1 ==> Open(grid, Step(s, found).0, Step(s, found).1) && ShortestFirstStep(grid, s, t, found)
    ensures found == -1 ==>
      && Enqueued(grid, s, t, queue', pos', info')
      && Marked(visited, firstMove, s, pos', info')
      && |queue| <= |queue'| && queue'[..|queue|] == queue && info'[..|queue|] == info
      && (|queue'| == |queue| ==> pos' == pos)
      && (forall x :: x in pos ==> x in pos')
      && ClosedUpTo(grid, queue', pos', h)
      && (Open(grid, Step(queue[h], d).0, Step(queue[h], d).1) ==> Step(queue[h], d) in pos')
      && info'[|queue'| - 1].level <= info[h].level + 1
      && Covers(grid, s, pos', info[h].level)
      && Unseen(pos') <= Unseen(pos) && (|queue'| > |queue| ==> Unseen(pos') < Unseen(pos))
    ensures found == -1 && !(Open(grid, Step(queue[h], d).0, Step(queue[h], d).1) && Step(queue[h], d) !in pos) ==>
      queue' == queue && pos' == pos && info' == info
    ensures found == -1 && Open(grid, Step(queue[h], d).0, Step(queue[h], d).1) && Step(queue[h], d) !in pos ==>
      queue' == queue + [Step(queue[h], d)]
  {
    var cur := queue[h];
    var r, c := cur.0, cur.1;
    assert Entry(grid, s, queue, info, h);
    queue', pos', info' := queue, pos, info;
    found := -1;

    var nr := r + DirRow(d);
    var nc := c + DirCol(d);
    if 0 <= nr < ROWS && 0 <= nc < COLS && !visited[nr, nc] && grid[nr][nc] == 0 {
      var w := (nr, nc);
      assert w == Step(cur, d) && Open(grid, nr, nc) && w !in pos;
      Enqueue(grid, s, t, queue, pos, info, h, d, w);
      // The first move toward `w` is the one toward `cur`, or `d` itself when `cur` is the start.
      var move := if r == s.0 && c == s.1 then d else firstMove[r, c];
      assert move == if h == 0 then d else info[h].first by {
        if h != 0 {
          assert cur in pos && pos[cur] == h && cur != s;
        }
      }
      ghost var e := Discovery(info[h].level + 1, h, d, move);
      Mark(visited, firstMove, s, w, move, pos, info, e);
      queue', info', pos' := queue + [w], info + [e], pos[w := |queue|];
      if nr == t.0 && nc == t.1 {
        Discovered(grid, s, t, queue', info', |queue|);
        found := move;
      }
    } else if 0 <= nr < ROWS && 0 <= nc < COLS && grid[nr][nc] == 0 {
      assert (nr, nc) in pos;
    }
  }

  /** Polls the tile at `queue[h]` and looks at its neighbours in the order UP, DOWN,
      LEFT, RIGHT, stopping with `found` as soon as the target is discovered (the body
      of the search's outer loop). */
  method ExpandTile(grid: Grid, s: Tile, t: Tile, visited: array2<bool>, firstMove: array2<int>,
                    queue: seq<Tile>, h: nat, ghost pos: map<Tile, nat>, ghost info: seq<Discovery>)
    returns (found: int, queue': seq<Tile>, ghost pos': map<Tile, nat>, ghost info': seq<Discovery>)
    requires Shaped(grid) && s != t
    requires Enqueued(grid, s, t, queue, pos, info)
    requires Marked(visited, firstMove, s, pos, info)
    requires h < |queue| && ClosedUpTo(grid, queue, pos, h)
    requires info[|queue| - 1].level <= info[h].level + 1
    requires Covers(grid, s, pos, info[h].level)
    modifies visited, firstMove
    ensures -1 <= found < 4
    ensures found != -1 ==> Open(grid, Step(s, found).0, Step(s, found).1) && ShortestFirstStep(grid, s, t, found)
    ensures found == -1 ==>
      && Enqueued(grid, s, t, queue', pos', info')
      && Marked(visited, firstMove, s, pos', info')
      && |queue| <= |queue'| && queue'[..|queue|] == queue && info'[..|queue|] == info
      && (|queue'| == |queue| ==> pos' == pos)
      && ClosedUpTo(grid, queue', pos', h + 1)
      && info'[|queue'| - 1].level <= info[h].level + 1
      && Covers(grid, s, pos', info[h].level)
      && Unseen(pos') <= Unseen(pos) && (|queue'| > |queue| ==> Unseen(pos') < Unseen(pos))
  {
    ghost var cur := queue[h];
    queue', pos', info' := queue, pos, info;

    var d := 0;
    while d < 4
      invariant 0 <= d <= 4
      invariant Enqueued(grid, s, t, queue', pos', info')
      invariant |queue| <= |queue'| && queue'[..|queue|] == queue && info'[..|queue|] == info
      invariant |queue'| == |queue| ==> pos' == pos
      invariant Unseen(pos') <= Unseen(pos) && (|queue'| > |queue| ==> Unseen(pos') < Unseen(pos))
      invariant Marked(visited, firstMove, s, pos', info')
      invariant info'[|queue'| - 1].level <= info[h].level + 1
      invariant ClosedUpTo(grid, queue', pos', h)
      invariant forall e :: 0 <= e < d && Open(grid, Step(cur, e).0, Step(cur, e).1) ==> Step(cur, e) in pos'
      invariant Covers(grid, s, pos', info[h].level)
    {
      ghost var queue0, pos0 := queue', pos';
      assert queue'[h] == cur && info'[h] == info[h];
      found, queue', pos', info' := VisitNeighbour(grid, s, t, visited, firstMove, queue', h, d, pos', info');
      if found != -1 {
        return;
      }
      assert queue'[..|queue|] == queue by {
        assert queue'[..|queue0|] == queue0 && queue0[..|queue|] == queue;
      }
      d := d + 1;
    }

    assert ClosedUpTo(grid, queue', pos', h + 1) by {
      forall i, e | 0 <= i < h + 1 && 0 <= e < 4 && Open(grid, Step(queue'[i], e).0, Step(queue'[i], e).1)
        ensures Step(queue'[i], e) in pos'
      {
        if i == h {
          assert queue'[i] == cur;
        }
      }
    }
    found := -1;
  }

  /** First-step direction (0 = UP, 1 = DOWN, 2 = LEFT, 3 = RIGHT) from the start tile
      toward the target tile, or -1 when the ghost already stands on the target or the
      target cannot be reached. Neighbours are expanded UP, DOWN, LEFT, RIGHT; each
      tile is marked visited before it is enqueued, so it is enqueued at most once,
      and the search stops as soon as the target is discovered. */
  method BfsDirection(grid: Grid, startRow: int, startCol: int, targetRow: int, targetCol: int)
    returns (dir: int)
    requires Shaped(grid)
    requires InBounds(startRow, startCol)
    ensures -1 <= dir < 4
    ensures (startRow, startCol) == (targetRow, targetCol) ==> dir == -1
    ensures dir != -1 ==> Open(grid, Step((startRow, startCol), dir).0, Step((startRow, startCol), dir).1)
    ensures dir != -1 ==> ShortestFirstStep(grid, (startRow, startCol), (targetRow, targetCol), dir)
    ensures dir == -1 && (startRow, startCol) != (targetRow, targetCol) ==>
      !Reachable(grid, (startRow, startCol), (targetRow, targetCol))
  {
    if startRow == targetRow && startCol == targetCol {
      return -1;
    }
    var s: Tile := (startRow, startCol);
    var t: Tile := (targetRow, targetCol);

    var visited := new bool[ROWS, COLS]((_, _) => false);
    var firstMove := new int[ROWS, COLS]((_, _) => -1);
    // Every tile ever enqueued, in order; those before `head` have been polled.
    var queue: seq<Tile> := [s];
    var head := 0;
    visited[startRow, startCol] := true;

    ghost var info := [Discovery(0, 0, -1, -1)];
    ghost var pos: map<Tile, nat> := map[s := 0];
    StartSearch(grid, s, t);

    while head < |queue|
      invariant 0 <= head <= |queue|
      invariant Enqueued(grid, s, t, queue, pos, info)
      invariant Marked(visited, firstMove, s, pos, info)
      invariant ClosedUpTo(grid, queue, pos, head)
      invariant head < |queue| ==> info[|queue| - 1].level <= info[head].level + 1
      invariant head < |queue| ==> Covers(grid, s, pos, info[head].level)
      decreases Unseen(pos), |queue| - head
    {
      ghost var lev := info[head].level;
      var found;
      found, queue, pos, info := ExpandTile(grid, s, t, visited, firstMove, queue, head, pos, info);
      if found != -1 {
        return found;
      }
      head := head + 1;
      if head < |queue| {
        NextLevel(grid, s, t, queue, pos, info, head, lev);
      }
    }

    Exhausted(grid, s, t, queue, pos, info);
    return -1;
  }
}
