/**
 * Breadth-first search over walkable cells, shared by the flowerpot's chase
 * (domain/behavior/MacetaChaseMovement.java, bfs) and the AI's rescue step
 * (domain/game/AIController.java, bfsFirstStep). Both explore neighbours in the order
 * UP, DOWN, LEFT, RIGHT, mark a cell visited when it is first discovered and record its
 * parent; this module proves that the recorded tree holds shortest walks.
 */
module Pathfinding {
  import opened Directions
  import opened Positions
  import opened Cells
  import opened Boards

  /** `path` leads from p to g, every step cardinal and onto a walkable cell. */
  ghost predicate IsWalk(b: Board, p: Position, path: seq<Direction>, g: Position)
    reads b.cells
    decreases |path|
  {
    if path == [] then p == g
    else path[0].IsCardinal() && b.IsWalkable(p.Step(path[0])) && IsWalk(b, p.Step(path[0]), path[1..], g)
  }

  /** A walk from p to g no longer than any other. */
  ghost predicate IsShortestWalk(b: Board, p: Position, path: seq<Direction>, g: Position)
    reads b.cells
  {
    IsWalk(b, p, path, g) && forall w :: IsWalk(b, p, w, g) ==> |path| <= |w|
  }

  /** No walk at all leads from p to g. */
  ghost predicate Unreachable(b: Board, p: Position, g: Position)
    reads b.cells
  {
    forall w :: !IsWalk(b, p, w, g)
  }

  /** The direction of the single step from (r1, c1) to (r2, c2); NONE when they are not neighbours. */
  function DirectionFrom(r1: int, c1: int, r2: int, c2: int): (d: Direction)
    ensures d != NONE ==> d.IsCardinal() && Position(r1, c1).Step(d) == Position(r2, c2)
    ensures d == NONE ==> forall e: Direction :: e.IsCardinal() ==> Position(r1, c1).Step(e) != Position(r2, c2)
  {
    if r2 == r1 - 1 && c2 == c1 then UP
    else if r2 == r1 + 1 && c2 == c1 then DOWN
    else if r2 == r1 && c2 == c1 - 1 then LEFT
    else if r2 == r1 && c2 == c1 + 1 then RIGHT
    else NONE
  }

  /** DirectionFrom inverts a step. */
  lemma DirectionFromStep(p: Position, d: Direction)
    requires d.IsCardinal()
    ensures var q := p.Step(d); DirectionFrom(p.row, p.col, q.row, q.col) == d
  {
    var q := p.Step(d);
    VectorDetermines(DirectionFrom(p.row, p.col, q.row, q.col), d);
  }

  /** The directions of ds whose neighbour of p is walkable, in the order of ds. */
  function OpenAmong(b: Board, p: Position, ds: seq<Direction>): (r: seq<Direction>)
    reads b.cells
    ensures forall d :: d in r <==> d in ds && b.IsWalkable(p.Step(d))
    ensures |r| <= |ds|
    decreases |ds|
  {
    if ds == [] then []
    else OpenAmong(b, p, ds[..|ds| - 1]) + (if b.IsWalkable(p.Step(ds[|ds| - 1])) then [ds[|ds| - 1]] else [])
  }

  /** The cardinal directions in which p has a walkable neighbour, in the order UP, DOWN, LEFT, RIGHT. */
  function OpenDirections(b: Board, p: Position): seq<Direction>
    reads b.cells
  {
    OpenAmong(b, p, CARDINALS)
  }

  /** The element a uniformly drawn index selects: options[pick mod |options|], or NONE when empty. */
  function PickFrom(options: seq<Direction>, pick: nat): (d: Direction)
    ensures options == [] ==> d == NONE
    ensures options != [] ==> d in options
  {
    if options == [] then NONE else options[pick % |options|]
  }

  /** A draw from the open directions is NONE exactly when every neighbour is blocked. */
  lemma PickOpen(b: Board, p: Position, pick: nat)
    ensures var d := PickFrom(OpenDirections(b, p), pick);
      (d == NONE <==> forall e: Direction :: e.IsCardinal() ==> !b.IsWalkable(p.Step(e)))
      && (d != NONE ==> d.IsCardinal() && b.IsWalkable(p.Step(d)))
  {
    var open := OpenDirections(b, p);
    forall e: Direction | e.IsCardinal()
      ensures b.IsWalkable(p.Step(e)) ==> e in open
    {
      CardinalsComplete(e);
    }
  }

  // ---- the search state --------------------------------------------------------------

  /** Every visited cell is inside the board. */
  ghost predicate AllInside(b: Board, dist: map<Position, nat>) {
    forall v :: v in dist ==> b.IsInside(v)
  }

  /**
   * The parent map forms a tree rooted at start whose edges are single cardinal steps onto
   * walkable cells, each one cell further from start than its parent.
   */
  ghost predicate Tree(b: Board, start: Position, dist: map<Position, nat>, parent: map<Position, Position>)
    reads b.cells
  {
    && start in dist && dist[start] == 0
    && parent.Keys == dist.Keys - {start}
    && forall v :: v in parent ==>
         && parent[v] in dist
         && dist[v] == dist[parent[v]] + 1
         && b.IsWalkable(v)
         && DirectionFrom(parent[v].row, parent[v].col, v.row, v.col) != NONE
  }

  /** What the arrays hold for the cell v: its parent's coordinates, or -1, -1 when it has none. */
  ghost predicate Encodes(parent: map<Position, Position>, v: Position, pr: int, pc: int) {
    if v in parent then pr == parent[v].row && pc == parent[v].col else pr == -1 && pc == -1
  }

  /** The arrays of the search hold exactly the visited set and the parent map. */
  ghost predicate Mirrors(b: Board, dist: map<Position, nat>, parent: map<Position, Position>,
                          visited: array2<bool>, parentR: array2<int>, parentC: array2<int>)
    reads visited, parentR, parentC
  {
    && visited.Length0 == b.Rows() && visited.Length1 == b.Cols()
    && parentR.Length0 == b.Rows() && parentR.Length1 == b.Cols()
    && parentC.Length0 == b.Rows() && parentC.Length1 == b.Cols()
    && (forall r, c :: 0 <= r < b.Rows() && 0 <= c < b.Cols() ==> (visited[r, c] <==> Position(r, c) in dist))
    && (forall r, c :: 0 <= r < b.Rows() && 0 <= c < b.Cols() ==> Encodes(parent, Position(r, c), parentR[r, c], parentC[r, c]))
  }

  /** The walkable neighbour of v in direction d, if any, is visited and at most one further away. */
  ghost predicate Near(b: Board, dist: map<Position, nat>, v: Position, d: Direction)
    requires v in dist
    reads b.cells
  {
    b.IsWalkable(v.Step(d)) ==> v.Step(d) in dist && dist[v.Step(d)] <= dist[v] + 1
  }

  /** All four neighbours of v have been looked at. */
  ghost predicate Expanded(b: Board, dist: map<Position, nat>, v: Position)
    requires v in dist
    reads b.cells
  {
    Near(b, dist, v, UP) && Near(b, dist, v, DOWN) && Near(b, dist, v, LEFT) && Near(b, dist, v, RIGHT)
  }

  /** Queue entries are visited and their distances climb by at most one from front to back. */
  ghost predicate Frontier(dist: map<Position, nat>, queue: seq<Position>) {
    && (forall i :: 0 <= i < |queue| ==> queue[i] in dist)
    && (forall i, j :: 0 <= i <= j < |queue| ==> dist[queue[i]] <= dist[queue[j]] <= dist[queue[i]] + 1)
  }

  /**
   * Every visited cell is either processed (in done, fully expanded, no further than the
   * front of the queue) or still waiting in the queue.
   */
  ghost predicate Explored(b: Board, dist: map<Position, nat>, done: set<Position>, queue: seq<Position>)
    reads b.cells
  {
    && done <= dist.Keys
    && Frontier(dist, queue)
    && (forall v :: v in done ==> Expanded(b, dist, v))
    && (forall v :: v in dist ==> v in done || v in queue)
    && (queue != [] ==> forall v :: v in done ==> dist[v] <= dist[queue[0]])
  }

  /**
   * The key fact of breadth-first search: a walk of length n from a visited cell at distance
   * at most k either ends on a processed cell at distance at most k + n, or the front of the
   * queue is at distance at most k + n.
   */
  lemma {:induction false} WalkBound(b: Board, dist: map<Position, nat>, done: set<Position>, queue: seq<Position>,
                                     p: Position, path: seq<Direction>, g: Position, k: nat)
    requires Explored(b, dist, done, queue)
    requires p in dist && dist[p] <= k && IsWalk(b, p, path, g)
    ensures (g in done && dist[g] <= k + |path|) || (queue != [] && dist[queue[0]] <= k + |path|)
    decreases |path|
  {
    if p !in done {
      assert p in queue;
      var i :| 0 <= i < |queue| && queue[i] == p;
      assert dist[queue[0]] <= dist[queue[i]];
    } else if path != [] {
      var d := path[0];
      assert Expanded(b, dist, p);
      assert Near(b, dist, p, d) by {
        match d
        case UP =>
        case DOWN =>
        case LEFT =>
        case RIGHT =>
      }
      WalkBound(b, dist, done, queue, p.Step(d), path[1..], g, k + 1);
    }
  }

  /**
   * The state while the neighbours of `current` are being looked at: current has been taken
   * off the queue and marked processed, and its first k neighbours have been looked at.
   */
  ghost predicate Expanding(b: Board, start: Position, dist: map<Position, nat>, parent: map<Position, Position>,
                            done: set<Position>, queue: seq<Position>, current: Position, front: nat, k: nat)
    reads b.cells
  {
    && k <= 4
    && AllInside(b, dist) && Tree(b, start, dist, parent)
    && done <= dist.Keys && current in done && dist[current] == front
    && Frontier(dist, queue)
    && (forall i :: 0 <= i < |queue| ==> front <= dist[queue[i]] <= front + 1)
    && (forall v :: v in done ==> dist[v] <= front)
    && (forall v :: v in done && v != current ==> Expanded(b, dist, v))
    && (forall j :: 0 <= j < k ==> Near(b, dist, current, CARDINALS[j]))
    && (forall v :: v in dist ==> v in done || v in queue)
  }

  /** Taking the front of the queue starts its expansion. */
  lemma StartExpanding(b: Board, start: Position, dist: map<Position, nat>, parent: map<Position, Position>,
                       done: set<Position>, queue: seq<Position>)
    requires AllInside(b, dist) && Tree(b, start, dist, parent) && Explored(b, dist, done, queue) && queue != []
    ensures Expanding(b, start, dist, parent, done + {queue[0]}, queue[1..], queue[0], dist[queue[0]], 0)
  {
    var front := dist[queue[0]];
    forall v | v in dist
      ensures v in done + {queue[0]} || v in queue[1..]
    {
      if v !in done && v != queue[0] {
        var i :| 0 <= i < |queue| && queue[i] == v;
        assert queue[1..][i - 1] == v;
      }
    }
  }

  /** A neighbour that is outside, already visited or not walkable is passed over. */
  lemma SkipNeighbour(b: Board, start: Position, dist: map<Position, nat>, parent: map<Position, Position>,
                      done: set<Position>, queue: seq<Position>, current: Position, front: nat, k: nat)
    requires Expanding(b, start, dist, parent, done, queue, current, front, k) && k < 4
    requires var next := current.Step(CARDINALS[k]); !b.IsInside(next) || next in dist || !b.IsWalkable(next)
    ensures Expanding(b, start, dist, parent, done, queue, current, front, k + 1)
  {
    var next := current.Step(CARDINALS[k]);
    if b.IsWalkable(next) && next in dist && next !in done {
      var i :| 0 <= i < |queue| && queue[i] == next;
    }
    assert Near(b, dist, current, CARDINALS[k]);
  }

  /** A new walkable neighbour is visited at one more than the current distance and queued. */
  lemma VisitNeighbour(b: Board, start: Position, dist: map<Position, nat>, parent: map<Position, Position>,
                       done: set<Position>, queue: seq<Position>, current: Position, front: nat, k: nat)
    requires Expanding(b, start, dist, parent, done, queue, current, front, k) && k < 4
    requires var next := current.Step(CARDINALS[k]); b.IsInside(next) && next !in dist && b.IsWalkable(next)
    ensures var next := current.Step(CARDINALS[k]);
      Expanding(b, start, dist[next := front + 1], parent[next := current], done, queue + [next], current, front, k + 1)
  {
    var d := CARDINALS[k];
    var next := current.Step(d);
    DirectionFromStep(current, d);
    var dist' := dist[next := front + 1];
    var parent' := parent[next := current];
    assert forall v :: v in dist ==> dist'[v] == dist[v];
    forall v | v in done && v != current
      ensures Expanded(b, dist', v)
    {
      assert Expanded(b, dist, v);
    }
    forall j | 0 <= j < k + 1
      ensures Near(b, dist', current, CARDINALS[j])
    {
      if j < k {
        assert Near(b, dist, current, CARDINALS[j]);
      }
    }
  }

  /** When all four neighbours have been looked at, the search state is consistent again. */
  lemma FinishExpanding(b: Board, start: Position, dist: map<Position, nat>, parent: map<Position, Position>,
                        done: set<Position>, queue: seq<Position>, current: Position, front: nat)
    requires Expanding(b, start, dist, parent, done, queue, current, front, 4)
    ensures Explored(b, dist, done, queue)
  {
    assert Near(b, dist, current, CARDINALS[0]);
    assert Near(b, dist, current, CARDINALS[1]);
    assert Near(b, dist, current, CARDINALS[2]);
    assert Near(b, dist, current, CARDINALS[3]);
    assert Expanded(b, dist, current);
  }

  /** Records the discovery of next, reached from current, in the arrays. */
  method Mark(b: Board, visited: array2<bool>, parentR: array2<int>, parentC: array2<int>,
              next: Position, current: Position,
              ghost dist: map<Position, nat>, ghost parent: map<Position, Position>, ghost n: nat)
    requires Mirrors(b, dist, parent, visited, parentR, parentC)
    requires b.IsInside(next) && next !in parent && parentR != parentC
    modifies visited, parentR, parentC
    ensures Mirrors(b, dist[next := n], parent[next := current], visited, parentR, parentC)
  {
    visited[next.row, next.col] := true;
    parentR[next.row, next.col] := current.row;
    parentC[next.row, next.col] := current.col;
  }

  /** The set of all cells of the board, which the visited set can only grow into. */
  ghost function AllCells(b: Board): set<Position> {
    set r, c | 0 <= r < b.Rows() && 0 <= c < b.Cols() :: Position(r, c)
  }

  /** Visited cells are cells of the board. */
  lemma VisitedAreCells(b: Board, dist: map<Position, nat>)
    requires AllInside(b, dist)
    ensures dist.Keys <= AllCells(b)
  {
    forall v | v in dist
      ensures v in AllCells(b)
    {
      assert v == Position(v.row, v.col);
    }
  }

  /** Visiting a new cell shrinks the set of unvisited ones. */
  lemma UnvisitedShrinks(all: set<Position>, before: set<Position>, after: set<Position>)
    requires before <= after <= all && before != after
    ensures all - after < all - before
  {
    var v :| v in after && v !in before;
    assert v in all - before && v !in all - after;
  }

  /** Looks at the four neighbours of current in the order UP, DOWN, LEFT, RIGHT. */
  method ExpandNeighbours(b: Board, start: Position, current: Position,
                          visited: array2<bool>, parentR: array2<int>, parentC: array2<int>,
                          queue0: seq<Position>, ghost dist0: map<Position, nat>, ghost parent0: map<Position, Position>,
                          ghost done: set<Position>, ghost front: nat)
    returns (queue: seq<Position>, ghost dist: map<Position, nat>, ghost parent: map<Position, Position>)
    requires parentR != parentC
    requires Expanding(b, start, dist0, parent0, done, queue0, current, front, 0)
    requires Mirrors(b, dist0, parent0, visited, parentR, parentC)
    modifies visited, parentR, parentC
    ensures Expanding(b, start, dist, parent, done, queue, current, front, 4)
    ensures Mirrors(b, dist, parent, visited, parentR, parentC)
    ensures dist0.Keys <= dist.Keys
    ensures dist.Keys == dist0.Keys ==> queue == queue0
  {
    queue, dist, parent := queue0, dist0, parent0;
    for k := 0 to 4
      invariant Expanding(b, start, dist, parent, done, queue, current, front, k)
      invariant Mirrors(b, dist, parent, visited, parentR, parentC)
      invariant dist0.Keys <= dist.Keys
      invariant dist.Keys == dist0.Keys ==> queue == queue0
    {
      var d := CARDINALS[k];
      var next := current.Translated(d.DRow(), d.DCol());
      if !b.IsInside(next) {
        SkipNeighbour(b, start, dist, parent, done, queue, current, front, k);
        continue;
      }
      if visited[next.row, next.col] {
        SkipNeighbour(b, start, dist, parent, done, queue, current, front, k);
        continue;
      }
      if !b.IsWalkable(next) {
        SkipNeighbour(b, start, dist, parent, done, queue, current, front, k);
        continue;
      }
      VisitNeighbour(b, start, dist, parent, done, queue, current, front, k);
      Mark(b, visited, parentR, parentC, next, current, dist, parent, front + 1);
      dist := dist[next := front + 1];
      parent := parent[next := current];
      queue := queue + [next];
    }
  }

  /**
   * Explores the board breadth-first from start. With stopAtGoal, it stops when the goal
   * comes off the queue, as the flowerpot's search does; without it, it empties the queue, as
   * the AI's search does, whose goal test compares objects by reference and never succeeds.
   * On return the arrays hold a tree of shortest walks: every visited cell's distance is the
   * length of a shortest walk from start, and an unvisited goal cannot be reached.
   */
  method Explore(b: Board, start: Position, goal: Position, stopAtGoal: bool)
    returns (visited: array2<bool>, parentR: array2<int>, parentC: array2<int>, found: bool,
             ghost dist: map<Position, nat>, ghost parent: map<Position, Position>)
    requires b.IsInside(start) && b.IsInside(goal)
    ensures fresh(visited) && fresh(parentR) && fresh(parentC)
    ensures AllInside(b, dist) && Tree(b, start, dist, parent)
    ensures Mirrors(b, dist, parent, visited, parentR, parentC)
    ensures found <==> stopAtGoal && goal in dist
    ensures goal in dist ==> forall w :: IsWalk(b, start, w, goal) ==> dist[goal] <= |w|
    ensures goal !in dist ==> Unreachable(b, start, goal)
  {
    visited := new bool[b.Rows(), b.Cols()]((r, c) => false);
    parentR := new int[b.Rows(), b.Cols()]((r, c) => -1);
    parentC := new int[b.Rows(), b.Cols()]((r, c) => -1);
    var queue := [start];
    visited[start.row, start.col] := true;
    dist := map[start := 0];
    parent := map[];
    ghost var done: set<Position> := {};
    ghost var all := AllCells(b);
    VisitedAreCells(b, dist);
    found := false;

    while queue != []
      invariant fresh(visited) && fresh(parentR) && fresh(parentC)
      invariant AllInside(b, dist) && Tree(b, start, dist, parent)
      invariant Mirrors(b, dist, parent, visited, parentR, parentC)
      invariant Explored(b, dist, done, queue)
      invariant stopAtGoal ==> goal !in done
      invariant !found
      invariant dist.Keys <= all
      decreases all - dist.Keys, |queue|
    {
      var current := queue[0];
      if stopAtGoal && current.row == goal.row && current.col == goal.col {
        forall w | IsWalk(b, start, w, goal)
          ensures dist[goal] <= |w|
        {
          WalkBound(b, dist, done, queue, start, w, goal, 0);
        }
        found := true;
        break;
      }
      ghost var front := dist[current];
      ghost var before := dist.Keys;
      ghost var waiting := |queue|;
      StartExpanding(b, start, dist, parent, done, queue);
      done := done + {current};
      queue, dist, parent := ExpandNeighbours(b, start, current, visited, parentR, parentC,
                                              queue[1..], dist, parent, done, front);
      FinishExpanding(b, start, dist, parent, done, queue, current, front);
      VisitedAreCells(b, dist);
      if dist.Keys != before {
        UnvisitedShrinks(all, before, dist.Keys);
      } else {
        assert |queue| < waiting;
      }
    }
    if !found {
      forall w | IsWalk(b, start, w, goal)
        ensures goal in done && dist[goal] <= |w|
      {
        WalkBound(b, dist, done, queue, start, w, goal, 0);
      }
    }
  }
}
