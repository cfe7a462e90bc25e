/**
 * The machine player (domain/game/AIController.java): a per-player memory of the last six
 * positions, stuck detection, greedy steps towards a fruit or away from an enemy with the tie
 * order UP, DOWN, LEFT, RIGHT, a random walk and a breadth-first rescue step.
 *
 * Position does not override equals, so every comparison of positions in this class compares
 * objects. A remembered position is modelled as a Memo naming the player's Position object;
 * the candidate cells the scans look at are new objects, which no remembered object is.
 */
module AI {
  import opened Directions
  import opened Positions
  import opened Boards
  import opened Players
  import opened Fruits
  import opened Enemies
  import opened Wrappers
  import opened Pathfinding
  import Levels

  datatype AIProfile = HUNGRY | FEARFUL | EXPERT

  /** How many positions the memory of one player holds. */
  const MEMORY: nat := 6

  /**
   * A remembered Position object: the cell it named and which of the player's Position
   * objects it was (the player's positionObject counter at the time).
   */
  datatype Memo = Memo(position: Position, obj: nat)

  /** Position.equals on two remembered positions: the same object. */
  predicate SameObject(a: Memo, b: Memo) {
    a.obj == b.obj
  }

  /**
   * Whether the memory holds the candidate cell `next`. The candidate is a Position built by
   * translation just before the question is asked, and equals compares objects, so no
   * remembered position is it.
   */
  predicate WasRecentlyThere(q: seq<Memo>, next: Position) {
    false
  }

  // ---- memory ------------------------------------------------------------------------

  /** The newest MEMORY entries of s: the oldest ones are dropped. */
  function Window(s: seq<Memo>): (r: seq<Memo>)
    ensures |r| == if |s| <= MEMORY then |s| else MEMORY
    ensures r == s[|s| - |r|..]
  {
    if |s| <= MEMORY then s else s[|s| - MEMORY..]
  }

  /** Drops the oldest entries, one at a time, until at most MEMORY are left. */
  method Trim(full: seq<Memo>) returns (q: seq<Memo>)
    ensures q == Window(full)
  {
    q := full;
    while |q| > MEMORY
      invariant |q| <= |full| && q == full[|full| - |q|..]
      invariant |q| >= MEMORY || q == full
    {
      assert q[1..] == full[|full| - (|q| - 1)..];
      q := q[1..];
    }
  }

  /** Remembering m keeps at most MEMORY entries, ends with m and drops only the oldest entry. */
  lemma RememberWindow(q: seq<Memo>, m: Memo)
    requires |q| <= MEMORY
    ensures var r := Window(q + [m]);
      && |r| <= MEMORY && r[|r| - 1] == m
      && (|q| < MEMORY ==> r == q + [m])
      && (|q| == MEMORY ==> r == q[1..] + [m])
  {
    var r := Window(q + [m]);
    if |q| == MEMORY {
      assert r == (q + [m])[1..];
      assert (q + [m])[1..] == q[1..] + [m];
    }
  }

  // ---- stuck detection ---------------------------------------------------------------

  /** How many of the first n entries repeat the entry just before them. */
  function AdjacentRepeats(q: seq<Memo>, n: nat): (r: nat)
    requires n <= |q|
    ensures r < n || r == 0
  {
    if n <= 1 then 0
    else AdjacentRepeats(q, n - 1) + (if SameObject(q[n - 1], q[n - 2]) then 1 else 0)
  }

  /** The last four entries read A, B, A, B. */
  predicate PingPong(q: seq<Memo>)
    requires |q| >= 4
  {
    SameObject(q[|q| - 1], q[|q| - 3]) && SameObject(q[|q| - 2], q[|q| - 4])
  }

  /** A full memory that ends in a ping-pong or holds at least two repeated entries. */
  predicate Stuck(q: seq<Memo>) {
    |q| >= 6 && (PingPong(q) || AdjacentRepeats(q, |q|) >= 2)
  }

  /** Memory entries of a player that moved between every two decisions: distinct objects. */
  ghost predicate AlwaysMoved(q: seq<Memo>) {
    forall i, j :: 0 <= i < j < |q| ==> q[i].obj < q[j].obj
  }

  /** Entries in the order they were taken: the player's object counter never goes down. */
  ghost predicate InOrder(q: seq<Memo>) {
    forall i, j :: 0 <= i < j < |q| ==> q[i].obj <= q[j].obj
  }

  /** A player that moved between every two decisions never counts as stuck, even when it paces between two cells. */
  lemma {:induction false} MovingNeverStuck(q: seq<Memo>)
    requires AlwaysMoved(q)
    ensures !Stuck(q)
  {
    NoRepeatsWhileMoving(q, |q|);
  }

  lemma {:induction false} NoRepeatsWhileMoving(q: seq<Memo>, n: nat)
    requires AlwaysMoved(q) && n <= |q|
    ensures AdjacentRepeats(q, n) == 0
  {
    if n > 1 {
      NoRepeatsWhileMoving(q, n - 1);
      assert q[n - 2].obj < q[n - 1].obj;
    }
  }

  /**
   * For entries taken in order, the ping-pong test adds nothing: A, B, A, B on the same
   * objects means the player stood still, which the repeat count already catches.
   */
  lemma PingPongIsStandingStill(q: seq<Memo>)
    requires |q| >= 6 && InOrder(q) && PingPong(q)
    ensures AdjacentRepeats(q, |q|) >= 2
  {
    var n := |q|;
    assert q[n - 3].obj <= q[n - 2].obj <= q[n - 1].obj;
    assert AdjacentRepeats(q, n) == AdjacentRepeats(q, n - 2) + 2;
  }

  /** A player that stayed on the same object for its last three decisions is stuck. */
  lemma StandingStillIsStuck(q: seq<Memo>)
    requires |q| >= 6
    requires SameObject(q[|q| - 1], q[|q| - 2]) && SameObject(q[|q| - 2], q[|q| - 3])
    ensures Stuck(q)
  {
    var n := |q|;
    assert AdjacentRepeats(q, n) == AdjacentRepeats(q, n - 2) + 2;
  }

  // ---- greedy steps ------------------------------------------------------------------

  /** What a greedy step aims at: towards a goal cell or away from a threat. */
  datatype Aim = Toward(goal: Position) | Away(threat: Position)

  /** The number of walkable neighbours of p. */
  function FreeCount(b: Board, p: Position): (n: nat)
    reads b.cells
    ensures n <= 4
  {
    |OpenDirections(b, p)|
  }

  /**
   * The score of stepping onto next: towards a goal, the distance plus 3 for a recent cell
   * (lower is better); away from a threat, the distance less 2 for a recent cell and less 2
   * for a cell with at most one walkable neighbour (higher is better).
   */
  function Score(b: Board, aim: Aim, q: seq<Memo>, next: Position): int
    reads b.cells
  {
    match aim
    case Toward(goal) => Manhattan(next, goal) + (if WasRecentlyThere(q, next) then 3 else 0)
    case Away(threat) =>
      Manhattan(next, threat) - (if WasRecentlyThere(q, next) then 2 else 0) - (if FreeCount(b, next) <= 1 then 2 else 0)
  }

  /**
   * The recency terms never apply, since WasRecentlyThere never holds: the memory does not
   * change a score, which towards a goal is the plain distance.
   */
  lemma ScoreIgnoresMemory(b: Board, aim: Aim, q: seq<Memo>, next: Position)
    ensures Score(b, aim, q, next) == Score(b, aim, [], next)
    ensures aim.Toward? ==> Score(b, aim, q, next) == Manhattan(next, aim.goal)
  {
  }

  /** Score s is strictly better than t. */
  predicate Better(aim: Aim, s: int, t: int) {
    if aim.Toward? then s < t else s > t
  }

  /** The place of a cardinal direction in the scan order UP, DOWN, LEFT, RIGHT. */
  function Rank(d: Direction): (k: nat)
    ensures d.IsCardinal() ==> k < 4 && CARDINALS[k] == d
  {
    match d
    case UP => 0
    case DOWN => 1
    case LEFT => 2
    case RIGHT => 3
    case NONE => 4
  }

  /**
   * The scan of the first n directions of UP, DOWN, LEFT, RIGHT: the best score so far (None
   * before any walkable neighbour) and its direction. A later direction replaces the best
   * only with a strictly better score.
   */
  function Scan(b: Board, from: Position, aim: Aim, q: seq<Memo>, n: nat): (Option<int>, Direction)
    requires n <= 4
    reads b.cells
  {
    if n == 0 then (None, NONE)
    else
      var prev := Scan(b, from, aim, q, n - 1);
      var d := CARDINALS[n - 1];
      var next := from.Step(d);
      if !b.IsWalkable(next) then prev
      else
        var s := Score(b, aim, q, next);
        if prev.0.None? || Better(aim, s, prev.0.value) then (Some(s), d) else prev
  }

  /** The direction a greedy step takes: the result of the whole scan. */
  function Greedy(b: Board, from: Position, aim: Aim, q: seq<Memo>): Direction
    reads b.cells
  {
    Scan(b, from, aim, q, 4).1
  }

  /** No neighbour of p is walkable. */
  ghost predicate Boxed(b: Board, p: Position)
    reads b.cells
  {
    forall e: Direction :: e.IsCardinal() ==> !b.IsWalkable(p.Step(e))
  }

  /**
   * d is a walkable step at least as good as every walkable step and strictly better than
   * every walkable step earlier in the order UP, DOWN, LEFT, RIGHT.
   */
  ghost predicate IsFirstBest(b: Board, from: Position, aim: Aim, q: seq<Memo>, d: Direction)
    reads b.cells
  {
    && d.IsCardinal() && b.IsWalkable(from.Step(d))
    && forall e: Direction :: e.IsCardinal() && b.IsWalkable(from.Step(e)) ==>
         && !Better(aim, Score(b, aim, q, from.Step(e)), Score(b, aim, q, from.Step(d)))
         && (Rank(e) < Rank(d) ==> Better(aim, Score(b, aim, q, from.Step(d)), Score(b, aim, q, from.Step(e))))
  }

  /** What the scan of the first n directions holds. */
  lemma {:induction false} ScanInvariant(b: Board, from: Position, aim: Aim, q: seq<Memo>, n: nat)
    requires n <= 4
    ensures var (best, d) := Scan(b, from, aim, q, n);
      && (best.None? <==> forall j :: 0 <= j < n ==> !b.IsWalkable(from.Step(CARDINALS[j])))
      && (best.None? ==> d == NONE)
      && (best.Some? ==>
            && d.IsCardinal() && Rank(d) < n && b.IsWalkable(from.Step(d))
            && best.value == Score(b, aim, q, from.Step(d))
            && forall j :: 0 <= j < n && b.IsWalkable(from.Step(CARDINALS[j])) ==>
                 && !Better(aim, Score(b, aim, q, from.Step(CARDINALS[j])), best.value)
                 && (j < Rank(d) ==> Better(aim, best.value, Score(b, aim, q, from.Step(CARDINALS[j])))))
  {
    if n > 0 {
      ScanInvariant(b, from, aim, q, n - 1);
      var prev := Scan(b, from, aim, q, n - 1);
      var e := CARDINALS[n - 1];
      assert Rank(e) == n - 1;
      if !b.IsWalkable(from.Step(e)) {
        assert Scan(b, from, aim, q, n) == prev;
      } else if prev.0.None? || Better(aim, Score(b, aim, q, from.Step(e)), prev.0.value) {
        assert Scan(b, from, aim, q, n) == (Some(Score(b, aim, q, from.Step(e))), e);
      } else {
        assert Scan(b, from, aim, q, n) == prev;
      }
    }
  }

  /** A greedy step is NONE exactly when the player is boxed in, and otherwise the first best step. */
  lemma GreedyIsFirstBest(b: Board, from: Position, aim: Aim, q: seq<Memo>)
    ensures Greedy(b, from, aim, q) == NONE <==> Boxed(b, from)
    ensures Greedy(b, from, aim, q) != NONE ==> IsFirstBest(b, from, aim, q, Greedy(b, from, aim, q))
  {
    ScanInvariant(b, from, aim, q, 4);
    var d := Greedy(b, from, aim, q);
    if Scan(b, from, aim, q, 4).0.None? {
      forall e: Direction | e.IsCardinal()
        ensures !b.IsWalkable(from.Step(e))
      {
        assert CARDINALS[Rank(e)] == e;
      }
    } else {
      forall e: Direction | e.IsCardinal() && b.IsWalkable(from.Step(e))
        ensures !Better(aim, Score(b, aim, q, from.Step(e)), Score(b, aim, q, from.Step(d)))
        ensures Rank(e) < Rank(d) ==> Better(aim, Score(b, aim, q, from.Step(d)), Score(b, aim, q, from.Step(e)))
      {
        assert CARDINALS[Rank(e)] == e;
      }
      assert !b.IsWalkable(from.Step(d)) ==> !Boxed(b, from);
    }
  }

  /** The first best step is unique, so the greedy choice is determined by its specification. */
  lemma FirstBestUnique(b: Board, from: Position, aim: Aim, q: seq<Memo>, d: Direction, e: Direction)
    requires IsFirstBest(b, from, aim, q, d) && IsFirstBest(b, from, aim, q, e)
    ensures d == e
  {
    assert CARDINALS[Rank(d)] == d && CARDINALS[Rank(e)] == e;
  }

  /** When some walkable neighbour is closer to the goal, the step towards it gets closer. */
  lemma TowardClosesIn(b: Board, from: Position, goal: Position, q: seq<Memo>, e: Direction)
    requires e.IsCardinal() && b.IsWalkable(from.Step(e)) && Manhattan(from.Step(e), goal) < Manhattan(from, goal)
    ensures var d := Greedy(b, from, Toward(goal), q);
      d.IsCardinal() && Manhattan(from.Step(d), goal) < Manhattan(from, goal)
  {
    GreedyIsFirstBest(b, from, Toward(goal), q);
  }

  /** Counts the walkable neighbours of p in the order UP, DOWN, LEFT, RIGHT. */
  method FreeNeighbors(b: Board, p: Position) returns (count: nat)
    ensures count == FreeCount(b, p) && count <= 4
  {
    count := 0;
    for k := 0 to 4
      invariant count == |OpenAmong(b, p, CARDINALS[..k])|
    {
      var d := CARDINALS[k];
      var n := p.Translated(d.DRow(), d.DCol());
      assert CARDINALS[..k + 1][..k] == CARDINALS[..k];
      if b.IsInside(n) && b.IsWalkable(n) {
        count := count + 1;
      }
    }
    assert CARDINALS[..4] == CARDINALS;
  }

  /** The walkable step with the lowest score towards goal, first in order on a tie; NONE when boxed in. */
  method StepToward(b: Board, from: Position, goal: Position, q: seq<Memo>) returns (bestDir: Direction)
    ensures bestDir == Greedy(b, from, Toward(goal), q)
  {
    var bestScore: Option<int> := None;
    bestDir := NONE;
    for k := 0 to 4
      invariant (bestScore, bestDir) == Scan(b, from, Toward(goal), q, k)
    {
      var d := CARDINALS[k];
      var next := from.Translated(d.DRow(), d.DCol());
      if !b.IsInside(next) {
        continue;
      }
      if !b.IsWalkable(next) {
        continue;
      }
      var dist: int := Manhattan(next, goal);
      var penaltyLoop: int := if WasRecentlyThere(q, next) then 3 else 0;
      var score := dist + penaltyLoop;
      if bestScore.None? || score < bestScore.value {
        bestScore := Some(score);
        bestDir := d;
      }
    }
  }

  /** The walkable step with the highest score away from threat, first in order on a tie; NONE when boxed in. */
  method StepAway(b: Board, from: Position, threat: Position, q: seq<Memo>) returns (bestDir: Direction)
    ensures bestDir == Greedy(b, from, Away(threat), q)
  {
    var bestScore: Option<int> := None;
    bestDir := NONE;
    for k := 0 to 4
      invariant (bestScore, bestDir) == Scan(b, from, Away(threat), q, k)
    {
      var d := CARDINALS[k];
      var next := from.Translated(d.DRow(), d.DCol());
      if !b.IsInside(next) {
        continue;
      }
      if !b.IsWalkable(next) {
        continue;
      }
      var dist: int := Manhattan(next, threat);
      var penaltyLoop: int := if WasRecentlyThere(q, next) then 2 else 0;
      var free := FreeNeighbors(b, next);
      var penaltyDeadEnd: int := if free <= 1 then 2 else 0;
      var score := dist - penaltyLoop - penaltyDeadEnd;
      if bestScore.None? || score > bestScore.value {
        bestScore := Some(score);
        bestDir := d;
      }
    }
  }

  // ---- random walk -------------------------------------------------------------------

  /** The directions of ds whose neighbour of from is not a recent cell, in order. */
  function NotRecent(q: seq<Memo>, from: Position, ds: seq<Direction>): (r: seq<Direction>)
    ensures forall d :: d in r <==> d in ds && !WasRecentlyThere(q, from.Step(d))
    decreases |ds|
  {
    if ds == [] then []
    else NotRecent(q, from, ds[..|ds| - 1]) + (if WasRecentlyThere(q, from.Step(ds[|ds| - 1])) then [] else [ds[|ds| - 1]])
  }

  /** No cell counts as recent, so the non-recent filter keeps every direction, in order. */
  lemma {:induction false} NotRecentKeepsAll(q: seq<Memo>, from: Position, ds: seq<Direction>)
    ensures NotRecent(q, from, ds) == ds
    decreases |ds|
  {
    if ds != [] {
      NotRecentKeepsAll(q, from, ds[..|ds| - 1]);
      assert ds[..|ds| - 1] + [ds[|ds| - 1]] == ds;
    }
  }

  /**
   * The random walk: a drawn walkable direction whose cell is not recent when there is one,
   * else a drawn walkable direction, else NONE. `pick` is the random draw.
   */
  function RandomChoice(b: Board, from: Position, q: seq<Memo>, pick: nat): Direction
    reads b.cells
  {
    var options := OpenDirections(b, from);
    var safe := NotRecent(q, from, options);
    if safe != [] then PickFrom(safe, pick) else PickFrom(options, pick)
  }

  /**
   * The random walk is NONE exactly when the player is boxed in; otherwise it is a walkable
   * step, and not a recent cell whenever some walkable step is not.
   */
  lemma RandomChoiceSound(b: Board, from: Position, q: seq<Memo>, pick: nat)
    ensures var d := RandomChoice(b, from, q, pick);
      && (d == NONE <==> Boxed(b, from))
      && (d != NONE ==> d.IsCardinal() && b.IsWalkable(from.Step(d)))
      && ((exists e :: e in OpenDirections(b, from) && !WasRecentlyThere(q, from.Step(e))) ==> !WasRecentlyThere(q, from.Step(d)))
  {
    var options := OpenDirections(b, from);
    var safe := NotRecent(q, from, options);
    var d := RandomChoice(b, from, q, pick);
    PickOpen(b, from, pick);
    if safe != [] {
      assert d in safe && d in options;
      assert d.IsCardinal() by { CardinalsComplete(d); }
      assert !Boxed(b, from);
    }
  }

  /** Looking at one more direction extends the open list by it exactly when its cell is walkable. */
  lemma OpenAmongStep(b: Board, from: Position, k: nat)
    requires k < 4
    ensures OpenAmong(b, from, CARDINALS[..k + 1]) ==
      OpenAmong(b, from, CARDINALS[..k]) + (if b.IsWalkable(from.Step(CARDINALS[k])) then [CARDINALS[k]] else [])
  {
    assert CARDINALS[..k + 1][..k] == CARDINALS[..k];
  }

  /** Extending a list of directions extends its not-recent part by the new one when it is not recent. */
  lemma NotRecentStep(q: seq<Memo>, from: Position, ds: seq<Direction>, d: Direction)
    ensures NotRecent(q, from, ds + [d]) ==
      NotRecent(q, from, ds) + (if WasRecentlyThere(q, from.Step(d)) then [] else [d])
  {
    assert (ds + [d])[..|ds|] == ds;
  }

  /** Collects the walkable directions and those not recent, then draws from the right list. */
  method RandomWalk(b: Board, from: Position, q: seq<Memo>, pick: nat) returns (d: Direction)
    ensures d == RandomChoice(b, from, q, pick)
  {
    var options: seq<Direction> := [];
    var safeOptions: seq<Direction> := [];
    for k := 0 to 4
      invariant options == OpenAmong(b, from, CARDINALS[..k])
      invariant safeOptions == NotRecent(q, from, options)
    {
      var dir := CARDINALS[k];
      var next := from.Translated(dir.DRow(), dir.DCol());
      OpenAmongStep(b, from, k);
      if !b.IsInside(next) {
        continue;
      }
      if !b.IsWalkable(next) {
        continue;
      }
      NotRecentStep(q, from, options, dir);
      options := options + [dir];
      if !WasRecentlyThere(q, next) {
        safeOptions := safeOptions + [dir];
      }
    }
    assert CARDINALS[..4] == CARDINALS;
    var pool := if safeOptions != [] then safeOptions else options;
    if pool != [] {
      return pool[pick % |pool|];
    }
    return NONE;
  }

  // ---- targets -----------------------------------------------------------------------

  /** A fruit the machine player goes for: neither collected nor frozen. */
  predicate Targetable<B>(f: Fruit<B>)
    reads f`collected, f`frozen
  {
    !f.collected && !f.frozen
  }

  /** Index i holds the first targetable fruit at the least distance from `from`. */
  ghost predicate IsFirstNearestFruit<B>(fruits: seq<Fruit<B>>, from: Position, i: int)
    reads fruits`position, fruits`collected, fruits`frozen
  {
    && 0 <= i < |fruits| && Targetable(fruits[i])
    && (forall j :: 0 <= j < |fruits| && Targetable(fruits[j]) ==>
          Manhattan(from, fruits[i].position) <= Manhattan(from, fruits[j].position))
    && (forall j :: 0 <= j < i && Targetable(fruits[j]) ==>
          Manhattan(from, fruits[i].position) < Manhattan(from, fruits[j].position))
  }

  /** No fruit is targetable. */
  ghost predicate NoTarget<B>(fruits: seq<Fruit<B>>)
    reads fruits`position, fruits`collected, fruits`frozen
  {
    forall j :: 0 <= j < |fruits| ==> !Targetable(fruits[j])
  }

  /** Index i holds the first enemy at the least distance from `from`. */
  ghost predicate IsFirstNearestEnemy<B>(enemies: seq<Enemy<B>>, from: Position, i: int)
    reads enemies`position
  {
    && 0 <= i < |enemies|
    && (forall j :: 0 <= j < |enemies| ==> Manhattan(from, enemies[i].position) <= Manhattan(from, enemies[j].position))
    && (forall j :: 0 <= j < i ==> Manhattan(from, enemies[i].position) < Manhattan(from, enemies[j].position))
  }

  /** The nearest targetable fruit, the first one on a tie; null when none is targetable. */
  method NearestActiveFruit<B>(fruits: seq<Fruit<B>>, from: Position) returns (best: Fruit?<B>, ghost index: int)
    ensures best == null <==> NoTarget(fruits)
    ensures best != null ==> IsFirstNearestFruit(fruits, from, index) && fruits[index] == best
  {
    best := null;
    index := -1;
    var bestDist := 0;
    for i := 0 to |fruits|
      invariant best == null <==> forall j :: 0 <= j < i ==> !Targetable(fruits[j])
      invariant best != null ==> 0 <= index < i && fruits[index] == best && Targetable(best)
      invariant best != null ==> bestDist == Manhattan(from, best.position)
      invariant best != null ==> forall j :: 0 <= j < i && Targetable(fruits[j]) ==> bestDist <= Manhattan(from, fruits[j].position)
      invariant best != null ==> forall j :: 0 <= j < index && Targetable(fruits[j]) ==> bestDist < Manhattan(from, fruits[j].position)
    {
      var f := fruits[i];
      if f.collected {
        continue;
      }
      if f.frozen {
        continue;
      }
      var d := Manhattan(from, f.position);
      if best == null || d < bestDist {
        bestDist := d;
        best := f;
        index := i;
      }
    }
  }

  /** The nearest enemy, the first one on a tie; null when there is none. */
  method NearestEnemy<B>(enemies: seq<Enemy<B>>, from: Position) returns (best: Enemy?<B>, ghost index: int)
    ensures best == null <==> |enemies| == 0
    ensures best != null ==> IsFirstNearestEnemy(enemies, from, index) && enemies[index] == best
  {
    best := null;
    index := -1;
    var bestDist := 0;
    for i := 0 to |enemies|
      invariant best == null <==> i == 0
      invariant best != null ==> 0 <= index < i && enemies[index] == best
      invariant best != null ==> bestDist == Manhattan(from, best.position)
      invariant best != null ==> forall j :: 0 <= j < i ==> bestDist <= Manhattan(from, enemies[j].position)
      invariant best != null ==> forall j :: 0 <= j < index ==> bestDist < Manhattan(from, enemies[j].position)
    {
      var e := enemies[i];
      var d := Manhattan(from, e.position);
      if best == null || d < bestDist {
        bestDist := d;
        best := e;
        index := i;
      }
    }
  }

  // ---- breadth-first rescue ----------------------------------------------------------

  /** d is the first step of some shortest walk from `from` to goal. */
  ghost predicate StartsShortestWalk(b: Board, from: Position, goal: Position, d: Direction)
    reads b.cells
  {
    exists path :: IsShortestWalk(b, from, path, goal) && path != [] && path[0] == d
  }

  /**
   * The walk back from goal along the parent arrays, stopping at the cell whose parent is
   * start or at a cell without a parent; tail is the walk from there to goal.
   */
  method WalkBack(b: Board, start: Position, goal: Position, visited: array2<bool>, parentR: array2<int>,
                  parentC: array2<int>, ghost dist: map<Position, nat>, ghost parent: map<Position, Position>)
    returns (cur: Position, ghost tail: seq<Direction>)
    requires AllInside(b, dist) && Tree(b, start, dist, parent)
    requires Mirrors(b, dist, parent, visited, parentR, parentC) && goal in dist
    ensures cur in dist && b.IsInside(cur) && Encodes(parent, cur, parentR[cur.row, cur.col], parentC[cur.row, cur.col])
    ensures IsWalk(b, cur, tail, goal) && dist[cur] + |tail| == dist[goal]
    ensures cur == start ==> tail == []
    ensures cur !in parent || parent[cur] == start
  {
    cur := goal;
    tail := [];
    while parentR[cur.row, cur.col] != -1 && !(parentR[cur.row, cur.col] == start.row && parentC[cur.row, cur.col] == start.col)
      invariant cur in dist && b.IsInside(cur)
      invariant IsWalk(b, cur, tail, goal) && dist[cur] + |tail| == dist[goal]
      invariant cur == start ==> tail == []
      decreases dist[cur]
    {
      assert Encodes(parent, Position(cur.row, cur.col), parentR[cur.row, cur.col], parentC[cur.row, cur.col]);
      var p := Position(parentR[cur.row, cur.col], parentC[cur.row, cur.col]);
      assert p == parent[cur];
      var step := DirectionFrom(p.row, p.col, cur.row, cur.col);
      tail := [step] + tail;
      cur := p;
    }
    assert Encodes(parent, Position(cur.row, cur.col), parentR[cur.row, cur.col], parentC[cur.row, cur.col]);
  }

  /**
   * The first step of a breadth-first path from start to goal over walkable cells; NONE when
   * the goal is the start or cannot be reached. The search runs until the queue is empty
   * (its goal tests compare objects and never hold), then follows the parents back from the
   * goal to the cell whose parent is the start.
   */
  method BfsFirstStep(b: Board, start: Position, goal: Position) returns (d: Direction, ghost path: seq<Direction>)
    requires b.IsInside(start) && b.IsInside(goal)
    ensures d == NONE <==> start == goal || Unreachable(b, start, goal)
    ensures d != NONE ==> path != [] && path[0] == d && IsShortestWalk(b, start, path, goal)
  {
    var visited, parentR, parentC, found, dist, parent := Explore(b, start, goal, false);
    path := [];
    if !visited[goal.row, goal.col] {
      return NONE, path;
    }
    var cur, tail := WalkBack(b, start, goal, visited, parentR, parentC, dist, parent);
    if parentR[cur.row, cur.col] == -1 {
      return NONE, path;
    }
    d := DirectionFrom(parentR[cur.row, cur.col], parentC[cur.row, cur.col], cur.row, cur.col);
    path := [d] + tail;
    assert parent[cur] == start;
    assert IsWalk(b, start, path, goal);
  }

  // ---- profiles ----------------------------------------------------------------------

  /** d is NONE exactly when the player is boxed in, and otherwise a walkable cardinal step. */
  ghost predicate Sound(b: Board, from: Position, d: Direction)
    reads b.cells
  {
    (d == NONE <==> Boxed(b, from)) && (d != NONE ==> d.IsCardinal() && b.IsWalkable(from.Step(d)))
  }

  /**
   * Going for goal: the greedy step; when stuck, the first step of a shortest walk to the
   * goal instead, unless the player is on the goal or cannot reach it.
   */
  ghost predicate HeadsFor(b: Board, from: Position, goal: Position, q: seq<Memo>, d: Direction)
    reads b.cells
  {
    && (!Stuck(q) ==> d == Greedy(b, from, Toward(goal), q))
    && (Stuck(q) && from != goal && !Unreachable(b, from, goal) ==> StartsShortestWalk(b, from, goal, d))
    && (Stuck(q) && (from == goal || Unreachable(b, from, goal)) ==> d == Greedy(b, from, Toward(goal), q))
  }

  /** Going for the nearest targetable fruit, or walking at random when there is none. */
  ghost predicate ChasesFruit<B>(b: Board, fruits: seq<Fruit<B>>, from: Position, q: seq<Memo>, pick: nat, d: Direction)
    reads b.cells, fruits`position, fruits`collected, fruits`frozen
  {
    && (NoTarget(fruits) ==> d == RandomChoice(b, from, q, pick))
    && forall i :: IsFirstNearestFruit(fruits, from, i) ==> HeadsFor(b, from, fruits[i].position, q, d)
  }

  /** Every fruit and the player lie on the board. */
  ghost predicate OnBoard<B>(b: Board, fruits: seq<Fruit<B>>, from: Position)
    reads fruits`position, fruits`collected, fruits`frozen
  {
    b.IsInside(from) && forall f :: f in fruits ==> b.IsInside(f.position)
  }

  /** A greedy step is sound. */
  lemma GreedySound(b: Board, from: Position, aim: Aim, q: seq<Memo>)
    ensures Sound(b, from, Greedy(b, from, aim, q))
  {
    GreedyIsFirstBest(b, from, aim, q);
  }

  /** The first step of a walk to another cell is a walkable step, so the player is not boxed in. */
  lemma FirstStepSound(b: Board, from: Position, goal: Position, d: Direction)
    requires StartsShortestWalk(b, from, goal, d)
    ensures Sound(b, from, d)
  {
    var path :| IsShortestWalk(b, from, path, goal) && path != [] && path[0] == d;
    assert d.IsCardinal() && b.IsWalkable(from.Step(d));
  }

  /** The step towards the fruit: breadth-first when stuck and a path exists, else greedy. */
  method GoFor<B>(b: Board, from: Position, goal: Position, q: seq<Memo>) returns (d: Direction)
    requires b.IsInside(from) && b.IsInside(goal)
    ensures HeadsFor(b, from, goal, q, d) && Sound(b, from, d)
  {
    if Stuck(q) {
      var bfs, path := BfsFirstStep(b, from, goal);
      if bfs != NONE {
        FirstStepSound(b, from, goal, bfs);
        return bfs;
      }
    }
    d := StepToward(b, from, goal, q);
    GreedySound(b, from, Toward(goal), q);
  }

  /** HUNGRY: go for the nearest fruit, or walk at random when there is none. */
  method HungryMove<B>(b: Board, fruits: seq<Fruit<B>>, from: Position, q: seq<Memo>, pick: nat) returns (d: Direction)
    requires OnBoard(b, fruits, from)
    ensures Sound(b, from, d) && ChasesFruit(b, fruits, from, q, pick, d)
  {
    var target, i := NearestActiveFruit(fruits, from);
    if target == null {
      d := RandomWalk(b, from, q, pick);
      RandomChoiceSound(b, from, q, pick);
      return;
    }
    d := GoFor<B>(b, from, target.position, q);
    forall j | IsFirstNearestFruit(fruits, from, j)
      ensures HeadsFor(b, from, fruits[j].position, q, d)
    {
      FirstNearestFruitUnique(fruits, from, i, j);
    }
  }

  /** The nearest-fruit choice is determined: at most one index qualifies. */
  lemma FirstNearestFruitUnique<B>(fruits: seq<Fruit<B>>, from: Position, i: int, j: int)
    requires IsFirstNearestFruit(fruits, from, i) && IsFirstNearestFruit(fruits, from, j)
    ensures i == j
  {
    assert Targetable(fruits[i]) && Targetable(fruits[j]);
    assert Manhattan(from, fruits[i].position) == Manhattan(from, fruits[j].position);
  }

  /** The nearest-enemy choice is determined: at most one index qualifies. */
  lemma FirstNearestEnemyUnique<B>(enemies: seq<Enemy<B>>, from: Position, i: int, j: int)
    requires IsFirstNearestEnemy(enemies, from, i) && IsFirstNearestEnemy(enemies, from, j)
    ensures i == j
  {
    assert Manhattan(from, enemies[i].position) == Manhattan(from, enemies[j].position);
  }

  /** The distance at which an EXPERT player flees rather than goes for fruit. */
  const EXPERT_FLEE_DISTANCE: nat := 3

  /** FEARFUL's rule: with no enemy, HUNGRY's; otherwise the step away from the nearest enemy. */
  ghost predicate FearfulRule<B, E>(b: Board, fruits: seq<Fruit<B>>, enemies: seq<Enemy<E>>, from: Position,
                                   q: seq<Memo>, pick: nat, d: Direction)
    reads b.cells, fruits`position, fruits`collected, fruits`frozen, enemies`position
  {
    && (|enemies| == 0 ==> ChasesFruit(b, fruits, from, q, pick, d))
    && forall i :: IsFirstNearestEnemy(enemies, from, i) ==> d == Greedy(b, from, Away(enemies[i].position), q)
  }

  /**
   * EXPERT's rule: the step away from the nearest enemy when it is within the flee distance,
   * HUNGRY's rule when no enemy is that close.
   */
  ghost predicate ExpertRule<B, E>(b: Board, fruits: seq<Fruit<B>>, enemies: seq<Enemy<E>>, from: Position,
                                  q: seq<Memo>, pick: nat, d: Direction)
    reads b.cells, fruits`position, fruits`collected, fruits`frozen, enemies`position
  {
    && (forall i :: IsFirstNearestEnemy(enemies, from, i) && Manhattan(from, enemies[i].position) <= EXPERT_FLEE_DISTANCE ==>
          d == Greedy(b, from, Away(enemies[i].position), q))
    && ((forall i :: IsFirstNearestEnemy(enemies, from, i) ==> Manhattan(from, enemies[i].position) > EXPERT_FLEE_DISTANCE) ==>
          ChasesFruit(b, fruits, from, q, pick, d))
  }

  /** The rule of the given profile. */
  ghost predicate FollowsProfile<B, E>(profile: AIProfile, b: Board, fruits: seq<Fruit<B>>, enemies: seq<Enemy<E>>,
                                      from: Position, q: seq<Memo>, pick: nat, d: Direction)
    reads b.cells, fruits`position, fruits`collected, fruits`frozen, enemies`position
  {
    match profile
    case HUNGRY => ChasesFruit(b, fruits, from, q, pick, d)
    case FEARFUL => FearfulRule(b, fruits, enemies, from, q, pick, d)
    case EXPERT => ExpertRule(b, fruits, enemies, from, q, pick, d)
  }

  /**
   * FEARFUL: with no enemy, like HUNGRY; otherwise step away from the nearest enemy (the
   * random fallback only runs when no step exists, and then it finds none either).
   */
  method FearfulMove<B, E>(b: Board, fruits: seq<Fruit<B>>, enemies: seq<Enemy<E>>, from: Position, q: seq<Memo>, pick: nat)
    returns (d: Direction)
    requires OnBoard(b, fruits, from)
    ensures Sound(b, from, d) && FearfulRule(b, fruits, enemies, from, q, pick, d)
  {
    var threat, k := NearestEnemy(enemies, from);
    if threat == null {
      var target, i := NearestActiveFruit(fruits, from);
      if target != null {
        d := GoFor<B>(b, from, target.position, q);
        forall j | IsFirstNearestFruit(fruits, from, j)
          ensures HeadsFor(b, from, fruits[j].position, q, d)
        {
          FirstNearestFruitUnique(fruits, from, i, j);
        }
        return;
      }
      d := RandomWalk(b, from, q, pick);
      RandomChoiceSound(b, from, q, pick);
      return;
    }
    var away := StepAway(b, from, threat.position, q);
    GreedySound(b, from, Away(threat.position), q);
    forall j | IsFirstNearestEnemy(enemies, from, j)
      ensures away == Greedy(b, from, Away(enemies[j].position), q)
    {
      FirstNearestEnemyUnique(enemies, from, k, j);
    }
    if away != NONE {
      return away;
    }
    d := RandomWalk(b, from, q, pick);
    RandomChoiceSound(b, from, q, pick);
  }

  /**
   * EXPERT: step away from the nearest enemy when it is within distance 3; otherwise go for
   * the nearest fruit; otherwise walk at random.
   */
  method ExpertMove<B, E>(b: Board, fruits: seq<Fruit<B>>, enemies: seq<Enemy<E>>, from: Position, q: seq<Memo>, pick: nat)
    returns (d: Direction)
    requires OnBoard(b, fruits, from)
    ensures Sound(b, from, d) && ExpertRule(b, fruits, enemies, from, q, pick, d)
  {
    var threat, k := NearestEnemy(enemies, from);
    if threat != null {
      var dist := Manhattan(from, threat.position);
      forall j | IsFirstNearestEnemy(enemies, from, j)
        ensures j == k
      {
        FirstNearestEnemyUnique(enemies, from, k, j);
      }
      if dist <= EXPERT_FLEE_DISTANCE {
        var away := StepAway(b, from, threat.position, q);
        GreedySound(b, from, Away(threat.position), q);
        if away != NONE {
          return away;
        }
        assert Boxed(b, from);
      }
    }
    // The fruit phase falls back on a random walk where HUNGRY would keep the failed greedy
    // step; both are NONE then, since a boxed-in player has no step at all.
    d := HungryMove(b, fruits, from, q, pick);
  }

  /** The profile's move. */
  method Choose<B, E>(profile: AIProfile, b: Board, fruits: seq<Fruit<B>>, enemies: seq<Enemy<E>>, from: Position,
                      q: seq<Memo>, pick: nat) returns (d: Direction)
    requires OnBoard(b, fruits, from)
    ensures Sound(b, from, d) && FollowsProfile(profile, b, fruits, enemies, from, q, pick, d)
  {
    match profile
    case HUNGRY => d := HungryMove(b, fruits, from, q, pick);
    case FEARFUL => d := FearfulMove(b, fruits, enemies, from, q, pick);
    case EXPERT => d := ExpertMove(b, fruits, enemies, from, q, pick);
  }

  // ---- the controller ----------------------------------------------------------------

  /** The machine player's controller: its profile and the memory of every player it has decided for. */
  class AIController {
    const profile: AIProfile
    var lastPositions: map<Player, seq<Memo>>

    /** Every memory holds at most MEMORY entries. */
    ghost predicate Valid()
      reads this`lastPositions
    {
      forall p :: p in lastPositions ==> |lastPositions[p]| <= MEMORY
    }

    constructor (profile: AIProfile)
      ensures Valid() && this.profile == profile && lastPositions == map[]
    {
      this.profile := profile;
      lastPositions := map[];
    }

    /** The remembered positions of me, oldest first; empty before the first decision. */
    function Memory(me: Player): seq<Memo>
      reads this`lastPositions
    {
      if me in lastPositions then lastPositions[me] else []
    }

    /** Appends me's current position object and drops the oldest entries beyond MEMORY. */
    method Remember(me: Player)
      requires Valid()
      modifies this`lastPositions
      ensures Valid()
      ensures lastPositions == old(lastPositions)[me := Window(old(Memory(me)) + [Memo(me.position, me.positionObject)])]
    {
      var memo := Memo(me.position, me.positionObject);
      var q := Trim(Memory(me) + [memo]);
      assert |q| <= MEMORY;
      lastPositions := lastPositions[me := q];
    }

    /** Whether me's memory shows it stuck: full, and a ping-pong or two repeats. */
    method IsStuck(me: Player) returns (r: bool)
      ensures r == Stuck(Memory(me))
    {
      if me !in lastPositions || |lastPositions[me]| < 6 {
        return false;
      }
      var arr := lastPositions[me];
      var n := |arr|;
      if SameObject(arr[n - 1], arr[n - 3]) && SameObject(arr[n - 2], arr[n - 4]) {
        return true;
      }
      var repeats := 0;
      for i := 1 to n
        invariant repeats == AdjacentRepeats(arr, i)
      {
        if SameObject(arr[i], arr[i - 1]) {
          repeats := repeats + 1;
        }
      }
      return repeats >= 2;
    }

    /**
     * The next direction for me: NONE for a missing or dead player, whose memory is left
     * alone; otherwise its position is remembered first and the profile decides.
     */
    method Decide<B, E>(b: Board, fruits: seq<Fruit<B>>, enemies: seq<Enemy<E>>, me: Player?, pick: nat) returns (d: Direction)
      requires Valid()
      requires me != null ==> OnBoard(b, fruits, me.position)
      modifies this`lastPositions
      ensures Valid()
      ensures me == null || me.dead ==> d == NONE && lastPositions == old(lastPositions)
      ensures me != null && !me.dead ==>
        lastPositions == old(lastPositions)[me := Window(old(Memory(me)) + [Memo(me.position, me.positionObject)])]
      ensures me != null && !me.dead ==>
        old(&& Sound(b, me.position, d)
            && FollowsProfile(profile, b, fruits, enemies, me.position, Window(Memory(me) + [Memo(me.position, me.positionObject)]), pick, d))
    {
      if me == null || me.dead {
        return NONE;
      }
      d := Choose(profile, b, fruits, enemies, me.position, Window(Memory(me) + [Memo(me.position, me.positionObject)]), pick);
      Remember(me);
    }
  }
}
