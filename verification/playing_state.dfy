/**
 * The running game screen (domain/game/PlayingState.java) without its drawing: the time limit,
 * the first player's key latch and the ice rays the space key creates or breaks.
 */
module PlayingStates {
  import opened Directions
  import opened Positions
  import opened Cells
  import opened Boards
  import opened Players
  import opened Fruits
  import opened Enemies
  import opened Collisions
  import opened Behaviors
  import opened Levels

  /** Updates before the time is up: three minutes at sixty updates a second. */
  const TIME_LIMIT: nat := 10800

  /** The key codes of java.awt.event.KeyEvent that the screen reacts to. */
  const VK_SPACE: int := 32
  const VK_LEFT: int := 37
  const VK_UP: int := 38
  const VK_RIGHT: int := 39
  const VK_DOWN: int := 40

  // ---- keys --------------------------------------------------------------------------

  /** The direction an arrow key stands for; NONE for every other key. */
  function ArrowOf(keyCode: int): Direction {
    if keyCode == VK_UP then UP
    else if keyCode == VK_DOWN then DOWN
    else if keyCode == VK_LEFT then LEFT
    else if keyCode == VK_RIGHT then RIGHT
    else NONE
  }

  /** The arrow key of a direction; no key for NONE. */
  function KeyOf(d: Direction): int {
    match d
    case UP => VK_UP
    case DOWN => VK_DOWN
    case LEFT => VK_LEFT
    case RIGHT => VK_RIGHT
    case NONE => -1
  }

  /** Exactly the four arrow keys stand for a direction, and each names one direction. */
  lemma ArrowKeys(keyCode: int, d: Direction)
    ensures ArrowOf(keyCode) != NONE <==> keyCode in {VK_UP, VK_DOWN, VK_LEFT, VK_RIGHT}
    ensures d.IsCardinal() ==> ArrowOf(KeyOf(d)) == d
    ensures ArrowOf(keyCode) != NONE ==> KeyOf(ArrowOf(keyCode)) == keyCode
    ensures keyCode == VK_SPACE ==> ArrowOf(keyCode) == NONE
  {
  }

  /** The first player's held direction after a key press: an arrow key sets it, any other key keeps it. */
  function Pressed(held: Direction, keyCode: int): Direction {
    if ArrowOf(keyCode) != NONE then ArrowOf(keyCode) else held
  }

  /** The held direction after a key release: releasing the held arrow clears it, any other key keeps it. */
  function Released(held: Direction, keyCode: int): Direction {
    if ArrowOf(keyCode) != NONE && ArrowOf(keyCode) == held then NONE else held
  }

  /**
   * The latch: pressing and releasing the same arrow leaves nothing held; a release keeps the
   * held direction exactly when it is not that direction's arrow; space never changes it.
   */
  lemma KeyLatch(held: Direction, keyCode: int, other: int)
    ensures ArrowOf(keyCode) != NONE ==> Released(Pressed(held, keyCode), keyCode) == NONE
    ensures held != NONE ==> (Released(held, other) == held <==> other != KeyOf(held))
    ensures Released(NONE, other) == NONE
    ensures Pressed(held, VK_SPACE) == held && Released(held, VK_SPACE) == held
  {
  }

  // ---- the time limit ----------------------------------------------------------------

  /** The screen's clock: updates counted so far and whether the time is up. */
  datatype Clock = Clock(ticks: nat, up: bool)

  /** One update's effect on the clock: once up it stays still, otherwise it counts and may run out. */
  function Tick(c: Clock): Clock {
    if c.up then c
    else Clock(c.ticks + 1, c.ticks + 1 >= TIME_LIMIT)
  }

  /** The inputs a screen update hands the level: the held arrow, for the first player only. */
  function HeldInput(players: seq<Player>, held: Direction): (m: map<Player, Direction>)
    requires |players| > 0
    ensures m.Keys == {players[0]} && m[players[0]] == held
  {
    map[players[0] := held]
  }

  /** An update reaches the level: the time is not up and this update does not run it out. */
  predicate LevelMoves(c: Clock) {
    !c.up && c.ticks + 1 < TIME_LIMIT
  }

  /** The clock after n updates of a new screen. */
  function Ticks(n: nat): Clock {
    if n == 0 then Clock(0, false) else Tick(Ticks(n - 1))
  }

  /**
   * The clock counts updates up to TIME_LIMIT and is up from then on; the level itself moves
   * on exactly the first TIME_LIMIT - 1 updates.
   */
  lemma {:induction false} ClockAfter(n: nat)
    ensures Ticks(n) == Clock(if n < TIME_LIMIT then n else TIME_LIMIT, n >= TIME_LIMIT)
    ensures LevelMoves(Ticks(n)) <==> n + 1 < TIME_LIMIT
  {
    if n > 0 {
      ClockAfter(n - 1);
    }
  }

  // ---- ray geometry ------------------------------------------------------------------

  /** The cell k steps from p in direction d. */
  function Along(p: Position, d: Direction, k: nat): Position {
    match d
    case UP => Position(p.row - k, p.col)
    case DOWN => Position(p.row + k, p.col)
    case LEFT => Position(p.row, p.col - k)
    case RIGHT => Position(p.row, p.col + k)
    case NONE => p
  }

  /** How many steps from p in direction d reach c, or -1 when c is not on that half-line. */
  function Offset(p: Position, d: Direction, c: Position): int {
    match d
    case UP => if c.col == p.col && c.row <= p.row then p.row - c.row else -1
    case DOWN => if c.col == p.col && c.row >= p.row then c.row - p.row else -1
    case LEFT => if c.row == p.row && c.col <= p.col then p.col - c.col else -1
    case RIGHT => if c.row == p.row && c.col >= p.col then c.col - p.col else -1
    case NONE => if c == p then 0 else -1
  }

  /** c is one of the first n cells of the ray that starts at p and runs in direction d. */
  predicate OnRun(p: Position, d: Direction, n: nat, c: Position) {
    0 <= Offset(p, d, c) < n
  }

  /** Offset inverts Along: the cells of the half-line are exactly those Along reaches. */
  lemma OffsetInvertsAlong(p: Position, d: Direction, k: nat, c: Position)
    requires d.IsCardinal()
    ensures Offset(p, d, Along(p, d, k)) == k
    ensures Offset(p, d, c) >= 0 ==> c == Along(p, d, Offset(p, d, c))
    ensures Along(p, d, k).Step(d) == Along(p, d, k + 1)
  {
  }

  /** The number of cells from p up to the board's edge in direction d, p included. */
  function Reach(b: Board, p: Position, d: Direction): nat {
    if !b.IsInside(p) then 0
    else match d
      case UP => p.row + 1
      case DOWN => b.Rows() - p.row
      case LEFT => p.col + 1
      case RIGHT => b.Cols() - p.col
      case NONE => 0
  }

  /** A cardinal step from an inside cell brings the edge one cell closer. */
  lemma ReachShrinks(b: Board, p: Position, d: Direction)
    requires d.IsCardinal() && b.IsInside(p)
    ensures Reach(b, p.Step(d), d) < Reach(b, p, d)
  {
  }

  // ---- the three runs ----------------------------------------------------------------

  /** A cell type that ends a new ice ray: a campfire, lit or not, or any cell that blocks walking. */
  predicate EndsRay(t: CellType) {
    t == CAMPFIRE_ON || t == CAMPFIRE_OFF || !t.IsTraversable()
  }

  /** A new ice ray passes empty ground, snow, floor and hot tiles, and nothing else. */
  lemma RayPasses(t: CellType)
    ensures !EndsRay(t) <==> t in {EMPTY, PILE_SNOW, FLOOR, HOT_TILE}
  {
  }

  /** The new ray stops at p: an enemy stands there (occupied lists their cells), or its cell ends the ray. */
  ghost predicate RayStopsAt(b: Board, occupied: seq<Position>, p: Position)
    requires b.IsInside(p)
    reads b.cells
  {
    p in occupied || EndsRay(b.GetCellType(p))
  }

  /** The number of cells a new ice ray starting at p passes before the edge or a stop. */
  ghost function FreezeRun(b: Board, occupied: seq<Position>, p: Position, d: Direction): nat
    requires d.IsCardinal()
    reads b.cells
    decreases Reach(b, p, d)
  {
    if !b.IsInside(p) || RayStopsAt(b, occupied, p) then 0
    else
      ReachShrinks(b, p, d);
      1 + FreezeRun(b, occupied, p.Step(d), d)
  }

  /** The number of ice cells, of either kind, in a row from p: what breaking the ice clears. */
  ghost function IceRun(b: Board, p: Position, d: Direction): nat
    requires d.IsCardinal()
    reads b.cells
    decreases Reach(b, p, d)
  {
    if !b.IsInside(p) || !b.GetCellType(p).IsIce() then 0
    else
      ReachShrinks(b, p, d);
      1 + IceRun(b, p.Step(d), d)
  }

  /** The number of player-made ice cells in a row from p: where frozen fruits thaw. */
  ghost function PlayerIceRun(b: Board, p: Position, d: Direction): nat
    requires d.IsCardinal()
    reads b.cells
    decreases Reach(b, p, d)
  {
    if !b.IsInside(p) || b.GetCellType(p) != PLAYER_ICE then 0
    else
      ReachShrinks(b, p, d);
      1 + PlayerIceRun(b, p.Step(d), d)
  }

  /**
   * The new ray passes exactly its first FreezeRun cells: each of them is on the board, free
   * of enemies and of a type the ray passes, and the next cell is off the board or stops it.
   */
  lemma {:induction false} FreezeRunCells(b: Board, occupied: seq<Position>, p: Position, d: Direction, k: nat)
    requires d.IsCardinal()
    ensures var n := FreezeRun(b, occupied, p, d); var c := Along(p, d, k);
      && (k < n ==> b.IsInside(c) && c !in occupied && !EndsRay(b.GetCellType(c)))
      && (k == n ==> !b.IsInside(c) || RayStopsAt(b, occupied, c))
    decreases k
  {
    OffsetInvertsAlong(p, d, k, p);
    if k > 0 && b.IsInside(p) && !RayStopsAt(b, occupied, p) {
      FreezeRunCells(b, occupied, p.Step(d), d, k - 1);
      assert Along(p.Step(d), d, k - 1) == Along(p, d, k);
    }
  }

  /**
   * Breaking clears exactly the first IceRun cells: each is ice of either kind on the board,
   * and the next cell is off the board or not ice.
   */
  lemma {:induction false} IceRunCells(b: Board, p: Position, d: Direction, k: nat)
    requires d.IsCardinal()
    ensures var n := IceRun(b, p, d); var c := Along(p, d, k);
      && (k < n ==> b.IsInside(c) && b.GetCellType(c).IsIce())
      && (k == n ==> !b.IsInside(c) || !b.GetCellType(c).IsIce())
    decreases k
  {
    if k > 0 && b.IsInside(p) && b.GetCellType(p).IsIce() {
      IceRunCells(b, p.Step(d), d, k - 1);
      assert Along(p.Step(d), d, k - 1) == Along(p, d, k);
    }
  }

  /**
   * Thawing walks exactly the first PlayerIceRun cells: each is player ice on the board, and
   * the next cell is off the board or not player ice.
   */
  lemma {:induction false} PlayerIceRunCells(b: Board, p: Position, d: Direction, k: nat)
    requires d.IsCardinal()
    ensures var n := PlayerIceRun(b, p, d); var c := Along(p, d, k);
      && (k < n ==> b.IsInside(c) && b.GetCellType(c) == PLAYER_ICE)
      && (k == n ==> !b.IsInside(c) || b.GetCellType(c) != PLAYER_ICE)
    decreases k
  {
    if k > 0 && b.IsInside(p) && b.GetCellType(p) == PLAYER_ICE {
      PlayerIceRunCells(b, p.Step(d), d, k - 1);
      assert Along(p.Step(d), d, k - 1) == Along(p, d, k);
    }
  }

  /** The thaw never reaches past the break: the player-ice run is a prefix of the ice run. */
  lemma {:induction false} ThawWithinBreak(b: Board, p: Position, d: Direction)
    requires d.IsCardinal()
    ensures PlayerIceRun(b, p, d) <= IceRun(b, p, d)
    decreases Reach(b, p, d)
  {
    if b.IsInside(p) && b.GetCellType(p) == PLAYER_ICE {
      ReachShrinks(b, p, d);
      ThawWithinBreak(b, p.Step(d), d);
    }
  }

  /** No run outlasts the board: each is at most the distance to the edge. */
  lemma {:induction false} RunsWithinReach(b: Board, occupied: seq<Position>, p: Position, d: Direction)
    requires d.IsCardinal()
    ensures FreezeRun(b, occupied, p, d) <= Reach(b, p, d)
    ensures IceRun(b, p, d) <= Reach(b, p, d)
    decreases Reach(b, p, d)
  {
    if b.IsInside(p) {
      ReachShrinks(b, p, d);
      RunsWithinReach(b, occupied, p.Step(d), d);
    }
  }

  // ---- what the ray operations leave behind ------------------------------------------

  /** The first n cells from start that held FLOOR now hold PLAYER_ICE; every other cell is as it was. */
  twostate predicate IcedAlong(b: Board, start: Position, d: Direction, n: nat)
    reads b.cells
  {
    forall r, c :: 0 <= r < b.Rows() && 0 <= c < b.Cols() ==>
      b.cells[r, c] == (if OnRun(start, d, n, Position(r, c)) && old(b.cells[r, c]) == FLOOR then PLAYER_ICE else old(b.cells[r, c]))
  }

  /** The first n cells from start now hold FLOOR; every other cell is as it was. */
  twostate predicate MeltedAlong(b: Board, start: Position, d: Direction, n: nat)
    reads b.cells
  {
    forall r, c :: 0 <= r < b.Rows() && 0 <= c < b.Cols() ==>
      b.cells[r, c] == (if OnRun(start, d, n, Position(r, c)) then FLOOR else old(b.cells[r, c]))
  }

  /** Every uncollected fruit on the first n cells from start is now frozen; no other fruit changed. */
  twostate predicate FrozenAlong<B>(fruits: seq<Fruit<B>>, start: Position, d: Direction, n: nat)
    reads fruits`frozen, fruits`collected, fruits`position
  {
    forall i :: 0 <= i < |fruits| ==>
      fruits[i].frozen == (old(fruits[i].frozen) || (!fruits[i].collected && OnRun(start, d, n, fruits[i].position)))
  }

  /** Every fruit on the first n cells from start is now thawed; no other fruit changed. */
  twostate predicate ThawedAlong<B>(fruits: seq<Fruit<B>>, start: Position, d: Direction, n: nat)
    reads fruits`frozen, fruits`position
  {
    forall i :: 0 <= i < |fruits| ==>
      fruits[i].frozen == (old(fruits[i].frozen) && !OnRun(start, d, n, fruits[i].position))
  }

  /** Whether an enemy stands on p: the scan stops at the first one found. */
  method EnemyThere<E>(enemies: seq<Enemy<E>>, p: Position) returns (r: bool)
    ensures r <==> p in EnemyCells(enemies)
  {
    for i := 0 to |enemies|
      invariant p !in EnemyCells(enemies)[..i]
    {
      if SameCell(enemies[i].position, p) {
        assert EnemyCells(enemies)[i] == p;
        return true;
      }
      assert EnemyCells(enemies)[..i + 1] == EnemyCells(enemies)[..i] + [enemies[i].position];
    }
    assert EnemyCells(enemies)[..|enemies|] == EnemyCells(enemies);
    return false;
  }

  /** Freezes every uncollected, unfrozen fruit on p. */
  method FreezeFruitsAt<B>(fruits: seq<Fruit<B>>, p: Position)
    modifies fruits`frozen
    ensures forall i :: 0 <= i < |fruits| ==>
      fruits[i].frozen == (old(fruits[i].frozen) || (!fruits[i].collected && fruits[i].position == p))
  {
    for i := 0 to |fruits|
      invariant forall j :: 0 <= j < |fruits| && fruits[j] in fruits[..i] ==>
        fruits[j].frozen == (old(fruits[j].frozen) || (!fruits[j].collected && fruits[j].position == p))
      invariant forall j :: 0 <= j < |fruits| && fruits[j] !in fruits[..i] ==> fruits[j].frozen == old(fruits[j].frozen)
    {
      var f := fruits[i];
      if !f.collected && !f.frozen && SameCell(f.position, p) {
        f.Freeze();
      }
      assert fruits[..i + 1] == fruits[..i] + [f];
    }
    assert fruits[..|fruits|] == fruits;
  }

  /** Thaws every frozen fruit on p. */
  method ThawFruitsAt<B>(fruits: seq<Fruit<B>>, p: Position)
    modifies fruits`frozen
    ensures forall i :: 0 <= i < |fruits| ==>
      fruits[i].frozen == (old(fruits[i].frozen) && fruits[i].position != p)
  {
    for i := 0 to |fruits|
      invariant forall j :: 0 <= j < |fruits| && fruits[j] in fruits[..i] ==>
        fruits[j].frozen == (old(fruits[j].frozen) && fruits[j].position != p)
      invariant forall j :: 0 <= j < |fruits| && fruits[j] !in fruits[..i] ==> fruits[j].frozen == old(fruits[j].frozen)
    {
      var f := fruits[i];
      if f.frozen && SameCell(f.position, p) {
        f.Unfreeze();
      }
      assert fruits[..i + 1] == fruits[..i] + [f];
    }
    assert fruits[..|fruits|] == fruits;
  }

  /** The cells of the board, row by row, as a value. */
  ghost function Grid(b: Board): (g: seq<seq<CellType>>)
    reads b.cells
    ensures Shaped(b, g) && forall r, c :: 0 <= r < b.Rows() && 0 <= c < b.Cols() ==> g[r][c] == b.cells[r, c]
  {
    seq(b.Rows(), r requires 0 <= r < b.Rows() reads b.cells =>
      seq(b.Cols(), c requires 0 <= c < b.Cols() reads b.cells => b.cells[r, c]))
  }

  /** g has the board's dimensions. */
  ghost predicate Shaped(b: Board, g: seq<seq<CellType>>) {
    |g| == b.Rows() && forall r :: 0 <= r < |g| ==> |g[r]| == b.Cols()
  }

  /** The board is g with the FLOOR cells among the first k cells from start turned into PLAYER_ICE. */
  ghost predicate IcedFrom(b: Board, g: seq<seq<CellType>>, start: Position, d: Direction, k: nat)
    requires Shaped(b, g)
    reads b.cells
  {
    forall r, c :: 0 <= r < b.Rows() && 0 <= c < b.Cols() ==>
      b.cells[r, c] == (if OnRun(start, d, k, Position(r, c)) && g[r][c] == FLOOR then PLAYER_ICE else g[r][c])
  }

  /** The frozen flags are those of fz, with the uncollected fruits on the first k cells from start frozen. */
  ghost predicate FrozenFrom<B>(fruits: seq<Fruit<B>>, fz: seq<bool>, start: Position, d: Direction, k: nat)
    requires |fz| == |fruits|
    reads fruits`frozen, fruits`collected, fruits`position
  {
    forall i :: 0 <= i < |fruits| ==>
      fruits[i].frozen == (fz[i] || (!fruits[i].collected && OnRun(start, d, k, fruits[i].position)))
  }

  /** The ray's k-th cell, which does not stop it, is iced and its fruits frozen. */
  method PassRayCell<B>(b: Board, fruits: seq<Fruit<B>>, ghost g: seq<seq<CellType>>, ghost fz: seq<bool>,
                        start: Position, dir: Direction, ghost k: nat, current: Position)
    requires dir.IsCardinal() && current == Along(start, dir, k) && b.IsInside(current)
    requires Shaped(b, g) && |fz| == |fruits|
    requires IcedFrom(b, g, start, dir, k) && FrozenFrom(fruits, fz, start, dir, k)
    modifies b.cells, fruits`frozen
    ensures IcedFrom(b, g, start, dir, k + 1) && FrozenFrom(fruits, fz, start, dir, k + 1)
  {
    forall c: Position
      ensures OnRun(start, dir, k + 1, c) <==> OnRun(start, dir, k, c) || c == current
    {
      OffsetInvertsAlong(start, dir, k, c);
    }
    IceCell(b, fruits, current);
  }

  /** One cell of a new ice ray: FLOOR turns into PLAYER_ICE and the uncollected fruits on it freeze. */
  method IceCell<B>(b: Board, fruits: seq<Fruit<B>>, p: Position)
    requires b.IsInside(p)
    modifies b.cells, fruits`frozen
    ensures forall r, c :: 0 <= r < b.Rows() && 0 <= c < b.Cols() ==>
      b.cells[r, c] == (if Position(r, c) == p && old(b.cells[r, c]) == FLOOR then PLAYER_ICE else old(b.cells[r, c]))
    ensures forall i :: 0 <= i < |fruits| ==>
      fruits[i].frozen == (old(fruits[i].frozen) || (!fruits[i].collected && fruits[i].position == p))
  {
    if b.GetCellType(p) == FLOOR {
      b.SetCellType(p, PLAYER_ICE);
    }
    FreezeFruitsAt(fruits, p);
  }

  /** FreezeRun read off a snapshot g of the board's cells. */
  ghost function FreezeRunIn(b: Board, g: seq<seq<CellType>>, occupied: seq<Position>, p: Position, d: Direction): nat
    requires d.IsCardinal() && Shaped(b, g)
    decreases Reach(b, p, d)
  {
    if !b.IsInside(p) || p in occupied || EndsRay(g[p.row][p.col]) then 0
    else
      ReachShrinks(b, p, d);
      1 + FreezeRunIn(b, g, occupied, p.Step(d), d)
  }

  /** The run read off the board's current cells is the run read off their snapshot. */
  lemma {:induction false} FreezeRunOnGrid(b: Board, occupied: seq<Position>, p: Position, d: Direction)
    requires d.IsCardinal()
    ensures FreezeRun(b, occupied, p, d) == FreezeRunIn(b, Grid(b), occupied, p, d)
    decreases Reach(b, p, d)
  {
    if b.IsInside(p) && !RayStopsAt(b, occupied, p) {
      ReachShrinks(b, p, d);
      FreezeRunOnGrid(b, occupied, p.Step(d), d);
    }
  }

  /** Whether the new ray stops at p: an enemy stands there, or its cell is a campfire or blocks walking. */
  method StopsRay<E>(b: Board, enemies: seq<Enemy<E>>, p: Position) returns (stop: bool)
    requires b.IsInside(p)
    ensures stop <==> RayStopsAt(b, EnemyCells(enemies), p)
  {
    var enemyThere := EnemyThere(enemies, p);
    if enemyThere {
      return true;
    }
    var cellType := b.GetCellType(p);
    if cellType == CAMPFIRE_ON || cellType == CAMPFIRE_OFF {
      return true;
    }
    stop := IsBlocked(b, p);
  }

  /** The ray at its k-th cell: it stops there, or the cell is iced and its fruits frozen. */
  method RayCell<B, E>(b: Board, fruits: seq<Fruit<B>>, enemies: seq<Enemy<E>>, ghost occupied: seq<Position>,
                       ghost g: seq<seq<CellType>>, ghost fz: seq<bool>, start: Position, dir: Direction, ghost k: nat,
                       current: Position)
    returns (stop: bool)
    requires occupied == EnemyCells(enemies)
    requires dir.IsCardinal() && current == Along(start, dir, k) && b.IsInside(current)
    requires Shaped(b, g) && |fz| == |fruits|
    requires IcedFrom(b, g, start, dir, k) && FrozenFrom(fruits, fz, start, dir, k)
    modifies b.cells, fruits`frozen
    ensures stop <==> FreezeRunIn(b, g, occupied, current, dir) == 0
    ensures stop ==> IcedFrom(b, g, start, dir, k) && FrozenFrom(fruits, fz, start, dir, k)
    ensures !stop ==> IcedFrom(b, g, start, dir, k + 1) && FrozenFrom(fruits, fz, start, dir, k + 1)
  {
    OffsetInvertsAlong(start, dir, k, current);
    assert b.cells[current.row, current.col] == g[current.row][current.col];
    stop := StopsRay(b, enemies, current);
    if !stop {
      PassRayCell(b, fruits, g, fz, start, dir, k, current);
    }
  }

  /** The ray's walk from start, against the snapshots g of the cells and fz of the frozen flags. */
  method IceRay<B, E>(b: Board, fruits: seq<Fruit<B>>, enemies: seq<Enemy<E>>, ghost occupied: seq<Position>,
                      ghost g: seq<seq<CellType>>, ghost fz: seq<bool>, start: Position, dir: Direction)
    requires occupied == EnemyCells(enemies)
    requires dir.IsCardinal() && Shaped(b, g) && |fz| == |fruits|
    requires IcedFrom(b, g, start, dir, 0) && FrozenFrom(fruits, fz, start, dir, 0)
    modifies b.cells, fruits`frozen
    ensures IcedFrom(b, g, start, dir, FreezeRunIn(b, g, occupied, start, dir))
    ensures FrozenFrom(fruits, fz, start, dir, FreezeRunIn(b, g, occupied, start, dir))
  {
    ghost var n := FreezeRunIn(b, g, occupied, start, dir);
    var current := start;
    ghost var k := 0;
    while b.IsInside(current)
      invariant current == Along(start, dir, k)
      invariant n == k + FreezeRunIn(b, g, occupied, current, dir)
      invariant IcedFrom(b, g, start, dir, k) && FrozenFrom(fruits, fz, start, dir, k)
      decreases Reach(b, current, dir)
    {
      var stop := RayCell(b, fruits, enemies, occupied, g, fz, start, dir, k, current);
      if stop {
        break;
      }
      ReachShrinks(b, current, dir);
      OffsetInvertsAlong(start, dir, k, current);
      current := current.Step(dir);
      k := k + 1;
    }
  }

  /**
   * A new ice ray from the cell next to from: it runs while on the board, stopping at an
   * enemy, a campfire or a blocking cell, turns FLOOR cells into PLAYER_ICE and freezes the
   * uncollected fruits on every cell it passes.
   */
  method CreateIceRay<B, E>(b: Board, fruits: seq<Fruit<B>>, enemies: seq<Enemy<E>>, from: Position, dir: Direction)
    requires dir.IsCardinal()
    modifies b.cells, fruits`frozen
    ensures IcedAlong(b, from.Step(dir), dir, old(FreezeRun(b, EnemyCells(enemies), from.Step(dir), dir)))
    ensures FrozenAlong(fruits, from.Step(dir), dir, old(FreezeRun(b, EnemyCells(enemies), from.Step(dir), dir)))
  {
    var start := from.Step(dir);
    ghost var g := Grid(b);
    ghost var fz := seq(|fruits|, i requires 0 <= i < |fruits| reads fruits => fruits[i].frozen);
    FreezeRunOnGrid(b, EnemyCells(enemies), start, dir);
    IceRay(b, fruits, enemies, EnemyCells(enemies), g, fz, start, dir);
  }

  // ---- breaking the ice ----------------------------------------------------------------

  /** IceRun read off a snapshot g of the board's cells. */
  ghost function IceRunIn(b: Board, g: seq<seq<CellType>>, p: Position, d: Direction): nat
    requires d.IsCardinal() && Shaped(b, g)
    decreases Reach(b, p, d)
  {
    if !b.IsInside(p) || !g[p.row][p.col].IsIce() then 0
    else
      ReachShrinks(b, p, d);
      1 + IceRunIn(b, g, p.Step(d), d)
  }

  /** The ice run read off the board's current cells is the run read off their snapshot. */
  lemma {:induction false} IceRunOnGrid(b: Board, p: Position, d: Direction)
    requires d.IsCardinal()
    ensures IceRun(b, p, d) == IceRunIn(b, Grid(b), p, d)
    decreases Reach(b, p, d)
  {
    if b.IsInside(p) && b.GetCellType(p).IsIce() {
      ReachShrinks(b, p, d);
      IceRunOnGrid(b, p.Step(d), d);
    }
  }

  /** The board is g with the first k cells from start turned into FLOOR. */
  ghost predicate MeltedFrom(b: Board, g: seq<seq<CellType>>, start: Position, d: Direction, k: nat)
    requires Shaped(b, g)
    reads b.cells
  {
    forall r, c :: 0 <= r < b.Rows() && 0 <= c < b.Cols() ==>
      b.cells[r, c] == (if OnRun(start, d, k, Position(r, c)) then FLOOR else g[r][c])
  }

  /** The break's k-th cell, which is ice, turns into FLOOR. */
  method MeltRayCell(b: Board, ghost g: seq<seq<CellType>>, start: Position, dir: Direction, ghost k: nat, current: Position)
    requires dir.IsCardinal() && current == Along(start, dir, k) && b.IsInside(current)
    requires Shaped(b, g) && MeltedFrom(b, g, start, dir, k)
    modifies b.cells
    ensures MeltedFrom(b, g, start, dir, k + 1)
  {
    forall c: Position
      ensures OnRun(start, dir, k + 1, c) <==> OnRun(start, dir, k, c) || c == current
    {
      OffsetInvertsAlong(start, dir, k, c);
    }
    b.SetCellType(current, FLOOR);
  }

  /** The break's walk from start, against the snapshot g of the cells. */
  method MeltRay(b: Board, ghost g: seq<seq<CellType>>, start: Position, dir: Direction)
    requires dir.IsCardinal() && Shaped(b, g) && MeltedFrom(b, g, start, dir, 0)
    modifies b.cells
    ensures MeltedFrom(b, g, start, dir, IceRunIn(b, g, start, dir))
  {
    ghost var n := IceRunIn(b, g, start, dir);
    var current := start;
    ghost var k := 0;
    while b.IsInside(current)
      invariant current == Along(start, dir, k)
      invariant n == k + IceRunIn(b, g, current, dir)
      invariant MeltedFrom(b, g, start, dir, k)
      decreases Reach(b, current, dir)
    {
      OffsetInvertsAlong(start, dir, k, current);
      assert b.cells[current.row, current.col] == g[current.row][current.col];
      var cell := b.GetCellType(current);
      if cell == PLAYER_ICE || cell == ICE_BLOCK {
        MeltRayCell(b, g, start, dir, k, current);
        ReachShrinks(b, current, dir);
        current := current.Step(dir);
        k := k + 1;
      } else {
        break;
      }
    }
  }

  /**
   * Breaks the ice from the cell from on: every cell of ice, of either kind, turns into FLOOR
   * until the edge or the first cell that is not ice.
   */
  method BreakIceRay(b: Board, from: Position, dir: Direction)
    requires dir.IsCardinal()
    modifies b.cells
    ensures MeltedAlong(b, from, dir, old(IceRun(b, from, dir)))
  {
    ghost var g := Grid(b);
    IceRunOnGrid(b, from, dir);
    MeltRay(b, g, from, dir);
  }

  // ---- thawing the fruits --------------------------------------------------------------

  /** The frozen flags are those of fz, with the fruits on the first k cells from start thawed. */
  ghost predicate ThawedFrom<B>(fruits: seq<Fruit<B>>, fz: seq<bool>, start: Position, d: Direction, k: nat)
    requires |fz| == |fruits|
    reads fruits`frozen, fruits`position
  {
    forall i :: 0 <= i < |fruits| ==>
      fruits[i].frozen == (fz[i] && !OnRun(start, d, k, fruits[i].position))
  }

  /** The thaw's k-th cell: the frozen fruits on it thaw. */
  method ThawRayCell<B>(fruits: seq<Fruit<B>>, ghost fz: seq<bool>, start: Position, dir: Direction, ghost k: nat,
                        current: Position)
    requires dir.IsCardinal() && current == Along(start, dir, k)
    requires |fz| == |fruits| && ThawedFrom(fruits, fz, start, dir, k)
    modifies fruits`frozen
    ensures ThawedFrom(fruits, fz, start, dir, k + 1)
  {
    forall c: Position
      ensures OnRun(start, dir, k + 1, c) <==> OnRun(start, dir, k, c) || c == current
    {
      OffsetInvertsAlong(start, dir, k, c);
    }
    ThawFruitsAt(fruits, current);
  }

  /** The thaw's walk from start over the player ice, against the snapshot fz of the frozen flags. */
  method ThawRay<B>(fruits: seq<Fruit<B>>, ghost fz: seq<bool>, b: Board, start: Position, dir: Direction)
    requires dir.IsCardinal() && |fz| == |fruits| && ThawedFrom(fruits, fz, start, dir, 0)
    modifies fruits`frozen
    ensures ThawedFrom(fruits, fz, start, dir, PlayerIceRun(b, start, dir))
  {
    ghost var n := PlayerIceRun(b, start, dir);
    var current := start;
    ghost var k := 0;
    while b.IsInside(current)
      invariant current == Along(start, dir, k)
      invariant n == k + PlayerIceRun(b, current, dir)
      invariant ThawedFrom(fruits, fz, start, dir, k)
      decreases Reach(b, current, dir)
    {
      var cell := b.GetCellType(current);
      if cell != PLAYER_ICE {
        break;
      }
      ThawRayCell(fruits, fz, start, dir, k, current);
      ReachShrinks(b, current, dir);
      OffsetInvertsAlong(start, dir, k, current);
      current := current.Step(dir);
      k := k + 1;
    }
  }

  /**
   * Thaws the fruits on the player ice from the cell from on, until the edge or the first
   * cell that is not player ice; the board is only read.
   */
  method UnfreezeFruitsInRay<B>(fruits: seq<Fruit<B>>, from: Position, dir: Direction, b: Board)
    requires dir.IsCardinal()
    modifies fruits`frozen
    ensures ThawedAlong(fruits, from, dir, PlayerIceRun(b, from, dir))
  {
    ghost var fz := seq(|fruits|, i requires 0 <= i < |fruits| reads fruits => fruits[i].frozen);
    ThawRay(fruits, fz, b, from, dir);
  }

  // ---- the screen --------------------------------------------------------------------

  /** No cell of the board changed. */
  twostate predicate CellsKept(b: Board)
    reads b.cells
  {
    forall r, c :: 0 <= r < b.Rows() && 0 <= c < b.Cols() ==> b.cells[r, c] == old(b.cells[r, c])
  }

  /** No fruit was frozen or thawed. */
  twostate predicate FlagsKept<B>(fruits: seq<Fruit<B>>)
    reads fruits`frozen
  {
    forall i :: 0 <= i < |fruits| ==> fruits[i].frozen == old(fruits[i].frozen)
  }

  /**
   * What the space key does for player p, facing some direction: nothing when the player faces
   * no direction or the next cell is off the board; when that cell is ice of either kind, the
   * fruits on the player ice from there thaw and the ice from there breaks; otherwise a new
   * ice ray runs from there.
   */
  twostate predicate IceAction<B, E>(b: Board, fruits: seq<Fruit<B>>, enemies: seq<Enemy<E>>, p: Player)
    reads b.cells, fruits`frozen, fruits`collected, fruits`position, enemies`position, p`direction, p`position
  {
    var dir := p.direction;
    var next := p.position.Step(dir);
    if dir == NONE || !b.IsInside(next) then CellsKept(b) && FlagsKept(fruits)
    else if old(b.GetCellType(next)).IsIce() then
      && MeltedAlong(b, next, dir, old(IceRun(b, next, dir)))
      && ThawedAlong(fruits, next, dir, old(PlayerIceRun(b, next, dir)))
    else
      && IcedAlong(b, next, dir, old(FreezeRun(b, EnemyCells(enemies), next, dir)))
      && FrozenAlong(fruits, next, dir, old(FreezeRun(b, EnemyCells(enemies), next, dir)))
  }

  /** The running game screen: its level, the time limit and the first player's held arrow. */
  class PlayingState {
    const level: Level
    const currentLevelNumber: int
    var timerTicks: nat
    var timeUp: bool
    var p1Dir: Direction

    /** The level has a first player, and the clock is one that some number of updates reaches. */
    ghost predicate Valid()
      reads this`timerTicks, this`timeUp
    {
      |level.players| > 0 && timerTicks <= TIME_LIMIT && (timeUp <==> timerTicks == TIME_LIMIT)
    }

    /** The screen for a level built by the level factory, with a fresh clock and no arrow held. */
    constructor (levelNumber: int, level: Level)
      requires |level.players| > 0
      ensures Valid() && this.level == level && currentLevelNumber == levelNumber
      ensures timerTicks == 0 && !timeUp && p1Dir == NONE
    {
      this.level := level;
      currentLevelNumber := levelNumber;
      timerTicks := 0;
      timeUp := false;
      p1Dir := NONE;
    }

    /**
     * One update: the clock ticks; while the time is not up the level is updated with the
     * first player's held arrow as the only input; after that nothing of the level changes.
     */
    method Update(draws: Draws)
      requires Valid() && level.Valid()
      modifies this`timerTicks, this`timeUp
      modifies level`playerTickCounter, level`lastInputs, level`currentPhaseIndex, level.fruitManager`activeFruits
      modifies level.players, level.AllFruits(), FruitMovers(level.AllFruits()), level.enemies
      modifies EnemyMovers(level.enemies), level.campfires, level.board.cells
      ensures Valid() && level.Valid()
      ensures Clock(timerTicks, timeUp) == Tick(old(Clock(timerTicks, timeUp)))
      ensures old(LevelMoves(Clock(timerTicks, timeUp))) ==> level.playerTickCounter == old(level.playerTickCounter) + 1
      ensures old(LevelMoves(Clock(timerTicks, timeUp))) && level.PlayersAct() ==>
        level.lastInputs == old(level.lastInputs) + old(Recorded(level.players, HeldInput(level.players, p1Dir)))
      ensures old(LevelMoves(Clock(timerTicks, timeUp))) && level.PlayersAct() ==>
        forall i :: 0 <= i < |level.players| ==>
          PoseOf(level.players[i]) == old(PlayerTurn(level.board, level.players[i].dead,
            InputOf(HeldInput(level.players, p1Dir), level.players[i]), InputOf(level.lastInputs, level.players[i]),
            PoseOf(level.players[i])))
      ensures old(LevelMoves(Clock(timerTicks, timeUp))) && !level.PlayersAct() ==> level.lastInputs == old(level.lastInputs)
      ensures !old(LevelMoves(Clock(timerTicks, timeUp))) ==>
        unchanged(level, level.fruitManager, level.board.cells) && unchanged(level.players, level.enemies, level.campfires)
    {
      if timeUp {
        return;
      }
      timerTicks := timerTicks + 1;
      if timerTicks >= TIME_LIMIT {
        timeUp := true;
        return;
      }
      forall e | e in level.enemies && e.movementBehavior.Some?
        ensures e.movementBehavior.value.Obj() != this
      {
        match e.movementBehavior.value
        case Troll(_) =>
        case Maceta(_) =>
        case Narwhal(_) =>
        case Squid(_) =>
      }
      forall f | f in level.AllFruits() && f.movementBehavior.Some?
        ensures f.movementBehavior.value.Obj() != this
      {
        match f.movementBehavior.value
        case PineappleWalk(_) =>
        case CherryTeleport(_) =>
      }
      level.Update(HeldInput(level.players, p1Dir), draws);
    }

    /** An arrow key becomes the held direction; the space key places or breaks ice. */
    method KeyPressed(keyCode: int)
      requires Valid()
      modifies this`p1Dir, level.board.cells, level.AllFruits()`frozen
      ensures Valid()
      ensures p1Dir == Pressed(old(p1Dir), keyCode)
      ensures keyCode == VK_SPACE ==> IceAction(level.board, level.AllFruits(), level.enemies, level.players[0])
      ensures keyCode != VK_SPACE ==> CellsKept(level.board) && FlagsKept(level.AllFruits())
    {
      if keyCode == VK_UP {
        p1Dir := UP;
      }
      if keyCode == VK_DOWN {
        p1Dir := DOWN;
      }
      if keyCode == VK_LEFT {
        p1Dir := LEFT;
      }
      if keyCode == VK_RIGHT {
        p1Dir := RIGHT;
      }
      if keyCode == VK_SPACE {
        PlaceOrBreakIce();
      }
    }

    /** The space key: thaw and break the ice in front of the first player, or freeze a new ray. */
    method PlaceOrBreakIce()
      requires Valid()
      modifies level.board.cells, level.AllFruits()`frozen
      ensures IceAction(level.board, level.AllFruits(), level.enemies, level.players[0])
    {
      var p := level.players[0];
      var dir := p.direction;
      if dir == NONE {
        return;
      }
      var board := level.board;
      var start := p.position;
      var next := start.Step(dir);
      if !board.IsInside(next) {
        return;
      }
      var firstCell := board.GetCellType(next);
      if firstCell == PLAYER_ICE || firstCell == ICE_BLOCK {
        UnfreezeFruitsInRay(level.AllFruits(), next, dir, board);
        BreakIceRay(board, next, dir);
        return;
      }
      CreateIceRay(board, level.AllFruits(), level.enemies, start, dir);
    }

    /** Releasing the held arrow clears it; any other key changes nothing. */
    method KeyReleased(keyCode: int)
      modifies this`p1Dir
      ensures p1Dir == Released(old(p1Dir), keyCode)
    {
      if (keyCode == VK_UP && p1Dir == UP) || (keyCode == VK_DOWN && p1Dir == DOWN)
         || (keyCode == VK_LEFT && p1Dir == LEFT) || (keyCode == VK_RIGHT && p1Dir == RIGHT) {
        p1Dir := NONE;
      }
    }
  }
}
