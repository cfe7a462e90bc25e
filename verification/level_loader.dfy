/**
 * Building a level from its map (domain/game/LevelLoader.java): one character per cell, rows
 * as lines. Reading the lines from a resource or a file is not part of this model; parsing
 * starts from the lines that remain once blank ones are dropped.
 */
module LevelLoaders {
  import opened Directions
  import opened Positions
  import opened Cells
  import opened Boards
  import opened Players
  import opened Fruits
  import opened Enemies
  import opened Campfires
  import opened Wrappers
  import opened Behaviors
  import opened Levels
  import TT = TrollTurnRight
  import MC = MacetaChase
  import NM = Narval
  import OS = OrangeSquid
  import PM = Pineapple
  import CM = Cherry

  // ---- one character ---------------------------------------------------------------

  /** The four enemy kinds a map can hold. */
  datatype EnemyKind = TrollKind | MacetaKind | SquidKind | NarwhalKind

  /** What a map character puts on its cell besides the cell type. */
  datatype Spawn = NoSpawn | PlayerSpawn | EnemySpawn(enemy: EnemyKind) | FruitSpawn(fruit: FruitKind) | CampfireSpawn

  /** The cell type a map character leaves; '.' and every character without a meaning give FLOOR. */
  function CellOf(ch: char): CellType {
    match ch
    case 'W' => METALLIC_WALL
    case 'Z' => PILE_SNOW
    case 'R' => RED_WALL
    case 'X' => YELLOW_WALL
    case 'I' => ICE_BLOCK
    case 'L' => IGLOO_AREA
    case 'H' => HOT_TILE
    case 'F' => CAMPFIRE_ON
    case _ => FLOOR
  }

  /** The entity a map character creates on its cell; both 'P' and 'Q' create a player. */
  function SpawnOf(ch: char): Spawn {
    match ch
    case 'G' => FruitSpawn(Grape)
    case 'B' => FruitSpawn(Banana)
    case 'T' => EnemySpawn(TrollKind)
    case 'M' => EnemySpawn(MacetaKind)
    case 'O' => EnemySpawn(SquidKind)
    case 'V' => EnemySpawn(NarwhalKind)
    case 'N' => FruitSpawn(Pineapple)
    case 'P' => PlayerSpawn
    case 'Q' => PlayerSpawn
    case 'C' => FruitSpawn(Cactus)
    case 'Y' => FruitSpawn(Cherry)
    case 'F' => CampfireSpawn
    case _ => NoSpawn
  }

  /** The direction an enemy of the kind faces when the map creates it. */
  function Facing(kind: EnemyKind): Direction {
    match kind
    case TrollKind => LEFT
    case MacetaKind => LEFT
    case SquidKind => DOWN
    case NarwhalKind => DOWN
  }

  /** The points a fruit of the kind is worth; the cherry's worth is given, as its class is not part of this model. */
  function Worth(kind: FruitKind, cherryScore: int): int {
    match kind
    case Banana => BANANA_SCORE
    case Grape => GRAPE_SCORE
    case Pineapple => PINEAPPLE_SCORE
    case Cactus => CACTUS_SCORE
    case Cherry => cherryScore
  }

  /** The enemy kind a behaviour belongs to. */
  function KindOf(m: MovementBehavior): EnemyKind {
    match m
    case Troll(_) => TrollKind
    case Maceta(_) => MacetaKind
    case Squid(_) => SquidKind
    case Narwhal(_) => NarwhalKind
  }

  /** A fruit of the kind carries a behaviour of the matching kind, and only the moving kinds carry one. */
  predicate MoverFits(kind: FruitKind, m: Option<FruitBehavior>) {
    match kind
    case Pineapple => m.Some? && m.value.PineappleWalk?
    case Cherry => m.Some? && m.value.CherryTeleport?
    case _ => m.None?
  }

  /**
   * Every entity stands on FLOOR except a campfire, which stands on a lit campfire cell; the
   * seven terrain letters create nothing; every other character is plain FLOOR.
   */
  lemma CharacterMeaning(ch: char)
    ensures SpawnOf(ch) == CampfireSpawn <==> CellOf(ch) == CAMPFIRE_ON
    ensures SpawnOf(ch) != NoSpawn && SpawnOf(ch) != CampfireSpawn ==> CellOf(ch) == FLOOR
    ensures ch in "WZRXILH" <==> SpawnOf(ch) == NoSpawn && CellOf(ch) != FLOOR
    ensures ch !in "WZRXILHGBTMOVNPQCYF" ==> SpawnOf(ch) == NoSpawn && CellOf(ch) == FLOOR
    ensures SpawnOf(ch) == PlayerSpawn <==> ch == 'P' || ch == 'Q'
  {
  }

  // ---- the whole map -----------------------------------------------------------------

  /** The first c cells of row r, left to right, each with its character. */
  function RowScan(line: string, r: int, c: nat): seq<(Position, char)>
    requires c <= |line|
  {
    if c == 0 then [] else RowScan(line, r, c - 1) + [(Position(r, c - 1), line[c - 1])]
  }

  /** The first cols cells of the first n rows, row by row: the order the map is read in. */
  function Scan(lines: seq<string>, n: nat, cols: nat): seq<(Position, char)>
    requires n <= |lines| && forall r :: 0 <= r < n ==> cols <= |lines[r]|
  {
    if n == 0 then [] else Scan(lines, n - 1, cols) + RowScan(lines[n - 1], n - 1, cols)
  }

  /** The cells, in scan order, whose character creates a player. */
  function PlayerCells(scan: seq<(Position, char)>): seq<Position> {
    if |scan| == 0 then []
    else
      var last := scan[|scan| - 1];
      PlayerCells(scan[..|scan| - 1]) + if SpawnOf(last.1) == PlayerSpawn then [last.0] else []
  }

  /** The cells, in scan order, whose character creates an enemy, with its kind. */
  function EnemyCellsOf(scan: seq<(Position, char)>): seq<(Position, EnemyKind)> {
    if |scan| == 0 then []
    else
      var last := scan[|scan| - 1];
      EnemyCellsOf(scan[..|scan| - 1]) + if SpawnOf(last.1).EnemySpawn? then [(last.0, SpawnOf(last.1).enemy)] else []
  }

  /** The cells, in scan order, whose character creates a fruit, with its kind. */
  function FruitCells(scan: seq<(Position, char)>): seq<(Position, FruitKind)> {
    if |scan| == 0 then []
    else
      var last := scan[|scan| - 1];
      FruitCells(scan[..|scan| - 1]) + if SpawnOf(last.1).FruitSpawn? then [(last.0, SpawnOf(last.1).fruit)] else []
  }

  /** The cells, in scan order, whose character creates a campfire. */
  function CampfireCells(scan: seq<(Position, char)>): seq<Position> {
    if |scan| == 0 then []
    else
      var last := scan[|scan| - 1];
      CampfireCells(scan[..|scan| - 1]) + if SpawnOf(last.1) == CampfireSpawn then [last.0] else []
  }

  /** A scan of the first n rows holds exactly the cells of those rows within cols, each with its own character. */
  lemma {:induction false} ScanCells(lines: seq<string>, n: nat, cols: nat, x: (Position, char))
    requires n <= |lines| && forall r :: 0 <= r < n ==> cols <= |lines[r]|
    ensures x in Scan(lines, n, cols) <==>
      0 <= x.0.row < n && 0 <= x.0.col < cols && x.1 == lines[x.0.row][x.0.col]
  {
    if n > 0 {
      var before := Scan(lines, n - 1, cols);
      var row := RowScan(lines[n - 1], n - 1, cols);
      ScanCells(lines, n - 1, cols, x);
      RowScanCells(lines[n - 1], n - 1, cols, x);
      assert x in before + row <==> x in before || x in row;
    }
  }

  /** A row scan holds exactly the row's first c cells, each with its own character. */
  lemma {:induction false} RowScanCells(line: string, r: int, c: nat, x: (Position, char))
    requires c <= |line|
    ensures x in RowScan(line, r, c) <==> x.0.row == r && 0 <= x.0.col < c && x.1 == line[x.0.col]
  {
    if c > 0 {
      RowScanCells(line, r, c - 1, x);
    }
  }

  /** Each entity list of a scan holds exactly the cells whose character creates that entity. */
  lemma {:induction false} FoundCells(scan: seq<(Position, char)>, p: Position)
    ensures p in PlayerCells(scan) <==> exists ch :: (p, ch) in scan && SpawnOf(ch) == PlayerSpawn
    ensures p in CampfireCells(scan) <==> exists ch :: (p, ch) in scan && SpawnOf(ch) == CampfireSpawn
    ensures forall k :: (p, k) in EnemyCellsOf(scan) <==> exists ch :: (p, ch) in scan && SpawnOf(ch) == EnemySpawn(k)
    ensures forall k :: (p, k) in FruitCells(scan) <==> exists ch :: (p, ch) in scan && SpawnOf(ch) == FruitSpawn(k)
  {
    if |scan| > 0 {
      var init := scan[..|scan| - 1];
      FoundCells(init, p);
      assert scan == init + [scan[|scan| - 1]];
    }
  }

  /** One more scanned cell extends each entity list by the entity its character creates, if any. */
  lemma ScanStep(scan: seq<(Position, char)>, pos: Position, ch: char)
    ensures PlayerCells(scan + [(pos, ch)]) == PlayerCells(scan) + if SpawnOf(ch) == PlayerSpawn then [pos] else []
    ensures EnemyCellsOf(scan + [(pos, ch)]) == EnemyCellsOf(scan) + if SpawnOf(ch).EnemySpawn? then [(pos, SpawnOf(ch).enemy)] else []
    ensures FruitCells(scan + [(pos, ch)]) == FruitCells(scan) + if SpawnOf(ch).FruitSpawn? then [(pos, SpawnOf(ch).fruit)] else []
    ensures CampfireCells(scan + [(pos, ch)]) == CampfireCells(scan) + if SpawnOf(ch) == CampfireSpawn then [pos] else []
  {
    assert (scan + [(pos, ch)])[..|scan|] == scan;
  }

  /**
   * Where the map puts entities: a cell of the map's rectangle holds a player, an enemy of a
   * kind, a fruit of a kind or a campfire exactly when its character creates one.
   */
  lemma MapEntities(lines: seq<string>, p: Position)
    requires |lines| > 0 && forall i :: 0 <= i < |lines| ==> |lines[0]| <= |lines[i]|
    ensures var scan := Scan(lines, |lines|, |lines[0]|);
      var inside := 0 <= p.row < |lines| && 0 <= p.col < |lines[0]|;
      && (p in PlayerCells(scan) <==> inside && SpawnOf(lines[p.row][p.col]) == PlayerSpawn)
      && (p in CampfireCells(scan) <==> inside && SpawnOf(lines[p.row][p.col]) == CampfireSpawn)
      && (forall k :: (p, k) in EnemyCellsOf(scan) <==> inside && SpawnOf(lines[p.row][p.col]) == EnemySpawn(k))
      && (forall k :: (p, k) in FruitCells(scan) <==> inside && SpawnOf(lines[p.row][p.col]) == FruitSpawn(k))
  {
    var scan := Scan(lines, |lines|, |lines[0]|);
    FoundCells(scan, p);
    if 0 <= p.row < |lines| && 0 <= p.col < |lines[0]| {
      var here := lines[p.row][p.col];
      ScanCells(lines, |lines|, |lines[0]|, (p, here));
      forall ch | (p, ch) in scan ensures ch == here {
        ScanCells(lines, |lines|, |lines[0]|, (p, ch));
      }
      var spawn := SpawnOf(here);
      assert p in PlayerCells(scan) <==> spawn == PlayerSpawn;
      assert p in CampfireCells(scan) <==> spawn == CampfireSpawn;
    } else {
      forall ch ensures (p, ch) !in scan {
        ScanCells(lines, |lines|, |lines[0]|, (p, ch));
      }
    }
  }

  // ---- the parsed level ----------------------------------------------------------------

  /** The players stand, in order, where the scanned cells create players, alive, facing DOWN, with no points. */
  ghost predicate PlayersParsed(players: seq<Player>, scan: seq<(Position, char)>)
    reads players`position, players`direction, players`dead, players`score
  {
    && |players| == |PlayerCells(scan)|
    && forall i :: 0 <= i < |players| ==>
         && players[i].position == PlayerCells(scan)[i]
         && players[i].direction == DOWN && !players[i].dead && players[i].score == 0
  }

  /** The enemies stand, in order, where the scanned cells create enemies, facing and moving as their kind does. */
  ghost predicate EnemiesParsed(enemies: seq<Enemy<MovementBehavior>>, scan: seq<(Position, char)>)
    reads enemies`position, enemies`direction
  {
    && |enemies| == |EnemyCellsOf(scan)|
    && forall i :: 0 <= i < |enemies| ==>
         && enemies[i].position == EnemyCellsOf(scan)[i].0
         && enemies[i].direction == Facing(EnemyCellsOf(scan)[i].1)
         && enemies[i].movementBehavior.Some? && KindOf(enemies[i].movementBehavior.value) == EnemyCellsOf(scan)[i].1
  }

  /**
   * The fruits lie, in order, where the scanned cells create fruits, of their kind's worth and
   * behaviour, uncollected, unfrozen and with a cactus's spike cycle at its start.
   */
  ghost predicate FruitsParsed(fruits: seq<Fruit<FruitBehavior>>, scan: seq<(Position, char)>, cherryScore: int)
    reads fruits`position, fruits`collected, fruits`frozen, fruits`tickCounter, fruits`hasSpikesDangerous
  {
    && |fruits| == |FruitCells(scan)|
    && forall i :: 0 <= i < |fruits| ==>
         && fruits[i].position == FruitCells(scan)[i].0 && fruits[i].kind == FruitCells(scan)[i].1
         && fruits[i].scoreValue == Worth(fruits[i].kind, cherryScore)
         && MoverFits(fruits[i].kind, fruits[i].movementBehavior)
         && !fruits[i].collected && !fruits[i].frozen && fruits[i].tickCounter == 0 && !fruits[i].hasSpikesDangerous
  }

  /** The campfires stand, in order, where the scanned cells create campfires, lit. */
  ghost predicate CampfiresParsed(campfires: seq<Campfire>, scan: seq<(Position, char)>)
    reads campfires`isLit, campfires`relightCounter
  {
    && |campfires| == |CampfireCells(scan)|
    && forall i :: 0 <= i < |campfires| ==>
         campfires[i].position == CampfireCells(scan)[i] && campfires[i].isLit && campfires[i].relightCounter == 0
  }

  /** The four entity lists are those the scanned cells create. */
  ghost predicate EntitiesParsed(players: seq<Player>, enemies: seq<Enemy<MovementBehavior>>,
                                 fruits: seq<Fruit<FruitBehavior>>, campfires: seq<Campfire>,
                                 scan: seq<(Position, char)>, cherryScore: int)
    reads players`position, players`direction, players`dead, players`score, enemies`position, enemies`direction
    reads fruits`position, fruits`collected, fruits`frozen, fruits`tickCounter, fruits`hasSpikesDangerous
    reads campfires`isLit, campfires`relightCounter
  {
    && PlayersParsed(players, scan) && EnemiesParsed(enemies, scan)
    && FruitsParsed(fruits, scan, cherryScore) && CampfiresParsed(campfires, scan)
  }

  /**
   * The first n lines of the map are parsed onto board and into the entity lists: all of them
   * are at least as wide as the board, which is as tall as the map and as wide as its first line.
   */
  ghost predicate RowsParsed(lines: seq<string>, n: nat, board: Board, players: seq<Player>,
                             enemies: seq<Enemy<MovementBehavior>>, fruits: seq<Fruit<FruitBehavior>>,
                             campfires: seq<Campfire>, cherryScore: int)
    reads board.cells, players`deathAnimationTicks, players`position, players`direction, players`dead, players`score
    reads enemies`position, enemies`direction, EnemyMovers(enemies), FruitMovers(fruits)
    reads fruits`position, fruits`collected, fruits`frozen, fruits`tickCounter, fruits`hasSpikesDangerous
    reads campfires`isLit, campfires`relightCounter
  {
    && 0 < |lines| && n <= |lines| && board.Rows() == |lines| && board.Cols() == |lines[0]|
    && (forall i :: 0 <= i < n ==> board.Cols() <= |lines[i]|)
    && WellFormed(board, players, enemies, fruits, campfires)
    && EntitiesParsed(players, enemies, fruits, campfires, Scan(lines, n, board.Cols()), cherryScore)
    && forall i, j :: 0 <= i < n && 0 <= j < board.Cols() ==> board.cells[i, j] == CellOf(lines[i][j])
  }

  /**
   * The level is the one the map lines describe: a valid level in its first fruit phase whose
   * board is as tall as the map and as wide as its first line (every line being at least that
   * wide), each cell of the type its character names, and whose entities the scan creates.
   */
  ghost predicate LevelParsed(level: Level, lines: seq<string>, fruitPhases: seq<FruitKind>, cherryScore: int)
    reads level, level.fruitManager`activeFruits, level.board.cells
    reads level.players`deathAnimationTicks, level.players`position, level.players`direction, level.players`dead
    reads level.players`score, level.enemies`position, level.enemies`direction
    reads EnemyMovers(level.enemies), FruitMovers(level.AllFruits()), level.AllFruits()`position
    reads level.AllFruits()`collected, level.AllFruits()`frozen, level.AllFruits()`tickCounter
    reads level.AllFruits()`hasSpikesDangerous
    reads level.campfires`isLit, level.campfires`relightCounter
  {
    var rows := |lines|;
    && rows > 0 && (forall i :: 0 <= i < rows ==> |lines[0]| <= |lines[i]|)
    && var cols := |lines[0]|;
    && level.Valid() && level.fruitPhases == fruitPhases && level.currentPhaseIndex == 0
    && level.board.Rows() == rows && level.board.Cols() == cols
    && (forall i, j :: 0 <= i < rows && 0 <= j < cols ==> level.board.cells[i, j] == CellOf(lines[i][j]))
    && EntitiesParsed(level.players, level.enemies, level.AllFruits(), level.campfires, Scan(lines, rows, cols), cherryScore)
  }

  /**
   * A parsed level starts fresh: every player alive, facing DOWN and without points, every
   * fruit uncollected and unfrozen, every campfire lit.
   */
  lemma ParsedLevelStartsFresh(level: Level, lines: seq<string>, fruitPhases: seq<FruitKind>, cherryScore: int)
    requires LevelParsed(level, lines, fruitPhases, cherryScore)
    ensures forall p :: p in level.players ==> !p.dead && p.direction == DOWN && p.score == 0
    ensures forall f :: f in level.AllFruits() ==> !f.collected && !f.frozen
    ensures forall c :: c in level.campfires ==> c.isLit
  {
  }

  /**
   * Builds the level a map describes: as many rows as lines and as many columns as the first
   * line has characters, each cell parsed in row-major order. There is no level when there are
   * no lines, or when a line is shorter than the first (reading past its end fails).
   */
  method ParseLevel(lines: seq<string>, fruitPhases: seq<FruitKind>, cherryScore: int) returns (r: Option<Level>)
    ensures r.None? <==> |lines| == 0 || exists i :: 0 <= i < |lines| && |lines[i]| < |lines[0]|
    ensures r.Some? ==> fresh(r.value) && LevelParsed(r.value, lines, fruitPhases, cherryScore)
  {
    if |lines| == 0 {
      return None;
    }
    var board := new Board(|lines|, |lines[0]|);
    var ok, players, enemies, fruits, campfires := ParseRows(lines, board, cherryScore);
    if !ok {
      return None;
    }
    var level := Assemble(lines, board, players, enemies, fruits, campfires, fruitPhases, cherryScore);
    return Some(level);
  }

  /** The map's lines parsed one after the other onto board, as long as none is narrower than the board. */
  method ParseRows(lines: seq<string>, board: Board, cherryScore: int)
    returns (ok: bool, players: seq<Player>, enemies: seq<Enemy<MovementBehavior>>, fruits: seq<Fruit<FruitBehavior>>,
             campfires: seq<Campfire>)
    requires 0 < |lines| && board.Rows() == |lines| && board.Cols() == |lines[0]|
    modifies board.cells
    ensures ok <==> forall i :: 0 <= i < |lines| ==> |lines[0]| <= |lines[i]|
    ensures ok ==> RowsParsed(lines, |lines|, board, players, enemies, fruits, campfires, cherryScore)
  {
    players, enemies, fruits, campfires := [], [], [], [];
    MoversApart(board, players, enemies, fruits, campfires);
    var row := 0;
    while row < |lines|
      modifies board.cells
      invariant row <= |lines|
      invariant RowsParsed(lines, row, board, players, enemies, fruits, campfires, cherryScore)
    {
      ok, players, enemies, fruits, campfires := NextRow(lines, row, board, players, enemies, fruits, campfires, cherryScore);
      if !ok {
        return;
      }
      row := row + 1;
    }
    ok := true;
  }

  /** The level made of a fully parsed board and entity lists. */
  method Assemble(lines: seq<string>, board: Board, players: seq<Player>, enemies: seq<Enemy<MovementBehavior>>,
                  fruits: seq<Fruit<FruitBehavior>>, campfires: seq<Campfire>, fruitPhases: seq<FruitKind>,
                  cherryScore: int)
    returns (level: Level)
    requires RowsParsed(lines, |lines|, board, players, enemies, fruits, campfires, cherryScore)
    ensures fresh(level) && LevelParsed(level, lines, fruitPhases, cherryScore)
  {
    ghost var scan := Scan(lines, |lines|, |lines[0]|);
    level := new Level(board, players, enemies, fruits, campfires, fruitPhases);
  }

  /** Row n of the map is parsed after the n rows before it, unless its line is too short. */
  method NextRow(lines: seq<string>, n: nat, board: Board, players: seq<Player>, enemies: seq<Enemy<MovementBehavior>>,
                 fruits: seq<Fruit<FruitBehavior>>, campfires: seq<Campfire>, cherryScore: int)
    returns (ok: bool, players': seq<Player>, enemies': seq<Enemy<MovementBehavior>>, fruits': seq<Fruit<FruitBehavior>>,
             campfires': seq<Campfire>)
    requires n < |lines| && RowsParsed(lines, n, board, players, enemies, fruits, campfires, cherryScore)
    modifies board.cells
    ensures ok <==> |lines[0]| <= |lines[n]|
    ensures ok ==> RowsParsed(lines, n + 1, board, players', enemies', fruits', campfires', cherryScore)
  {
    ghost var scan := Scan(lines, n, board.Cols());
    ok, players', enemies', fruits', campfires' := ParseRow(lines[n], n, board, players, enemies, fruits, campfires, cherryScore, scan);
  }

  /**
   * One line of the map as row r: each of the board's columns is parsed from the character
   * in that column; the line must be at least as long as the board is wide.
   */
  method ParseRow(line: string, r: nat, board: Board, players: seq<Player>, enemies: seq<Enemy<MovementBehavior>>,
                  fruits: seq<Fruit<FruitBehavior>>, campfires: seq<Campfire>, cherryScore: int,
                  ghost scan: seq<(Position, char)>)
    returns (ok: bool, players': seq<Player>, enemies': seq<Enemy<MovementBehavior>>, fruits': seq<Fruit<FruitBehavior>>,
             campfires': seq<Campfire>)
    requires r < board.Rows()
    requires WellFormed(board, players, enemies, fruits, campfires)
    requires EntitiesParsed(players, enemies, fruits, campfires, scan, cherryScore)
    modifies board.cells
    ensures ok <==> board.Cols() <= |line|
    ensures ok ==> WellFormed(board, players', enemies', fruits', campfires')
    ensures ok ==> EntitiesParsed(players', enemies', fruits', campfires', scan + RowScan(line, r, board.Cols()), cherryScore)
    ensures ok ==> forall j :: 0 <= j < board.Cols() ==> board.cells[r, j] == CellOf(line[j])
    ensures forall i, j :: 0 <= i < board.Rows() && 0 <= j < board.Cols() && i != r ==> board.cells[i, j] == old(board.cells[i, j])
  {
    players', enemies', fruits', campfires' := players, enemies, fruits, campfires;
    var c := 0;
    assert scan + RowScan(line, r, 0) == scan;
    while c < board.Cols()
      modifies board.cells
      invariant c <= board.Cols()
      invariant PrefixParsed(line, r, c, board, players', enemies', fruits', campfires', scan, cherryScore)
      invariant forall i, j :: 0 <= i < board.Rows() && 0 <= j < board.Cols() && i != r ==> board.cells[i, j] == old(board.cells[i, j])
    {
      if c >= |line| {
        return false, players', enemies', fruits', campfires';
      }
      players', enemies', fruits', campfires' :=
        ParseColumn(line, r, c, board, players', enemies', fruits', campfires', cherryScore, scan);
      c := c + 1;
    }
    ok := true;
  }

  /**
   * The first c characters of line are parsed as row r of board, after the cells of scan: the
   * board's row r holds their cell types and the entity lists are those the cells create.
   */
  ghost predicate PrefixParsed(line: string, r: nat, c: nat, board: Board, players: seq<Player>,
                               enemies: seq<Enemy<MovementBehavior>>, fruits: seq<Fruit<FruitBehavior>>,
                               campfires: seq<Campfire>, scan: seq<(Position, char)>, cherryScore: int)
    reads board.cells, players`deathAnimationTicks, players`position, players`direction, players`dead, players`score
    reads enemies`position, enemies`direction, EnemyMovers(enemies), FruitMovers(fruits)
    reads fruits`position, fruits`collected, fruits`frozen, fruits`tickCounter, fruits`hasSpikesDangerous
    reads campfires`isLit, campfires`relightCounter
  {
    && r < board.Rows() && c <= board.Cols() && c <= |line|
    && WellFormed(board, players, enemies, fruits, campfires)
    && EntitiesParsed(players, enemies, fruits, campfires, scan + RowScan(line, r, c), cherryScore)
    && forall j :: 0 <= j < c ==> board.cells[r, j] == CellOf(line[j])
  }

  /** Column c of row r is parsed from the character of line in that column. */
  method ParseColumn(line: string, r: nat, c: nat, board: Board, players: seq<Player>, enemies: seq<Enemy<MovementBehavior>>,
                     fruits: seq<Fruit<FruitBehavior>>, campfires: seq<Campfire>, cherryScore: int,
                     ghost scan: seq<(Position, char)>)
    returns (players': seq<Player>, enemies': seq<Enemy<MovementBehavior>>, fruits': seq<Fruit<FruitBehavior>>,
             campfires': seq<Campfire>)
    requires c < board.Cols() && c < |line|
    requires PrefixParsed(line, r, c, board, players, enemies, fruits, campfires, scan, cherryScore)
    modifies board.cells
    ensures CellSetTo(board, Position(r, c), CellOf(line[c]))
    ensures PrefixParsed(line, r, c + 1, board, players', enemies', fruits', campfires', scan, cherryScore)
  {
    var ch := line[c];
    var pos := Position(r, c);
    players', enemies', fruits', campfires' :=
      ParseCell(ch, pos, board, players, enemies, fruits, campfires, cherryScore, scan + RowScan(line, r, c));
    assert scan + RowScan(line, r, c) + [(pos, ch)] == scan + RowScan(line, r, c + 1);
  }

  /** One character of the map: its cell type goes on the board and its entity, if any, onto its list. */
  method ParseCell(ch: char, pos: Position, board: Board, players: seq<Player>, enemies: seq<Enemy<MovementBehavior>>,
                   fruits: seq<Fruit<FruitBehavior>>, campfires: seq<Campfire>, cherryScore: int,
                   ghost scan: seq<(Position, char)>)
    returns (players': seq<Player>, enemies': seq<Enemy<MovementBehavior>>, fruits': seq<Fruit<FruitBehavior>>,
             campfires': seq<Campfire>)
    requires board.IsInside(pos)
    requires WellFormed(board, players, enemies, fruits, campfires)
    requires EntitiesParsed(players, enemies, fruits, campfires, scan, cherryScore)
    modifies board.cells
    ensures CellSetTo(board, pos, CellOf(ch))
    ensures WellFormed(board, players', enemies', fruits', campfires')
    ensures EntitiesParsed(players', enemies', fruits', campfires', scan + [(pos, ch)], cherryScore)
  {
    board.SetCellType(pos, CellOf(ch));
    players', enemies', fruits', campfires' := AddEntity(ch, pos, board, players, enemies, fruits, campfires, cherryScore, scan);
  }

  /** The entity a character creates, if any, joins the end of its list; the other lists stay as they are. */
  method AddEntity(ch: char, pos: Position, board: Board, players: seq<Player>, enemies: seq<Enemy<MovementBehavior>>,
                   fruits: seq<Fruit<FruitBehavior>>, campfires: seq<Campfire>, cherryScore: int,
                   ghost scan: seq<(Position, char)>)
    returns (players': seq<Player>, enemies': seq<Enemy<MovementBehavior>>, fruits': seq<Fruit<FruitBehavior>>,
             campfires': seq<Campfire>)
    requires board.IsInside(pos)
    requires WellFormed(board, players, enemies, fruits, campfires)
    requires EntitiesParsed(players, enemies, fruits, campfires, scan, cherryScore)
    ensures WellFormed(board, players', enemies', fruits', campfires')
    ensures EntitiesParsed(players', enemies', fruits', campfires', scan + [(pos, ch)], cherryScore)
  {
    ScanStep(scan, pos, ch);
    players', enemies', fruits', campfires' := players, enemies, fruits, campfires;
    match SpawnOf(ch) {
      case NoSpawn =>
      case PlayerSpawn =>
        players' := AddPlayer(board, players, enemies, fruits, campfires, pos, ch, scan);
      case EnemySpawn(kind) =>
        enemies' := AddEnemy(board, players, enemies, fruits, campfires, pos, ch, scan);
      case FruitSpawn(kind) =>
        fruits' := AddFruit(board, players, enemies, fruits, campfires, pos, ch, cherryScore, scan);
      case CampfireSpawn =>
        campfires' := AddCampfire(board, players, enemies, fruits, campfires, pos, ch, scan);
    }
  }

  /** 'P' or 'Q': a new player on pos joins the end of the list. */
  method AddPlayer(board: Board, players: seq<Player>, enemies: seq<Enemy<MovementBehavior>>,
                   fruits: seq<Fruit<FruitBehavior>>, campfires: seq<Campfire>, pos: Position, ch: char,
                   ghost scan: seq<(Position, char)>)
    returns (players': seq<Player>)
    requires SpawnOf(ch) == PlayerSpawn && board.IsInside(pos)
    requires WellFormed(board, players, enemies, fruits, campfires) && PlayersParsed(players, scan)
    ensures WellFormed(board, players', enemies, fruits, campfires) && PlayersParsed(players', scan + [(pos, ch)])
  {
    var p := new Player(pos);
    players' := players + [p];
    MoversApart(board, players', enemies, fruits, campfires);
    ScanStep(scan, pos, ch);
  }

  /** An enemy letter: a new enemy of its kind on pos joins the end of the list. */
  method AddEnemy(board: Board, players: seq<Player>, enemies: seq<Enemy<MovementBehavior>>,
                  fruits: seq<Fruit<FruitBehavior>>, campfires: seq<Campfire>, pos: Position, ch: char,
                  ghost scan: seq<(Position, char)>)
    returns (enemies': seq<Enemy<MovementBehavior>>)
    requires SpawnOf(ch).EnemySpawn? && board.IsInside(pos)
    requires WellFormed(board, players, enemies, fruits, campfires) && EnemiesParsed(enemies, scan)
    ensures WellFormed(board, players, enemies', fruits, campfires) && EnemiesParsed(enemies', scan + [(pos, ch)])
  {
    var e := NewEnemy(SpawnOf(ch).enemy, pos);
    enemies' := enemies + [e];
    MoversApart(board, players, enemies', fruits, campfires);
    ScanStep(scan, pos, ch);
  }

  /** A fruit letter: a new fruit of its kind on pos joins the end of the list. */
  method AddFruit(board: Board, players: seq<Player>, enemies: seq<Enemy<MovementBehavior>>,
                  fruits: seq<Fruit<FruitBehavior>>, campfires: seq<Campfire>, pos: Position, ch: char,
                  cherryScore: int, ghost scan: seq<(Position, char)>)
    returns (fruits': seq<Fruit<FruitBehavior>>)
    requires SpawnOf(ch).FruitSpawn? && board.IsInside(pos)
    requires WellFormed(board, players, enemies, fruits, campfires) && FruitsParsed(fruits, scan, cherryScore)
    ensures WellFormed(board, players, enemies, fruits', campfires) && FruitsParsed(fruits', scan + [(pos, ch)], cherryScore)
  {
    var f := NewFruit(SpawnOf(ch).fruit, pos, cherryScore);
    fruits' := fruits + [f];
    MoversApart(board, players, enemies, fruits', campfires);
    ScanStep(scan, pos, ch);
  }

  /** 'F': a new lit campfire on pos joins the end of the list. */
  method AddCampfire(board: Board, players: seq<Player>, enemies: seq<Enemy<MovementBehavior>>,
                     fruits: seq<Fruit<FruitBehavior>>, campfires: seq<Campfire>, pos: Position, ch: char,
                     ghost scan: seq<(Position, char)>)
    returns (campfires': seq<Campfire>)
    requires SpawnOf(ch) == CampfireSpawn && board.IsInside(pos)
    requires WellFormed(board, players, enemies, fruits, campfires) && CampfiresParsed(campfires, scan)
    ensures WellFormed(board, players, enemies, fruits, campfires') && CampfiresParsed(campfires', scan + [(pos, ch)])
  {
    var fire := new Campfire(pos);
    campfires' := campfires + [fire];
    MoversApart(board, players, enemies, fruits, campfires');
    ScanStep(scan, pos, ch);
  }

  /** A new enemy of the kind on pos, facing its kind's way, with a new behaviour of its kind. */
  method NewEnemy(kind: EnemyKind, pos: Position) returns (e: Enemy<MovementBehavior>)
    ensures fresh(e) && e.movementBehavior.Some? && fresh(e.movementBehavior.value.Obj())
    ensures e.position == pos && e.direction == Facing(kind) && KindOf(e.movementBehavior.value) == kind
    ensures e.movementBehavior.value.Ready()
  {
    match kind
    case TrollKind =>
      var m := new TT.TrollTurnRightMovement();
      e := new Enemy(pos, LEFT, Some(Troll(m)));
    case MacetaKind =>
      var m := new MC.MacetaChaseMovement();
      e := new Enemy(pos, LEFT, Some(Maceta(m)));
    case SquidKind =>
      var m := new OS.OrangeSquidMovement();
      e := new Enemy(pos, DOWN, Some(Squid(m)));
    case NarwhalKind =>
      var m := new NM.NarvalMovement();
      e := new Enemy(pos, DOWN, Some(Narwhal(m)));
  }

  /** A new fruit of the kind on pos, worth its kind's points, with a new behaviour when it moves. */
  method NewFruit(kind: FruitKind, pos: Position, cherryScore: int) returns (f: Fruit<FruitBehavior>)
    ensures fresh(f) && (f.movementBehavior.Some? ==> fresh(f.movementBehavior.value.Obj()) && f.movementBehavior.value.Ready())
    ensures f.position == pos && f.kind == kind && f.scoreValue == Worth(kind, cherryScore)
    ensures !f.collected && !f.frozen && f.tickCounter == 0 && !f.hasSpikesDangerous
    ensures MoverFits(kind, f.movementBehavior)
  {
    match kind
    case Pineapple =>
      var m := new PM.PineappleMovement();
      f := new Fruit(Pineapple, pos, PINEAPPLE_SCORE, Some(PineappleWalk(m)));
    case Cherry =>
      var m := new CM.CherryMovement();
      f := new Fruit(Cherry, pos, cherryScore, Some(CherryTeleport(m)));
    case Banana =>
      f := new Fruit(Banana, pos, BANANA_SCORE, None);
    case Grape =>
      f := new Fruit(Grape, pos, GRAPE_SCORE, None);
    case Cactus =>
      f := new Fruit(Cactus, pos, CACTUS_SCORE, None);
  }

  // ---- reading the lines -----------------------------------------------------------------

  /**
   * The characters the platform counts as white space: tab, line feed, vertical tab, form feed,
   * carriage return, the four separators 0x1C-0x1F, the space, and the Unicode space, line and
   * paragraph separators other than the non-breaking ones.
   */
  predicate IsWhitespace(ch: char) {
    var n := ch as int;
    || 9 <= n <= 13 || 28 <= n <= 32 || n == 0x1680 || (0x2000 <= n <= 0x200A && n != 0x2007)
    || n == 0x2028 || n == 0x2029 || n == 0x205F || n == 0x3000
  }

  /** A line is blank when it holds nothing but white space (the empty line included). */
  predicate IsBlank(line: string) {
    forall i :: 0 <= i < |line| ==> IsWhitespace(line[i])
  }

  /** The lines that are not blank, in their order. */
  function NonBlank(raw: seq<string>): seq<string> {
    if |raw| == 0 then []
    else NonBlank(raw[..|raw| - 1]) + if IsBlank(raw[|raw| - 1]) then [] else [raw[|raw| - 1]]
  }

  /** Dropping blank lines keeps every other line and nothing else, never adds any, and changes nothing without blank lines. */
  lemma {:induction false} NonBlankLines(raw: seq<string>)
    ensures forall line :: line in NonBlank(raw) <==> line in raw && !IsBlank(line)
    ensures |NonBlank(raw)| <= |raw|
    ensures (forall i :: 0 <= i < |raw| ==> !IsBlank(raw[i])) ==> NonBlank(raw) == raw
  {
    if |raw| > 0 {
      var init := raw[..|raw| - 1];
      NonBlankLines(init);
      assert raw == init + [raw[|raw| - 1]];
      if forall i :: 0 <= i < |raw| ==> !IsBlank(raw[i]) {
        assert forall i :: 0 <= i < |init| ==> !IsBlank(init[i]) by {
          forall i | 0 <= i < |init| ensures !IsBlank(init[i]) {
            assert init[i] == raw[i];
          }
        }
      }
    }
  }

  /** The lines as read, one after the other, keeping those that are not blank. */
  method DropBlankLines(raw: seq<string>) returns (lines: seq<string>)
    ensures lines == NonBlank(raw)
  {
    lines := [];
    var k := 0;
    while k < |raw|
      invariant k <= |raw|
      invariant lines == NonBlank(raw[..k])
    {
      assert raw[..k + 1][..k] == raw[..k];
      if !IsBlank(raw[k]) {
        lines := lines + [raw[k]];
      }
      k := k + 1;
    }
    assert raw[..k] == raw;
  }

  /**
   * A level from the lines of a map, read from the game's resources or from a file: blank lines
   * are dropped and the rest parsed with the given fruit phases.
   */
  method Load(raw: seq<string>, fruitPhases: seq<FruitKind>, cherryScore: int) returns (r: Option<Level>)
    ensures var lines := NonBlank(raw);
      r.None? <==> |lines| == 0 || exists i :: 0 <= i < |lines| && |lines[i]| < |lines[0]|
    ensures r.Some? ==> fresh(r.value) && LevelParsed(r.value, NonBlank(raw), fruitPhases, cherryScore)
  {
    var lines := DropBlankLines(raw);
    r := ParseLevel(lines, fruitPhases, cherryScore);
  }
}
