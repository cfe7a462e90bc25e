# Bad DOPO Cream — a verified model of the game core

Bad DOPO Cream is a tile-based arcade game: one or two ice-cream players walk a bordered grid,
collect fruits phase by phase, shoot and break rays of ice, and avoid enemies (a wall-following
troll, a chasing flowerpot, a charging narwhal, an ice-breaking orange squid), burning campfires
and spiky cacti. An AI can steer a player with one of three profiles. Levels are read from text
maps, one character per cell (see "## Left out" for characters outside the Basic Multilingual Plane).

This project models the game's simulation core in Dafny: the grid (`Direction`, `Position`,
`CellType`, `Board`), every enemy and moving-fruit behaviour, the entity state rules (fruits and
cacti, campfires, players), the level's update cycle with its collisions and fruit phases, the
playing screen's clock, arrow-key latch and ice rays, the AI controller, and the parsing,
validation and selection of level maps. Each Java class that updates its fields becomes a Dafny
`class` whose methods state their effect on the new state; loops keep their invariants; and the
promises the code makes (who gets a fruit's points, what a ray freezes or breaks, that a BFS step
starts a shortest walk, that an accepted map has a player, ...) are proved as lemmas about the
specification functions the methods are tied to.

Conventions of the model:

- One module per Java class, one file per module. Java's package cycles (behaviours that take a
  `Level`, a level that holds behaviours) are broken by passing the board, players and entities a
  behaviour reads instead of the level, and by giving `Enemy` and `Fruit` their behaviour as a type
  parameter; `Behaviors` closes the two behaviour interfaces into unions of the behaviours the
  game builds.
- `Position` is a value. Java's `Position` has no `equals`, so `equals` compares objects; the model
  keeps, where it matters, a count of the Position objects a player has held, and every call site
  of `equals` is modelled with the outcome it has as written: the AI's memory compares objects, its
  BFS goal tests never hold, the cactus's hit test and the campfire test in the ice break never
  find a match.
- Randomness (`java.util.Random`) is an oracle parameter: a boolean for each threshold draw and a
  natural number, taken modulo the number of candidates, for each pick from a list.
- Integers are unbounded. The playing screen stops updating its level after 10800 updates, so no
  counter of the game comes near the 32-bit limit and wrap-around is not modelled.
- A map whose parsing throws in Java (no lines, a line shorter than the
  first) makes the model's parse return no level.
- `CollisionDetector.java:33` calls `cactus.getHasSpikesDangerous()`, a getter that `Cactus.java` does
  not define; the model reads the cactus's `hasSpikesDangerous` field, which is what the call evidently
  means.

## Model

| member | source | states |
|---|---|---|
| Directions.TurnRight | src/domain/utils/Direction.java:22-30 | a quarter turn clockwise maps the step vector (dRow, dCol) to (dCol, -dRow), so the four cardinals cycle UP, RIGHT, DOWN, LEFT and NONE stays NONE |
| Directions.Opposite | src/domain/utils/Direction.java:33-41 | the opposite direction has the negated step vector; NONE stays NONE |
| Directions.VectorDetermines | src/domain/utils/Direction.java:4-16 | no two directions share a step vector |
| Directions.CardinalIsUnitStep | src/domain/utils/Direction.java:4-8 | the four cardinals move exactly one cell along exactly one axis; NONE does not move |
| Directions.CardinalsComplete | src/domain/utils/Direction.java:4-8 | the cardinal list holds every direction except NONE |
| Directions.FourTurnsIdentity | src/domain/utils/Direction.java:22-30 | four quarter turns come back to the start |
| Directions.TwoTurnsAreOpposite | src/domain/utils/Direction.java:22-41 | two quarter turns make the opposite |
| Directions.OppositeInvolution | src/domain/utils/Direction.java:33-41 | the opposite of the opposite is the direction itself |
| Directions.OppositeKeepsAxis | src/domain/utils/Direction.java:33-41 | a half turn keeps a vertical direction vertical and a horizontal one horizontal |
| Positions.TranslatedComposes | src/domain/model/Position.java:20-22 | translations add their offsets, and translating by (0, 0) changes nothing |
| Positions.StepOppositeReturns | src/domain/model/Position.java:20-22 | a step followed by a step the opposite way returns to the start; a NONE step stays put |
| Positions.SettersChangeOneCoordinate | src/domain/model/Position.java:17-18 | setRow and setCol change their own coordinate and keep the other |
| Positions.StepChangesDistanceByOne | src/domain/model/Position.java:20-22 | a cardinal step changes the Manhattan distance to any cell by exactly one |
| Cells.BlockingCells | src/domain/model/CellType.java:6-19 | exactly the three walls, ice blocks, player ice, the igloo area and a lit campfire cannot be crossed; ice and walls are among them |
| Boards.Board.constructor | src/domain/model/Board.java:9-15 | a new board has the requested rows and columns, with metallic walls on the border and EMPTY inside |
| Boards.Board.InitEmptyWithBorders | src/domain/model/Board.java:20-30 | after the row-by-row loop, every cell holds its initial type: a border cell is a metallic wall and any other is EMPTY |
| Boards.Board.SetCellType | src/domain/model/Board.java:48-50 | one cell takes the new type and every other cell keeps its type |
| Boards.InitialBorderIsWall | src/domain/model/Board.java:20-30 | on a new board a cell blocks movement exactly when it lies on the border |
| Boards.OutsideNotWalkable | src/domain/model/Board.java:52-55 | no position outside the board is walkable, whatever the cells hold |
| Boards.StepFromInsideIsAdjacent | src/domain/model/Board.java:40-42 | a cardinal step lands on a cell at distance one |
| Positions.ManhattanZero | src/domain/game/AIController.java:162-164 | the Manhattan distance is zero exactly between equal cells and is symmetric |
| Players.Player.constructor | src/domain/entities/Player.java:13-25 | a new player stands on its position facing DOWN, alive, with no score, no invulnerability and no death animation |
| Players.Player.SetPosition | src/domain/entities/Entity.java:16 | the player gets the new position, held in a new Position object |
| Players.Player.SetDirection | src/domain/entities/Player.java:112 | the facing becomes the given direction |
| Players.Player.Update | src/domain/entities/Player.java:85-90 | a dead player's death-animation counter climbs by one up to DEATH_GIF_DURATION (170); a living player's stays |
| Players.Player.AddScore | src/domain/entities/Player.java:115 | the score grows by the points given |
| Players.Player.SetScore | src/domain/entities/Player.java:116 | the score becomes the given value |
| Players.Player.OnHitByEnemy | src/domain/entities/Player.java:128-136 | a living player who is not invulnerable dies, restarts the death animation and becomes invulnerable for 30 updates; otherwise nothing changes |
| Players.HitIdempotent | src/domain/entities/Player.java:128-136 | a hit either changes nothing or kills, and a second hit changes nothing more |
| Players.DeathAnimationLength | src/domain/entities/Player.java:85-90 | after n updates a dead player's counter is min(ticks + n, 170) |
| Players.LivingPlayerNoAnimation | src/domain/entities/Player.java:85-90 | a living player's counter never moves |
| Players.FindNearest | src/domain/behavior/MacetaChaseMovement.java:106-122 | null exactly when no player is eligible (alive, when only living ones count); otherwise the first eligible player in list order at the least Manhattan distance |
| Players.FirstNearestUnique | src/domain/behavior/MacetaChaseMovement.java:106-122 | the first nearest eligible player is unique |
| Fruits.Fruit.constructor | src/domain/entities/Fruit.java:12-16 | a new fruit has its kind, position and score and is neither collected nor frozen; a cactus starts safe at count 0 |
| Fruits.Fruit.Collect | src/domain/entities/Cactus.java:52-57 | a fruit becomes collected, except a cactus with its spikes out, which stays as it was |
| Fruits.Fruit.Freeze | src/domain/entities/Fruit.java:28 | the fruit is frozen |
| Fruits.Fruit.Unfreeze | src/domain/entities/Fruit.java:29 | the fruit is no longer frozen |
| Fruits.Fruit.UpdateCactus | src/domain/entities/Cactus.java:27-37 | a collected or frozen cactus keeps its state; otherwise the counter advances and, on reaching 1800, resets to 0 and the spikes toggle |
| Fruits.CactusCycle | src/domain/entities/Cactus.java:27-37 | while the counter stays under 1800, n updates add n to it and keep the spikes |
| Fruits.CactusToggles | src/domain/entities/Cactus.java:13-37 | from a fresh cycle the spikes hold for 1799 updates and flip on the 1800th, with the counter back at 0 |
| Fruits.CactusAfterSplit | src/domain/entities/Cactus.java:27-37 | n + 1 updates are n updates followed by one more |
| Campfires.Campfire.constructor | src/domain/entities/Campfire.java:19-24 | a new campfire is lit, with its relight counter at 0 |
| Campfires.Campfire.Update | src/domain/entities/Campfire.java:26-36 | a lit fire and the board stay as they are; an unlit one counts one update and, on reaching 600, relights and turns its cell back to CAMPFIRE_ON |
| Campfires.Campfire.Extinguish | src/domain/entities/Campfire.java:38-44 | a lit fire goes out with its counter at 0 and its cell becomes CAMPFIRE_OFF; an unlit one is left as it is |
| Campfires.Campfire.Relight | src/domain/entities/Campfire.java:46-50 | the fire is lit, its counter 0 and its cell CAMPFIRE_ON |
| Campfires.Campfire.Light | src/domain/entities/Campfire.java:52-54 | lighting is relighting: lit, counter 0, cell CAMPFIRE_ON |
| Campfires.Campfire.TicksUntilRelight | src/domain/entities/Campfire.java:60-62 | 0 while lit; otherwise between 1 and 600, and together with the counter it makes 600 |
| Campfires.Campfire.SecondsUntilRelight | src/domain/entities/Campfire.java:64-66 | the whole number of 60-update seconds in the updates left, at most 10 |
| Enemies.Enemy.constructor | src/domain/entities/Enemy.java:15-19 | a new enemy has its position, its initial facing and its behaviour |
| TrollTurnRight.TurnAttemptFirstOpen | src/domain/behavior/TrollTurnRightMovement.java:32-42 | the turn search yields nothing only when every tried heading (the current one, then each right turn) is blocked, and otherwise the first walkable one |
| TrollTurnRight.TurnsCoverCardinals | src/domain/behavior/TrollTurnRightMovement.java:32-42 | the four headings tried from a cardinal direction are all four cardinals |
| TrollTurnRight.TurnedIsCardinal | src/domain/behavior/TrollTurnRightMovement.java:40 | turning right keeps a cardinal direction cardinal |
| TrollTurnRight.StuckIffBoxedIn | src/domain/behavior/TrollTurnRightMovement.java:12-42 | a troll stays put on its move exactly when all four neighbouring cells are blocked |
| TrollTurnRight.TrollTurnRightMovement.constructor | src/domain/behavior/TrollTurnRightMovement.java:16 | the tick counter starts at 0 |
| TrollTurnRight.TrollTurnRightMovement.Move | src/domain/behavior/TrollTurnRightMovement.java:20-43 | each call counts one tick; on every 23rd the troll steps onto the first walkable cell among its heading and its right turns and takes that heading, or stays when all four are blocked; it never leaves the board |
| Pathfinding.DirectionFrom | src/domain/behavior/MacetaChaseMovement.java:327-333 | a cardinal direction whose step leads from the first cell to the second, or NONE exactly when the cells are not neighbours |
| Pathfinding.DirectionFromStep | src/domain/behavior/MacetaChaseMovement.java:327-333 | the direction between a cell and its neighbour in a cardinal direction is that direction |
| Pathfinding.OpenAmong | src/domain/behavior/MacetaChaseMovement.java:181-197 | the kept directions are exactly those whose neighbour is walkable, in the given order |
| Pathfinding.PickFrom | src/domain/behavior/MacetaChaseMovement.java:199-203 | NONE from an empty list; otherwise one of the listed directions |
| Pathfinding.PickOpen | src/domain/behavior/MacetaChaseMovement.java:181-204 | a random walkable direction is NONE exactly when every neighbour is blocked, and otherwise leads to a walkable cell |
| Pathfinding.WalkBound | src/domain/behavior/MacetaChaseMovement.java:269-295 | the breadth-first invariant: a walk of n steps from a visited cell at distance k ends on a processed cell within k + n, or the front of the queue is within k + n |
| Pathfinding.Mark | src/domain/behavior/MacetaChaseMovement.java:290-292 | recording a discovery marks the cell visited and stores its parent's row and column, and the arrays still mirror the search tree |
| Pathfinding.ExpandNeighbours | src/domain/behavior/MacetaChaseMovement.java:281-294 | after the four neighbours, in the order UP, DOWN, LEFT, RIGHT, each walkable unvisited one is visited one step further and queued, and the arrays mirror the tree |
| Pathfinding.Explore | src/domain/behavior/MacetaChaseMovement.java:245-297 | the visited cells form a tree of shortest walks from the start, mirrored by the visited and parent arrays; the goal is found exactly when the search stops at goals and the goal is reachable |
| MacetaChase.RunTimingSplit | src/domain/behavior/MacetaChaseMovement.java:61-104 | n + 1 calls are n calls followed by one more |
| MacetaChase.WaitPhase | src/domain/behavior/MacetaChaseMovement.java:61-72 | between two moves the calls only count ticks |
| MacetaChase.OneMove | src/domain/behavior/MacetaChaseMovement.java:65-74 | every TicksPerMove calls make exactly one move in the current mode |
| MacetaChase.RunTimingAdd | src/domain/behavior/MacetaChaseMovement.java:61-104 | a + b calls are a calls followed by b calls |
| MacetaChase.ModeBudget | src/domain/behavior/MacetaChaseMovement.java:76-103 | the moves left in a mode take TicksPerMove calls each and end with the mode switch |
| MacetaChase.ModeCycle | src/domain/behavior/MacetaChaseMovement.java:31-103 | with a living player throughout, RANDOM turns into CHASING after 25 moves of 20 ticks and CHASING back into RANDOM after 35 moves of 8 ticks |
| MacetaChase.ChaseNeedsLivingPlayer | src/domain/behavior/MacetaChaseMovement.java:86-91 | with no living player, a chasing flowerpot gives up and returns to RANDOM with fresh counters on its next move |
| MacetaChase.RandomStepMovesWhenPossible | src/domain/behavior/MacetaChaseMovement.java:156-176 | when some neighbour is walkable and the heading is a real direction or a new one is drawn, the heading after a random step leads to a walkable cell |
| MacetaChase.MacetaChaseMovement.constructor | src/domain/behavior/MacetaChaseMovement.java:25-48 | a new flowerpot is in RANDOM mode with zero counters, heading LEFT, with no path and no target |
| MacetaChase.MacetaChaseMovement.Move | src/domain/behavior/MacetaChaseMovement.java:55-104 | with no players nothing changes; otherwise the counters follow the timing rule, a random move follows the random-step rule, and a chase move targets the first nearest living player: the path is recomputed when empty or when that player has moved, the flowerpot takes and drops its first step when walkable and otherwise stays with the path cleared, and the target cell is remembered unless the move ends the chase; the flowerpot stays on the board |
| MacetaChase.MacetaChaseMovement.ChaseTurn | src/domain/behavior/MacetaChaseMovement.java:86-103 | with no living player the chase gives up to RANDOM and the flowerpot stays; otherwise it makes the chase step towards the first nearest living player, counts it, and switches to RANDOM with a cleared path after 35 chase moves |
| MacetaChase.MacetaChaseMovement.CountChaseMove | src/domain/behavior/MacetaChaseMovement.java:97-102 | the 35th chase move switches to RANDOM and clears the path and target; an earlier one only counts |
| MacetaChase.MacetaChaseMovement.SwitchToChaseMode | src/domain/behavior/MacetaChaseMovement.java:129-136 | the mode becomes CHASING with both counters at 0, no path and no target |
| MacetaChase.MacetaChaseMovement.SwitchToRandomMode | src/domain/behavior/MacetaChaseMovement.java:142-149 | the mode becomes RANDOM with both counters at 0, no path and no target |
| MacetaChase.MacetaChaseMovement.RandomStep | src/domain/behavior/MacetaChaseMovement.java:156-176 | the heading is redrawn on a 30% draw or when blocked, and the flowerpot moves one cell along it exactly when that cell is walkable |
| MacetaChase.MacetaChaseMovement.RandomWalkableDirection | src/domain/behavior/MacetaChaseMovement.java:181-204 | the drawn index selects among the walkable directions in the order UP, DOWN, LEFT, RIGHT, or NONE when there are none |
| MacetaChase.MacetaChaseMovement.ChaseStep | src/domain/behavior/MacetaChaseMovement.java:211-238 | the path is recomputed when it is empty or the target has moved; the first step is taken and dropped when its cell is walkable, and otherwise the path is cleared |
| MacetaChase.MacetaChaseMovement.Bfs | src/domain/behavior/MacetaChaseMovement.java:245-320 | a shortest walk from start to goal (empty when they coincide), or the empty path when the goal is unreachable |
| Narval.FirstSighted | src/domain/behavior/NarvalMovement.java:71-91 | the index found is that of the first player, in list order, whom the narwhal sees, and there is none exactly when it sees no one |
| Narval.ChargeHeadsAtPlayer | src/domain/behavior/NarvalMovement.java:146-152 | the heading a charge takes towards an aligned player is cardinal, and one step along it brings the narwhal one cell closer |
| Narval.SightIsSymmetric | src/domain/behavior/NarvalMovement.java:66-134 | the narwhal sees a cell exactly when it would be seen from that cell: same row or column, within 15 cells, no wall strictly between |
| Narval.ChargeEndsIffBlocked | src/domain/behavior/NarvalMovement.java:158-186 | a charge ends exactly when the cell ahead is off the board or is neither ice nor walkable; a charge that goes on enters the cell ahead |
| Narval.NarvalMovement.constructor | src/domain/behavior/NarvalMovement.java:23-26 | a new narwhal patrols with its tick counter at 0 |
| Narval.NarvalMovement.Move | src/domain/behavior/NarvalMovement.java:34-60 | each call counts a tick; on every 12th while charging or 20th while patrolling, a patrolling narwhal that sees a player turns to it and charges, then it takes a charge or patrol step; it stays on the board |
| Narval.NarvalMovement.DetectAlignedPlayer | src/domain/behavior/NarvalMovement.java:66-92 | the first player, in list order, whom the narwhal sees, or null when it sees none |
| Narval.NarvalMovement.HasLineOfSight | src/domain/behavior/NarvalMovement.java:98-134 | true exactly when no cell strictly between the two, along the row or column, is one of the three walls |
| Narval.NarvalMovement.StartCharging | src/domain/behavior/NarvalMovement.java:139-153 | the state becomes CHARGING and the narwhal faces the target: RIGHT or LEFT on the same row, DOWN or UP otherwise |
| Narval.NarvalMovement.ChargeMove | src/domain/behavior/NarvalMovement.java:158-186 | off the board it goes back to patrol; onto ice it turns the ice into FLOOR and enters; onto a walkable cell it enters; otherwise it goes back to patrol |
| Narval.NarvalMovement.PatrolMove | src/domain/behavior/NarvalMovement.java:191-204 | it steps ahead when the cell ahead is inside and walkable, and otherwise turns around on the spot |
| OrangeSquid.PreferredStepClosesIn | src/domain/behavior/OrangeSquidMovement.java:111-131 | the preferred heading is NONE only on the player's own cell; otherwise one step along it shortens the distance by one, vertically when the row gap is at least the column gap and horizontally when the column gap is larger |
| OrangeSquid.AlternativeStepClosesIn | src/domain/behavior/OrangeSquidMovement.java:179-202 | the fallback heading uses the other axis and, when it exists, one step along it also shortens the distance by one |
| OrangeSquid.ChasePlanApproaches | src/domain/behavior/OrangeSquidMovement.java:53-79 | a chase move never loses ground: a step lands on a walkable cell one closer to the player, and ice work starts on the neighbouring cell |
| OrangeSquid.OrangeSquidMovement.constructor | src/domain/behavior/OrangeSquidMovement.java:21-28 | a new squid has its counter at 0 and is not breaking ice |
| OrangeSquid.OrangeSquidMovement.Move | src/domain/behavior/OrangeSquidMovement.java:31-80 | each call counts a tick; on every 16th the squid goes on breaking ice if it is, stays with no players, and otherwise makes the chase move towards the first nearest player; it never leaves the board |
| OrangeSquid.OrangeSquidMovement.ChaseMove | src/domain/behavior/OrangeSquidMovement.java:53-79 | the chase move: start breaking ice ahead, step ahead when walkable, or try the fallback heading |
| OrangeSquid.OrangeSquidMovement.StartBreakingIce | src/domain/behavior/OrangeSquidMovement.java:144-149 | the squid starts breaking the given cell with its counter at 0 and faces the given direction |
| OrangeSquid.OrangeSquidMovement.BreakIce | src/domain/behavior/OrangeSquidMovement.java:154-169 | the counter climbs by one; on the 12th the cell becomes EMPTY if it is still ice and the job ends |
| OrangeSquid.OrangeSquidMovement.TryAlternativeRoute | src/domain/behavior/OrangeSquidMovement.java:174-203 | the squid steps along the fallback heading exactly when that heading exists and its cell is walkable, and otherwise stays |
| Pineapple.Switched | src/domain/behavior/PineappleMovement.java:110-119 | switching always lands on the other axis with a heading that lies along it |
| Pineapple.TryMoveSound | src/domain/behavior/PineappleMovement.java:126-156 | a walk enters the walkable cell ahead; a jump goes over an ice cell (ice block or player ice) straight ahead and lands on the walkable cell just beyond; otherwise nothing happens |
| Pineapple.FourHeadings | src/domain/behavior/PineappleMovement.java:62-103 | the heading, its opposite and both headings of the other axis cover all four compass directions, so the fallback order tries every direction |
| Pineapple.SettleStaysOnlyWhenBoxedIn | src/domain/behavior/PineappleMovement.java:62-103 | the four-heading search ends on a heading along the final axis and stays put only when no direction allows a walk or a jump |
| Pineapple.PlanStaysOnlyWhenBoxedIn | src/domain/behavior/PineappleMovement.java:53-103 | a full move keeps the heading along the axis and fewer than 8 moves counted on it, and stays put only when the pineapple is boxed in |
| Pineapple.PineappleMovement.constructor | src/domain/behavior/PineappleMovement.java:20-32 | a new pineapple heads UP on the vertical axis, with no ticks, no moves counted and no jump |
| Pineapple.PineappleMovement.Move | src/domain/behavior/PineappleMovement.java:37-104 | each call counts a tick; on every 16th the pineapple carries on its jump if it is jumping and otherwise makes the move the plan describes; the cells recorded when a jump is prepared stay unchanged until it lands, so the jump goes over the recorded ice and lands on the recorded cell |
| Pineapple.PineappleMovement.StepMove | src/domain/behavior/PineappleMovement.java:53-103 | a move outside a jump: count it, switch axis when forced at 8 moves or by the draw from 3 moves on, then settle |
| Pineapple.PineappleMovement.SettleMove | src/domain/behavior/PineappleMovement.java:62-103 | tries the current heading, its opposite, then switches axis and tries both headings there, carrying out the first that works |
| Pineapple.PineappleMovement.SwitchAxis | src/domain/behavior/PineappleMovement.java:110-119 | the axis flips, the heading along the new axis follows the coin, and the move count restarts at 0 |
| Pineapple.PineappleMovement.TryMoveOrPrepareJump | src/domain/behavior/PineappleMovement.java:126-156 | a walk moves the fruit; a jump records the ice cell and the landing cell at phase 0; the result says whether either happened |
| Pineapple.PineappleMovement.ContinueJump | src/domain/behavior/PineappleMovement.java:163-171 | phase 0 puts the fruit on the ice and moves to phase 1; phase 1 puts it on the landing cell and ends the jump |
| Cherry.FreeInRowMembers | src/domain/behavior/CherryMovement.java:58-65 | the cells the inner scan collects on one row are exactly its walkable cells in the column range |
| Cherry.FreeInRowsMembers | src/domain/behavior/CherryMovement.java:57-66 | the cells collected over a range of rows are exactly the walkable cells of those rows off the left and right borders |
| Cherry.FreePositionsExact | src/domain/behavior/CherryMovement.java:53-68 | the teleport candidates are exactly the walkable cells off the border |
| Cherry.CounterClimbs | src/domain/behavior/CherryMovement.java:25-32 | below the wrap, n updates raise the counter by n |
| Cherry.TeleportPeriod | src/domain/behavior/CherryMovement.java:17-32 | from a fresh counter the cherry does not teleport in its first 1199 updates and does on the 1200th, which starts the count again |
| Cherry.CounterSplit | src/domain/behavior/CherryMovement.java:25-32 | n+1 updates are n updates followed by one more |
| Cherry.CherryMovement.constructor | src/domain/behavior/CherryMovement.java:17-20 | a new cherry behaviour starts with its counter at 0 |
| Cherry.CherryMovement.Update | src/domain/behavior/CherryMovement.java:25-32 | the counter climbs and wraps to 0 at 1200; the cherry stays put except on the wrap, when it teleports |
| Cherry.CherryMovement.TeleportToRandomPosition | src/domain/behavior/CherryMovement.java:37-48 | the cherry moves to the candidate the draw selects, and stays where it was when there are no candidates |
| Cherry.CherryMovement.FindAllFreePositions | src/domain/behavior/CherryMovement.java:53-68 | the row-by-row scan returns the free cells off the border in reading order |
| Cherry.CherryMovement.GetTicksUntilTeleport | src/domain/behavior/CherryMovement.java:73-75 | between 1 and 1200 updates remain, and with the counter they add up to 1200 |
| Cherry.CherryMovement.GetSecondsUntilTeleport | src/domain/behavior/CherryMovement.java:87-89 | the remaining updates divided into whole seconds at 60 per second, rounded down, at most 20 |
| Cherry.TeleportLandsOnFreeCell | src/domain/behavior/CherryMovement.java:37-48 | a teleport lands on a walkable cell off the border, and stays put only when there is none |
| FruitManagers.OfKindMembers | src/domain/game/FruitManager.java:32-39 | the fruits selected by kind are exactly the fruits of that kind |
| FruitManagers.OfKindAppend | src/domain/game/FruitManager.java:34-38 | selection distributes over concatenation, so selected fruits keep their order |
| FruitManagers.OfKindIdempotent | src/domain/game/FruitManager.java:32-39 | selecting by the same kind a second time changes nothing |
| FruitManagers.OfKindDistinct | src/domain/game/FruitManager.java:32-39 | selecting from distinct fruits gives distinct fruits |
| FruitManagers.FruitManager.constructor | src/domain/game/FruitManager.java:10-15 | a manager holds the given fruits, none of them active yet |
| FruitManagers.FruitManager.ActivateAll | src/domain/game/FruitManager.java:26-29 | the active list becomes the whole fruit list |
| FruitManagers.FruitManager.ActivateByClass | src/domain/game/FruitManager.java:32-39 | the active list becomes the fruits of the given kind, in their original order |
| FruitManagers.FruitManager.AllActiveCollected | src/domain/game/FruitManager.java:42-47 | true exactly when every active fruit has been collected |
| Collisions.IsBlocked | src/domain/game/CollisionDetector.java:16-22 | a cell is blocked exactly when it is not walkable, which covers the cells off the board |
| Collisions.SameCellIsEquality | src/domain/game/CollisionDetector.java:101-103 | comparing row and column is the same as comparing positions |
| Collisions.FirstOnCell | src/domain/game/CollisionDetector.java:29-43 | the first player in list order standing on a cell, absent exactly when no player stands there |
| Collisions.TotalEarnedLast | src/domain/game/CollisionDetector.java:29-43 | the last fruit's points go to the first player on its cell, if that player is among the first n |
| Collisions.PointsPaidOnce | src/domain/game/CollisionDetector.java:29-46 | every collected fruit is paid out once: the players' earnings add up to the points of the collectible fruits some player stands on |
| Collisions.HurtingCells | src/domain/game/CollisionDetector.java:33-38 | the cells of the cacti whose spikes are out and which are neither collected nor frozen |
| Collisions.TouchOf | src/domain/game/CollisionDetector.java:31-43 | a player pricks itself exactly on a cactus that hurts, and collects exactly a collectible fruit on its cell |
| Collisions.CheckPlayerFruit | src/domain/game/CollisionDetector.java:28-46 | each player is hit once per hurting cactus on its cell and earns the points of the fruits it is first to stand on; a fruit ends collected when it was or some player stood on it while collectible |
| Collisions.CheckOnePlayer | src/domain/game/CollisionDetector.java:30-44 | player i's pass over the fruits: its score, its status and the fruits' collected flags after it |
| Collisions.CheckPair | src/domain/game/CollisionDetector.java:31-43 | one player against one fruit: pricked, collects and scores, or nothing, as TouchOf says |
| Collisions.TouchStep | src/domain/game/CollisionDetector.java:29-43 | player i collects a fruit exactly when it is the first player on a collectible fruit, and is pricked exactly on a hurting cactus on its cell |
| Collisions.FirstOnCellPrefix | src/domain/game/CollisionDetector.java:29-43 | a cell is taken by one of the first i players exactly when its first player comes before i |
| Collisions.CheckPlayerEnemy | src/domain/game/CollisionDetector.java:53-61 | a player sharing its cell with an enemy is hit; the others are unchanged |
| Collisions.HitByEnemies | src/domain/game/CollisionDetector.java:55-59 | one player against every enemy: hit when some enemy is on its cell |
| Collisions.LitCells | src/domain/game/CollisionDetector.java:70-74 | the cells of the lit campfires |
| Collisions.CheckPlayerCampfire | src/domain/game/CollisionDetector.java:66-76 | a player on a lit campfire is hit; the others are unchanged |
| Collisions.HitByCampfires | src/domain/game/CollisionDetector.java:68-74 | one player against every campfire: hit when a lit campfire is on its cell |
| Levels.PlayerMovesOneCell | src/domain/game/Level.java:110-156 | a player moves at most one cell per acting update, in the direction of its input and only onto a walkable cell, and gets a new Position object exactly when it moves |
| Levels.TurnThenAdvance | src/domain/game/Level.java:122-131 | from a stop, a key for a new facing only turns the player; holding it on the next acting update advances it |
| Levels.HeldKeyTurnsAndAdvances | src/domain/game/Level.java:125-135 | while a key is held, a new facing turns and advances in the same update |
| Levels.RecordedStep | src/domain/game/Level.java:110-143 | recording one more living player's input extends the recorded map by that player's entry; a dead player's is not recorded |
| Levels.MoversApart | src/domain/game/Level.java:15-24 | the behaviour objects are distinct from the board, the players, the enemies, the fruits and the campfires |
| Levels.Level.constructor | src/domain/game/Level.java:28-38 | a new level keeps the given board and lists, starts at phase 0 with no recorded inputs and the counter at 0, and activates every fruit with no phases or the first phase's kind otherwise |
| Levels.Level.InitFirstFruitPhase | src/domain/game/Level.java:47-54 | the active fruits are all fruits with no phases, otherwise the fruits of the first phase's kind |
| Levels.Level.Update | src/domain/game/Level.java:61-70 | one update in the source's order keeps the level valid, counts a player tick when there are players, advances the phase by at most one, and on a player tick records the living players' inputs and leaves every player in the pose PlayerTurn gives for its input; otherwise the record and the poses are unchanged |
| Levels.Level.UpdateWorld | src/domain/game/Level.java:63-69 | the steps after the players' move keep the level valid, advance the phase by at most one, and move no player |
| Levels.Level.CheckCollisions | src/domain/game/Level.java:64-66 | the three collision checks in order keep the level valid |
| Levels.Level.CheckFruitCollisions | src/domain/game/Level.java:64 | players against the active fruits keep the level valid |
| Levels.Level.CheckEnemyCollisions | src/domain/game/Level.java:65 | players against the enemies keep the level valid |
| Levels.Level.CheckCampfireCollisions | src/domain/game/Level.java:66 | players against the campfires keep the level valid |
| Levels.Level.ActiveFruitsDistinct | src/domain/game/Level.java:47-54 | the active fruits are distinct fruits of the level |
| Levels.Level.UpdatePlayers | src/domain/game/Level.java:101-144 | with no players nothing happens; otherwise the counter climbs and on every 8th update each living player follows PlayerTurn with its input and its previous one, and its input is recorded; otherwise poses and recorded inputs are unchanged |
| Levels.Level.MovePlayers | src/domain/game/Level.java:110-143 | every living player in list order follows PlayerTurn and the recorded inputs gain their entries |
| Levels.Level.TurnPlayerAt | src/domain/game/Level.java:110-143 | one iteration: player i takes its PlayerTurn pose and the record grows by its entry |
| Levels.Level.UpdateOnePlayer | src/domain/game/Level.java:111-142 | a dead player is skipped; a living one takes its PlayerTurn pose and its input becomes its last input |
| Levels.Level.MovePlayer | src/domain/game/Level.java:147-156 | the player steps to the next cell in the direction when that cell is walkable, and otherwise stays |
| Levels.Level.UpdateFruits | src/domain/game/Level.java:72-78 | the active fruits neither collected nor frozen take their update (a cactus its spike step, a banana or grape nothing, a pineapple or cherry keeps its spike fields), and the other fruits keep their cell and spike cycle |
| Levels.Level.TickFruits | src/domain/game/Level.java:73-77 | the loop over the active fruits: each eligible one takes its update (a cactus its spike step, a banana or grape nothing, a pineapple or cherry keeps its spike fields), the others are unchanged |
| Levels.Level.UpdateFruit | src/domain/game/Level.java:75 | one fruit's update by kind changes no other fruit: a cactus runs its spike cycle, bananas and grapes stay as they are |
| Levels.Level.UpdateMovingFruit | src/domain/game/Level.java:75 | a pineapple or cherry runs its movement behaviour, if it has one |
| Levels.Level.UpdateFruitPhase | src/domain/game/Level.java:80-96 | the phase advances by one exactly when there are phases, every active fruit is collected and a next phase exists, and the active fruits then become that phase's; otherwise nothing changes |
| Levels.Level.UpdateEnemies | src/domain/game/Level.java:158-164 | the enemies without a behaviour are unchanged, and the level stays valid |
| Levels.Level.MoveEnemies | src/domain/game/Level.java:159-163 | the loop over the enemies keeps them on the board |
| Levels.Level.MoveEnemy | src/domain/game/Level.java:160-162 | an enemy without a behaviour is unchanged, and every enemy stays on the board |
| Levels.Level.UpdateCampfires | src/domain/game/Level.java:165-169 | every campfire runs its update and the level stays valid |
| Levels.Level.TickCampfires | src/domain/game/Level.java:166-168 | the loop over the campfires keeps each one consistent |
| Levels.Level.IsLevelCompleted | src/domain/game/Level.java:174-182 | true exactly when every active fruit is collected and there is no phase after the current one |
| AI.Window | src/domain/game/AIController.java:253-258 | the memory after trimming holds the newest min(length, 6) entries, in order |
| AI.Trim | src/domain/game/AIController.java:257 | dropping the oldest entry while more than 6 remain leaves exactly the newest window |
| AI.RememberWindow | src/domain/game/AIController.java:253-258 | remembering keeps at most 6 entries, ends with the new one and drops only the oldest |
| AI.AdjacentRepeats | src/domain/game/AIController.java:285-288 | the repeat count over the first n entries is below n, or 0 |
| AI.MovingNeverStuck | src/domain/game/AIController.java:274-290 | a player that moved between every two decisions never counts as stuck, even pacing between two cells, since positions are compared as objects |
| AI.NoRepeatsWhileMoving | src/domain/game/AIController.java:285-288 | entries with distinct objects never repeat |
| AI.PingPongIsStandingStill | src/domain/game/AIController.java:281-282 | entries taken in order that pass the ping-pong test stood still, so they already repeat at least twice |
| AI.StandingStillIsStuck | src/domain/game/AIController.java:274-290 | a full memory whose last three entries share one object is stuck |
| AI.FreeCount | src/domain/game/AIController.java:215-222 | a cell has at most 4 walkable neighbours |
| AI.Rank | src/domain/game/AIController.java:173 | the place of each direction in the scan order UP, DOWN, LEFT, RIGHT |
| AI.ScanInvariant | src/domain/game/AIController.java:169-212 | after scanning the first n directions the best so far is the first best among them, NONE while none is walkable |
| AI.GreedyIsFirstBest | src/domain/game/AIController.java:169-212 | a greedy step is NONE exactly when the player is boxed in, and otherwise the first walkable step with the best score |
| AI.FirstBestUnique | src/domain/game/AIController.java:169-212 | at most one direction is the first best step, so the greedy choice is fixed by its specification |
| AI.TowardClosesIn | src/domain/game/AIController.java:169-188 | with no recent cells in the way, when some walkable neighbour is closer to the goal, the step towards it gets closer |
| AI.FreeNeighbors | src/domain/game/AIController.java:215-222 | the loop counts the walkable neighbours in scan order |
| AI.StepToward | src/domain/game/AIController.java:169-188 | the walkable step with the lowest distance plus a penalty of 3 for a recent cell, first on a tie; NONE when boxed in |
| AI.ScoreIgnoresMemory | src/domain/game/AIController.java:260-267 | the recency penalties never apply, so a score does not depend on the memory and towards a goal is the plain distance |
| AI.StepAway | src/domain/game/AIController.java:193-213 | the walkable step with the highest distance less 2 for a recent cell and 2 for a dead end, first on a tie; NONE when boxed in |
| AI.NotRecent | src/domain/game/AIController.java:231-238 | the directions whose next cell is not in the memory, in order |
| AI.NotRecentKeepsAll | src/domain/game/AIController.java:260-267 | since a freshly built cell never equals a remembered object, the filter keeps every direction |
| AI.RandomChoiceSound | src/domain/game/AIController.java:227-247 | the random walk is NONE exactly when boxed in, otherwise a walkable step, and not a recent cell whenever some walkable step is not |
| AI.OpenAmongStep | src/domain/game/AIController.java:231-238 | one more direction extends the options by it exactly when its cell is walkable |
| AI.NotRecentStep | src/domain/game/AIController.java:237 | one more direction extends the safe options by it exactly when its cell is not recent |
| AI.RandomWalk | src/domain/game/AIController.java:227-247 | draws from the safe options when there are any, else from the walkable options, else NONE |
| AI.NearestActiveFruit | src/domain/game/AIController.java:125-141 | the first fruit at the least distance among those neither collected nor frozen; none exactly when there is no such fruit |
| AI.NearestEnemy | src/domain/game/AIController.java:143-156 | the first enemy at the least distance; none exactly when there are no enemies |
| AI.WalkBack | src/domain/game/AIController.java:337-342 | walking the parents back from the goal stops at the cell whose parent is the start, or without a parent, and the rest is a walk to the goal |
| AI.BfsFirstStep | src/domain/game/AIController.java:300-346 | NONE exactly when the goal is the start or cannot be reached over walkable cells; otherwise the first step of a shortest walk to it |
| AI.GreedySound | src/domain/game/AIController.java:169-213 | a greedy step is NONE exactly when boxed in and otherwise a walkable step |
| AI.FirstStepSound | src/domain/game/AIController.java:335-345 | the first step of a walk to another cell is a walkable step |
| AI.GoFor | src/domain/game/AIController.java:60-66 | when stuck, away from the target and able to reach it, the first step of a shortest walk to it; otherwise the greedy step towards the target |
| AI.HungryMove | src/domain/game/AIController.java:52-67 | goes for the nearest active fruit (the first step of a shortest walk when stuck and the fruit is reachable elsewhere, else the greedy step), or walks at random when there is none; the step is always walkable or NONE when boxed in |
| AI.FirstNearestFruitUnique | src/domain/game/AIController.java:125-141 | at most one index is the first nearest targetable fruit |
| AI.FirstNearestEnemyUnique | src/domain/game/AIController.java:143-156 | at most one index is the first nearest enemy |
| AI.FearfulMove | src/domain/game/AIController.java:69-90 | with no enemy like HUNGRY, including the shortest-walk step when stuck; otherwise the step away from the nearest enemy |
| AI.ExpertMove | src/domain/game/AIController.java:92-119 | steps away from the nearest enemy within distance 3; otherwise goes for the nearest fruit, by the shortest-walk step when stuck and the fruit is reachable elsewhere; otherwise walks at random |
| AI.Choose | src/domain/game/AIController.java:41-45 | the move follows the profile's rule, with the breadth-first rescue when stuck, and is sound |
| AI.AIController.constructor | src/domain/game/AIController.java:21-30 | a new controller has its profile and no memory |
| AI.AIController.Remember | src/domain/game/AIController.java:253-258 | the player's memory gains its current position object and keeps the newest 6 |
| AI.AIController.IsStuck | src/domain/game/AIController.java:274-290 | stuck exactly when the memory is full and shows a ping-pong or two repeats |
| AI.AIController.Decide | src/domain/game/AIController.java:36-46 | NONE for a missing or dead player, leaving the memory alone; otherwise the position is remembered and the profile's rule decides |
| PlayingStates.ArrowKeys | src/domain/game/PlayingState.java:402-412 | exactly the four arrow keys stand for a direction, each for its own one; space stands for none |
| PlayingStates.KeyLatch | src/domain/game/PlayingState.java:402-412 | pressing then releasing the same arrow leaves nothing held; a release keeps the held direction exactly when it is another key; space never changes it |
| PlayingStates.ClockAfter | src/domain/game/PlayingState.java:49-63 | after n updates the clock reads min(n, 10800) and is up from 10800 on; the level moves on exactly the first 10799 updates |
| PlayingStates.OffsetInvertsAlong | src/domain/game/PlayingState.java:445-480 | the ray's k-th cell is k steps from its start, and every cell ahead on the line is some k-th cell |
| PlayingStates.ReachShrinks | src/domain/game/PlayingState.java:447 | a step from an inside cell brings the edge one cell closer, so the ray loops end |
| PlayingStates.RayPasses | src/domain/game/PlayingState.java:456-467 | a new ice ray passes empty ground, snow, floor and hot tiles, and stops at every other cell type |
| PlayingStates.FreezeRunCells | src/domain/game/PlayingState.java:445-481 | the new ray passes exactly its first n cells: each on the board, free of enemies and of a passable type, and the next cell is off the board or stops it |
| PlayingStates.IceRunCells | src/domain/game/PlayingState.java:496-510 | the break clears exactly the first n cells: each ice of either kind on the board, and the next off the board or not ice |
| PlayingStates.PlayerIceRunCells | src/domain/game/PlayingState.java:518-531 | the thaw walks exactly the first n cells: each player ice on the board, and the next off the board or not player ice |
| PlayingStates.ThawWithinBreak | src/domain/game/PlayingState.java:429-432 | the thaw never reaches past the break |
| PlayingStates.RunsWithinReach | src/domain/game/PlayingState.java:447-510 | no run goes past the edge of the board |
| PlayingStates.EnemyThere | src/domain/game/PlayingState.java:448-455 | true exactly when some enemy stands on the cell |
| PlayingStates.FreezeFruitsAt | src/domain/game/PlayingState.java:474-478 | every uncollected, unfrozen fruit on the cell freezes and no other fruit changes |
| PlayingStates.ThawFruitsAt | src/domain/game/PlayingState.java:524-528 | every frozen fruit on the cell thaws and no other fruit changes |
| PlayingStates.Grid | src/domain/game/PlayingState.java:440-481 | a snapshot of the board's cells, row by row |
| PlayingStates.PassRayCell | src/domain/game/PlayingState.java:469-480 | a cell that does not stop the ray is iced when it is FLOOR and its fruits are frozen |
| PlayingStates.IceCell | src/domain/game/PlayingState.java:469-478 | FLOOR turns into PLAYER_ICE, other cells keep their type, and the uncollected fruits on the cell freeze |
| PlayingStates.FreezeRunOnGrid | src/domain/game/PlayingState.java:445-481 | the ray's run read off the board equals the run read off its snapshot |
| PlayingStates.StopsRay | src/domain/game/PlayingState.java:448-467 | the ray stops at a cell exactly when an enemy stands there or it is a campfire or blocks walking |
| PlayingStates.RayCell | src/domain/game/PlayingState.java:447-480 | at its k-th cell the ray either stops or ices the cell and freezes its fruits |
| PlayingStates.IceRay | src/domain/game/PlayingState.java:447-481 | the ray's loop ices and freezes exactly along its run |
| PlayingStates.CreateIceRay | src/domain/game/PlayingState.java:440-482 | from the cell next to the player the ray runs while on the board, stopping at an enemy, a campfire or a blocking cell; along its run FLOOR becomes PLAYER_ICE and uncollected fruits freeze, and nothing else changes |
| PlayingStates.IceRunOnGrid | src/domain/game/PlayingState.java:492-511 | the ice run read off the board equals the run read off its snapshot |
| PlayingStates.MeltRayCell | src/domain/game/PlayingState.java:499-505 | an ice cell of the break turns into FLOOR |
| PlayingStates.MeltRay | src/domain/game/PlayingState.java:496-510 | the break's loop melts exactly along the ice run |
| PlayingStates.BreakIceRay | src/domain/game/PlayingState.java:492-511 | every ice cell of either kind from the start turns into FLOOR until the edge or the first cell that is not ice; nothing else changes |
| PlayingStates.ThawRayCell | src/domain/game/PlayingState.java:524-530 | the frozen fruits on the thaw's k-th cell thaw |
| PlayingStates.ThawRay | src/domain/game/PlayingState.java:518-531 | the thaw's loop thaws exactly along the player-ice run |
| PlayingStates.UnfreezeFruitsInRay | src/domain/game/PlayingState.java:514-532 | the frozen fruits on the player ice from the start thaw, until the edge or the first cell that is not player ice; the board is only read |
| PlayingStates.PlayingState.constructor | src/domain/game/PlayingState.java:37-46 | the screen holds its level and number, with the clock at 0, time not up and no arrow held |
| PlayingStates.PlayingState.Update | src/domain/game/PlayingState.java:49-74 | the clock ticks; while the time is not up the level takes one update whose only input is the first player's held arrow: on a player tick that arrow is recorded for the first player when alive and every player takes the PlayerTurn pose for it (the others with no input); once up nothing of the level changes |
| PlayingStates.PlayingState.KeyPressed | src/domain/game/PlayingState.java:402-412 | an arrow key becomes the held direction; space places or breaks ice; no other key changes the board or the fruits |
| PlayingStates.PlayingState.PlaceOrBreakIce | src/domain/game/PlayingState.java:414-437 | nothing with no facing or an off-board next cell; on ice, thaw the player-ice run and break the ice run; otherwise a new ice ray |
| PlayingStates.PlayingState.KeyReleased | src/domain/game/PlayingState.java:537-546 | releasing the held arrow clears it; any other key changes nothing |
| LevelLoaders.CharacterMeaning | src/domain/game/LevelLoader.java:54-150 | every entity letter puts FLOOR under its entity except 'F', which puts a lit campfire cell; the seven terrain letters create nothing; every other character is FLOOR |
| LevelLoaders.ScanCells | src/domain/game/LevelLoader.java:40-48 | the scan of the first n rows visits exactly the cells of those rows within the board's width, each with its own character |
| LevelLoaders.RowScanCells | src/domain/game/LevelLoader.java:42-47 | the scan of a row visits exactly its first c cells, each with its own character |
| LevelLoaders.FoundCells | src/domain/game/LevelLoader.java:86-143 | each entity list of a scan holds exactly the cells whose character creates that entity |
| LevelLoaders.ScanStep | src/domain/game/LevelLoader.java:40-48 | one more scanned cell extends each entity list by the entity its character creates, if any |
| LevelLoaders.MapEntities | src/domain/game/LevelLoader.java:29-150 | a cell of the map's rectangle holds a player, an enemy or fruit of a kind, or a campfire exactly when its character creates one, and no cell outside it holds any |
| LevelLoaders.ParseLevel | src/domain/game/LevelLoader.java:29-51 | the board has as many rows as lines and as many columns as the first line, every cell is the type its character gives, the entity lists are what the row-major scan finds, and the level starts at phase 0; there is no level exactly when there are no lines or a line is shorter than the first |
| LevelLoaders.ParseRows | src/domain/game/LevelLoader.java:40-48 | the rows are parsed one after another; it fails exactly when some line is shorter than the first |
| LevelLoaders.Assemble | src/domain/game/LevelLoader.java:50 | the level built from a fully parsed board and lists is the level the map describes |
| LevelLoaders.NextRow | src/domain/game/LevelLoader.java:41-47 | row n is parsed after the rows before it, and fails exactly when its line is shorter than the first |
| LevelLoaders.ParseRow | src/domain/game/LevelLoader.java:42-47 | every column of row r gets the type of its character, the entities of the row join the lists in column order, and the other rows stay as they were |
| LevelLoaders.ParseColumn | src/domain/game/LevelLoader.java:43-46 | column c of row r is parsed from its character |
| LevelLoaders.ParseCell | src/domain/game/LevelLoader.java:54-150 | one character: its cell type goes on the board and its entity, if any, to the end of its list |
| LevelLoaders.AddEntity | src/domain/game/LevelLoader.java:86-143 | the entity a character creates joins the end of its list, and the other lists are unchanged |
| LevelLoaders.AddPlayer | src/domain/game/LevelLoader.java:121-129 | a new player on the cell joins the end of the player list |
| LevelLoaders.AddEnemy | src/domain/game/LevelLoader.java:96-114 | a new enemy of the letter's kind on the cell joins the end of the enemy list |
| LevelLoaders.AddFruit | src/domain/game/LevelLoader.java:86-94 | a new fruit of the letter's kind on the cell joins the end of the fruit list |
| LevelLoaders.AddCampfire | src/domain/game/LevelLoader.java:141-144 | a new lit campfire on the cell joins the end of the campfire list |
| LevelLoaders.NewEnemy | src/domain/game/LevelLoader.java:96-114 | a troll or flowerpot faces LEFT, a squid or narwhal faces DOWN, each with a new behaviour of its kind |
| LevelLoaders.NewFruit | src/domain/game/LevelLoader.java:86-139 | a new uncollected, unfrozen fruit of the kind, worth its kind's points, with a new behaviour when it moves |
| LevelLoaders.NonBlankLines | src/domain/game/LevelLoader.java:160-162 | dropping blank lines keeps every other line, adds none and changes nothing when there are no blank lines |
| LevelLoaders.DropBlankLines | src/domain/game/LevelLoader.java:153-184 | the lines as read, in order, without the blank ones |
| LevelLoaders.ParsedLevelStartsFresh | src/domain/game/LevelLoader.java:86-144 | a parsed level's players are alive, face DOWN and have no points, its fruits are uncollected and unfrozen, and its campfires are lit |
| LevelLoaders.Load | src/domain/game/LevelLoader.java:17-26 | the level the non-blank lines describe, with the given phases; none exactly when those lines are empty or one is shorter than the first |
| LevelImporters.FirstWrongWidth | src/persistence/LevelImporter.java:57-65 | the first line from `from` on whose width differs, or the end when there is none |
| LevelImporters.VerdictAccepts | src/persistence/LevelImporter.java:37-87 | a map passes exactly when it has at least 10 rows, every row as wide as the first, that width at least 10, and a 'P' somewhere |
| LevelImporters.VerdictWrongWidth | src/persistence/LevelImporter.java:53-65 | a width error names, counting from 1, the first line whose width differs from the first line's, with both widths |
| LevelImporters.VerdictOrder | src/persistence/LevelImporter.java:67-86 | the size is judged only on rectangular maps, and the player only on rectangles of at least 10 by 10 |
| LevelImporters.AcceptedMapsParse | src/persistence/LevelImporter.java:28-31 | a map that passes the checks parses into a level that has a player |
| LevelImporters.ValidateLevelFile | src/persistence/LevelImporter.java:37-87 | reports the first failed check in the source's order: empty, a line of the wrong width, too small, no player |
| LevelImporters.ImportFromFile | src/persistence/LevelImporter.java:18-32 | a missing file, then a name not ending in .txt, then a failed check is reported; otherwise the level those lines describe, with no phases, and it has a player |
| LevelFactories.PlanTable | src/domain/game/LevelFactory.java:11-49 | 2 and 3 pick their own map and every other number level 1; each plan has two phases of different kinds, and two plans share a map exactly when they share their phases |
| LevelFactories.CreateLevel | src/domain/game/LevelFactory.java:11-49 | the level of the number's map with its phases; none exactly when the map is missing or cannot be parsed |

## Left out

- Map lines as UTF-16: Java measures a line in UTF-16 code units (`length()` and `charAt` in `LevelLoader.parseLevel` and `LevelImporter.validateLevelFile`), while the model's lines are sequences of Unicode characters. For lines made of characters of the Basic Multilingual Plane the two agree; a character outside it, which Java counts as two code units (each surrogate half falling to FLOOR in the loader and adding two to a line's width in the importer), is not modelled.
- Reading files and resources (`LevelLoader.readLines`, `readLinesFromFile`, the `File` checks in `LevelImporter`): a map's lines, whether a file exists and the game's resources are parameters.
- Rendering, sprites and sounds (`PlayingState.render`, the `render` methods of the entities, `Sprite`, `AnimatedSprite`, image loading), and the Swing screens of `src/presentation`.
- PlayingState.handleTimeUp: it starts a thread that sleeps and switches screens; only the `timeUp` flag is modelled.
- PlayingState.checkAndExtinguishCampfire: it compares Position objects with `equals`, which never matches the fresh object the ray walk holds, so it has no effect and is not modelled.
- PlayingStates.PlayingState.constructor: takes the level the factory built (`LevelFactories.CreateLevel`) as a parameter, and leaves out the unused `Board` the Java constructor creates; the `Game` it keeps is screen switching. It requires a level with at least one player: Java builds a screen for a level without players and then throws at `getPlayers().get(0)` on its first update or space key, which the model does not represent.
- PlayingStates.PlayingState.KeyPressed: states the latch and the ice action, not that the level stays valid; the level's validity reads neither the board's cells nor the frozen flags a key can change, but carrying it through the ray walks costs more proof than it is worth.
- Levels.Level.CheckCollisions: states only that the level stays valid; what the three checks do is stated by Collisions.CheckPlayerFruit, Collisions.CheckPlayerEnemy and Collisions.CheckPlayerCampfire.
- Levels.Level.CheckFruitCollisions: states only that the level stays valid; the effect is stated by Collisions.CheckPlayerFruit, which it calls.
- Levels.Level.CheckEnemyCollisions: states only that the level stays valid; the effect is stated by Collisions.CheckPlayerEnemy, which it calls.
- Levels.Level.CheckCampfireCollisions: states only that the level stays valid; the effect is stated by Collisions.CheckPlayerCampfire, which it calls.
- Levels.Level.Update: states the player counter, the recorded inputs, the players' poses, the phase step and validity; the effects of the collision, fruit, enemy and campfire steps are stated by those steps' own methods and not carried into the update's contract.
- Levels.Level.UpdateWorld: states validity, the phase step and that no player's pose changes; what the fruit, collision, enemy and campfire steps do to the level is stated by those steps' own methods (Levels.Level.UpdateFruits, Levels.Level.CheckCollisions with the Collisions methods, Levels.Level.UpdateEnemies, Levels.Level.UpdateCampfires) and not carried into this contract.
- Levels.Level.UpdateCampfires: states that the level stays valid; what one campfire does is stated by Campfires.Campfire.Update.
- Levels.Level.TickCampfires: states the invariant its loop keeps; what one campfire does is stated by Campfires.Campfire.Update.
- Levels.Level.MoveEnemies: states the invariant its loop keeps; what one enemy does is stated by its behaviour's Move.
- Levels.Level.MoveEnemy: for an enemy with a behaviour states only that it stays on the board; what it does is stated by that behaviour's Move, which is not carried into the level's state.
- Levels.Level.UpdateEnemies: states validity and that enemies without a behaviour are unchanged; the behaviours' moves are not carried into the level's state.
- Levels.Level.UpdateFruits: for a pineapple or a cherry states only that its spike fields are kept; where it moves is stated by its behaviour, not by the level.
- Levels.Level.TickFruits: as UpdateFruits, the cell a pineapple or a cherry moves to is not stated.
- Levels.Level.UpdateMovingFruit: states only that the moving fruits stay ready; what the pineapple and the cherry do is stated by their `Move` and `Update`.
- CollisionDetector.checkPlayerCactus and `intersects`: no code of the game calls them.
- `null` directions and `null` lists: the model has no null direction (Java's `d == null` tests are the NONE tests), and a level's lists are always given.
- Cherry.java is not part of this model: the cherry's points are a parameter of parsing (`cherryScore`), and a cherry's update is taken to run its `CherryMovement`.
- Float progress getters (`CherryMovement.getTeleportProgress`, `Campfire.getRelightProgress`) and the `rng.nextDouble()` thresholds, which are boolean oracle parameters.
- `GameSaver` and `GameLoader` (object serialisation) and the screen states `Game`, `GameState`, `PauseState`, `WinState`, `GameOverState`.
- The text of error messages: `LevelImporters.ImportError` keeps the figures each message reports, not the formatted string.
- Getters that only return a field, and `MovingFruit.setMovementBehavior`, which no code calls: a fruit's behaviour is fixed when it is created.
