/**
 * A level (domain/game/Level.java): the board and its players, enemies, fruits and campfires,
 * the fruit phases, and one update of the whole simulation.
 */
module Levels {
  import opened Directions
  import opened Positions
  import opened Boards
  import opened Players
  import opened Fruits
  import opened Enemies
  import opened Campfires
  import opened Wrappers
  import opened FruitManagers
  import opened Behaviors
  import Collisions
  import MacetaChase
  import Pineapple

  /** Players act on every 8th update. */
  const TICKS_PER_PLAYER_MOVE: nat := 8

  /**
   * The random draws of one update: the flowerpot at index i of the enemy list uses
   * maceta(i); the fruit at index i of the active-fruit list uses pineapple(i) or cherry(i).
   */
  datatype Draws = Draws(maceta: nat -> MacetaChase.Draws, pineapple: nat -> Pineapple.Draws, cherry: nat -> nat)

  /** A player's entry in an input map, NONE when it has none. */
  function InputOf(inputs: map<Player, Direction>, p: Player): Direction {
    if p in inputs then inputs[p] else NONE
  }

  /** What a living player does with its input on an acting update. */
  datatype Reaction = Rest | Turn | Advance

  /**
   * No input: rest. An input other than the facing, after an update without input: turn
   * on the spot. Otherwise (same facing, or a new facing while a key was already held):
   * turn if needed and advance.
   */
  function ReactionTo(input: Direction, last: Direction, facing: Direction): Reaction {
    if input == NONE then Rest
    else if input != facing && last == NONE then Turn
    else Advance
  }

  /** The part of a player an update moves: its cell, its Position object and its facing. */
  datatype Pose = Pose(position: Position, positionObject: nat, direction: Direction)

  function PoseOf(p: Player): Pose
    reads p`position, p`positionObject, p`direction
  {
    Pose(p.position, p.positionObject, p.direction)
  }

  /** A step towards d: into the adjacent cell when it is walkable (with a new Position object). */
  function Walked(board: Board, pose: Pose, d: Direction): Pose
    reads board.cells
  {
    var next := pose.position.Step(d);
    if d != NONE && board.IsWalkable(next) then pose.(position := next, positionObject := pose.positionObject + 1)
    else pose
  }

  /** A player's pose after an acting update; dead players do not act. */
  function PlayerTurn(board: Board, dead: bool, input: Direction, last: Direction, pose: Pose): Pose
    reads board.cells
  {
    if dead then pose
    else match ReactionTo(input, last, pose.direction)
      case Rest => pose
      case Turn => pose.(direction := input)
      case Advance => Walked(board, pose.(direction := input), input)
  }

  /**
   * A player moves at most one cell per acting update, in the direction of its input and
   * only onto a walkable cell; it gets a new Position object exactly when it moves.
   */
  lemma PlayerMovesOneCell(board: Board, dead: bool, input: Direction, last: Direction, pose: Pose)
    ensures var after := PlayerTurn(board, dead, input, last, pose);
      || (after.position == pose.position && after.positionObject == pose.positionObject)
      || (!dead && input != NONE && after.position == pose.position.Step(input)
          && board.IsWalkable(after.position) && Manhattan(pose.position, after.position) == 1
          && after.positionObject == pose.positionObject + 1 && after.direction == input)
  {
  }

  /**
   * From a stop, a key for a new facing first only turns the player; holding it on the
   * next acting update advances it.
   */
  lemma TurnThenAdvance(board: Board, input: Direction, pose: Pose)
    requires input != NONE && input != pose.direction
    ensures var turned := PlayerTurn(board, false, input, NONE, pose);
      && turned == pose.(direction := input)
      && PlayerTurn(board, false, input, input, turned) == Walked(board, turned, input)
  {
  }

  /** While a key is held, a new facing turns and advances in the same update. */
  lemma HeldKeyTurnsAndAdvances(board: Board, input: Direction, last: Direction, pose: Pose)
    requires input != NONE && last != NONE
    ensures PlayerTurn(board, false, input, last, pose) == Walked(board, pose.(direction := input), input)
  {
  }

  /** The inputs recorded for the living players of a list: each one's entry in the input map. */
  ghost function Recorded(ps: seq<Player>, inputs: map<Player, Direction>): map<Player, Direction>
    reads ps`dead
  {
    map p | p in ps && !p.dead :: InputOf(inputs, p)
  }

  /** Recording one more player's input extends the recorded map by that player's entry. */
  lemma RecordedStep(base: map<Player, Direction>, ps: seq<Player>, n: nat, inputs: map<Player, Direction>)
    requires n < |ps|
    ensures base + Recorded(ps[..n + 1], inputs) ==
      if ps[n].dead then base + Recorded(ps[..n], inputs) else (base + Recorded(ps[..n], inputs))[ps[n] := InputOf(inputs, ps[n])]
  {
    assert ps[..n + 1][..n] == ps[..n];
  }

  /** The part of a fruit that a fruit update may change: its cell and its spike cycle. */
  ghost function TickState<B>(f: Fruit<B>): (Position, nat, bool)
    reads f`position, f`tickCounter, f`hasSpikesDangerous
  {
    (f.position, f.tickCounter, f.hasSpikesDangerous)
  }

  /**
   * One fruit's update from the given state: a collected or frozen fruit keeps its cell and
   * cycle, a cactus takes one step of its spike cycle, a banana or a grape stays as it was,
   * and a pineapple or a cherry keeps its spike fields while its cell is left to its
   * behaviour (this predicate does not say where it moves).
   */
  ghost predicate TickedFrom<B>(f: Fruit<B>, before: (Position, nat, bool))
    reads f`position, f`tickCounter, f`hasSpikesDangerous, f`collected, f`frozen
  {
    if f.collected || f.frozen then TickState(f) == before
    else if f.kind == Cactus then f.position == before.0 && (f.tickCounter, f.hasSpikesDangerous) == CactusStep(before.1, before.2)
    else if f.kind == Banana || f.kind == Grape then TickState(f) == before
    else (f.tickCounter, f.hasSpikesDangerous) == (before.1, before.2)
  }

  /** The behaviour objects of the enemies. */
  function EnemyMovers(enemies: seq<Enemy<MovementBehavior>>): set<object> {
    set e | e in enemies && e.movementBehavior.Some? :: e.movementBehavior.value.Obj()
  }

  /** The behaviour objects of the fruits. */
  function FruitMovers(fruits: seq<Fruit<FruitBehavior>>): set<object> {
    set f | f in fruits && f.movementBehavior.Some? :: f.movementBehavior.value.Obj()
  }

  /** The behaviour object of one enemy, if any. */
  function MoverOf(e: Enemy<MovementBehavior>): set<object> {
    if e.movementBehavior.Some? then {e.movementBehavior.value.Obj()} else {}
  }

  function FruitMoverOf(f: Fruit<FruitBehavior>): set<object> {
    if f.movementBehavior.Some? then {f.movementBehavior.value.Obj()} else {}
  }

  /** Each entity with a behaviour has a behaviour object of its own. */
  ghost predicate OwnEnemyMovers(enemies: seq<Enemy<MovementBehavior>>) {
    forall i, j :: 0 <= i < j < |enemies| && enemies[i].movementBehavior.Some? && enemies[j].movementBehavior.Some? ==>
      enemies[i].movementBehavior.value.Obj() != enemies[j].movementBehavior.value.Obj()
  }

  ghost predicate OwnFruitMovers(fruits: seq<Fruit<FruitBehavior>>) {
    forall f, g :: f in fruits && g in fruits && f != g && f.movementBehavior.Some? && g.movementBehavior.Some? ==>
      f.movementBehavior.value.Obj() != g.movementBehavior.value.Obj()
  }

  /**
   * The parts of a level that no update changes: the lists hold distinct entities, moving
   * entities have behaviour objects of their own, and the campfires stand on the board.
   */
  ghost predicate Structured(board: Board, players: seq<Player>, enemies: seq<Enemy<MovementBehavior>>,
                             fruits: seq<Fruit<FruitBehavior>>, campfires: seq<Campfire>)
  {
    && Distinct(players) && Distinct(enemies) && Distinct(fruits) && Distinct(campfires)
    && OwnEnemyMovers(enemies) && OwnFruitMovers(fruits)
    && Apart(board, players, enemies, fruits, campfires)
    && forall i :: 0 <= i < |campfires| ==> board.IsInside(campfires[i].position)
  }

  /** The object is none of the entities and not the board's cells. */
  ghost predicate Foreign(o: object, board: Board, players: seq<Player>, enemies: seq<Enemy<MovementBehavior>>,
                          fruits: seq<Fruit<FruitBehavior>>, campfires: seq<Campfire>)
  {
    o !in players && o !in enemies && o !in fruits && o !in campfires && o != board.cells
  }

  /** No behaviour object is one of the entities, the board's cells or another kind's behaviour. */
  ghost predicate Apart(board: Board, players: seq<Player>, enemies: seq<Enemy<MovementBehavior>>,
                        fruits: seq<Fruit<FruitBehavior>>, campfires: seq<Campfire>)
  {
    && (forall f :: f in fruits && f.movementBehavior.Some? ==>
          Foreign(f.movementBehavior.value.Obj(), board, players, enemies, fruits, campfires))
    && (forall e :: e in enemies && e.movementBehavior.Some? ==>
          Foreign(e.movementBehavior.value.Obj(), board, players, enemies, fruits, campfires))
    && (forall f, e :: f in fruits && e in enemies && f.movementBehavior.Some? && e.movementBehavior.Some? ==>
          f.movementBehavior.value.Obj() != e.movementBehavior.value.Obj())
  }

  /** Behaviour objects are of other classes than the entities and the board, so they stay apart. */
  lemma MoversApart(board: Board, players: seq<Player>, enemies: seq<Enemy<MovementBehavior>>,
                    fruits: seq<Fruit<FruitBehavior>>, campfires: seq<Campfire>)
    ensures Apart(board, players, enemies, fruits, campfires)
  {
  }

  /** Every player is in a consistent state on a cell of the board. */
  ghost predicate PlayersOk(board: Board, players: seq<Player>)
    reads players`deathAnimationTicks, players`position
  {
    forall i :: 0 <= i < |players| ==> players[i].Valid() && board.IsInside(players[i].position)
  }

  /** Every enemy is on a cell of the board. */
  ghost predicate EnemiesOnBoard(board: Board, enemies: seq<Enemy<MovementBehavior>>)
    reads enemies`position
  {
    forall i :: 0 <= i < |enemies| ==> board.IsInside(enemies[i].position)
  }

  /** Every enemy behaviour is ready to move. */
  ghost predicate EnemyMoversReady(enemies: seq<Enemy<MovementBehavior>>)
    reads EnemyMovers(enemies)
  {
    forall i :: 0 <= i < |enemies| && enemies[i].movementBehavior.Some? ==> enemies[i].movementBehavior.value.Ready()
  }

  /** Every fruit behaviour is ready to move. */
  ghost predicate FruitMoversReady(fruits: seq<Fruit<FruitBehavior>>)
    reads FruitMovers(fruits)
  {
    forall f :: f in fruits && f.movementBehavior.Some? ==> f.movementBehavior.value.Ready()
  }

  /** Every campfire is in a consistent state. */
  ghost predicate CampfiresOk(campfires: seq<Campfire>)
    reads campfires`isLit, campfires`relightCounter
  {
    forall i :: 0 <= i < |campfires| ==> campfires[i].Valid()
  }

  /** What the level loader guarantees of the entities it builds. */
  ghost predicate WellFormed(board: Board, players: seq<Player>, enemies: seq<Enemy<MovementBehavior>>,
                             fruits: seq<Fruit<FruitBehavior>>, campfires: seq<Campfire>)
    reads players`deathAnimationTicks, players`position, enemies`position, EnemyMovers(enemies), FruitMovers(fruits)
    reads campfires`isLit, campfires`relightCounter
  {
    && Structured(board, players, enemies, fruits, campfires)
    && PlayersOk(board, players) && EnemiesOnBoard(board, enemies)
    && EnemyMoversReady(enemies) && FruitMoversReady(fruits) && CampfiresOk(campfires)
  }

  /** The fruits active in a phase: all of them without phases, else those of the phase's kind. */
  function PhaseFruits<B>(fruits: seq<Fruit<B>>, phases: seq<FruitKind>, index: nat): seq<Fruit<B>> {
    if |phases| == 0 then fruits
    else if index < |phases| then OfKind(fruits, phases[index])
    else []
  }

  class Level {
    const board: Board
    const players: seq<Player>
    const enemies: seq<Enemy<MovementBehavior>>
    const fruitManager: FruitManager<FruitBehavior>
    const campfires: seq<Campfire>
    const fruitPhases: seq<FruitKind>
    var currentPhaseIndex: nat
    var lastInputs: map<Player, Direction>
    var playerTickCounter: nat

    /** The level's fruits. */
    function AllFruits(): seq<Fruit<FruitBehavior>> {
      fruitManager.allFruits
    }

    /**
     * The entities are well formed, the phase index names a phase (when there are phases),
     * and the active fruits are those of the current phase.
     */
    ghost predicate Valid()
      reads this`currentPhaseIndex, fruitManager`activeFruits
      reads players`deathAnimationTicks, players`position, enemies`position, EnemyMovers(enemies), FruitMovers(AllFruits())
      reads campfires`isLit, campfires`relightCounter
    {
      && WellFormed(board, players, enemies, AllFruits(), campfires)
      && (forall f :: f in AllFruits() && f.movementBehavior.Some? ==> f.movementBehavior.value.Obj() != this && f.movementBehavior.value.Obj() != fruitManager)
      && (forall e :: e in enemies && e.movementBehavior.Some? ==> e.movementBehavior.value.Obj() != this && e.movementBehavior.value.Obj() != fruitManager)
      && PhaseOk()
    }

    /** The phase index names a phase (when there are phases) and the active fruits are its fruits. */
    ghost predicate PhaseOk()
      reads this`currentPhaseIndex, fruitManager`activeFruits
    {
      && (|fruitPhases| > 0 ==> currentPhaseIndex < |fruitPhases|)
      && fruitManager.activeFruits == PhaseFruits(AllFruits(), fruitPhases, currentPhaseIndex)
    }

    /** The level is over: every active fruit is collected and no later phase is left. */
    ghost predicate Completed()
      reads this, fruitManager, fruitManager.activeFruits
    {
      AllCollected(fruitManager.activeFruits) && (|fruitPhases| == 0 || currentPhaseIndex + 1 >= |fruitPhases|)
    }

    /**
     * A new level: with no phases every fruit is active, otherwise the fruits of the first
     * phase's kind.
     */
    constructor (board: Board, players: seq<Player>, enemies: seq<Enemy<MovementBehavior>>,
                 fruits: seq<Fruit<FruitBehavior>>, campfires: seq<Campfire>, fruitPhases: seq<FruitKind>)
      requires WellFormed(board, players, enemies, fruits, campfires)
      ensures Valid()
      ensures this.board == board && this.players == players && this.enemies == enemies
      ensures this.campfires == campfires && this.fruitPhases == fruitPhases && AllFruits() == fruits
      ensures currentPhaseIndex == 0 && lastInputs == map[] && playerTickCounter == 0
      ensures fruitManager.activeFruits == PhaseFruits(fruits, fruitPhases, 0) && fresh(fruitManager)
    {
      this.board := board;
      this.players := players;
      this.enemies := enemies;
      this.campfires := campfires;
      var manager := new FruitManager(fruits);
      InitFirstFruitPhase(manager, fruitPhases);
      this.fruitManager := manager;
      this.fruitPhases := fruitPhases;
      currentPhaseIndex := 0;
      lastInputs := map[];
      playerTickCounter := 0;
      new;
      forall f | f in fruits && f.movementBehavior.Some?
        ensures f.movementBehavior.value.Obj() != this && f.movementBehavior.value.Obj() != manager
      {
        match f.movementBehavior.value
        case PineappleWalk(_) =>
        case CherryTeleport(_) =>
      }
      forall e | e in enemies && e.movementBehavior.Some?
        ensures e.movementBehavior.value.Obj() != this && e.movementBehavior.value.Obj() != manager
      {
        match e.movementBehavior.value
        case Troll(_) =>
        case Maceta(_) =>
        case Narwhal(_) =>
        case Squid(_) =>
      }
    }

    /** The first phase's fruits become active; with no phases, every fruit does. */
    static method InitFirstFruitPhase(manager: FruitManager<FruitBehavior>, fruitPhases: seq<FruitKind>)
      modifies manager`activeFruits
      ensures manager.activeFruits == PhaseFruits(manager.allFruits, fruitPhases, 0)
    {
      if |fruitPhases| == 0 {
        manager.ActivateAll();
      } else {
        var firstClass := fruitPhases[0];
        manager.ActivateByClass(firstClass);
      }
    }

    /**
     * One update of the level, in a fixed order: players, fruits, player-fruit collisions,
     * player-enemy collisions, player-campfire collisions, phase advance, enemies, campfires.
     */
    method Update(inputs: map<Player, Direction>, draws: Draws)
      requires Valid()
      modifies this`playerTickCounter, this`lastInputs, this`currentPhaseIndex, fruitManager`activeFruits
      modifies players, AllFruits(), FruitMovers(AllFruits()), enemies, EnemyMovers(enemies), campfires, board.cells
      ensures Valid()
      ensures playerTickCounter == old(playerTickCounter) + (if |players| == 0 then 0 else 1)
      ensures currentPhaseIndex == old(currentPhaseIndex) || currentPhaseIndex == old(currentPhaseIndex) + 1
      ensures !PlayersAct() ==> lastInputs == old(lastInputs)
      ensures PlayersAct() ==> lastInputs == old(lastInputs) + old(Recorded(players, inputs))
      ensures forall i :: 0 <= i < |players| ==>
        PoseOf(players[i]) == if PlayersAct() then old(PlayerTurn(board, players[i].dead, InputOf(inputs, players[i]), InputOf(lastInputs, players[i]), PoseOf(players[i])))
                              else old(PoseOf(players[i]))
    {
      UpdatePlayers(inputs);
      UpdateWorld(draws);
    }

    /**
     * The update's steps after the players have moved: fruits, collisions, phase advance,
     * enemies, campfires. None of them moves a player or records an input.
     */
    method UpdateWorld(draws: Draws)
      requires Valid()
      modifies this`currentPhaseIndex, fruitManager`activeFruits
      modifies players`score, players`dead, players`deathAnimationTicks, players`invulnerableTicks
      modifies AllFruits(), FruitMovers(AllFruits()), enemies, EnemyMovers(enemies), campfires, board.cells
      ensures Valid()
      ensures currentPhaseIndex == old(currentPhaseIndex) || currentPhaseIndex == old(currentPhaseIndex) + 1
      ensures forall i :: 0 <= i < |players| ==> PoseOf(players[i]) == old(PoseOf(players[i]))
    {
      UpdateFruits(draws);
      CheckCollisions();
      UpdateFruitPhase();
      UpdateEnemies(draws);
      UpdateCampfires();
    }

    /**
     * The three collision checks of an update, in order: players against fruits, against
     * enemies, against lit campfires.
     */
    method CheckCollisions()
      requires Valid()
      modifies players`score, players`dead, players`deathAnimationTicks, players`invulnerableTicks, AllFruits()`collected
      ensures Valid()
    {
      CheckFruitCollisions();
      CheckEnemyCollisions();
      CheckCampfireCollisions();
    }

    /** Players against the active fruits. */
    method CheckFruitCollisions()
      requires Valid()
      modifies players`score, players`dead, players`deathAnimationTicks, players`invulnerableTicks, AllFruits()`collected
      ensures Valid()
    {
      ActiveFruitsDistinct();
      forall f | f in AllFruits() && f.movementBehavior.Some?
        ensures f.movementBehavior.value.Obj() !in fruitManager.activeFruits
      {
      }
      Collisions.CheckPlayerFruit(players, fruitManager.activeFruits);
    }

    /** Players against the enemies. */
    method CheckEnemyCollisions()
      requires Valid()
      modifies players`dead, players`deathAnimationTicks, players`invulnerableTicks
      ensures Valid()
    {
      Collisions.CheckPlayerEnemy(players, enemies);
    }

    /** Players against the lit campfires. */
    method CheckCampfireCollisions()
      requires Valid()
      modifies players`dead, players`deathAnimationTicks, players`invulnerableTicks
      ensures Valid()
    {
      Collisions.CheckPlayerCampfire(players, campfires);
    }

    /** The active fruits of a valid level are distinct fruits of the level. */
    lemma ActiveFruitsDistinct()
      requires Distinct(AllFruits()) && PhaseOk()
      ensures Distinct(fruitManager.activeFruits)
      ensures forall j :: 0 <= j < |fruitManager.activeFruits| ==> fruitManager.activeFruits[j] in AllFruits()
    {
      if |fruitPhases| > 0 {
        OfKindDistinct(AllFruits(), fruitPhases[currentPhaseIndex]);
        forall j | 0 <= j < |fruitManager.activeFruits|
          ensures fruitManager.activeFruits[j] in AllFruits()
        {
          OfKindMembers(AllFruits(), fruitPhases[currentPhaseIndex], fruitManager.activeFruits[j]);
        }
      }
    }

    /** Players act when there are players and the update is a multiple of 8. */
    predicate PlayersAct()
      reads this
    {
      |players| > 0 && playerTickCounter % TICKS_PER_PLAYER_MOVE == 0
    }

    /**
     * The players' part of an update. With no players nothing happens; otherwise the counter
     * advances and, on every 8th update, each living player in turn follows PlayerTurn
     * with its input and its previous input, and its input is recorded.
     */
    method UpdatePlayers(inputs: map<Player, Direction>)
      requires Valid()
      modifies this`playerTickCounter, this`lastInputs, players`position, players`positionObject, players`direction
      ensures Valid()
      ensures playerTickCounter == old(playerTickCounter) + (if |players| == 0 then 0 else 1)
      ensures !PlayersAct() ==> lastInputs == old(lastInputs) && forall i :: 0 <= i < |players| ==> PoseOf(players[i]) == old(PoseOf(players[i]))
      ensures PlayersAct() ==> lastInputs == old(lastInputs) + Recorded(players, inputs)
      ensures PlayersAct() ==> forall i :: 0 <= i < |players| ==>
        PoseOf(players[i]) == PlayerTurn(board, players[i].dead, InputOf(inputs, players[i]), InputOf(old(lastInputs), players[i]), old(PoseOf(players[i])))
    {
      if |players| == 0 {
        return;
      }
      playerTickCounter := playerTickCounter + 1;
      if playerTickCounter % TICKS_PER_PLAYER_MOVE != 0 {
        return;
      }
      MovePlayers(inputs);
    }

    /** Every living player, in list order, follows PlayerTurn and has its input recorded. */
    method MovePlayers(inputs: map<Player, Direction>)
      requires Distinct(players) && PlayersOk(board, players)
      modifies this`lastInputs, players`position, players`positionObject, players`direction
      ensures PlayersOk(board, players)
      ensures lastInputs == old(lastInputs) + Recorded(players, inputs)
      ensures forall i :: 0 <= i < |players| ==>
        PoseOf(players[i]) == PlayerTurn(board, players[i].dead, InputOf(inputs, players[i]), InputOf(old(lastInputs), players[i]), old(PoseOf(players[i])))
    {
      ghost var last0 := lastInputs;
      ghost var pre := seq(|players|, k requires 0 <= k < |players| reads players => PoseOf(players[k]));
      ghost var post := seq(|players|, k requires 0 <= k < |players| reads players, board.cells =>
        PlayerTurn(board, players[k].dead, InputOf(inputs, players[k]), InputOf(last0, players[k]), pre[k]));
      for i := 0 to |players|
        invariant lastInputs == last0 + Recorded(players[..i], inputs)
        invariant forall k :: 0 <= k < i ==> PoseOf(players[k]) == post[k]
        invariant forall k :: i <= k < |players| ==> PoseOf(players[k]) == pre[k]
        invariant PlayersOk(board, players)
      {
        TurnPlayerAt(players[i], i, inputs, last0, pre[i], post[i]);
      }
      assert players[..|players|] == players;
    }

    /** One iteration of MovePlayers: the player at index i turns and its input is recorded. */
    method TurnPlayerAt(p: Player, i: nat, inputs: map<Player, Direction>, ghost last0: map<Player, Direction>, ghost pre: Pose, ghost post: Pose)
      requires i < |players| && p == players[i] && Distinct(players) && PlayersOk(board, players)
      requires lastInputs == last0 + Recorded(players[..i], inputs)
      requires PoseOf(p) == pre && post == PlayerTurn(board, p.dead, InputOf(inputs, p), InputOf(last0, p), pre)
      modifies this`lastInputs, p`position, p`positionObject, p`direction
      ensures lastInputs == last0 + Recorded(players[..i + 1], inputs)
      ensures PoseOf(p) == post && PlayersOk(board, players)
    {
      assert p !in players[..i];
      assert InputOf(lastInputs, p) == InputOf(last0, p);
      ghost var recorded := Recorded(players[..i], inputs);
      UpdateOnePlayer(p, inputs);
      RecordedStep(last0, players, i, inputs);
      assert Recorded(players[..i], inputs) == recorded;
    }

    /** The loop body of UpdatePlayers for one player. */
    method UpdateOnePlayer(p: Player, inputs: map<Player, Direction>)
      requires board.IsInside(p.position)
      modifies this`lastInputs, p`position, p`positionObject, p`direction
      ensures PoseOf(p) == PlayerTurn(board, p.dead, InputOf(inputs, p), InputOf(old(lastInputs), p), old(PoseOf(p)))
      ensures lastInputs == if p.dead then old(lastInputs) else old(lastInputs)[p := InputOf(inputs, p)]
      ensures board.IsInside(p.position)
    {
      if p.dead {
        return;
      }
      var inputDir := InputOf(inputs, p);
      var lastInput := InputOf(lastInputs, p);
      if inputDir == NONE {
        lastInputs := lastInputs[p := NONE];
        return;
      }
      var wasStopped := lastInput == NONE;
      if inputDir != p.direction {
        p.SetDirection(inputDir);
        if wasStopped {
          lastInputs := lastInputs[p := inputDir];
          return;
        } else {
          MovePlayer(p, inputDir);
        }
      } else {
        MovePlayer(p, inputDir);
      }
      lastInputs := lastInputs[p := inputDir];
    }

    /** Moves the player one cell towards dir when that cell is walkable. */
    method MovePlayer(p: Player, dir: Direction)
      requires board.IsInside(p.position)
      modifies p`position, p`positionObject
      ensures PoseOf(p) == Walked(board, old(PoseOf(p)), dir)
      ensures board.IsInside(p.position)
    {
      if dir == NONE {
        return;
      }
      var current := p.position;
      var next := current.Translated(dir.DRow(), dir.DCol());
      if board.IsWalkable(next) {
        p.SetPosition(next);
      }
    }

    /**
     * What a fruit update does: the active fruits that are neither collected nor frozen
     * take their step (a cactus its spike cycle), the other fruits keep their cell and cycle.
     */
    twostate predicate FruitsTicked(active: seq<Fruit<FruitBehavior>>)
      reads AllFruits(), active
    {
      && (forall f :: f in AllFruits() && f !in active ==> TickState(f) == old(TickState(f)))
      && (forall k :: 0 <= k < |active| ==> TickedFrom(active[k], old(TickState(active[k]))))
    }

    /** The fruits' part of an update. */
    method UpdateFruits(draws: Draws)
      requires Valid()
      modifies AllFruits()`position, AllFruits()`tickCounter, AllFruits()`hasSpikesDangerous, FruitMovers(AllFruits())
      ensures Valid() && FruitsTicked(fruitManager.activeFruits)
    {
      TickFruits(draws);
    }

    /** Updates the active fruits that are neither collected nor frozen, in list order. */
    method TickFruits(draws: Draws)
      requires Distinct(AllFruits()) && OwnFruitMovers(AllFruits()) && PhaseOk() && FruitMoversReady(AllFruits())
      requires Apart(board, players, enemies, AllFruits(), campfires)
      requires forall f :: f in AllFruits() && f.movementBehavior.Some? ==> f.movementBehavior.value.Obj() != fruitManager
      modifies AllFruits()`position, AllFruits()`tickCounter, AllFruits()`hasSpikesDangerous, FruitMovers(AllFruits())
      ensures FruitMoversReady(AllFruits())
      ensures forall f :: f in AllFruits() && f !in fruitManager.activeFruits ==> TickState(f) == old(TickState(f))
      ensures var active := fruitManager.activeFruits;
        forall k :: 0 <= k < |active| ==> TickedFrom(active[k], old(TickState(active[k])))
    {
      ActiveFruitsDistinct();
      var active := fruitManager.activeFruits;
      for i := 0 to |active|
        invariant FruitMoversReady(AllFruits())
        invariant forall f :: f in AllFruits() && f !in active ==> TickState(f) == old(TickState(f))
        invariant forall k :: i <= k < |active| ==> TickState(active[k]) == old(TickState(active[k]))
        invariant forall k :: 0 <= k < i ==> TickedFrom(active[k], old(TickState(active[k])))
      {
        var fruit := active[i];
        if !fruit.collected && !fruit.frozen {
          UpdateFruit(fruit, i, draws);
        }
      }
    }

    /**
     * One fruit's update, by kind: a cactus runs its spike cycle, a pineapple or a cherry
     * runs its movement behaviour, the other fruits do nothing.
     */
    method UpdateFruit(fruit: Fruit<FruitBehavior>, i: nat, draws: Draws)
      requires fruit in AllFruits() && OwnFruitMovers(AllFruits()) && FruitMoversReady(AllFruits())
      requires Apart(board, players, enemies, AllFruits(), campfires)
      requires !fruit.collected && !fruit.frozen
      modifies fruit`position, fruit`tickCounter, fruit`hasSpikesDangerous, FruitMoverOf(fruit)
      ensures FruitMoversReady(AllFruits())
      ensures forall g :: g in AllFruits() && g != fruit ==> TickState(g) == old(TickState(g))
      ensures TickedFrom(fruit, old(TickState(fruit)))
    {
      if fruit.kind.Cactus? {
        fruit.UpdateCactus();
      } else if fruit.kind.Pineapple? || fruit.kind.Cherry? {
        UpdateMovingFruit(fruit, i, draws);
      }
    }

    /** A moving fruit runs its behaviour, if it has one. */
    method UpdateMovingFruit(fruit: Fruit<FruitBehavior>, i: nat, draws: Draws)
      requires fruit in AllFruits() && OwnFruitMovers(AllFruits()) && FruitMoversReady(AllFruits())
      modifies fruit`position, FruitMoverOf(fruit)
      ensures FruitMoversReady(AllFruits())
    {
      if fruit.movementBehavior.Some? {
        assert fruit.movementBehavior.value.Ready();
        match fruit.movementBehavior.value {
          case PineappleWalk(p) =>
            p.Move(board, fruit, draws.pineapple(i));
          case CherryTeleport(c) =>
            c.Update(board, fruit, draws.cherry(i));
        }
      }
    }

    /**
     * Advances to the next phase, activating its fruits, when there are phases, every
     * active fruit is collected and a next phase exists; otherwise nothing changes.
     */
    method UpdateFruitPhase()
      requires Valid()
      modifies this`currentPhaseIndex, fruitManager`activeFruits
      ensures Valid()
      ensures var advance := |fruitPhases| > 0 && old(AllCollected(fruitManager.activeFruits)) && old(currentPhaseIndex) + 1 < |fruitPhases|;
        && currentPhaseIndex == old(currentPhaseIndex) + (if advance then 1 else 0)
        && (!advance ==> fruitManager.activeFruits == old(fruitManager.activeFruits))
    {
      if |fruitPhases| == 0 {
        return;
      }
      var done := fruitManager.AllActiveCollected();
      if !done {
        return;
      }
      if currentPhaseIndex + 1 >= |fruitPhases| {
        return;
      }
      currentPhaseIndex := currentPhaseIndex + 1;
      var nextClass := fruitPhases[currentPhaseIndex];
      fruitManager.ActivateByClass(nextClass);
    }

    /** The enemies' part of an update. */
    method UpdateEnemies(draws: Draws)
      requires Valid()
      modifies enemies, EnemyMovers(enemies), board.cells
      ensures Valid()
      ensures forall e :: e in enemies && e.movementBehavior.None? ==> unchanged(e)
    {
      MoveEnemies(draws);
    }

    /** Every enemy with a behaviour runs it, in list order. */
    method MoveEnemies(draws: Draws)
      requires Distinct(enemies) && OwnEnemyMovers(enemies) && PlayersOk(board, players)
      requires EnemiesOnBoard(board, enemies) && EnemyMoversReady(enemies)
      modifies enemies, EnemyMovers(enemies), board.cells
      ensures EnemiesOnBoard(board, enemies) && EnemyMoversReady(enemies)
      ensures forall e :: e in enemies && e.movementBehavior.None? ==> unchanged(e)
    {
      for i := 0 to |enemies|
        invariant EnemiesOnBoard(board, enemies) && EnemyMoversReady(enemies)
        invariant forall e :: e in enemies && e.movementBehavior.None? ==> unchanged(e)
      {
        if enemies[i].movementBehavior.Some? {
          assert enemies[i].movementBehavior.value.Obj() in EnemyMovers(enemies);
        }
        MoveEnemy(i, draws);
      }
    }

    /** One enemy runs its behaviour, if it has one. */
    method MoveEnemy(i: nat, draws: Draws)
      requires i < |enemies| && Distinct(enemies) && OwnEnemyMovers(enemies) && PlayersOk(board, players)
      requires EnemiesOnBoard(board, enemies) && EnemyMoversReady(enemies)
      modifies enemies[i], MoverOf(enemies[i]), board.cells
      ensures EnemiesOnBoard(board, enemies) && EnemyMoversReady(enemies)
      ensures enemies[i].movementBehavior.None? ==> unchanged(enemies[i])
    {
      var e := enemies[i];
      match e.movementBehavior {
        case None =>
        case Some(b) =>
          assert b.Ready();
          match b {
            case Troll(t) =>
              t.Move(board, e);
            case Maceta(m) =>
              m.Move(board, players, e, draws.maceta(i));
            case Narwhal(n) =>
              n.Move(board, players, e);
            case Squid(s) =>
              s.Move(board, players, e);
          }
      }
    }

    /** The campfires' part of an update. */
    method UpdateCampfires()
      requires Valid()
      modifies campfires, board.cells
      ensures Valid()
    {
      TickCampfires();
    }

    /** Every campfire runs its relight timer, in list order. */
    method TickCampfires()
      requires Distinct(campfires) && CampfiresOk(campfires)
      requires forall i :: 0 <= i < |campfires| ==> board.IsInside(campfires[i].position)
      modifies campfires, board.cells
      ensures CampfiresOk(campfires)
    {
      for i := 0 to |campfires|
        invariant CampfiresOk(campfires)
      {
        campfires[i].Update(board);
      }
    }

    /** Whether the level is over: all active fruits collected and no phase left to go to. */
    method IsLevelCompleted() returns (r: bool)
      ensures r == Completed()
    {
      var done := fruitManager.AllActiveCollected();
      if !done {
        return false;
      }
      if |fruitPhases| == 0 {
        return true;
      }
      return currentPhaseIndex + 1 >= |fruitPhases|;
    }
  }
}
