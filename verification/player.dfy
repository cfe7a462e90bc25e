/** The ice-cream player (domain/entities/Player.java). */
module Players {
  import opened Positions
  import opened Directions

  const INVULNERABLE_TIME: int := 30
  /** Number of updates the death animation lasts. */
  const DEATH_GIF_DURATION: int := 170

  class Player {
    var position: Position
    /**
     * Which Position object the player holds: the game compares Position objects by
     * reference, and every move hands the player a new object, so this counter goes up by one
     * on each move and two snapshots are the same object exactly when their counters agree.
     */
    var positionObject: nat
    var direction: Direction
    var score: int
    var dead: bool
    var invulnerableTicks: int
    var deathAnimationTicks: int

    ghost predicate Valid()
      reads this`deathAnimationTicks
    {
      0 <= deathAnimationTicks <= DEATH_GIF_DURATION
    }

    constructor (position: Position)
      ensures Valid()
      ensures this.position == position && positionObject == 0
      ensures direction == DOWN && score == 0 && !dead
      ensures invulnerableTicks == 0 && deathAnimationTicks == 0
    {
      this.position := position;
      positionObject := 0;
      direction := DOWN;
      score := 0;
      dead := false;
      invulnerableTicks := 0;
      deathAnimationTicks := 0;
    }

    /** Gives the player a new Position object. */
    method SetPosition(p: Position)
      modifies this`position, this`positionObject
      ensures position == p && positionObject == old(positionObject) + 1
    {
      position := p;
      positionObject := positionObject + 1;
    }

    method SetDirection(d: Direction)
      modifies this`direction
      ensures direction == d
    {
      direction := d;
    }

    /** Advances the death animation of a dead player, up to its length. */
    method Update()
      requires Valid()
      modifies this`deathAnimationTicks
      ensures Valid()
      ensures deathAnimationTicks == DeathAnimationStep(dead, old(deathAnimationTicks))
    {
      if dead && deathAnimationTicks < DEATH_GIF_DURATION {
        deathAnimationTicks := deathAnimationTicks + 1;
      }
    }

    method AddScore(points: int)
      modifies this`score
      ensures score == old(score) + points
    {
      score := score + points;
    }

    method SetScore(playerScore: int)
      modifies this`score
      ensures score == playerScore
    {
      score := playerScore;
    }

    /** The fields a hit may change: dead, the death animation counter, invulnerability. */
    function Status(): Vitals
      reads this
    {
      Vitals(dead, deathAnimationTicks, invulnerableTicks)
    }

    predicate IsDeathAnimationFinished()
      reads this
    {
      dead && deathAnimationTicks >= DEATH_GIF_DURATION
    }

    /**
     * Kills a living player who is not invulnerable and restarts the death animation;
     * a dead or invulnerable player is left as it was.
     */
    method OnHitByEnemy()
      requires Valid()
      modifies this`dead, this`deathAnimationTicks, this`invulnerableTicks
      ensures Valid()
      ensures Status() == Hit(old(Status()))
    {
      if dead {
        return;
      }
      if invulnerableTicks > 0 {
        return;
      }
      dead := true;
      deathAnimationTicks := 0;
      invulnerableTicks := INVULNERABLE_TIME;
    }
  }

  datatype Vitals = Vitals(dead: bool, deathAnimationTicks: int, invulnerableTicks: int)

  /**
   * The effect of a hit: a living player who is not invulnerable dies, restarts the death
   * animation and becomes invulnerable; a dead or invulnerable player is left as it was.
   */
  function Hit(v: Vitals): Vitals {
    if v.dead || v.invulnerableTicks > 0 then v else Vitals(true, 0, INVULNERABLE_TIME)
  }

  /**
   * A hit either changes nothing or kills, and a second hit in the same update changes
   * nothing more: the player is dead or invulnerable after the first.
   */
  lemma HitIdempotent(v: Vitals)
    ensures Hit(v) == v || (Hit(v).dead && Hit(v).invulnerableTicks > 0)
    ensures Hit(Hit(v)) == Hit(v)
  {
  }

  /** One update of the death-animation counter. */
  function DeathAnimationStep(dead: bool, ticks: int): int {
    if dead && ticks < DEATH_GIF_DURATION then ticks + 1 else ticks
  }

  /** The counter after n updates. */
  function DeathAnimationAfter(dead: bool, ticks: int, n: nat): int
    decreases n
  {
    if n == 0 then ticks else DeathAnimationAfter(dead, DeathAnimationStep(dead, ticks), n - 1)
  }

  /**
   * A player who has just died shows the animation for exactly DEATH_GIF_DURATION updates:
   * the counter climbs by one per update and then stays at its length.
   */
  lemma {:induction false} DeathAnimationLength(ticks: int, n: nat)
    requires 0 <= ticks <= DEATH_GIF_DURATION
    ensures DeathAnimationAfter(true, ticks, n) == if ticks + n < DEATH_GIF_DURATION then ticks + n else DEATH_GIF_DURATION
    decreases n
  {
    if n > 0 {
      DeathAnimationLength(DeathAnimationStep(true, ticks), n - 1);
    }
  }

  /** A living player's counter never moves. */
  lemma {:induction false} LivingPlayerNoAnimation(ticks: int, n: nat)
    ensures DeathAnimationAfter(false, ticks, n) == ticks
    decreases n
  {
    if n > 0 {
      LivingPlayerNoAnimation(ticks, n - 1);
    }
  }

  /** Whether p takes part in a nearest-player search that may be restricted to living players. */
  predicate Eligible(p: Player, aliveOnly: bool)
    reads p
  {
    !aliveOnly || !p.dead
  }

  /**
   * players[i] is the one a scan in list order with a strict "closer than" test keeps: eligible,
   * no farther from `from` than any eligible player, and strictly closer than every eligible
   * player before it.
   */
  ghost predicate IsFirstNearest(players: seq<Player>, from: Position, i: int, aliveOnly: bool)
    reads players
  {
    && 0 <= i < |players| && Eligible(players[i], aliveOnly)
    && (forall j :: 0 <= j < |players| && Eligible(players[j], aliveOnly) ==>
          Manhattan(from, players[i].position) <= Manhattan(from, players[j].position))
    && (forall j :: 0 <= j < i && Eligible(players[j], aliveOnly) ==>
          Manhattan(from, players[i].position) < Manhattan(from, players[j].position))
  }

  /**
   * Scans the players in list order and keeps the first one at the least distance from
   * `from`; with aliveOnly, dead players are skipped. null when no player is eligible.
   */
  method FindNearest(players: seq<Player>, from: Position, aliveOnly: bool) returns (nearest: Player?)
    ensures nearest == null <==> forall j :: 0 <= j < |players| ==> !Eligible(players[j], aliveOnly)
    ensures nearest != null ==> exists i :: IsFirstNearest(players, from, i, aliveOnly) && players[i] == nearest
  {
    nearest := null;
    var minDistance := 0;
    ghost var best := -1;
    for i := 0 to |players|
      invariant nearest == null <==> forall j :: 0 <= j < i ==> !Eligible(players[j], aliveOnly)
      invariant nearest == null ==> best == -1
      invariant nearest != null ==> 0 <= best < i && players[best] == nearest && Eligible(nearest, aliveOnly)
      invariant nearest != null ==> minDistance == Manhattan(from, nearest.position)
      invariant nearest != null ==> forall j :: 0 <= j < i && Eligible(players[j], aliveOnly) ==>
                  minDistance <= Manhattan(from, players[j].position)
      invariant nearest != null ==> forall j :: 0 <= j < best && Eligible(players[j], aliveOnly) ==>
                  minDistance < Manhattan(from, players[j].position)
    {
      var p := players[i];
      if aliveOnly && p.dead {
        continue;
      }
      var d := Manhattan(from, p.position);
      if nearest == null || d < minDistance {
        minDistance := d;
        nearest := p;
        best := i;
      }
    }
    if nearest != null {
      assert IsFirstNearest(players, from, best, aliveOnly);
    }
  }

  /** The scan's choice is determined: at most one index is the first nearest eligible player. */
  lemma FirstNearestUnique(players: seq<Player>, from: Position, i: int, j: int, aliveOnly: bool)
    requires IsFirstNearest(players, from, i, aliveOnly) && IsFirstNearest(players, from, j, aliveOnly)
    ensures i == j
  {
  }
}
