/**
 * Fruits (domain/entities/Fruit.java, MovingFruit.java, Cactus.java and the fixed-score kinds).
 * The movement behaviour type is a parameter, so that this module does not depend on the
 * behaviours, which in turn move fruits.
 */
module Fruits {
  import opened Positions
  import opened Wrappers

  datatype FruitKind = Banana | Grape | Pineapple | Cactus | Cherry

  const BANANA_SCORE: int := 50
  const GRAPE_SCORE: int := 50
  const PINEAPPLE_SCORE: int := 200
  const CACTUS_SCORE: int := 250
  /** Updates a cactus spends in one state, safe or dangerous. */
  const TICKS_PER_CYCLE: nat := 1800

  /**
   * A fruit. A cactus also uses tickCounter and hasSpikesDangerous; a moving fruit also uses
   * movementBehavior.
   */
  class Fruit<B> {
    const kind: FruitKind
    var position: Position
    const scoreValue: int
    var collected: bool
    var frozen: bool
    var tickCounter: nat
    var hasSpikesDangerous: bool
    const movementBehavior: Option<B>

    constructor (kind: FruitKind, position: Position, scoreValue: int, behavior: Option<B>)
      ensures this.kind == kind && this.position == position && this.scoreValue == scoreValue
      ensures !collected && !frozen && tickCounter == 0 && !hasSpikesDangerous
      ensures movementBehavior == behavior
    {
      this.kind := kind;
      this.position := position;
      this.scoreValue := scoreValue;
      collected := false;
      frozen := false;
      tickCounter := 0;
      hasSpikesDangerous := false;
      movementBehavior := behavior;
    }

    /** Points a player earns for the fruit: each kind's fixed score. */
    function GetPoints(): int { scoreValue }

    /** Marks the fruit collected; a cactus refuses while its spikes are out. */
    method Collect()
      modifies this`collected
      ensures collected == (old(collected) || kind != Cactus || !hasSpikesDangerous)
    {
      if kind == Cactus {
        if !hasSpikesDangerous && !collected {
          collected := true;
        }
      } else {
        collected := true;
      }
    }

    method Freeze()
      modifies this`frozen
      ensures frozen
    {
      frozen := true;
    }

    method Unfreeze()
      modifies this`frozen
      ensures !frozen
    {
      frozen := false;
    }

    /** A cactus whose spikes are out and that has not been collected. */
    predicate IsDangerous()
      reads this
    {
      hasSpikesDangerous && !collected
    }

    /**
     * One cactus update: a collected or frozen cactus stands still; otherwise its counter
     * advances and the spikes toggle when it reaches TICKS_PER_CYCLE.
     */
    method UpdateCactus()
      modifies this`tickCounter, this`hasSpikesDangerous
      ensures (tickCounter, hasSpikesDangerous) ==
        if old(collected) || old(frozen) then old((tickCounter, hasSpikesDangerous))
        else CactusStep(old(tickCounter), old(hasSpikesDangerous))
    {
      if collected || frozen {
        return;
      }
      tickCounter := tickCounter + 1;
      if tickCounter >= TICKS_PER_CYCLE {
        hasSpikesDangerous := !hasSpikesDangerous;
        tickCounter := 0;
      }
    }
  }

  /** The (counter, spikes) pair after one cactus update. */
  function CactusStep(ticks: nat, spikes: bool): (nat, bool) {
    if ticks + 1 >= TICKS_PER_CYCLE then (0, !spikes) else (ticks + 1, spikes)
  }

  /** The (counter, spikes) pair after n updates. */
  function CactusAfter(ticks: nat, spikes: bool, n: nat): (nat, bool)
    decreases n
  {
    if n == 0 then (ticks, spikes)
    else var next := CactusStep(ticks, spikes); CactusAfter(next.0, next.1, n - 1)
  }

  /**
   * Starting from a fresh cycle, the spikes keep their state for TICKS_PER_CYCLE - 1 updates
   * and flip on the TICKS_PER_CYCLE-th.
   */
  lemma {:induction false} CactusCycle(spikes: bool, ticks: nat, n: nat)
    requires ticks + n < TICKS_PER_CYCLE
    ensures CactusAfter(ticks, spikes, n) == (ticks + n, spikes)
    decreases n
  {
    if n > 0 {
      CactusCycle(spikes, ticks + 1, n - 1);
    }
  }

  lemma CactusToggles(spikes: bool)
    ensures CactusAfter(0, spikes, TICKS_PER_CYCLE - 1) == (TICKS_PER_CYCLE - 1, spikes)
    ensures CactusAfter(0, spikes, TICKS_PER_CYCLE) == (0, !spikes)
  {
    CactusCycle(spikes, 0, TICKS_PER_CYCLE - 1);
    CactusAfterSplit(0, spikes, TICKS_PER_CYCLE - 1);
  }

  /** One more update after n updates. */
  lemma {:induction false} CactusAfterSplit(ticks: nat, spikes: bool, n: nat)
    ensures var s := CactusAfter(ticks, spikes, n);
      CactusAfter(ticks, spikes, n + 1) == CactusStep(s.0, s.1)
    decreases n
  {
    if n > 0 {
      var next := CactusStep(ticks, spikes);
      CactusAfterSplit(next.0, next.1, n - 1);
    }
  }
}
