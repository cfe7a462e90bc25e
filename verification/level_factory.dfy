/**
 * The built-in levels (domain/game/LevelFactory.java): a level number picks a map among the
 * game's resources and the order its fruit kinds appear in. The resources' contents are given
 * as a map from path to lines; reading them is not part of this model.
 */
module LevelFactories {
  import opened Wrappers
  import opened Fruits
  import opened Levels
  import opened LevelLoaders

  /** Where a level's map lies and the fruit kinds of its phases, in order. */
  datatype LevelPlan = LevelPlan(path: string, phases: seq<FruitKind>)

  const LEVEL1 := LevelPlan("/maps/level1.txt", [Banana, Grape])
  const LEVEL2 := LevelPlan("/maps/level2.txt", [Banana, Pineapple])
  const LEVEL3 := LevelPlan("/maps/level3.txt", [Cactus, Cherry])

  /** The plan of a level number: 2 and 3 have their own, every other number is level 1. */
  function PlanOf(levelNumber: int): LevelPlan {
    match levelNumber
    case 2 => LEVEL2
    case 3 => LEVEL3
    case _ => LEVEL1
  }

  /**
   * Every number gives one of the three plans, 1, 0 and the negatives among them level 1;
   * each plan has two phases of different kinds, and plans of different maps differ in their
   * phases as well.
   */
  lemma PlanTable(n: int, m: int)
    ensures PlanOf(n) == (if n == 2 then LEVEL2 else if n == 3 then LEVEL3 else LEVEL1)
    ensures |PlanOf(n).phases| == 2 && PlanOf(n).phases[0] != PlanOf(n).phases[1]
    ensures PlanOf(n).path == PlanOf(m).path <==> PlanOf(n).phases == PlanOf(m).phases
  {
  }

  /** The resources do not hold a map at path, or its non-blank lines cannot be parsed. */
  predicate Unloadable(path: string, resources: map<string, seq<string>>) {
    || path !in resources
    || var lines := NonBlank(resources[path]);
       |lines| == 0 || exists i :: 0 <= i < |lines| && |lines[i]| < |lines[0]|
  }

  /**
   * Builds level levelNumber from the game's resources: its map, if the resources hold it, is
   * loaded with its plan's phases. There is no level when the map is missing or cannot be parsed.
   */
  method CreateLevel(levelNumber: int, resources: map<string, seq<string>>, cherryScore: int) returns (r: Option<Level>)
    ensures r.None? <==> Unloadable(PlanOf(levelNumber).path, resources)
    ensures r.Some? ==>
      && fresh(r.value)
      && LevelParsed(r.value, NonBlank(resources[PlanOf(levelNumber).path]), PlanOf(levelNumber).phases, cherryScore)
  {
    var plan := PlanOf(levelNumber);
    if plan.path !in resources {
      return None;
    }
    r := Load(resources[plan.path], plan.phases, cherryScore);
  }
}
